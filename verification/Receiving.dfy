/** Responses that are refused: the callbacks after several reads deliver all the others. */
module Receiving {
  import opened Wire
  import opened Frame
  import opened HeadDetection
  import opened Reader
  import opened ClientLoop
  import opened EndToEnd

  /** Every response is taken in order, one that goes wrong without effect. */
  function DeliverPast(slots: seq<Option<Pending>>, ms: seq<Message>): (seq<(Pending, Message)>, seq<Option<Pending>>)
    decreases |ms|
  {
    if ms == [] then ([], slots)
    else
      var i := ms[0].seqNo;
      if Expected(slots, i) then
        var (log, slots') := DeliverPast(slots[i := None], ms[1..]);
        ([(slots[i].value, ms[0])] + log, slots')
      else DeliverPast(slots, ms[1..])
  }

  lemma {:induction false} DeliverPastAppend(slots: seq<Option<Pending>>, ms: seq<Message>, more: seq<Message>)
    ensures var (log, slots') := DeliverPast(slots, ms); var (log', slots'') := DeliverPast(slots', more);
      DeliverPast(slots, ms + more) == (log + log', slots'')
    decreases |ms|
  {
    if ms == [] {
      assert ms + more == more;
      assert DeliverPast(slots, more).0 == [] + DeliverPast(slots, more).0;
    } else {
      assert (ms + more)[0] == ms[0] && (ms + more)[1..] == ms[1..] + more;
      var i := ms[0].seqNo;
      var next := if Expected(slots, i) then slots[i := None] else slots;
      DeliverPastAppend(next, ms[1..], more);
      if Expected(slots, i) {
        var (log, slots') := DeliverPast(next, ms[1..]);
        var first, more' := [(slots[i].value, ms[0])], DeliverPast(slots', more).0;
        assert first + (log + more') == first + log + more';
      }
    }
  }

  /** Whether the bytes up to those to come end right behind the first line of a message. */
  predicate LineEnds(ms: seq<Message>, coming: nat) {
    coming <= |Stream(ms)| && FirstLineEndsAt(ms, |Stream(ms)| - coming)
  }

  lemma {:induction false} LineEndsLater(ms: seq<Message>, k: nat, coming: nat)
    requires k <= |ms| && coming <= |Stream(ms[k..])|
    ensures LineEnds(ms, coming) == LineEnds(ms[k..], coming)
    decreases k
  {
    hide Encode, FirstText;
    if k == 0 {
      assert ms[0..] == ms;
    } else {
      StreamSplit(ms);
      LineEndsLater(ms[1..], k - 1, coming);
      assert ms[1..][k - 1..] == ms[k..];
      StreamTail(ms[1..], k - 1);
    }
  }

  lemma {:induction false} StreamTail(ms: seq<Message>, k: nat)
    requires k <= |ms|
    ensures Stream(ms) == Stream(ms[..k]) + Stream(ms[k..])
    decreases k
  {
    hide Encode, Stream;
    if k == 0 {
      assert ms[0..] == ms && ms[..0] == [];
      StreamOfNone();
    } else {
      StreamSplit(ms);
      StreamTail(ms[1..], k - 1);
      StreamSplit(ms[..k]);
      FirstTaken(ms, k - 1);
    }
  }

  lemma FirstTaken<T>(s: seq<T>, k: nat)
    requires k < |s|
    ensures s[1..][k..] == s[k + 1..] && s[1..][..k] == s[..k + 1][1..] && [s[0]] + s[1..][..k] == s[..k + 1]
  {}

  /** A turn fails only on a stray line feed. */
  lemma TurnGoesOn(ms: seq<Message>, st: State, coming: Bytes, beyond: Byte)
    requires AllGood(Responses, ms) && Channel(ms, st, coming) && !(LineEnds(ms, |coming|) && beyond == LF)
    ensures !TakeTurn(Responses, st, beyond).Error? && !TakeTurn(Responses, st, beyond).Lost?
  {
    hide TakeTurn, Encode, FirstText, GoodMessage, HeadText;
    ChannelTurn(Responses, ms, st, coming, beyond);
    if ms == [] {
      TurnOnNothing(Responses, beyond);
    } else if st.held.Some? {
      HeldChannel(Responses, ms, st, coming, beyond);
    } else {
      hide Stray;
      FreshChannel(Responses, ms, st.window, coming, beyond);
    }
  }

  /** One callback: the next responses are taken, up to the last that is complete or to one that goes wrong, and what is left lies with
      the reader. */
  lemma {:induction false} ReceiveChannel(ms: seq<Message>, st: State, slots: seq<Option<Pending>>, coming: Bytes, beyond: Byte)
    requires AllGood(Responses, ms) && Channel(ms, st, coming) && !(LineEnds(ms, |coming|) && beyond == LF)
    ensures var r := Receive(st, slots, beyond); var k := |r.out|;
      && k <= |ms| && r.out == ms[..k] && Channel(ms[k..], r.state, coming)
      && (r.end == Rests(Waiting) || r.end == Stops(Mismatch) || r.end == Stops(Crash)) && (r.end.Rests? ==> Resting(ms[k..], coming))
      && (r.end != Stops(Crash) ==> DeliverPast(slots, r.out) == (r.log, r.slots))
    decreases |ms|
  {
    hide TakeTurn, Channel, Resting, GoodMessage, LineEnds, Stray, Receive, DeliverPast;
    TurnGoesOn(ms, st, coming, beyond);
    ChannelTurn(Responses, ms, st, coming, beyond);
    ReceiveTurn(st, slots, beyond);
    var t := TakeTurn(Responses, st, beyond);
    if t.Emit? {
      var st' := State(None, st.window[t.size..]);
      LineEndsBehind(ms, st', coming);
      if Expected(slots, ms[0].seqNo) {
        var slots' := slots[ms[0].seqNo := None];
        ReceiveChannel(ms[1..], st', slots', coming, beyond);
        var out := Receive(st', slots', beyond).out;
        FirstTaken(ms, |out|);
        DeliverPastFirst(slots, ms[0], out);
      } else {
        FirstTaken(ms, 0);
        DeliverPastFirst(slots, ms[0], []);
        DeliverPastNothing(slots);
        assert [ms[0]] == ms[..1];
      }
    } else {
      assert ms[0..] == ms;
      DeliverPastNothing(slots);
    }
  }

  lemma ReceiveTurn(st: State, slots: seq<Option<Pending>>, beyond: Byte)
    ensures var t, r := TakeTurn(Responses, st, beyond), Receive(st, slots, beyond);
      && (t.Idle? ==> r == Reception([], [], slots, Rests(Waiting), st))
      && (t.Hold? ==> r == Reception([], [], slots, Rests(Waiting), State(Some(t.head), st.window[t.size..])))
      && (t.Emit? ==>
            var m, st' := t.message, State(None, st.window[t.size..]);
            r == if Expected(slots, m.seqNo) then
                   Ahead([m], [(slots[m.seqNo].value, m)], Receive(st', slots[m.seqNo := None], beyond))
                 else Reception([m], [], slots, Stops(Arrive(slots, m.seqNo)), st'))
  {
    hide TakeTurn;
  }

  lemma DeliverPastNothing(slots: seq<Option<Pending>>)
    ensures DeliverPast(slots, []) == ([], slots)
  {}

  lemma DeliverPastFirst(slots: seq<Option<Pending>>, m: Message, rest: seq<Message>)
    ensures DeliverPast(slots, [m] + rest) ==
      if Expected(slots, m.seqNo) then
        var d := DeliverPast(slots[m.seqNo := None], rest); ([(slots[m.seqNo].value, m)] + d.0, d.1)
      else DeliverPast(slots, rest)
  {
    assert ([m] + rest)[1..] == rest;
  }

  lemma LineEndsBehind(ms: seq<Message>, st: State, coming: Bytes)
    requires ms != [] && Channel(ms[1..], st, coming)
    ensures LineEnds(ms, |coming|) == LineEnds(ms[1..], |coming|)
  {
    LineEndsLater(ms, 1, |coming|);
  }

  lemma {:induction false} HitsStrayMore(ms: seq<Message>, n: nat, rs: seq<Read>, read: Read)
    ensures HitsStray(ms, n, rs + [read]) <==>
      HitsStray(ms, n, rs) || (FirstLineEndsAt(ms, n + |Received(rs)| + |read.data|) && read.beyond == LF)
    decreases |rs|
  {
    if rs == [] {
      assert rs + [read] == [read];
    } else {
      assert (rs + [read])[0] == rs[0] && (rs + [read])[1..] == rs[1..] + [read];
      HitsStrayMore(ms, n + |rs[0].data|, rs[1..], read);
    }
  }

  /** What is left with the reader when the first `k` responses have been taken, after `n` bytes. */
  ghost predicate Left(ms: seq<Message>, n: nat, k: nat, st: State) {
    k <= |ms| && n <= |Stream(ms)| && Channel(ms[k..], st, Stream(ms)[n..])
  }

  /** All complete responses have been taken, or the last callback has ended at one that was refused, and those that were not have had
      their effect in order. */
  ghost predicate TakenSoFar(ms: seq<Message>, slots: seq<Option<Pending>>, n: nat, r: Reception) {
    && Left(ms, n, |r.out|, r.state)
    && (r.end == Rests(Waiting) || r.end == Stops(Mismatch)) && DeliverPast(slots, r.out) == (r.log, r.slots)
    && (r.end == Rests(Waiting) ==> |r.out| == ProgressAt(ms, n).done)
  }

  /** However the stream is cut into reads: the responses are taken in order, and until the client crashes, a refused one delays those behind it
      to the next callback, and none is lost. */
  lemma {:induction false} NothingLost(ms: seq<Message>, slots: seq<Option<Pending>>, rs: seq<Read>)
    requires AllGood(Responses, ms) && Received(rs) <= Stream(ms) && !HitsStray(ms, 0, rs)
    ensures var r := ReceiveAll(State(None, []), slots, rs);
      r.out <= ms && (r.end != Stops(Crash) ==> TakenSoFar(ms, slots, |Received(rs)|, r))
    decreases |rs|
  {
    hide Stream, Receive, ReceiveAll, GoodMessage, HitsStray, TakenSoFar, Received;
    if rs == [] {
      NothingTaken(ms, slots);
    } else {
      var front, read := rs[..|rs| - 1], rs[|rs| - 1];
      assert front + [read] == rs;
      ReceivedMore(front, read);
      HitsStrayMore(ms, 0, front, read);
      assert Received(front) <= Stream(ms);
      NothingLost(ms, slots, front);
      ReceiveAllLast(State(None, []), slots, front, read);
      var r := ReceiveAll(State(None, []), slots, front);
      if r.end != Stops(Crash) {
        TakenMore(ms, slots, |Received(front)|, r, read);
      }
    }
  }

  lemma NothingTaken(ms: seq<Message>, slots: seq<Option<Pending>>)
    ensures var r := ReceiveAll(State(None, []), slots, []); r.out == [] && TakenSoFar(ms, slots, |Received([])|, r)
  {
    hide Encode, HeadText;
    ProgressAtZero(ms);
    assert ms[0..] == ms && Stream(ms)[0..] == Stream(ms) && Stream(ms)[..0] == [];
  }

  lemma TakenMore(ms: seq<Message>, slots: seq<Option<Pending>>, n: nat, r: Reception, read: Read)
    requires AllGood(Responses, ms) && r.out <= ms && TakenSoFar(ms, slots, n, r) && n + |read.data| <= |Stream(ms)|
    requires read.data == Stream(ms)[n..n + |read.data|]
    requires !(FirstLineEndsAt(ms, n + |read.data|) && read.beyond == LF)
    ensures !Halts(r.end)
    ensures var r' := Ahead(r.out, r.log, Receive(State(r.state.held, r.state.window + read.data), r.slots, read.beyond));
      r'.out <= ms && (r'.end != Stops(Crash) ==> TakenSoFar(ms, slots, n + |read.data|, r'))
  {
    hide Stream, Receive, GoodMessage, Channel, FirstLineEndsAt, DeliverPast, ProgressAt, Resting;
    var k, st, coming := |r.out|, State(r.state.held, r.state.window + read.data), Stream(ms)[n + |read.data|..];
    assert Stream(ms)[n..] == read.data + coming;
    ChannelReads(ms[k..], r.state, read.data, coming);
    ComingFits(ms[k..], st, coming);
    LineEndsLater(ms, k, |coming|);
    ReceiveChannel(ms[k..], st, r.slots, coming, read.beyond);
    var r' := Receive(st, r.slots, read.beyond);
    var k' := k + |r'.out|;
    assert ms[k..][|r'.out|..] == ms[k'..] && r.out + r'.out == ms[..k'];
    DeliverPastAppend(slots, r.out, r'.out);
    if r'.end.Rests? {
      AllTaken(ms, k', r'.state, coming);
    }
  }

  lemma ComingFits(ms: seq<Message>, st: State, coming: Bytes)
    requires Channel(ms, st, coming)
    ensures |coming| <= |Stream(ms)|
  {}

  /** When no whole message lies with the reader, all that are complete have been taken. */
  lemma AllTaken(ms: seq<Message>, k: nat, st: State, coming: Bytes)
    requires k <= |ms| && |coming| <= |Stream(ms)| && Channel(ms[k..], st, coming) && Resting(ms[k..], coming)
    ensures ProgressAt(ms, |Stream(ms)| - |coming|).done == k
  {
    hide Encode, Stream, ProgressAt, Channel;
    ComingFits(ms[k..], st, coming);
    StreamTail(ms, k);
    if k < |ms| {
      assert ms[..k] + [ms[k]] == ms[..k + 1];
      StreamAppend(ms[..k], ms[k]);
    }
    DoneIs(ms, k, |Stream(ms)| - |coming|);
  }

  lemma DoneIs(ms: seq<Message>, k: nat, n: nat)
    requires k <= |ms| && |Stream(ms[..k])| <= n <= |Stream(ms)| && (k < |ms| ==> n < |Stream(ms[..k + 1])|)
    ensures ProgressAt(ms, n).done == k
  {
    hide Stream, ProgressAt;
    ProgressMeaning(ms, n);
    var done := ProgressAt(ms, n).done;
    if done < k {
      StreamGrows(ms, done + 1, k);
    } else if k < done {
      StreamGrows(ms, k + 1, done);
    }
  }

  lemma StreamGrows(ms: seq<Message>, i: nat, j: nat)
    requires i <= j <= |ms|
    ensures |Stream(ms[..i])| <= |Stream(ms[..j])|
  {
    hide Stream;
    StreamTail(ms[..j], i);
    assert ms[..j][..i] == ms[..i];
  }
}
