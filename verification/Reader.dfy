/** The incremental reader: what the read callbacks dispatch and what they keep for the next read
    (cb_req_read and cb_rsp_read in src/rpc_conn.c), on the byte sequence in the window. */
module Reader {
  import opened Wire
  import opened Frame
  import opened HeadDetection
  import opened Tokens

  /** `held` is the head saved in unprocess_data, `window` the bytes at rcurr. */
  datatype State = State(held: Option<Head>, window: Bytes)

  datatype Turn =
    | Idle
    | Hold(head: Head, size: nat)
    | Emit(message: Message, size: nat)
    | Error(size: nat)
    | Lost

  /** One turn of the callback's loop. */
  function TakeTurn(kind: Kind, st: State, beyond: Byte): (t: Turn)
    ensures t.Emit? || t.Hold? || t.Error? ==> t.size <= |st.window|
    ensures (t.Emit? && st.held.None?) || t.Hold? ==> 0 < t.size
  {
    var w := st.window;
    if w == [] then Idle
    else
      match st.held
      case Some(h) =>
        if |w| >= h.length then Emit(Message(h.first, h.seqNo, w[..h.length]), h.length) else Idle
      case None =>
        if !ReceivedHead(w, beyond) then Idle
        else
          match ParseHead(kind, w)
          case Undefined => Lost
          case Failed(n) => Error(n)
          case Parsed(h, n) =>
            if |w| - n >= h.length then Emit(Message(h.first, h.seqNo, w[n..n + h.length]), n + h.length)
            else Hold(h, n)
  }

  datatype Status = Waiting | ParseError | Unspecified

  datatype Run = Run(out: seq<Message>, state: State, status: Status)

  /** The whole callback: the messages dispatched, in order, and the state at return. */
  function Drain(kind: Kind, st: State, beyond: Byte): Run
    decreases |st.window|, if st.held.Some? then 1 else 0
  {
    match TakeTurn(kind, st, beyond)
    case Idle => Run([], st, Waiting)
    case Hold(h, n) => Run([], State(Some(h), st.window[n..]), Waiting)
    case Error(n) => Run([], State(None, AfterError(st.window, n)), ParseError)
    case Lost => Run([], st, Unspecified)
    case Emit(m, n) => Resumed(m, Drain(kind, State(None, st.window[n..]), beyond))
  }

  // ----- the loop, turn by turn -----

  /** A turn as the state sees it. */
  ghost predicate TurnTaken(t: Turn, st: State, st': State, status: Status) {
    match t
    case Idle => status == Waiting && st' == st
    case Hold(h, n) => status == Waiting && n <= |st.window| && st' == State(Some(h), st.window[n..])
    case Error(n) => status == ParseError && n <= |st.window| && st' == State(None, AfterError(st.window, n))
    case Lost => status == Unspecified
    case Emit(m, n) => status == Waiting && n <= |st.window| && st' == State(None, st.window[n..])
  }

  /** What has been dispatched and what is still to come add up to the whole. */
  ghost predicate OnCourse(whole: Run, out: seq<Message>, rest: Run) {
    whole == Run(out + rest.out, rest.state, rest.status)
  }

  lemma CourseBegins(whole: Run)
    ensures OnCourse(whole, [], whole)
  {
    assert [] + whole.out == whole.out;
  }

  lemma DrainTurn(kind: Kind, st: State, beyond: Byte)
    ensures var t, r := TakeTurn(kind, st, beyond), Drain(kind, st, beyond);
      && (t.Idle? ==> r == Run([], st, Waiting))
      && (t.Hold? ==> r == Run([], State(Some(t.head), st.window[t.size..]), Waiting))
      && (t.Error? ==> r == Run([], State(None, AfterError(st.window, t.size)), ParseError))
      && (t.Lost? ==> r == Run([], st, Unspecified))
      && (t.Emit? ==> r == Resumed(t.message, Drain(kind, State(None, st.window[t.size..]), beyond)))
  {
    hide TakeTurn;
  }

  function Resumed(m: Message, r: Run): Run { r.(out := [m] + r.out) }

  /** Every turn keeps the course: a dispatched message moves over, any other turn ends the loop with the result. */
  lemma CourseKept(kind: Kind, whole: Run, out: seq<Message>, st: State, beyond: Byte, st': State, status: Status)
    requires OnCourse(whole, out, Drain(kind, st, beyond)) && TurnTaken(TakeTurn(kind, st, beyond), st, st', status)
    ensures var t := TakeTurn(kind, st, beyond);
      if t.Emit? then
        && OnCourse(whole, out + [t.message], Drain(kind, st', beyond)) && out + [t.message] <= whole.out && status == Waiting
        && (|st'.window| < |st.window| || (|st'.window| == |st.window| && st.held.Some? && st'.held.None?))
      else whole.out == out && whole.status == status && (status != Unspecified ==> whole.state == st')
  {
    hide TakeTurn, Drain;
    DrainTurn(kind, st, beyond);
    match TakeTurn(kind, st, beyond)
    case Emit(m, n) =>
      var r := Drain(kind, st', beyond);
      assert out + ([m] + r.out) == out + [m] + r.out;
    case _ =>
      assert out + [] == out;
  }

  lemma CourseEnds(kind: Kind, whole: Run, out: seq<Message>, st: State, beyond: Byte)
    requires OnCourse(whole, out, Drain(kind, st, beyond)) && st.window == []
    ensures whole == Run(out, st, Waiting)
  {
    assert out + [] == out;
  }

  // ----- what should have happened after `n` bytes of a stream of messages -----

  function Stream(ms: seq<Message>): Bytes {
    if ms == [] then [] else Encode(ms[0]) + Stream(ms[1..])
  }

  datatype Progress = Progress(done: nat, state: State)

  function ProgressAt(ms: seq<Message>, n: nat): (p: Progress)
    requires n <= |Stream(ms)|
    ensures p.done <= |ms|
  {
    if ms == [] then Progress(0, State(None, []))
    else
      var m := ms[0];
      var head := |HeadText(m.GetHead())|;
      if n >= |Encode(m)| then
        var p := ProgressAt(ms[1..], n - |Encode(m)|);
        Progress(p.done + 1, p.state)
      else if n >= head then Progress(0, State(Some(m.GetHead()), m.body[..n - head]))
      else Progress(0, State(None, HeadText(m.GetHead())[..n]))
  }

  lemma StreamTake(ms: seq<Message>, k: nat)
    requires 0 < k <= |ms|
    ensures Stream(ms[..k]) == Encode(ms[0]) + Stream(ms[1..][..k - 1])
  {
    assert ms[..k][1..] == ms[1..][..k - 1];
  }

  /** `done` counts exactly the messages that lie completely within the first `n` bytes. */
  lemma {:induction false} ProgressMeaning(ms: seq<Message>, n: nat)
    requires n <= |Stream(ms)|
    ensures var k := ProgressAt(ms, n).done;
      |Stream(ms[..k])| <= n && (k < |ms| ==> n < |Stream(ms[..k + 1])|)
  {
    hide Encode, HeadText;
    if ms != [] {
      var k := ProgressAt(ms, n).done;
      if n < |Encode(ms[0])| {
        assert ms[..0] == [];
        StreamTake(ms, 1);
      } else {
        ProgressMeaning(ms[1..], n - |Encode(ms[0])|);
        StreamTake(ms, k);
        if k < |ms| {
          StreamTake(ms, k + 1);
        }
      }
    }
  }

  /** The first `n` bytes end exactly behind the first line of some message. */
  predicate FirstLineEndsAt(ms: seq<Message>, n: nat) {
    ms != [] && if n >= |Encode(ms[0])| then FirstLineEndsAt(ms[1..], n - |Encode(ms[0])|)
                else n == |FirstText(ms[0].first)| + 1
  }

  ghost predicate AllGood(kind: Kind, ms: seq<Message>) {
    forall m :: m in ms ==> GoodMessage(kind, m)
  }

  // ----- head detection on the first message -----

  /** A window that starts at a message boundary: its head is seen iff it is complete, or a stray
      line feed follows the first line. */
  lemma HeadSeen(kind: Kind, h: Head, w: Bytes, beyond: Byte)
    requires GoodHead(kind, h)
    requires w <= HeadText(h) || HeadText(h) <= w
    ensures ReceivedHead(w, beyond) <==>
      |w| >= |HeadText(h)| || (|w| == |FirstText(h.first)| + 1 && beyond == LF)
  {
    hide ReceivedHead, HeadText, FirstText, Lines;
    var l1, l2, l3 := FirstText(h.first), SEQ_KEY + Dec(h.seqNo), LEN_KEY + Dec(h.length);
    FirstPlain(kind, h.first);
    FieldPlain(SEQ_KEY, h.seqNo);
    FieldPlain(LEN_KEY, h.length);
    assert HeadText(h) == Lines(l1, l2, l3) by { HeadTextLines(h); }
    LineFeedsOfLines(l1, l2, l3, w);
    var n1 := |l1|;
    var n2 := n1 + 1 + |l2|;
    var n3 := n2 + 1 + |l3|;
    DetectedExactly(w, beyond, n1, n2, n3);
    StrayMeans(w, beyond, n1);
  }

  lemma HeadTextLines(h: Head)
    ensures HeadText(h) == Lines(FirstText(h.first), SEQ_KEY + Dec(h.seqNo), LEN_KEY + Dec(h.length))
  {}

  lemma LineFeedsOfLines(l1: Bytes, l2: Bytes, l3: Bytes, w: Bytes)
    requires Plain(l1) && Plain(l2) && Plain(l3)
    requires w <= Lines(l1, l2, l3) || Lines(l1, l2, l3) <= w
    ensures var n1 := |l1|; var n2 := n1 + 1 + |l2|; var n3 := n2 + 1 + |l3|;
      LineFeedsAt(w, n1, n2, n3, n3 + 1) && |Lines(l1, l2, l3)| == n3 + 2
  {
    var h := Lines(l1, l2, l3);
    var n1 := |l1|;
    var n2 := n1 + 1 + |l2|;
    var n3 := n2 + 1 + |l3|;
    assert forall i :: 0 <= i < n1 ==> h[i] == l1[i];
    assert forall i :: n1 < i < n2 ==> h[i] == l2[i - n1 - 1];
    assert forall i :: n2 < i < n3 ==> h[i] == l3[i - n2 - 1];
    assert h[n1] == h[n2] == h[n3] == h[n3 + 1] == LF;
    assert forall i :: 0 <= i < |w| && i <= n3 + 1 ==> w[i] == h[i];
  }

  // ----- one turn at a message boundary -----

  lemma FullTurn(kind: Kind, m: Message, rest: Bytes, beyond: Byte)
    requires GoodMessage(kind, m)
    ensures TakeTurn(kind, State(None, Encode(m) + rest), beyond) == Emit(m, |Encode(m)|)
    ensures (Encode(m) + rest)[|Encode(m)|..] == rest
  {
    var h := m.GetHead();
    var w := Encode(m) + rest;
    EncodeParts(m);
    hide Encode, ReceivedHead, HeadText, ParseHead, GoodHead, FirstText;
    assert w == HeadText(h) + (m.body + rest);
    HeadSeen(kind, h, w, beyond);
    HeadRoundTrip(kind, h, m.body + rest);
    assert w[|HeadText(h)|..|HeadText(h)| + |m.body|] == m.body;
  }

  lemma HeadBytes(h: Head)
    ensures |FirstText(h.first)| + 1 < |HeadText(h)|
  {}

  lemma HoldTurn(kind: Kind, m: Message, k: nat, beyond: Byte)
    requires GoodMessage(kind, m) && k < |m.body|
    ensures var h := m.GetHead(); var w := HeadText(h) + m.body[..k];
      TakeTurn(kind, State(None, w), beyond) == Hold(h, |HeadText(h)|) && w[|HeadText(h)|..] == m.body[..k]
  {
    var h := m.GetHead();
    HeadBytes(h);
    hide ReceivedHead, HeadText, ParseHead, GoodHead;
    HeadSeen(kind, h, HeadText(h) + m.body[..k], beyond);
    HeadRoundTrip(kind, h, m.body[..k]);
  }

  lemma PartialTurn(kind: Kind, h: Head, k: nat, beyond: Byte)
    requires GoodHead(kind, h) && k < |HeadText(h)|
    ensures TakeTurn(kind, State(None, HeadText(h)[..k]), beyond) ==
      if k == |FirstText(h.first)| + 1 && beyond == LF then Error(k) else Idle
  {
    hide ReceivedHead, ParseHead, HeadText;
    HeadSeen(kind, h, HeadText(h)[..k], beyond);
    if k == |FirstText(h.first)| + 1 {
      FirstLineAlone(kind, h);
    }
  }

  /** A lone first line is consumed and then refused for want of a second one. */
  lemma FirstLineAlone(kind: Kind, h: Head)
    requires GoodHead(kind, h)
    ensures var n := |FirstText(h.first)| + 1;
      n < |HeadText(h)| && ParseHead(kind, HeadText(h)[..n]) == Failed(n)
  {
    hide ReadFirst, FirstText, TakeLine, HeadText, Plain, ReadFields, GoodHead;
    assert GoodFirst(kind, h.first) by { GoodHeadParts(kind, h); }
    FirstPlain(kind, h.first);
    FirstRoundTrip(kind, h.first);
    HeadStart(h);
    TakePlain(FirstText(h.first), []);
    NothingToRead();
  }

  lemma GoodHeadParts(kind: Kind, h: Head)
    requires GoodHead(kind, h)
    ensures GoodFirst(kind, h.first)
  {}

  lemma HeadStart(h: Head)
    ensures var n := |FirstText(h.first)| + 1; n < |HeadText(h)| && HeadText(h)[..n] == FirstText(h.first) + [LF] + []
  {
    hide FirstText, Dec;
  }

  lemma NothingToRead()
    ensures ReadFields([]) == NoFields(0)
  {}

  // ----- chunk independence -----

  /** From a message boundary, whatever prefix of the stream is in the window. */
  lemma {:induction false} DrainBoundary(kind: Kind, ms: seq<Message>, n: nat, beyond: Byte)
    requires AllGood(kind, ms) && n <= |Stream(ms)|
    ensures var p := ProgressAt(ms, n);
      Drain(kind, State(None, Stream(ms)[..n]), beyond) ==
      if FirstLineEndsAt(ms, n) && beyond == LF then Run(ms[..p.done], State(None, []), ParseError)
      else Run(ms[..p.done], p.state, Waiting)
  {
    hide Encode, HeadText, FirstText, TakeTurn, GoodMessage, Drain;
    var p := ProgressAt(ms, n);
    if ms == [] {
      IdleOnNothing(kind, beyond);
    } else {
      DrainTurn(kind, State(None, Stream(ms)[..n]), beyond);
      var m := ms[0];
      var e := |Encode(m)|;
      EncodeParts(m);
      if n >= e {
        assert Stream(ms)[..n] == Encode(m) + Stream(ms[1..])[..n - e];
        FullTurn(kind, m, Stream(ms[1..])[..n - e], beyond);
        DrainBoundary(kind, ms[1..], n - e, beyond);
        assert ms[..p.done] == [m] + ms[1..][..p.done - 1];
      } else if n >= |HeadText(m.GetHead())| {
        assert Stream(ms)[..n] == HeadText(m.GetHead()) + m.body[..n - |HeadText(m.GetHead())|];
        HoldTurn(kind, m, n - |HeadText(m.GetHead())|, beyond);
      } else {
        assert Stream(ms)[..n] == HeadText(m.GetHead())[..n];
        assert GoodHead(kind, m.GetHead()) by { GoodParts(kind, m); }
        PartialTurn(kind, m.GetHead(), n, beyond);
      }
    }
  }

  lemma GoodParts(kind: Kind, m: Message)
    requires GoodMessage(kind, m)
    ensures GoodHead(kind, m.GetHead())
  {}

  lemma IdleOnNothing(kind: Kind, beyond: Byte)
    ensures Drain(kind, State(None, []), beyond) == Run([], State(None, []), Waiting)
  {}

  lemma EncodeParts(m: Message)
    ensures Encode(m) == HeadText(m.GetHead()) + m.body && |FirstText(m.first)| + 1 < |HeadText(m.GetHead())|
  {
    HeadBytes(m.GetHead());
  }

  /** The state the reader is in after `n` bytes is all that matters for what it does with later ones. */
  lemma {:induction false} DrainContinues(kind: Kind, ms: seq<Message>, n0: nat, n1: nat, beyond: Byte)
    requires AllGood(kind, ms) && n0 <= n1 <= |Stream(ms)|
    ensures var p0, p1 := ProgressAt(ms, n0), ProgressAt(ms, n1);
      p0.done <= p1.done
      && Drain(kind, State(p0.state.held, p0.state.window + Stream(ms)[n0..n1]), beyond) ==
         if FirstLineEndsAt(ms, n1) && beyond == LF then Run(ms[p0.done..p1.done], State(None, []), ParseError)
         else Run(ms[p0.done..p1.done], p1.state, Waiting)
  {
    hide Encode, HeadText, FirstText, TakeTurn, GoodMessage, Drain, Stream, ProgressAt, FirstLineEndsAt;
    if ms == [] {
      IdleOnNothing(kind, beyond);
      NoProgress(n0, n1);
    } else {
      var h, e := |HeadText(ms[0].GetHead())|, |Encode(ms[0])|;
      EncodeParts(ms[0]);
      if n0 >= e {
        StreamSplit(ms);
        BehindOneMessage(ms, n0);
        BehindOneMessage(ms, n1);
        SliceBehind(Encode(ms[0]), Stream(ms[1..]), n0, n1);
        DrainContinues(kind, ms[1..], n0 - e, n1 - e, beyond);
        var q0, q1 := ProgressAt(ms[1..], n0 - e), ProgressAt(ms[1..], n1 - e);
        assert ms == [ms[0]] + ms[1..];
        SliceBehind([ms[0]], ms[1..], q0.done + 1, q1.done + 1);
      } else if n0 < h {
        WithinHead(ms, n0);
        assert Stream(ms)[..n0] + Stream(ms)[n0..n1] == Stream(ms)[..n1];
        DrainBoundary(kind, ms, n1, beyond);
      } else {
        BodyContinues(kind, ms, n0, n1, beyond);
      }
    }
  }

  lemma NoProgress(n0: nat, n1: nat)
    requires n0 <= n1 <= |Stream([])|
    ensures n1 == 0 && Stream([]) == [] && ProgressAt([], n0) == Progress(0, State(None, [])) && !FirstLineEndsAt([], n1)
  {}

  lemma BehindOneMessage(ms: seq<Message>, n: nat)
    requires ms != [] && |Encode(ms[0])| <= n <= |Stream(ms)|
    ensures var e, later := |Encode(ms[0])|, ms[1..];
      n - e <= |Stream(later)| && FirstLineEndsAt(ms, n) == FirstLineEndsAt(later, n - e)
      && BehindOne(ProgressAt(later, n - e), ProgressAt(ms, n))
  {
    hide Encode;
  }

  lemma SliceBehind<T>(a: seq<T>, b: seq<T>, i: nat, j: nat)
    requires |a| <= i <= j <= |a + b|
    ensures (a + b)[i..j] == b[i - |a|..j - |a|]
  {}

  predicate BehindOne(later: Progress, whole: Progress) {
    whole == Progress(later.done + 1, later.state)
  }

  lemma WithinHead(ms: seq<Message>, n: nat)
    requires ms != [] && n <= |Stream(ms)| && n < |HeadText(ms[0].GetHead())|
    ensures ProgressAt(ms, n) == Progress(0, State(None, Stream(ms)[..n]))
  {
    hide HeadText, Encode;
    EncodeParts(ms[0]);
  }

  lemma StreamSplit(ms: seq<Message>)
    requires ms != []
    ensures Stream(ms) == Encode(ms[0]) + Stream(ms[1..])
  {}

  lemma BodySlices(s: Bytes, head: Bytes, body: Bytes, later: Bytes, n: nat)
    requires s == head + body + later && |head| <= n <= |s|
    ensures var w := s[|head|..n];
      if n < |head| + |body| then w <= body && |w| < |body| else body <= w && w[|body|..] == later[..n - |head| - |body|]
  {
    assert s[|head|..|s|] == body + later;
    SliceSlice(s, |head|, |s| - |head|, n - |head|);
  }

  lemma HeldWindow(ms: seq<Message>, n: nat)
    requires n <= |Stream(ms)| && ms != [] && |HeadText(ms[0].GetHead())| <= n
    ensures var m, p, h := ms[0], ProgressAt(ms, n), |HeadText(ms[0].GetHead())|;
      var w := Stream(ms)[h..n];
      if n < |Encode(m)| then p == Progress(0, State(Some(m.GetHead()), w)) && w <= m.body && |w| < |m.body|
      else m.body <= w && w[|m.body|..] == Stream(ms[1..])[..n - |Encode(m)|]
  {
    hide Encode, HeadText;
    EncodeParts(ms[0]);
    StreamSplit(ms);
    BodySlices(Stream(ms), HeadText(ms[0].GetHead()), ms[0].body, Stream(ms[1..]), n);
  }

  /** The same when the head of the first message is being held. */
  lemma BodyContinues(kind: Kind, ms: seq<Message>, n0: nat, n1: nat, beyond: Byte)
    requires AllGood(kind, ms) && n0 <= n1 <= |Stream(ms)|
    requires ms != [] && |HeadText(ms[0].GetHead())| <= n0 < |Encode(ms[0])|
    ensures var p0, p1 := ProgressAt(ms, n0), ProgressAt(ms, n1);
      p0.done == 0
      && Drain(kind, State(p0.state.held, p0.state.window + Stream(ms)[n0..n1]), beyond) ==
         if FirstLineEndsAt(ms, n1) && beyond == LF then Run(ms[..p1.done], State(None, []), ParseError)
         else Run(ms[..p1.done], p1.state, Waiting)
  {
    hide Encode, HeadText, FirstText, GoodMessage, TakeTurn, Stream;
    var p1, m, h := ProgressAt(ms, n1), ms[0], |HeadText(ms[0].GetHead())|;
    EncodeParts(m);
    StreamSplit(ms);
    HeldWindow(ms, n0);
    HeldWindow(ms, n1);
    var w := Stream(ms)[h..n1];
    assert Stream(ms)[h..n0] + Stream(ms)[n0..n1] == w;
    HeldTurn(kind, m, w, beyond);
    if n1 >= |Encode(m)| {
      DrainBoundary(kind, ms[1..], n1 - |Encode(m)|, beyond);
      assert ms[..p1.done] == [m] + ms[1..][..p1.done - 1];
    }
  }

  lemma HeldTurn(kind: Kind, m: Message, w: Bytes, beyond: Byte)
    requires w <= m.body || m.body <= w
    requires |m.body| > 0
    ensures TakeTurn(kind, State(Some(m.GetHead()), w), beyond) ==
      if |w| >= |m.body| then Emit(m, |m.body|) else Idle
  {
    if |w| >= |m.body| {
      assert w[..|m.body|] == m.body;
    }
  }

  // ----- any sequence of reads -----

  /** What one read appended to the window, and the byte then found behind it. */
  datatype Read = Read(data: Bytes, beyond: Byte)

  function Received(rs: seq<Read>): Bytes {
    if rs == [] then [] else rs[0].data + Received(rs[1..])
  }

  /** A connection from state `st` on, with one callback after each read. A callback that meets a parse error leaves the connection
      as it is, and the next read calls it again; `status` tells whether there was such an error. */
  function Serve(kind: Kind, st: State, rs: seq<Read>): Run
    decreases |rs|
  {
    if rs == [] then Run([], st, Waiting)
    else
      var r := Drain(kind, State(st.held, st.window + rs[0].data), rs[0].beyond);
      if r.status == Unspecified then r else Followed(r, Serve(kind, r.state, rs[1..]))
  }

  function Followed(r: Run, r': Run): Run {
    Run(r.out + r'.out, r'.state, if r'.status == Waiting then r.status else r'.status)
  }

  /** The state and the messages of one more callback at the end. */
  lemma {:induction false} ServeMore(kind: Kind, st: State, rs: seq<Read>, read: Read)
    ensures var r := Serve(kind, st, rs);
      Serve(kind, st, rs + [read]) ==
      if r.status == Unspecified then r
      else Followed(r, Drain(kind, State(r.state.held, r.state.window + read.data), read.beyond))
    decreases |rs|
  {
    hide Drain;
    if rs == [] {
      assert rs + [read] == [read] && [read][1..] == [];
      var r := Drain(kind, State(st.held, st.window + read.data), read.beyond);
      assert r.out + [] == r.out && [] + r.out == r.out;
    } else {
      var r := Drain(kind, State(st.held, st.window + rs[0].data), rs[0].beyond);
      assert (rs + [read])[0] == rs[0] && (rs + [read])[1..] == rs[1..] + [read];
      ServeMore(kind, r.state, rs[1..], read);
      var tail := Serve(kind, r.state, rs[1..]);
      var more := Drain(kind, State(tail.state.held, tail.state.window + read.data), read.beyond);
      assert r.out + (tail.out + more.out) == r.out + tail.out + more.out;
    }
  }

  lemma {:induction false} ReceivedMore(rs: seq<Read>, read: Read)
    ensures Received(rs + [read]) == Received(rs) + read.data
  {
    if rs == [] {
      assert rs + [read] == [read] && [read][1..] == [];
    } else {
      assert (rs + [read])[1..] == rs[1..] + [read];
      ReceivedMore(rs[1..], read);
    }
  }

  lemma ReceivedNone(incoming: Bytes)
    ensures Received([]) + incoming == incoming
  {
    assert [] + incoming == incoming;
  }

  /** What a connection has dispatched and kept, against the whole run; the state is open once the code has lost its way. */
  ghost predicate Served(whole: Run, out: seq<Message>, status: Status, st: State) {
    whole.out == out && whole.status == status && (status != Unspecified ==> whole.state == st)
  }

  lemma ServedNone(st: State)
    ensures forall kind :: Served(Serve(kind, st, []), [], Waiting, st)
  {}

  lemma ServedMore(kind: Kind, st: State, rs: seq<Read>, out: seq<Message>, status: Status, before: State, read: Read,
                   last: Status, after: State)
    requires status != Unspecified && Served(Serve(kind, st, rs), out, status, before)
    requires var r := Drain(kind, State(before.held, before.window + read.data), read.beyond);
      last == r.status && (last != Unspecified ==> after == r.state)
    ensures var r := Drain(kind, State(before.held, before.window + read.data), read.beyond);
      Served(Serve(kind, st, rs + [read]), out + r.out, if last == Waiting then status else last, after)
  {
    hide Serve, Drain;
    ServeMore(kind, st, rs, read);
  }

  /** Starting after `n` bytes, some read ends right behind a first line while memory holds
      a line feed there. */
  predicate HitsStray(ms: seq<Message>, n: nat, rs: seq<Read>)
    decreases |rs|
  {
    rs != [] &&
    var n' := n + |rs[0].data|;
    (FirstLineEndsAt(ms, n') && rs[0].beyond == LF) || HitsStray(ms, n', rs[1..])
  }

  /** The number of bytes received up to the first such read. */
  function StrayAt(ms: seq<Message>, n: nat, rs: seq<Read>): (k: nat)
    requires HitsStray(ms, n, rs)
    ensures n <= k <= n + |Received(rs)|
    decreases |rs|
  {
    var n' := n + |rs[0].data|;
    if FirstLineEndsAt(ms, n') && rs[0].beyond == LF then n' else StrayAt(ms, n', rs[1..])
  }

  // ----- after a stray read -----

  /** A word that no message begins with. */
  ghost predicate Foreign(word: Bytes) {
    word != [] && SP !in word && LF !in word && NUL !in word && CR !in word && word != CALL && word != VERSION
  }

  /** The window begins with that word, alone on its line as far as the code can tell, or with a part of it. */
  ghost predicate Deaf(word: Bytes, w: Bytes) {
    if |w| <= |word| then w <= word else word <= w && (w[|word|] == LF || w[|word|] == NUL)
  }

  lemma DeafLine(word: Bytes, w: Bytes)
    requires Foreign(word) && Deaf(word, w) && TakeLine(w).Some?
    ensures TakeLine(w).value.0 == word
    ensures |w| > |word| && |StripCR(w[..TakeLine(w).value.1 - 1])| >= |word|
  {
    var i := IndexOf(w, LF);
    var line := StripCR(w[..i]);
    assert w[..i][i - 1] == w[i - 1];
    assert |word| <= |line| && line == w[..|line|];
    assert |word| < |line| ==> line[|word|] == w[|word|] == NUL;
    IndexOfIs(line, NUL, |word|);
  }

  lemma DeafMarred(word: Bytes, w: Bytes)
    requires Foreign(word) && Deaf(word, w)
    ensures Deaf(word, Marred(w))
  {
    hide TakeLine, Tokenize, AreTokens, StripCR;
    if TakeLine(w).Some? {
      DeafLine(word, w);
      OneWord(word);
      var toks := [Token(0, |word|)];
      TokenizeMeaning(word, 3, toks);
      assert EndsOne(toks, |word|) by { assert toks[0].End() == |word|; }
      assert forall j :: 0 <= j < |word| ==> Marred(w)[j] == w[j];
    }
  }

  lemma DeafParse(kind: Kind, word: Bytes, w: Bytes)
    requires Foreign(word) && Deaf(word, w)
    ensures ParseHead(kind, w) == Failed(0)
  {
    if TakeLine(w).Some? {
      DeafLine(word, w);
    }
    OneWord(word);
    RequestLineByWords(word, [Token(0, |word|)]);
    StatusLineByWords(word, [Token(0, |word|)]);
    hide TakeLine, ReadRequestLine, ReadStatusLine, AreTokens, ReadFields, Deaf, Marred;
  }

  /** Whatever arrives behind it, such a window dispatches nothing and stays as it is, marred at most. */
  lemma DeafDrain(kind: Kind, word: Bytes, w: Bytes, beyond: Byte)
    requires Foreign(word) && Deaf(word, w)
    ensures var r := Drain(kind, State(None, w), beyond);
      r.out == [] && r.status != Unspecified && r.state.held == None && |r.state.window| == |w| && Deaf(word, r.state.window)
  {
    DeafParse(kind, word, w);
    DeafMarred(word, w);
    DrainTurn(kind, State(None, w), beyond);
    hide Drain, ParseHead, ReceivedHead, Deaf, Foreign, Marred;
  }

  lemma {:induction false} ServeDeaf(kind: Kind, word: Bytes, rest: Bytes, w: Bytes, rs: seq<Read>)
    requires Foreign(word) && word + [LF] <= rest
    requires Deaf(word, w) && |w| + |Received(rs)| <= |rest| && Received(rs) == rest[|w|..|w| + |Received(rs)|]
    ensures var r := Serve(kind, State(None, w), rs); r.out == [] && r.status != Unspecified
    decreases |rs|
  {
    hide Drain, Foreign;
    if rs != [] {
      var d := rs[0].data;
      assert Received(rs) == d + Received(rs[1..]);
      SliceSlice(rest, |w|, |Received(rs)|, |d|);
      DeafGrows(word, rest, w, d);
      DeafDrain(kind, word, w + d, rs[0].beyond);
      var w' := Drain(kind, State(None, w + d), rs[0].beyond).state.window;
      assert Received(rs[1..]) == rest[|w'|..|w'| + |Received(rs[1..])|];
      ServeDeaf(kind, word, rest, w', rs[1..]);
    }
  }

  lemma DeafGrows(word: Bytes, rest: Bytes, w: Bytes, d: Bytes)
    requires word + [LF] <= rest && Deaf(word, w) && |w| + |d| <= |rest| && d == rest[|w|..|w| + |d|]
    ensures Deaf(word, w + d)
  {
    if |w| <= |word| {
      assert w == rest[..|w|];
      assert w + d == rest[..|w| + |d|];
      assert (word + [LF])[|word|] == rest[|word|];
    }
  }

  /** What follows a first line begins with the sequence line. */
  lemma {:induction false} BehindFirstLine(ms: seq<Message>, n: nat) returns (word: Bytes)
    requires FirstLineEndsAt(ms, n) && n <= |Stream(ms)|
    ensures Foreign(word) && word + [LF] <= Stream(ms)[n..]
  {
    hide Encode, FirstText, Dec;
    var m := ms[0];
    StreamSplit(ms);
    if n >= |Encode(m)| {
      word := BehindFirstLine(ms[1..], n - |Encode(m)|);
      assert Stream(ms)[n..] == Stream(ms[1..])[n - |Encode(m)|..];
    } else {
      word := SEQ_KEY + Dec(m.seqNo);
      EncodeParts(m);
      SeqLineIsForeign(m.seqNo);
      var more := LEN_KEY + Dec(|m.body|) + [LF] + [LF];
      assert HeadText(m.GetHead()) == FirstText(m.first) + [LF] + (word + [LF] + more);
      SecondLine(FirstText(m.first), word, more, m.body, Stream(ms[1..]), Stream(ms));
    }
  }

  lemma SecondLine(first: Bytes, word: Bytes, more: Bytes, body: Bytes, later: Bytes, s: Bytes)
    requires s == first + [LF] + (word + [LF] + more) + body + later
    ensures word + [LF] <= s[|first| + 1..]
  {
    assert s == (first + [LF]) + ((word + [LF]) + (more + body + later));
    assert s[|first| + 1..] == (word + [LF]) + (more + body + later);
  }

  lemma SeqLineIsForeign(seqNo: int)
    ensures Foreign(SEQ_KEY + Dec(seqNo))
  {
    var word := SEQ_KEY + Dec(seqNo);
    DecIsWord(seqNo);
    DecHasNoCR(seqNo);
    hide Dec;
    assert word[0] == 's' && CALL[0] == 'C' && VERSION[0] == 'R';
    assert forall i :: 0 <= i < |word| ==> word[i] in SEQ_KEY || word[i] in Dec(seqNo);
  }

  lemma DecHasNoCR(n: int)
    ensures CR !in Dec(n)
  {}

  // ----- any sequence of reads from any point of the stream -----

  lemma {:induction false} ServeFrom(kind: Kind, ms: seq<Message>, n: nat, rs: seq<Read>)
    requires AllGood(kind, ms)
    requires n <= |Stream(ms)| && Received(rs) <= Stream(ms)[n..]
    ensures var r := Serve(kind, ProgressAt(ms, n).state, rs);
      if !HitsStray(ms, n, rs) then ServedAll(ms, n, n + |Received(rs)|, r)
      else ServedUntil(ms, n, StrayAt(ms, n, rs), r)
    decreases |rs|
  {
    hide Stream, Drain, ProgressAt, FirstLineEndsAt, GoodMessage, ServedAll, ServedUntil;
    if rs == [] {
      ServedNothing(ms, n);
    } else {
      var d := rs[0].data;
      var n' := n + |d|;
      assert Received(rs) == d + Received(rs[1..]);
      assert Stream(ms)[n..n'] == d;
      assert Received(rs[1..]) <= Stream(ms)[n'..];
      DrainContinues(kind, ms, n, n', rs[0].beyond);
      if FirstLineEndsAt(ms, n') && rs[0].beyond == LF {
        var word := BehindFirstLine(ms, n');
        var rest := Stream(ms)[n'..];
        assert Received(rs[1..]) == rest[0..|Received(rs[1..])|];
        ServeDeaf(kind, word, rest, [], rs[1..]);
        ServedStray(ms, n, n', Serve(kind, State(None, []), rs[1..]));
      } else {
        ServeFrom(kind, ms, n', rs[1..]);
        var r' := Serve(kind, ProgressAt(ms, n').state, rs[1..]);
        if HitsStray(ms, n', rs[1..]) {
          ServedStep(ms, n, n', StrayAt(ms, n', rs[1..]), r');
        } else {
          ServedStep(ms, n, n', n' + |Received(rs[1..])|, r');
        }
      }
    }
  }

  /** From `n` to `n'` everything has gone right. */
  ghost predicate ServedAll(ms: seq<Message>, n: nat, n': nat, r: Run)
    requires n <= n' <= |Stream(ms)|
  {
    var p, p' := ProgressAt(ms, n), ProgressAt(ms, n');
    p.done <= p'.done && r == Run(ms[p.done..p'.done], p'.state, Waiting)
  }

  /** From `n` to `n'` every message has been dispatched, and nothing since. */
  ghost predicate ServedUntil(ms: seq<Message>, n: nat, n': nat, r: Run)
    requires n <= n' <= |Stream(ms)|
  {
    var p, p' := ProgressAt(ms, n), ProgressAt(ms, n');
    p.done <= p'.done && r.out == ms[p.done..p'.done] && r.status == ParseError
  }

  lemma ServedNothing(ms: seq<Message>, n: nat)
    requires n <= |Stream(ms)|
    ensures ServedAll(ms, n, n, Run([], ProgressAt(ms, n).state, Waiting))
  {
    hide ProgressAt;
    assert ms[ProgressAt(ms, n).done..ProgressAt(ms, n).done] == [];
  }

  lemma ServedStray(ms: seq<Message>, n: nat, n': nat, r: Run)
    requires n <= n' <= |Stream(ms)| && ProgressAt(ms, n).done <= ProgressAt(ms, n').done
    requires r.out == [] && r.status != Unspecified
    ensures ServedUntil(ms, n, n', Followed(Run(ms[ProgressAt(ms, n).done..ProgressAt(ms, n').done], State(None, []), ParseError), r))
  {
    hide ProgressAt;
    var out := ms[ProgressAt(ms, n).done..ProgressAt(ms, n').done];
    assert out + [] == out;
  }

  lemma Joined<T>(s: seq<T>, a: nat, b: nat, c: nat)
    requires a <= b <= c <= |s|
    ensures s[a..b] + s[b..c] == s[a..c]
  {}

  lemma ServedStep(ms: seq<Message>, n: nat, n': nat, n'': nat, r: Run)
    requires n <= n' <= n'' <= |Stream(ms)| && ProgressAt(ms, n).done <= ProgressAt(ms, n').done
    ensures var r0 := Run(ms[ProgressAt(ms, n).done..ProgressAt(ms, n').done], ProgressAt(ms, n').state, Waiting);
      && (ServedAll(ms, n', n'', r) ==> ServedAll(ms, n, n'', Followed(r0, r)))
      && (ServedUntil(ms, n', n'', r) ==> ServedUntil(ms, n, n'', Followed(r0, r)))
  {
    hide ProgressAt, Stream;
    var a, b, c := ProgressAt(ms, n).done, ProgressAt(ms, n').done, ProgressAt(ms, n'').done;
    if b <= c {
      Joined(ms, a, b, c);
    }
  }

  /** Chunk independence. However a prefix of a stream of well-formed messages is cut into reads, the callbacks
      dispatch exactly the messages that are complete in the prefix, in order and with their own fields,
      and keep a state that depends on the prefix alone. This holds if and only if no read
      ends right behind a first line with a line feed lying behind it in memory. */
  lemma ChunkIndependence(kind: Kind, ms: seq<Message>, rs: seq<Read>)
    requires AllGood(kind, ms)
    requires Received(rs) <= Stream(ms)
    ensures var p := ProgressAt(ms, |Received(rs)|);
      Serve(kind, State(None, []), rs) == Run(ms[..p.done], p.state, Waiting) <==> !HitsStray(ms, 0, rs)
  {
    hide Stream, Serve, GoodMessage, ProgressAt, HitsStray;
    ProgressAtZero(ms);
    assert Stream(ms)[0..] == Stream(ms);
    ServeFrom(kind, ms, 0, rs);
    var p := ProgressAt(ms, |Received(rs)|);
    assert ms[0..p.done] == ms[..p.done];
  }

  /** Otherwise they dispatch what was complete at the first such read, and nothing ever after. */
  lemma NothingAfterStray(kind: Kind, ms: seq<Message>, rs: seq<Read>)
    requires AllGood(kind, ms)
    requires Received(rs) <= Stream(ms) && HitsStray(ms, 0, rs)
    ensures StrayAt(ms, 0, rs) <= |Stream(ms)|
    ensures Serve(kind, State(None, []), rs).out == ms[..ProgressAt(ms, StrayAt(ms, 0, rs)).done]
  {
    hide Stream, Serve, GoodMessage, ProgressAt, HitsStray, StrayAt;
    ProgressAtZero(ms);
    assert Stream(ms)[0..] == Stream(ms);
    ServeFrom(kind, ms, 0, rs);
    var p := ProgressAt(ms, StrayAt(ms, 0, rs));
    assert ms[0..p.done] == ms[..p.done];
  }

  lemma ProgressAtZero(ms: seq<Message>)
    ensures ProgressAt(ms, 0) == Progress(0, State(None, []))
  {
    if ms != [] {
      EncodeParts(ms[0]);
    }
  }

  /** The failing case does occur: a request line received on its own, a line feed left behind it in the buffer. */
  lemma StrayExample()
    ensures var line := CALL + [SP] + ("add" + "@" + "math") + [SP] + VERSION + [LF];
      Drain(Requests, State(None, line), LF).status == ParseError
      && Drain(Requests, State(None, line), NUL).status == Waiting
  {
    var m := Message(RequestLine("add", "math", VERSION), 7, []);
    var n := |FirstText(m.first)| + 1;
    HeadBytes(m.GetHead());
    assert HeadText(m.GetHead())[..n] == FirstText(m.first) + [LF];
    hide TakeTurn, HeadText;
    PartialTurn(Requests, m.GetHead(), n, LF);
    PartialTurn(Requests, m.GetHead(), n, NUL);
  }

  // ----- reading a token that was never stored -----

  lemma UndefinedExactly(kind: Kind, w: Bytes, text: Bytes, n: nat, toks: seq<Token>)
    requires TakeLine(w) == Some((text, n)) && AreTokens(text, 0, 3, toks)
    ensures ParseHead(kind, w).Undefined? <==> UnsetToken(kind, text, toks)
  {
    hide ReadRequestLine, ReadStatusLine, AreTokens, UnsetToken, ReadFields, TakeLine;
    match kind
    case Requests => RequestLineByWords(text, toks);
    case Responses => StatusLineByWords(text, toks);
  }

  /** A turn goes wrong in this way if and only if a head is seen whose first line has such words. */
  lemma LostExactly(kind: Kind, w: Bytes, beyond: Byte, text: Bytes, n: nat, toks: seq<Token>)
    requires TakeLine(w) == Some((text, n)) && AreTokens(text, 0, 3, toks)
    ensures TakeTurn(kind, State(None, w), beyond).Lost? <==> ReceivedHead(w, beyond) && UnsetToken(kind, text, toks)
  {
    hide ReceivedHead, ParseHead, AreTokens, UnsetToken;
    UndefinedExactly(kind, w, text, n, toks);
  }

  /** Without a line, or with a saved head, it cannot happen. */
  lemma NotLost(kind: Kind, st: State, beyond: Byte)
    requires st.held.Some? || TakeLine(st.window).None?
    ensures !TakeTurn(kind, st, beyond).Lost?
  {
    hide ReceivedHead;
  }

  /** It does happen: the first word alone, and an empty line. */
  lemma UnsetTokenExample(kind: Kind, beyond: Byte)
    ensures var w := (if kind.Requests? then CALL else VERSION) + [LF] + [LF];
      TakeTurn(kind, State(None, w), beyond) == Lost && Drain(kind, State(None, w), beyond).status == Unspecified
  {
    hide TakeTurn, ReceivedHead, AreTokens, TakeLine, Drain;
    var word := if kind.Requests? then CALL else VERSION;
    var w, toks := word + [LF] + [LF], [Token(0, |word|)];
    assert LF !in word && SP !in word && TakeLine(w) == Some((word, |word| + 1)) by { FirstWordLine(kind); }
    OneWord(word);
    ReceivedTwoLines(word, beyond);
    LostExactly(kind, w, beyond, word, |word| + 1, toks);
    DrainTurn(kind, State(None, w), beyond);
  }

  lemma FirstWordLine(kind: Kind)
    ensures var word := if kind.Requests? then CALL else VERSION;
      LF !in word && SP !in word && TakeLine(word + [LF] + [LF]) == Some((word, |word| + 1))
  {
    TakePlain(if kind.Requests? then CALL else VERSION, [LF]);
  }

  lemma ReceivedTwoLines(word: Bytes, beyond: Byte)
    requires LF !in word
    ensures ReceivedHead(word + [LF] + [LF], beyond)
  {
    var w := word + [LF] + [LF];
    var mem := w + [beyond];
    NextLFIs(mem, 0, |w|, |word|);
    NextLFIs(mem, |word| + 1, 1, |word| + 1);
    ScanUnfold(mem, 0, |w|, None);
  }
}
