/** What a disturbed action leaves is the state of no run of the call protocol. */
module Disturbance {
  import opened Wire
  import opened Frame
  import opened HeadDetection
  import opened Reader
  import opened Service
  import opened SendLoop
  import opened ClientLoop
  import opened EndToEnd

  /** All the bytes that a reader has taken in and not dispatched. */
  function Taken(st: State): Bytes {
    (match st.held case None => [] case Some(h) => HeadText(h)) + st.window
  }

  lemma ChannelStream(ms: seq<Message>, st: State, coming: Bytes)
    requires Channel(ms, st, coming)
    ensures Stream(ms) == Taken(st) + coming
  {
    hide Encode, HeadText;
    var n := |Stream(ms)| - |coming|;
    if st.held.Some? {
      var h := |HeadText(st.held.value)|;
      EncodeParts(ms[0]);
      StreamSplit(ms);
      hide Stream;
      assert Stream(ms)[..h] == HeadText(st.held.value);
      assert Stream(ms)[..n] == Stream(ms)[..h] + Stream(ms)[h..n];
    }
    assert Stream(ms) == Stream(ms)[..n] + Stream(ms)[n..];
  }

  lemma FirstSame(kind: Kind, ms: seq<Message>, ms': seq<Message>, cut: Bytes)
    requires AllGood(kind, ms) && AllGood(kind, ms') && ms != [] && ms' != [] && Stream(ms) == Stream(ms') + cut
    ensures ms[0] == ms'[0] && Stream(ms[1..]) == Stream(ms'[1..]) + cut
  {
    hide TakeTurn, Encode, GoodMessage;
    StreamSplit(ms);
    StreamSplit(ms');
    hide Stream;
    FullTurn(kind, ms[0], Stream(ms[1..]), NUL);
    FullTurn(kind, ms'[0], Stream(ms'[1..]) + cut, NUL);
    assert Encode(ms[0]) + Stream(ms[1..]) == Encode(ms'[0]) + (Stream(ms'[1..]) + cut);
  }

  /** No other messages have the text of these without the end of the last one. */
  lemma {:induction false} StreamsDiffer(kind: Kind, ms: seq<Message>, ms': seq<Message>, cut: Bytes)
    requires AllGood(kind, ms) && AllGood(kind, ms') && ms != [] && 0 < |cut| < |Encode(ms[|ms| - 1])|
    ensures Stream(ms) != Stream(ms') + cut
    decreases |ms|
  {
    hide Encode, GoodMessage, Stream;
    EncodeSuffix(ms);
    StreamOfNone();
    if ms' != [] {
      if |ms| > 1 {
        StreamsDiffer(kind, ms[1..], ms'[1..], cut);
      }
      if Stream(ms) == Stream(ms') + cut {
        FirstSame(kind, ms, ms', cut);
      }
    }
  }

  lemma {:induction false} EncodeSuffix(ms: seq<Message>)
    requires ms != []
    ensures |Stream(ms)| >= |Encode(ms[|ms| - 1])|
  {
    hide Encode;
    if |ms| > 1 {
      EncodeSuffix(ms[1..]);
    }
  }

  lemma SameText(ms: seq<Message>, ms': seq<Message>, st: State, coming: Bytes, cut: Bytes)
    requires Channel(ms, st, coming + cut) && Channel(ms', st, coming)
    ensures Stream(ms) == Stream(ms') + cut
  {
    hide Channel, Stream, Taken;
    ChannelStream(ms, st, coming + cut);
    ChannelStream(ms', st, coming);
    assert Taken(st) + coming + cut == Taken(st) + (coming + cut);
  }

  lemma ChannelsDiffer(kind: Kind, ms: seq<Message>, ms': seq<Message>, st: State, coming: Bytes, cut: Bytes)
    requires AllGood(kind, ms) && AllGood(kind, ms') && ms != [] && 0 < |cut| < |Encode(ms[|ms| - 1])|
    requires Channel(ms, st, coming + cut)
    ensures !Channel(ms', st, coming)
  {
    hide Channel, Stream, Encode, GoodMessage;
    StreamsDiffer(kind, ms, ms', cut);
    if Channel(ms', st, coming) {
      SameText(ms, ms', st, coming, cut);
    }
  }

  /** What is left to send is part of the last message. */
  ghost predicate Within(ms: seq<Message>, rest: Bytes) {
    ms != [] && |rest| <= |Encode(ms[|ms| - 1])|
  }

  /** What the writer and the servers are sending is part of one message. */
  ghost predicate Sending(b: System, a: Calls.State) {
    && |b.pipes| == |a.links|
    && (b.iov != [] ==> b.writeTo < |a.links| && Within(Messages(a.links[b.writeTo].up), Flatten(b.iov)))
    && forall c :: 0 <= c < |b.pipes| ==> Replying(b.pipes[c], a.links[c])
  }

  ghost predicate Replying(p: Pipe, l: Calls.Link) {
    p.replying != [] ==> Within(Messages(l.down), Flatten(p.replying))
  }

  lemma InitialSending(n: nat)
    ensures Sending(Initial(n), Calls.Initial(n))
  {}

  lemma WithinLater(ms: seq<Message>, ms': seq<Message>, rest: Bytes, rest': Bytes)
    requires Within(ms, rest) && |rest'| <= |rest| && ms' != [] && ms[|ms| - 1] == ms'[|ms'| - 1]
    ensures Within(ms', rest')
  {
    hide Encode;
  }

  /** A message that is still being sent is not dispatched. */
  lemma WithinTurn(kind: Kind, ms: seq<Message>, st: State, coming: Bytes, rest: Bytes, beyond: Byte)
    requires AllGood(kind, ms) && Channel(ms, st, coming + rest) && rest != [] && TakeTurn(kind, st, beyond).Emit? && Within(ms, rest)
    ensures ms != [] && Within(ms[1..], rest)
  {
    hide TakeTurn, Encode, GoodMessage, Channel;
    ChannelTurn(kind, ms, st, coming + rest, beyond);
    StreamSplit(ms);
    StreamOfNone();
    hide Stream;
  }

  lemma SendingServerTurn(sv: Server, b: System, a: Calls.State, c: nat, beyond: Byte)
    requires Refines(b, a) && Sound(a) && Bounded(sv) && Sending(b, a) && Can(b, ServerTurn(c, beyond))
    requires TakeTurn(Requests, b.pipes[c].server, beyond).Emit? && Calls.Enabled(a, Calls.Serve(c))
    ensures Sending(Do(sv, b, ServerTurn(c, beyond)), Calls.Do(sv, a, Calls.Serve(c)))
  {
    hide Calls.Shaped, Bounded, TakeTurn, Channel, Resting, Flatten, Stray, Within, GoodMessage, MessageVectors, Answer;
    var p, l := b.pipes[c], a.links[c];
    assert SoundLink(l) by { assert l in a.links; }
    assert Carries(p, Tail(b, c), l);
    var l' := Calls.ServeOn(sv, l);
    assert Messages(l'.up) == Messages(l.up)[1..];
    if b.iov != [] && b.writeTo == c {
      WithinTurn(Requests, Messages(l.up), p.server, p.up, Flatten(b.iov), beyond);
    }
    ChannelTurn(Requests, Messages(l.up), p.server, p.up + Tail(b, c), beyond);
    var reply := Answer(sv, p.curr, l.up[0].message).0;
    ReplyWithin(sv, p.curr, l.up[0].message, Messages(l.down));
    assert Messages(l'.down) == Messages(l.down) + [reply];
  }

  lemma ReplyWithin(sv: Server, curr: int, m: Message, before: seq<Message>)
    requires Bounded(sv)
    ensures var reply := Answer(sv, curr, m).0; Within(before + [reply], Flatten(MessageVectors(reply)))
  {
    AnswerFits(sv, curr, m);
    hide Answer, Bounded, Encode, Flatten, MessageVectors;
    VectorsText(Answer(sv, curr, m).0);
  }

  lemma SendingClientTurn(sv: Server, b: System, a: Calls.State, c: nat, beyond: Byte)
    requires Refines(b, a) && Sound(a) && Sending(b, a) && Can(b, ClientTurn(c, beyond))
    requires TakeTurn(Responses, b.pipes[c].client, beyond).Emit? && Calls.Enabled(a, Calls.Fire(c))
    ensures Sending(Do(sv, b, ClientTurn(c, beyond)), Calls.Do(sv, a, Calls.Fire(c)))
  {
    hide Calls.Shaped, TakeTurn, Channel, Resting, Flatten, Stray, Within, GoodMessage, MessageVectors, Arrive;
    var p, l := b.pipes[c], a.links[c];
    assert SoundLink(l) by { assert l in a.links; }
    assert Carries(p, Tail(b, c), l);
    assert Messages(l.down[1..]) == Messages(l.down)[1..];
    if p.replying != [] {
      WithinTurn(Responses, Messages(l.down), p.client, p.down, Flatten(p.replying), beyond);
    }
  }

  lemma SendingFormat(sv: Server, b: System, a: Calls.State)
    requires Refines(b, a) && AllPrintable(a.issued) && Sending(b, a) && Can(b, Format) && Calls.Enabled(a, Calls.Send)
    ensures Sending(Do(sv, b, Format), Calls.Do(sv, a, Calls.Send))
  {
    hide Carries, Flatten, MessageVectors, Encode, Calls.RequestMessage;
    var t, c := Calls.InHand(a), Calls.Next(a, |a.links|);
    assert a.issued[a.hand.id] in a.issued;
    BodyFits(a.issued[a.hand.id], a.hand.index);
    VectorsText(t.message);
    assert Messages(a.links[c].up + [t]) == Messages(a.links[c].up) + [t.message];
  }

  lemma SendingWrite(sv: Server, b: System, a: Calls.State, t: Action)
    requires Refines(b, a) && Sending(b, a) && Can(b, t) && Undisturbed(b, t) && (t.Write? || t.ServerWrite?)
    ensures Sending(Do(sv, b, t), a)
  {
    hide Carries, Flatten, Unsent, CutOff, Messages, Encode;
    FlattenNothing();
    match t
    case Write(n) => UnsentRest(b.iov, n);
    case ServerWrite(c, n) => UnsentRest(b.pipes[c].replying, n);
  }

  /** It holds throughout every undisturbed run. */
  lemma ActionKeepsSending(sv: Server, b: System, a: Calls.State, t: Action)
    requires Refines(b, a) && Sound(a) && AllPrintable(a.issued) && Bounded(sv) && Sending(b, a) && Can(b, t) && Undisturbed(b, t)
    ensures t.ServerTurn? || t.ClientTurn? ==> t.conn < |b.pipes|
    ensures match Shadow(b, t)
      case Some(step) => Calls.Enabled(a, step) && Sending(Do(sv, b, t), Calls.Do(sv, a, step))
      case None => Sending(Do(sv, b, t), a)
  {
    hide Refines, Sound, AllPrintable, Bounded, Within, Flatten, TakeTurn, Undisturbed, Messages, MessageVectors;
    Simulates(sv, b, a, t);
    match t
    case Local(step) => hide Calls.Shaped, SessionPool.Inserted, SessionPool.FirstEmpty;
    case Format => SendingFormat(sv, b, a);
    case Write(_) => SendingWrite(sv, b, a, t);
    case ServerWrite(_, _) => SendingWrite(sv, b, a, t);
    case ServerRead(_, _) =>
    case ClientRead(_, _) =>
    case ServerTurn(c, beyond) =>
      if TakeTurn(Requests, b.pipes[c].server, beyond).Emit? {
        SendingServerTurn(sv, b, a, c, beyond);
      }
    case ClientTurn(c, beyond) =>
      if TakeTurn(Responses, b.pipes[c].client, beyond).Emit? {
        SendingClientTurn(sv, b, a, c, beyond);
      }
  }

  /** A write that cuts a message off leaves bytes that are the text of no messages. */
  lemma CutOffBreaks(sv: Server, b: System, a: Calls.State, t: Action, a': Calls.State)
    requires Refines(b, a) && Sound(a) && Sending(b, a) && Can(b, t) && !Undisturbed(b, t) && (t.Write? || t.ServerWrite?)
    requires Sound(a')
    ensures !Refines(Do(sv, b, t), a')
  {
    hide Channel, Resting, Flatten, AtBoundary, Advance, GoodMessage, Encode, Calls.Shaped;
    FlattenNothing();
    var b' := Do(sv, b, t);
    var c := if t.Write? then b.writeTo else t.conn;
    var p, p' := b.pipes[c], b'.pipes[c];
    assert Carries(p, Tail(b, c), a.links[c]);
    assert SoundLink(a.links[c]) by { assert a.links[c] in a.links; }
    var iov := if t.Write? then b.iov else p.replying;
    var sent, cut := Flatten(iov)[..t.size], Flatten(iov)[t.size..];
    assert sent + cut == Flatten(iov);
    if |a'.links| == |a.links| && c < |a'.links| {
      assert SoundLink(a'.links[c]) by { assert a'.links[c] in a'.links; }
      if t.Write? {
        assert p.up + (sent + cut) == p.up + sent + cut && p'.up + [] == p.up + sent;
        ChannelsDiffer(Requests, Messages(a.links[c].up), Messages(a'.links[c].up), p.server, p.up + sent, cut);
      } else {
        assert p.down + (sent + cut) == p.down + sent + cut && p'.down + [] == p.down + sent;
        ChannelsDiffer(Responses, Messages(a.links[c].down), Messages(a'.links[c].down), p.client, p.down + sent, cut);
      }
    }
  }

  /** Some state of the call protocol tells what the system is doing. */
  ghost predicate Refined(b: System) {
    exists a :: Sound(a) && Refines(b, a)
  }

  /** The state after an action can be told in terms of messages if and only if the action is undisturbed. */
  lemma RefinesIffUndisturbed(sv: Server, b: System, a: Calls.State, t: Action)
    requires Refines(b, a) && Sound(a) && AllPrintable(a.issued) && Bounded(sv) && Sending(b, a) && Can(b, t)
    ensures Refined(Do(sv, b, t)) <==> Undisturbed(b, t)
  {
    hide Refines, Sound, AllPrintable, Bounded, Sending, Can, Do, Undisturbed, Calls.Enabled, Calls.Do;
    if Undisturbed(b, t) {
      Simulates(sv, b, a, t);
      match Shadow(b, t) {
        case Some(step) => StepKeepsSound(sv, a, step);
        case None =>
      }
    } else {
      forall a' | Sound(a') ensures !Refines(Do(sv, b, t), a') {
        DisturbedBreaks(sv, b, a, t, a');
      }
    }
  }

  lemma DisturbedBreaks(sv: Server, b: System, a: Calls.State, t: Action, a': Calls.State)
    requires Refines(b, a) && Sound(a) && Bounded(sv) && Sending(b, a) && Can(b, t) && !Undisturbed(b, t) && Sound(a')
    ensures !Refines(Do(sv, b, t), a')
  {
    hide Sound, Bounded, Sending, Carries, TakeTurn, StrayRead, CutOff;
    match t
    case ServerTurn(c, beyond) => ServerTurnSimulates(sv, b, a, c, beyond);
    case ClientTurn(c, beyond) => ClientTurnSimulates(sv, b, a, c, beyond);
    case Write(_) => CutOffBreaks(sv, b, a, t, a');
    case ServerWrite(_, _) => CutOffBreaks(sv, b, a, t, a');
    case _ =>
  }

  /** So it is at every point of a run. */
  ghost predicate AllRefined(sv: Server, b: System, ts: seq<Action>)
    requires Legal(sv, b, ts)
    decreases |ts|
  {
    Refined(b) && (ts != [] ==> AllRefined(sv, Do(sv, b, ts[0]), ts[1..]))
  }

  /** A run on bytes can be told in terms of messages throughout if and only if it is undisturbed. */
  lemma {:induction false} RunRefinedIffUndisturbed(sv: Server, b: System, a: Calls.State, ts: seq<Action>)
    requires Refines(b, a) && Sound(a) && Bounded(sv) && Sending(b, a)
    requires Legal(sv, b, ts) && AllPrintable(After(sv, b, ts).calls.issued)
    ensures AllRefined(sv, b, ts) <==> AllUndisturbed(sv, b, ts)
    decreases |ts|
  {
    assert a.issued == b.calls.issued && Refined(b);
    hide Refines, Sound, AllPrintable, Bounded, Sending, Can, Do, Undisturbed, Shadow, Calls.Enabled, Calls.Do;
    if ts != [] {
      var b' := Do(sv, b, ts[0]);
      IssuedGrows(sv, b, ts);
      IssuedFit(b.calls.issued, After(sv, b, ts).calls.issued);
      RefinesIffUndisturbed(sv, b, a, ts[0]);
      if Undisturbed(b, ts[0]) {
        Simulates(sv, b, a, ts[0]);
        ActionKeepsSending(sv, b, a, ts[0]);
        match Shadow(b, ts[0]) {
          case Some(step) =>
            StepKeepsSound(sv, a, step);
            RunRefinedIffUndisturbed(sv, b', Calls.Do(sv, a, step), ts[1..]);
          case None =>
            RunRefinedIffUndisturbed(sv, b', a, ts[1..]);
        }
      }
    }
  }
}
