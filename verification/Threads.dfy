/** What the read callbacks do, as steps of the call protocol. */
module Threads {
  import opened Wire
  import opened Frame
  import opened Service
  import opened ClientLoop
  import opened Reader
  import Calls = CallProtocol

  // ----- the server -----

  /** The first messages of a queue. */
  ghost predicate Begins(ts: seq<Calls.Tagged>, ms: seq<Message>) {
    |ms| <= |ts| && forall i :: 0 <= i < |ms| ==> ts[i].message == ms[i]
  }

  function ServeAll(c: nat, n: nat): seq<Calls.Step> {
    if n == 0 then [] else [Calls.Serve(c)] + ServeAll(c, n - 1)
  }

  /** The replies stand behind those already on their way, and curr_seq is what the last answer made it. */
  ghost predicate Answered(sv: Server, l: Calls.Link, ms: seq<Message>, l': Calls.Link) {
    var (replies, curr) := AnswerAll(sv, l.curr, ms);
    && |ms| <= |l.up| && l'.up == l.up[|ms|..] && l'.curr == curr
    && l.down <= l'.down && |l'.down| == |l.down| + |ms| == |l.down| + |replies|
    && forall i :: 0 <= i < |ms| ==> l'.down[|l.down| + i] == l.up[i].(message := replies[i])
  }

  /** Answering the next messages of a connection, as the server's callback does, is as many steps of the server. */
  lemma {:induction false} AnswersAreSteps(sv: Server, s: Calls.State, c: nat, ms: seq<Message>)
    requires c < |s.links| && Begins(s.links[c].up, ms)
    ensures Calls.Legal(sv, s, ServeAll(c, |ms|))
    ensures var s' := Calls.After(sv, s, ServeAll(c, |ms|));
      |s'.links| == |s.links| && s' == s.(links := s.links[c := s'.links[c]]) && Answered(sv, s.links[c], ms, s'.links[c])
    decreases |ms|
  {
    hide Answer;
    var l := s.links[c];
    if ms == [] {
      Calls.EmptyRun(sv, s);
      assert s.links[c := l] == s.links && l.up[0..] == l.up;
    } else {
      var s1, l1 := Calls.Do(sv, s, Calls.Serve(c)), Calls.ServeOn(sv, l);
      AnswersAreSteps(sv, s1, c, ms[1..]);
      Calls.Prepend(sv, s, Calls.Serve(c), ServeAll(c, |ms| - 1));
      var s' := Calls.After(sv, s1, ServeAll(c, |ms| - 1));
      AnsweredOneMore(sv, l, ms, s'.links[c]);
    }
  }

  lemma AnsweredOneMore(sv: Server, l: Calls.Link, ms: seq<Message>, l': Calls.Link)
    requires ms != [] && Begins(l.up, ms) && Answered(sv, Calls.ServeOn(sv, l), ms[1..], l')
    ensures Answered(sv, l, ms, l')
  {
    hide Answer;
    var l1 := Calls.ServeOn(sv, l);
    assert l1.up[|ms| - 1..] == l.up[|ms|..];
    var replies, tail := AnswerAll(sv, l.curr, ms).0, AnswerAll(sv, l1.curr, ms[1..]).0;
    assert replies == [Answer(sv, l.curr, ms[0]).0] + tail;
    assert l1.down <= l'.down && l'.down[|l.down|] == l1.down[|l.down|];
    forall i | 0 <= i < |ms| ensures l'.down[|l.down| + i] == l.up[i].(message := replies[i]) {
      if i > 0 {
        assert l'.down[|l1.down| + (i - 1)] == l1.up[i - 1].(message := tail[i - 1]);
      }
    }
  }

  // ----- the receiver -----

  function DeliverAll(c: nat, d: Delivery): seq<Calls.Step>
    decreases |d.log|
  {
    if d.log == [] then (if d.last.Found? then [] else [Calls.Fire(c)])
    else [Calls.Fire(c)] + ([Calls.Release] + DeliverAll(c, d.(log := d.log[1..])))
  }

  /** What deliveries leave: the callbacks made, the slots emptied, and the client halted by a response that goes wrong. */
  function Delivered(s: Calls.State, c: nat, d: Delivery): Calls.State
    requires c < |s.links|
  {
    var n := |d.log| + if d.last.Found? then 0 else 1;
    s.(fired := s.fired + d.log, slots := d.slots,
       links := s.links[c := s.links[c].(down := if n <= |s.links[c].down| then s.links[c].down[n..] else [])],
       refused := s.refused || d.last.Mismatch?, crashed := d.last.Crash?)
  }

  /** Delivering the next responses of a connection, as the client's callback does, is a callback and a release for each of them,
      up to the one that goes wrong. */
  lemma {:induction false} DeliveriesAreSteps(sv: Server, s: Calls.State, c: nat, ms: seq<Message>)
    requires c < |s.links| && Begins(s.links[c].down, ms) && s.freeing.None? && !s.crashed
    ensures var d := Deliver(s.slots, ms);
      Calls.Legal(sv, s, DeliverAll(c, d)) && Calls.After(sv, s, DeliverAll(c, d)) == Delivered(s, c, d)
    decreases |ms|
  {
    var l, d := s.links[c], Deliver(s.slots, ms);
    if ms == [] {
      Calls.EmptyRun(sv, s);
      assert s.links[c := l.(down := l.down[0..])] == s.links && s.fired + [] == s.fired;
    } else if !Expected(s.slots, ms[0].seqNo) {
      Calls.EmptyRun(sv, Calls.Do(sv, s, Calls.Fire(c)));
      assert s.fired + [] == s.fired;
      Calls.Prepend(sv, s, Calls.Fire(c), []);
      assert [Calls.Fire(c)] + [] == [Calls.Fire(c)];
    } else {
      DeliveredFirst(s, c, ms);
      FireThenRelease(sv, s, c);
      hide Deliver, Arrive, OneDelivered, Delivered, Begins;
      var s1, d2 := Calls.Do(sv, s, Calls.Fire(c)), d.(log := d.log[1..]);
      DeliveriesAreSteps(sv, OneDelivered(s, c), c, ms[1..]);
      Calls.Prepend(sv, s1, Calls.Release, DeliverAll(c, d2));
      Calls.Prepend(sv, s, Calls.Fire(c), [Calls.Release] + DeliverAll(c, d2));
    }
  }

  /** One response delivered: a callback and a release. */
  function OneDelivered(s: Calls.State, c: nat): Calls.State
    requires c < |s.links| && s.links[c].down != [] && Expected(s.slots, s.links[c].down[0].message.seqNo)
  {
    var l := s.links[c];
    var m := l.down[0].message;
    s.(fired := s.fired + [(s.slots[m.seqNo].value, m)], slots := s.slots[m.seqNo := None],
       links := s.links[c := l.(down := l.down[1..])])
  }

  lemma FireThenRelease(sv: Server, s: Calls.State, c: nat)
    requires c < |s.links| && s.links[c].down != [] && Expected(s.slots, s.links[c].down[0].message.seqNo)
    requires s.freeing.None? && !s.crashed
    ensures var s1 := Calls.Do(sv, s, Calls.Fire(c));
      Calls.Enabled(s1, Calls.Release) && Calls.Do(sv, s1, Calls.Release) == OneDelivered(s, c)
  {}

  lemma {:induction false} DeliveredFirst(s: Calls.State, c: nat, ms: seq<Message>)
    requires c < |s.links| && Begins(s.links[c].down, ms) && ms != [] && Expected(s.slots, ms[0].seqNo) && !s.crashed
    ensures var s2, d := OneDelivered(s, c), Deliver(s.slots, ms);
      && d.log != [] && Begins(s2.links[c].down, ms[1..])
      && Deliver(s2.slots, ms[1..]) == d.(log := d.log[1..])
      && Delivered(s2, c, d.(log := d.log[1..])) == Delivered(s, c, d)
  {
    hide Deliver, Arrive, Delivered;
    var d := Deliver(s.slots, ms);
    DeliverUnfold(s.slots, ms);
    var d2 := Deliver(OneDelivered(s, c).slots, ms[1..]);
    assert d.log[1..] == d2.log;
    DeliveredCount(s.slots, ms);
    DeliveredJoin(s, c, d2);
  }

  lemma DeliveredJoin(s: Calls.State, c: nat, d: Delivery)
    requires c < |s.links| && s.links[c].down != [] && Expected(s.slots, s.links[c].down[0].message.seqNo)
    requires !s.crashed && |d.log| + (if d.last.Found? then 0 else 1) < |s.links[c].down|
    ensures var m := s.links[c].down[0].message;
      Delivered(OneDelivered(s, c), c, d) == Delivered(s, c, d.(log := [(s.slots[m.seqNo].value, m)] + d.log))
  {
    var l, n := s.links[c], |d.log| + if d.last.Found? then 0 else 1;
    var m := l.down[0].message;
    var first := [(s.slots[m.seqNo].value, m)];
    assert s.fired + first + d.log == s.fired + (first + d.log);
    assert l.down[1..][n..] == l.down[n + 1..];
    SetTwice(s.links, c, l.(down := l.down[1..]), l.(down := l.down[n + 1..]));
  }

  lemma SetTwice<T>(s: seq<T>, i: nat, x: T, y: T)
    requires i < |s|
    ensures s[i := x][i := y] == s[i := y]
  {}

  lemma {:induction false} DeliverUnfold(slots: seq<Option<Pending>>, ms: seq<Message>)
    requires ms != [] && Expected(slots, ms[0].seqNo)
    ensures var i := ms[0].seqNo; var d := Deliver(slots[i := None], ms[1..]);
      Deliver(slots, ms) == d.(log := [(slots[i].value, ms[0])] + d.log)
  {}

  lemma {:induction false} DeliveredCount(slots: seq<Option<Pending>>, ms: seq<Message>)
    ensures var d := Deliver(slots, ms); |d.log| + (if d.last.Found? then 0 else 1) <= |ms|
    decreases |ms|
  {
    if ms != [] && Expected(slots, ms[0].seqNo) {
      DeliveredCount(slots[ms[0].seqNo := None], ms[1..]);
    }
  }

  /** The whole callback of the client: what it did to the callbacks and the slots is a run of the protocol. */
  lemma CallbackIsSteps(sv: Server, s: Calls.State, c: nat, st: State, beyond: Byte)
    requires c < |s.links| && s.freeing.None? && !s.crashed
    requires Begins(s.links[c].down, Receive(st, s.slots, beyond).out)
    ensures var r := Receive(st, s.slots, beyond); var steps := DeliverAll(c, Deliver(s.slots, r.out));
      && Calls.Legal(sv, s, steps)
      && var s' := Calls.After(sv, s, steps);
         && s'.fired == s.fired + r.log && s'.slots == r.slots
         && s'.links == s.links[c := s.links[c].(down := s.links[c].down[|r.out|..])]
         && s'.refused == (s.refused || r.end == Stops(Mismatch))
         && (r.end == Stops(Crash) <==> s'.crashed)
  {
    hide Calls.Legal, Calls.After, DeliverAll, Deliver, Receive;
    var r := Receive(st, s.slots, beyond);
    ReceiveIsDelivery(st, s.slots, beyond);
    DeliveriesAreSteps(sv, s, c, r.out);
  }
}
