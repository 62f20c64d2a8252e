/** Several queues on one free list against sequences, over whole runs of their operations (src/rpc_queue.c). */
module QueueRuns {
  import opened Wire
  import opened Seqs
  import opened ItemQueue

  datatype Op<T> = Push(queue: nat, data: T) | Pop(queue: nat)

  /** The contents of the queues after an operation. */
  function Apply<T>(held: seq<seq<T>>, op: Op<T>): seq<seq<T>>
    requires op.queue < |held|
  {
    var s := held[op.queue];
    match op
    case Push(i, data) => held[i := s + [data]]
    case Pop(i) => if s == [] then held else held[i := s[1..]]
  }

  /** The element popped, if any. */
  function Outcome<T>(held: seq<seq<T>>, op: Op<T>): Option<T>
    requires op.queue < |held|
  {
    if op.Pop? && held[op.queue] != [] then Some(held[op.queue][0]) else None
  }

  function Final<T>(held: seq<seq<T>>, ops: seq<Op<T>>): (r: seq<seq<T>>)
    requires forall i :: 0 <= i < |ops| ==> ops[i].queue < |held|
    ensures |r| == |held|
  {
    if ops == [] then held else Apply(Final(held, ops[..|ops| - 1]), ops[|ops| - 1])
  }

  function Results<T>(held: seq<seq<T>>, ops: seq<Op<T>>): (r: seq<Option<T>>)
    requires forall i :: 0 <= i < |ops| ==> ops[i].queue < |held|
    ensures |r| == |ops|
  {
    if ops == [] then []
    else
      var front := ops[..|ops| - 1];
      Results(held, front) + [Outcome(Final(held, front), ops[|ops| - 1])]
  }

  /** What is pushed to queue `q`, and what is popped from it. */
  function Pushed<T>(ops: seq<Op<T>>, q: nat): seq<T> {
    if ops == [] then []
    else
      var last := ops[|ops| - 1];
      Pushed(ops[..|ops| - 1], q) + if last.Push? && last.queue == q then [last.data] else []
  }

  function Popped<T>(ops: seq<Op<T>>, results: seq<Option<T>>, q: nat): seq<T>
    requires |ops| == |results|
  {
    if ops == [] then []
    else
      var k := |ops| - 1;
      Popped(ops[..k], results[..k], q) + if ops[k].Pop? && ops[k].queue == q && results[k].Some? then [results[k].value] else []
  }

  /** First in, first out: what has been popped from a queue, followed by what is still in it, is what was in it followed by what has been
      pushed, whatever happens to the other queues. */
  lemma {:induction false} FirstInFirstOut<T>(held: seq<seq<T>>, ops: seq<Op<T>>, q: nat)
    requires q < |held| && forall i :: 0 <= i < |ops| ==> ops[i].queue < |held|
    ensures Popped(ops, Results(held, ops), q) + Final(held, ops)[q] == held[q] + Pushed(ops, q)
  {
    hide Apply, Outcome;
    if ops == [] {
      assert [] + held[q] == held[q] + [];
    } else {
      var k := |ops| - 1;
      FirstInFirstOut(held, ops[..k], q);
      assert Results(held, ops)[..k] == Results(held, ops[..k]);
      var pushed := Pushed(ops[..k], q);
      OneMore(Popped(ops[..k], Results(held, ops[..k]), q), Final(held, ops[..k]), held[q] + pushed, ops[k], q);
      var last := if ops[k].Push? && ops[k].queue == q then [ops[k].data] else [];
      assert held[q] + pushed + last == held[q] + (pushed + last);
    }
  }

  lemma OneMore<T>(popped: seq<T>, held: seq<seq<T>>, all: seq<T>, op: Op<T>, q: nat)
    requires q < |held| && op.queue < |held| && popped + held[q] == all
    ensures var taken := if op.Pop? && op.queue == q && Outcome(held, op).Some? then [Outcome(held, op).value] else [];
      popped + taken + Apply(held, op)[q] == all + if op.Push? && op.queue == q then [op.data] else []
  {
    if op.Pop? && op.queue == q && held[q] != [] {
      assert held[q] == [held[q][0]] + held[q][1..];
    }
  }

  ghost function Contents<T(0)>(qs: seq<Queue<T>>): (r: seq<seq<T>>)
    reads qs
    ensures |r| == |qs|
  {
    seq(|qs|, i requires 0 <= i < |qs| reads qs => qs[i].contents)
  }

  ghost predicate OnSlab<T(0)>(s: Slab<T>, qs: seq<Queue<T>>)
    reads s
  {
    Distinct(qs) && forall q :: q in qs ==> q in s.rows
  }

  /** One operation: the queue named changes as its sequence does, the others stay. */
  method Perform<T(0)>(s: Slab<T>, qs: seq<Queue<T>>, op: Op<T>) returns (r: Option<T>)
    requires s.Valid() && OnSlab(s, qs) && op.queue < |qs|
    modifies s, qs[op.queue], s.place.Keys - InHand(s.place)
    ensures s.Valid() && OnSlab(s, qs) && InHand(s.place) == old(InHand(s.place)) && fresh(s.place.Keys - old(s.place.Keys))
    ensures Contents(qs) == Apply(old(Contents(qs)), op) && r == Outcome(old(Contents(qs)), op)
    ensures s.rows.Keys == old(s.rows.Keys) && forall q :: q in s.rows && q !in qs ==> s.rows[q] == old(s.rows[q])
  {
    hide Slab.Valid, InHand;
    var q := qs[op.queue];
    ghost var held := Contents(qs);
    match op {
      case Push(i, data) =>
        s.Push(q, data);
        r := None;
      case Pop(i) =>
        var ok, data := s.Pop(q);
        r := if ok then Some(data) else None;
    }
    assert forall j :: 0 <= j < |qs| && j != op.queue ==> qs[j].contents == held[j];
    assert Contents(qs) == Apply(held, op);
  }

  /** Whatever the operations on however many queues, each behaves as a sequence. */
  method Replay<T(0)>(s: Slab<T>, qs: seq<Queue<T>>, ops: seq<Op<T>>) returns (results: seq<Option<T>>)
    requires s.Valid() && OnSlab(s, qs) && forall i :: 0 <= i < |ops| ==> ops[i].queue < |qs|
    modifies s, qs, s.place.Keys - InHand(s.place)
    ensures s.Valid() && OnSlab(s, qs) && InHand(s.place) == old(InHand(s.place))
    ensures Contents(qs) == Final(old(Contents(qs)), ops) && results == Results(old(Contents(qs)), ops)
    ensures s.rows.Keys == old(s.rows.Keys) && forall q :: q in s.rows && q !in qs ==> s.rows[q] == old(s.rows[q])
  {
    hide Slab.Valid, InHand, OnSlab, Apply, Outcome;
    results := [];
    ghost var held := Contents(qs);
    for i := 0 to |ops|
      invariant s.Valid() && OnSlab(s, qs) && InHand(s.place) == old(InHand(s.place)) && fresh(s.place.Keys - old(s.place.Keys))
      invariant Contents(qs) == Final(held, ops[..i]) && results == Results(held, ops[..i])
      invariant s.rows.Keys == old(s.rows.Keys) && forall q :: q in s.rows && q !in qs ==> s.rows[q] == old(s.rows[q])
    {
      var r := Perform(s, qs, ops[i]);
      assert ops[..i + 1][..i] == ops[..i];
      results := results + [r];
    }
    assert ops[..|ops|] == ops;
  }
}
