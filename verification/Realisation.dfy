/** Every run of the call protocol is the shadow of a run on bytes, so the runs that go wrong are runs on bytes. */
module Realisation {
  import opened Wire
  import opened Frame
  import opened HeadDetection
  import opened Reader
  import opened Service
  import opened SendLoop
  import opened ClientLoop
  import opened ProtocolText
  import opened EndToEnd

  /** All messages are on the wire, as text, and the readers hold nothing. */
  ghost predicate SettledPipe(p: Pipe, l: Calls.Link) {
    && p.up == Stream(Messages(l.up)) && p.server == State(None, []) && p.curr == l.curr && p.replying == []
    && p.down == Stream(Messages(l.down)) && p.client == State(None, [])
  }

  ghost predicate Settled(b: System, a: Calls.State) {
    && b.calls == a.(links := []) && b.iov == [] && !b.failed && |b.pipes| == |a.links|
    && forall c :: 0 <= c < |b.pipes| ==> SettledPipe(b.pipes[c], a.links[c])
  }

  lemma InitialSettled(n: nat)
    ensures Settled(Initial(n), Calls.Initial(n))
  {
    assert Messages([]) == [] && Stream([]) == [];
  }

  lemma SettledPipeAt(b: System, a: Calls.State, b': System, a': Calls.State, c: nat)
    requires Settled(b, a) && c < |b.pipes| == |b'.pipes| && |a'.links| == |a.links|
    requires b'.pipes == b.pipes[c := b'.pipes[c]] && a'.links == a.links[c := a'.links[c]]
    requires b'.calls == a'.(links := []) && b'.iov == [] && !b'.failed && SettledPipe(b'.pipes[c], a'.links[c])
    ensures Settled(b', a')
  {
    hide SettledPipe;
  }

  /** A run of which every action is undisturbed and whose shadow is known. */
  ghost predicate Runs(sv: Server, b: System, ts: seq<Action>, steps: seq<Calls.Step>, b': System) {
    Legal(sv, b, ts) && AllUndisturbed(sv, b, ts) && ShadowRun(sv, b, ts) == steps && After(sv, b, ts) == b'
  }

  lemma RunsNowhere(sv: Server, b: System)
    ensures Runs(sv, b, [], [], b)
  {}

  lemma RunsFirst(sv: Server, b: System, t: Action, rest: seq<Action>, steps: seq<Calls.Step>, b': System)
    requires Can(b, t) && Undisturbed(b, t) && Runs(sv, Do(sv, b, t), rest, steps, b')
    ensures t.ServerTurn? || t.ClientTurn? ==> t.conn < |b.pipes|
    ensures Runs(sv, b, [t] + rest, Behind(Shadow(b, t), steps), b')
  {
    hide Do, Undisturbed, Shadow;
    assert ([t] + rest)[1..] == rest;
  }

  lemma FirstOfBoth(ts: seq<Action>, ts': seq<Action>)
    requires ts != []
    ensures [ts[0]] + (ts[1..] + ts') == ts + ts'
  {}

  lemma BehindBoth(s: Option<Calls.Step>, tail: seq<Calls.Step>, steps: seq<Calls.Step>)
    ensures Behind(s, tail + steps) == Behind(s, tail) + steps
  {}

  lemma RunsSplit(sv: Server, b: System, ts: seq<Action>, steps: seq<Calls.Step>, b': System) returns (tail: seq<Calls.Step>)
    requires Runs(sv, b, ts, steps, b') && ts != []
    ensures Can(b, ts[0]) && Undisturbed(b, ts[0]) && Runs(sv, Do(sv, b, ts[0]), ts[1..], tail, b')
    ensures ts[0].ServerTurn? || ts[0].ClientTurn? ==> ts[0].conn < |b.pipes|
    ensures steps == Behind(Shadow(b, ts[0]), tail)
  {
    hide Do, Undisturbed, Shadow;
    tail := ShadowRun(sv, Do(sv, b, ts[0]), ts[1..]);
  }

  lemma {:induction false} RunsOn(sv: Server, b: System, ts: seq<Action>, steps: seq<Calls.Step>, b': System,
                                  ts': seq<Action>, steps': seq<Calls.Step>, b'': System)
    requires Runs(sv, b, ts, steps, b') && Runs(sv, b', ts', steps', b'')
    ensures Runs(sv, b, ts + ts', steps + steps', b'')
    decreases |ts|
  {
    if ts == [] {
      assert ts + ts' == ts' && steps + steps' == steps';
    } else {
      hide Runs, Can, Do, Undisturbed, Shadow;
      var t := ts[0];
      var tail := RunsSplit(sv, b, ts, steps, b');
      RunsOn(sv, Do(sv, b, t), ts[1..], tail, b', ts', steps', b'');
      RunsFirst(sv, b, t, ts[1..] + ts', tail + steps', b'');
      FirstOfBoth(ts, ts');
      BehindBoth(Shadow(b, t), tail, steps');
    }
  }

  lemma LocalRealised(sv: Server, b: System, a: Calls.State, step: Calls.Step) returns (ts: seq<Action>, b': System)
    requires Settled(b, a) && Calls.Enabled(a, step) && !step.Send? && !step.Serve? && !step.Fire?
    ensures Runs(sv, b, ts, [step], b') && Settled(b', Calls.Do(sv, a, step))
  {
    hide SettledPipe, SessionPool.Inserted, SessionPool.FirstEmpty, Runs;
    b' := Do(sv, b, Local(step));
    RunsNowhere(sv, b');
    RunsFirst(sv, b, Local(step), [], [], b');
    ts := [Local(step)] + [];
    assert [step] + [] == [step];
  }

  lemma AllSent(iov: seq<Bytes>)
    ensures Unsent(iov, |Flatten(iov)|) == [] && !CutOff(iov, |Flatten(iov)|)
  {
    AllIsBoundary(iov);
  }

  lemma SendRealised(sv: Server, b: System, a: Calls.State) returns (ts: seq<Action>, b': System)
    requires Settled(b, a) && Calls.Shaped(a) && AllPrintable(a.issued) && Calls.Enabled(a, Calls.Send)
    ensures Runs(sv, b, ts, [Calls.Send], b') && Settled(b', Calls.Do(sv, a, Calls.Send))
  {
    hide SettledPipe, Runs, Flatten, MessageVectors, Unsent, CutOff, Calls.RequestMessage, Calls.SendOn, Printable, Stream, Encode;
    var m, b1 := Calls.InHand(b.calls).message, Do(sv, b, Format);
    assert a.issued[a.hand.id] in a.issued;
    BodyFits(a.issued[a.hand.id], a.hand.index);
    VectorsText(m);
    var n, c := |Flatten(b1.iov)|, b1.writeTo;
    AllSent(b1.iov);
    b' := Do(sv, b1, Write(n));
    SettledSends(b.pipes[c], a.links[c], Calls.InHand(a));
    assert Flatten(b1.iov)[..n] == Encode(m);
    RunsNowhere(sv, b');
    RunsFirst(sv, b1, Write(n), [], [], b');
    RunsFirst(sv, b, Format, [Write(n)] + [], [], b');
    ts := [Format] + ([Write(n)] + []);
    assert [Calls.Send] + [] == [Calls.Send];
    SettledPipeAt(b, a, b', Calls.Do(sv, a, Calls.Send), c);
  }

  lemma SettledSends(p: Pipe, l: Calls.Link, t: Calls.Tagged)
    requires SettledPipe(p, l)
    ensures SettledPipe(p.(up := p.up + Encode(t.message)), Calls.SendOn(l, t))
  {
    hide Encode;
    StreamAppend(Messages(l.up), t.message);
    assert Messages(l.up + [t]) == Messages(l.up) + [t.message];
    hide Stream;
  }

  /** A callback that finds an empty window ends. */
  lemma ServerIdles(sv: Server, b: System, a: Calls.State, c: nat) returns (ts: seq<Action>, b': System)
    requires Settled(b, a) && c < |b.pipes|
    ensures Runs(sv, b, ts, [], b') && Settled(b', a) && |b'.pipes| == |b.pipes| && !b'.pipes[c].serving
  {
    hide Runs, TakeTurn, Stray;
    ts, b' := [], b;
    RunsNowhere(sv, b');
    if b.pipes[c].serving {
      TurnOnNothing(Requests, NUL);
      b' := Do(sv, b, ServerTurn(c, NUL));
      RunsNowhere(sv, b');
      RunsFirst(sv, b, ServerTurn(c, NUL), [], [], b');
      ts := [ServerTurn(c, NUL)] + [];
      SettledPipeAt(b, a, b', a, c);
    }
  }

  lemma ClientIdles(sv: Server, b: System, a: Calls.State, c: nat) returns (ts: seq<Action>, b': System)
    requires Settled(b, a) && c < |b.pipes| && b.calls.freeing.None? && !b.calls.crashed
    ensures Runs(sv, b, ts, [], b') && Settled(b', a) && |b'.pipes| == |b.pipes| && !b'.pipes[c].receiving
  {
    hide Runs, TakeTurn, Stray;
    ts, b' := [], b;
    RunsNowhere(sv, b');
    if b.pipes[c].receiving {
      TurnOnNothing(Responses, NUL);
      b' := Do(sv, b, ClientTurn(c, NUL));
      RunsNowhere(sv, b');
      RunsFirst(sv, b, ClientTurn(c, NUL), [], [], b');
      ts := [ClientTurn(c, NUL)] + [];
      SettledPipeAt(b, a, b', a, c);
    }
  }

  /** The first message of a stream, read on its own, is dispatched. */
  lemma FirstDispatched(kind: Kind, ms: seq<Message>)
    requires AllGood(kind, ms) && ms != []
    ensures var e := |Encode(ms[0])|;
      && 0 < e <= |Stream(ms)| && Stream(ms)[e..] == Stream(ms[1..]) && [] + Stream(ms)[..e] == Encode(ms[0])
      && TakeTurn(kind, State(None, Encode(ms[0])), NUL) == Emit(ms[0], e) && Encode(ms[0])[e..] == []
  {
    hide TakeTurn, Encode, GoodMessage;
    EncodeParts(ms[0]);
    StreamSplit(ms);
    FullTurn(kind, ms[0], [], NUL);
    assert Encode(ms[0]) + [] == Encode(ms[0]);
    hide Stream;
  }

  /** What reading, answering and sending the reply make of a connection. */
  lemma SettledServes(sv: Server, p: Pipe, l: Calls.Link)
    requires SettledPipe(p, l) && SoundLink(l) && Bounded(sv) && l.up != []
    ensures var m := l.up[0].message; var e := |Encode(m)|;
      && 0 < e <= |p.up|
      && var p1 := ServerReads(p, e);
         && p1.server == State(None, Encode(m)) && TakeTurn(Requests, p1.server, NUL) == Emit(m, e)
         && var p2 := ServerTurns(sv, p1, Emit(m, e));
            && Flatten(p2.replying) != []
            && SettledPipe(p2.(replying := [], down := p2.down + Flatten(p2.replying)), Calls.ServeOn(sv, l))
  {
    hide TakeTurn, Encode, GoodMessage, Bounded, Stream, Flatten, MessageVectors;
    var m, l' := l.up[0].message, Calls.ServeOn(sv, l);
    assert Messages(l.up)[0] == m;
    FirstDispatched(Requests, Messages(l.up));
    assert Messages(l.up)[1..] == Messages(l'.up);
    var reply := Answer(sv, l.curr, m).0;
    AnswerFits(sv, l.curr, m);
    VectorsText(reply);
    StreamAppend(Messages(l.down), reply);
    assert Messages(l'.down) == Messages(l.down) + [reply];
  }

  lemma ServeRealised(sv: Server, b: System, a: Calls.State, c: nat) returns (ts: seq<Action>, b': System)
    requires Settled(b, a) && Sound(a) && Bounded(sv) && Calls.Enabled(a, Calls.Serve(c))
    ensures Runs(sv, b, ts, [Calls.Serve(c)], b') && Settled(b', Calls.Do(sv, a, Calls.Serve(c)))
  {
    hide SettledPipe, SoundLink, Runs, Flatten, TakeTurn, Encode, Bounded, ServerTurns, Calls.ServeOn, Unsent, CutOff, Stray, Calls.Shaped;
    var idle, b0 := ServerIdles(sv, b, a, c);
    assert a.links[c] in a.links;
    var p, m := b0.pipes[c], a.links[c].up[0].message;
    SettledServes(sv, p, a.links[c]);
    var read, turn := ServerRead(c, |Encode(m)|), ServerTurn(c, NUL);
    var b1 := Do(sv, b0, read);
    NoStray(b1.pipes[c].server);
    assert b1.pipes[c].replying == [] by { SettledReplying(p, a.links[c]); }
    var b2 := Do(sv, b1, turn);
    var write := ServerWrite(c, |Flatten(b2.pipes[c].replying)|);
    AllSent(b2.pipes[c].replying);
    b' := Do(sv, b2, write);
    RunsNowhere(sv, b');
    RunsFirst(sv, b2, write, [], [], b');
    RunsFirst(sv, b1, turn, [write] + [], [], b');
    var steps := [Calls.Serve(c)];
    assert steps + [] == steps && [] + steps == steps;
    RunsFirst(sv, b0, read, [turn] + ([write] + []), steps, b');
    RunsOn(sv, b, idle, [], b0, [read] + ([turn] + ([write] + [])), steps, b');
    ts := idle + ([read] + ([turn] + ([write] + [])));
    var all := Flatten(b2.pipes[c].replying);
    assert all[..|all|] == all;
    SettledPipeAt(b0, a, b', Calls.Do(sv, a, Calls.Serve(c)), c);
  }

  lemma SettledReplying(p: Pipe, l: Calls.Link)
    requires SettledPipe(p, l)
    ensures p.replying == []
  {}

  lemma NoStray(st: State)
    ensures !StrayRead(st, NUL)
  {}

  /** What reading a response and delivering it make of a connection. */
  lemma SettledFires(p: Pipe, l: Calls.Link)
    requires SettledPipe(p, l) && SoundLink(l) && l.down != []
    ensures var m := l.down[0].message; var e := |Encode(m)|;
      && 0 < e <= |p.down|
      && var p1 := ClientReads(p, e);
         && p1.client == State(None, Encode(m)) && TakeTurn(Responses, p1.client, NUL) == Emit(m, e)
         && forall slots :: SettledPipe(ClientTurns(slots, p1, Emit(m, e)), l.(down := l.down[1..]))
  {
    hide TakeTurn, Encode, GoodMessage, Stream;
    assert Messages(l.down)[0] == l.down[0].message;
    FirstDispatched(Responses, Messages(l.down));
    assert Messages(l.down)[1..] == Messages(l.down[1..]);
  }

  lemma FireRealised(sv: Server, b: System, a: Calls.State, c: nat) returns (ts: seq<Action>, b': System)
    requires Settled(b, a) && Sound(a) && Calls.Enabled(a, Calls.Fire(c))
    ensures Runs(sv, b, ts, [Calls.Fire(c)], b') && Settled(b', Calls.Do(sv, a, Calls.Fire(c)))
  {
    hide SettledPipe, SoundLink, Runs, TakeTurn, Encode, Stray, Calls.Shaped, Arrive, ClientTurns;
    var idle, b0 := ClientIdles(sv, b, a, c);
    assert a.links[c] in a.links;
    var p, m := b0.pipes[c], a.links[c].down[0].message;
    SettledFires(p, a.links[c]);
    var read, turn := ClientRead(c, |Encode(m)|), ClientTurn(c, NUL);
    var b1 := Do(sv, b0, read);
    NoStray(b1.pipes[c].client);
    b' := Do(sv, b1, turn);
    RunsNowhere(sv, b');
    var steps := [Calls.Fire(c)];
    assert steps + [] == steps && [] + steps == steps;
    RunsFirst(sv, b1, turn, [], [], b');
    RunsFirst(sv, b0, read, [turn] + [], steps, b');
    RunsOn(sv, b, idle, [], b0, [read] + ([turn] + []), steps, b');
    ts := idle + ([read] + ([turn] + []));
    SettledPipeAt(b0, a, b', Calls.Do(sv, a, Calls.Fire(c)), c);
  }

  lemma StepRealised(sv: Server, b: System, a: Calls.State, step: Calls.Step) returns (ts: seq<Action>, b': System)
    requires Settled(b, a) && Sound(a) && AllPrintable(a.issued) && Bounded(sv) && Calls.Enabled(a, step)
    ensures Runs(sv, b, ts, [step], b') && Settled(b', Calls.Do(sv, a, step))
  {
    hide Settled, Runs, AllPrintable, Bounded;
    match step
    case Send => ts, b' := SendRealised(sv, b, a);
    case Serve(c) => ts, b' := ServeRealised(sv, b, a, c);
    case Fire(c) => ts, b' := FireRealised(sv, b, a, c);
    case _ => ts, b' := LocalRealised(sv, b, a, step);
  }

  /** Nothing of the call protocol is lost on bytes: every run of printable requests is the shadow of an undisturbed run. */
  lemma {:induction false} RunRealised(sv: Server, b: System, a: Calls.State, steps: seq<Calls.Step>) returns (ts: seq<Action>, b': System)
    requires Settled(b, a) && Sound(a) && Bounded(sv)
    requires Calls.Legal(sv, a, steps) && AllPrintable(Calls.After(sv, a, steps).issued)
    ensures Runs(sv, b, ts, steps, b') && Settled(b', Calls.After(sv, a, steps))
    decreases |steps|
  {
    hide Settled, Runs, Sound, AllPrintable, Bounded, Calls.Enabled, Calls.Do;
    if steps == [] {
      ts, b' := [], b;
      RunsNowhere(sv, b);
    } else {
      var a1 := Calls.Do(sv, a, steps[0]);
      Calls.IssuedGrows(sv, a, steps);
      IssuedFit(a.issued, Calls.After(sv, a, steps).issued);
      var first, b1 := StepRealised(sv, b, a, steps[0]);
      StepKeepsSound(sv, a, steps[0]);
      var rest;
      rest, b' := RunRealised(sv, b1, a1, steps[1..]);
      RunsOn(sv, b, first, [steps[0]], b1, rest, steps[1..], b');
      assert [steps[0]] + steps[1..] == steps;
      ts := first + rest;
    }
  }

  /** In particular the run in which a caller gets somebody else's reply. */
  lemma WrongCallbackOnBytes(sv: Server, known: Calls.Request, unknown: Calls.Request) returns (ts: seq<Action>)
    requires Bounded(sv) && Printable(known) && Printable(unknown)
    requires StoredKey(known.methodName, known.service) in sv.registered
    requires StoredKey(unknown.methodName, unknown.service) !in sv.registered
    ensures Legal(sv, Initial(1), ts) && AllUndisturbed(sv, Initial(1), ts)
    ensures var b := After(sv, Initial(1), ts);
      && b.calls.issued == [known, unknown, known] && |b.calls.fired| == 2
      && b.calls.fired[1] == (Call(2, 0), Message(StatusLine(404, "NotFound"), 0, "not find method@service"))
  {
    var steps := Calls.WrongCallback(sv, known, unknown);
    InitialSettled(1);
    InitialSound(1);
    hide Legal, AllUndisturbed, After, Printable, Calls.Legal, Calls.After, Initial, Calls.Initial, ShadowRun, Sound;
    var b';
    ts, b' := RunRealised(sv, Initial(1), Calls.Initial(1), steps);
  }

  /** The first call on fresh connections gets its reply, or, if its service is not registered, crashes the client. */
  lemma FirstCallOnBytes(sv: Server, n: nat, r: Calls.Request) returns (ts: seq<Action>)
    requires n > 0 && Bounded(sv) && Printable(r)
    ensures Legal(sv, Initial(n), ts) && AllUndisturbed(sv, Initial(n), ts)
    ensures var b := After(sv, Initial(n), ts);
      && b.calls.issued == [r] && (b.calls.crashed <==> StoredKey(r.methodName, r.service) !in sv.registered)
      && (b.calls.crashed ==> b.calls.fired == [])
      && (!b.calls.crashed ==>
            |b.calls.fired| == 1 && b.calls.fired[0].0 == Call(0, 0) && Calls.GoodReply(sv, [r], 0, 0, b.calls.fired[0].1))
  {
    var steps := Calls.FirstCall(sv, n, r);
    InitialSettled(n);
    InitialSound(n);
    hide Legal, AllUndisturbed, After, Printable, Calls.Legal, Calls.After, Initial, Calls.Initial, ShadowRun, Sound, Calls.GoodReply;
    var b';
    ts, b' := RunRealised(sv, Initial(n), Calls.Initial(n), steps);
  }

  // ----- responses behind one that is refused -----

  /** A client's callback that has ended stays ended, and what lies with it stays there, until the next read on its connection. */
  lemma {:induction false} StaysStopped(sv: Server, b: System, ts: seq<Action>, c: nat)
    requires Legal(sv, b, ts) && c < |b.pipes| && !b.pipes[c].receiving
    requires forall t :: t in ts ==> !(t.ClientRead? && t.conn == c)
    ensures |After(sv, b, ts).pipes| == |b.pipes|
    ensures var p := After(sv, b, ts).pipes[c]; !p.receiving && p.client == b.pipes[c].client
    decreases |ts|
  {
    if ts != [] {
      assert ts[0] in ts;
      PipeLeftAlone(sv, b, ts[0], c);
      hide Can, Do;
      StaysStopped(sv, Do(sv, b, ts[0]), ts[1..], c);
    }
  }

  lemma PipeLeftAlone(sv: Server, b: System, t: Action, c: nat)
    requires Can(b, t) && c < |b.pipes| && !b.pipes[c].receiving && !(t.ClientRead? && t.conn == c)
    ensures |Do(sv, b, t).pipes| == |b.pipes|
    ensures var p := Do(sv, b, t).pipes[c]; !p.receiving && p.client == b.pipes[c].client
  {
    hide TakeTurn, Flatten, Unsent, MessageVectors, Arrive, Later, Answer, SessionPool.Inserted, SessionPool.FirstEmpty;
  }

  /** Responses read in one go with one that goes wrong in front: they stay with the client. */
  lemma LeftBehind(sv: Server, b: System, a: Calls.State, c: nat) returns (ts: seq<Action>, b': System)
    requires Settled(b, a) && Sound(a) && Calls.Enabled(a, Calls.Fire(c)) && !Expected(a.slots, a.links[c].down[0].message.seqNo)
    ensures Runs(sv, b, ts, [Calls.Fire(c)], b') && |b'.pipes| == |a.links|
    ensures b'.calls == Calls.Do(sv, a, Calls.Fire(c)).(links := [])
    ensures var p := b'.pipes[c];
      p.stopped && !p.receiving && p.down == [] && p.client == State(None, Stream(Messages(a.links[c].down[1..])))
  {
    hide SettledPipe, SoundLink, Runs, TakeTurn, Encode, Stray, Calls.Shaped, Arrive, ClientTurns;
    var idle, b0 := ClientIdles(sv, b, a, c);
    assert a.links[c] in a.links;
    var p, m := b0.pipes[c], a.links[c].down[0].message;
    SettledBehind(p, a.links[c], a.slots);
    var read, turn := ClientRead(c, |p.down|), ClientTurn(c, NUL);
    var b1 := Do(sv, b0, read);
    NoStray(b1.pipes[c].client);
    b' := Do(sv, b1, turn);
    RunsNowhere(sv, b');
    var steps := [Calls.Fire(c)];
    assert steps + [] == steps && [] + steps == steps;
    RunsFirst(sv, b1, turn, [], [], b');
    RunsFirst(sv, b0, read, [turn] + [], steps, b');
    RunsOn(sv, b, idle, [], b0, [read] + ([turn] + []), steps, b');
    ts := idle + ([read] + ([turn] + []));
  }

  lemma SettledBehind(p: Pipe, l: Calls.Link, slots: seq<Option<Pending>>)
    requires SettledPipe(p, l) && SoundLink(l) && l.down != [] && !Expected(slots, l.down[0].message.seqNo)
    ensures 0 < |p.down|
    ensures var p1 := ClientReads(p, |p.down|); var m := l.down[0].message;
      && |Encode(m)| <= |p1.client.window| && TakeTurn(Responses, p1.client, NUL) == Emit(m, |Encode(m)|)
      && var p2 := ClientTurns(slots, p1, Emit(m, |Encode(m)|));
         p2.stopped && !p2.receiving && p2.down == [] && p2.client == State(None, Stream(Messages(l.down[1..])))
  {
    hide TakeTurn, Encode, GoodMessage, Arrive;
    var ms := Messages(l.down);
    EncodeParts(ms[0]);
    StreamSplit(ms);
    assert ms[1..] == Messages(l.down[1..]);
    hide Stream;
    FullTurn(Responses, ms[0], Stream(ms[1..]), NUL);
    assert [] + p.down[..|p.down|] == p.down;
  }

  /** It happens: the refused response answers a call for a service that is not registered, and names a slot that the writer has just
      taken; the one left behind is the reply to a call for a registered service. No run without another read on the connection delivers it. */
  lemma ReplyLeftBehind(sv: Server, known: Calls.Request, unknown: Calls.Request) returns (ts: seq<Action>)
    requires Bounded(sv) && Printable(known) && Printable(unknown)
    requires StoredKey(known.methodName, known.service) in sv.registered
    requires StoredKey(unknown.methodName, unknown.service) !in sv.registered
    ensures Legal(sv, Initial(1), ts) && AllUndisturbed(sv, Initial(1), ts)
    ensures var b := After(sv, Initial(1), ts); var h := sv.handle(StoredKey(known.methodName, known.service), known.input);
      && b.calls.issued == [known, unknown, known, known] && b.calls.refused && |b.calls.fired| == 1 && |b.pipes| == 1
      && !b.pipes[0].receiving && b.pipes[0].down == [] && b.pipes[0].client == State(None, ReplyText(h.code, 2, h.output))
  {
    hide *;
    var steps := Calls.BeforeRefusalReached(sv, known, unknown, 1);
    var a := Calls.BeforeRefusal(sv, known, unknown, 1);
    InitialSettled(1);
    InitialSound(1);
    RefusalFits(sv, known, unknown);
    OneReplyText(sv, known);
    var first, b := RunRealised(sv, Initial(1), Calls.Initial(1), steps);
    var last, b' := LeftBehind(sv, b, a, 0);
    RunsOn(sv, Initial(1), first, steps, b, last, [Calls.Fire(0)], b');
    ts := first + last;
    RunsMeans(sv, Initial(1), ts, steps + [Calls.Fire(0)], b');
  }

  lemma RefusalFits(sv: Server, known: Calls.Request, unknown: Calls.Request)
    requires Bounded(sv) && Printable(known) && Printable(unknown)
    ensures var a := Calls.BeforeRefusal(sv, known, unknown, 1);
      && Sound(a) && AllPrintable(a.issued) && Calls.Enabled(a, Calls.Fire(0)) && !Expected(a.slots, a.links[0].down[0].message.seqNo)
      && var a' := Calls.Do(sv, a, Calls.Fire(0));
         && a'.issued == [known, unknown, known, known] && a'.refused && |a'.fired| == 1 && |a.links| == 1
         && Messages(a.links[0].down[1..]) == [Service.ReplyMessage(2, Calls.Outcome(sv, known))]
  {
    hide Printable, Calls.Outcome, Service.ReplyMessage, GoodMessage;
    OutcomeFits(sv, known, 2);
    OutcomeFits(sv, unknown, 0);
  }

  lemma OneReplyText(sv: Server, known: Calls.Request)
    requires StoredKey(known.methodName, known.service) in sv.registered
    ensures var h := sv.handle(StoredKey(known.methodName, known.service), known.input);
      Stream([Service.ReplyMessage(2, Calls.Outcome(sv, known))]) == ReplyText(h.code, 2, h.output)
  {
    var h := sv.handle(StoredKey(known.methodName, known.service), known.input);
    ReplyIsText(h.code, 2, h.output);
    hide Encode, ReplyText, Code.Number, Code.Phrase;
    var m := Service.ReplyMessage(2, Calls.Outcome(sv, known));
    assert Stream([m]) == Encode(m) + Stream([]);
  }

  lemma OutcomeFits(sv: Server, r: Calls.Request, seqNo: int)
    requires Bounded(sv) && INT_MIN <= seqNo <= INT_MAX
    ensures GoodMessage(Responses, Service.ReplyMessage(seqNo, Calls.Outcome(sv, r)))
    ensures Service.ReplyMessage(seqNo, Calls.Outcome(sv, r)).seqNo == seqNo
  {}

  lemma RunsMeans(sv: Server, b: System, ts: seq<Action>, steps: seq<Calls.Step>, b': System)
    requires Runs(sv, b, ts, steps, b')
    ensures Legal(sv, b, ts) && AllUndisturbed(sv, b, ts) && After(sv, b, ts) == b'
  {}
}
