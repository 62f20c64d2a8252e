/** The whole system on bytes: printed requests, short writes, reads that end anywhere, the incremental readers, and the
    replies the same way back. It refines the call protocol on messages. */
module EndToEnd {
  import opened Wire
  import opened Frame
  import opened HeadDetection
  import opened Reader
  import opened Service
  import opened SendLoop
  import opened ClientLoop
  import Calls = CallProtocol

  // ----- one direction of a connection -----

  lemma {:induction false} StreamAppend(ms: seq<Message>, m: Message)
    ensures Stream(ms + [m]) == Stream(ms) + Encode(m)
  {
    hide Encode;
    if ms == [] {
      assert ms + [m] == [m] && [m][1..] == [];
      assert Stream([m]) == Encode(m) + [];
    } else {
      assert (ms + [m])[1..] == ms[1..] + [m];
      StreamAppend(ms[1..], m);
    }
  }

  /** A reader in state `st` has taken in the first `n` bytes of the messages it has yet to dispatch. */
  ghost predicate Absorbed(ms: seq<Message>, n: nat, st: State) {
    n <= |Stream(ms)| &&
    match st.held
    case None => st.window == Stream(ms)[..n]
    case Some(h) =>
      && ms != [] && h == ms[0].GetHead() && ms[0].body != [] && |HeadText(h)| <= n
      && st.window == Stream(ms)[|HeadText(h)|..n]
  }

  /** The messages not yet dispatched are exactly what the reader holds, followed by the bytes to come. */
  ghost predicate Channel(ms: seq<Message>, st: State, coming: Bytes) {
    && |coming| <= |Stream(ms)|
    && Stream(ms)[|Stream(ms)| - |coming|..] == coming
    && Absorbed(ms, |Stream(ms)| - |coming|, st)
  }

  /** No whole message lies with the reader. */
  ghost predicate Resting(ms: seq<Message>, coming: Bytes) {
    ms == [] || |Stream(ms)| < |Encode(ms[0])| + |coming|
  }

  /** A message sent is bytes to come. */
  lemma ChannelSends(ms: seq<Message>, st: State, coming: Bytes, m: Message)
    requires Channel(ms, st, coming)
    ensures Channel(ms + [m], st, coming + Encode(m))
    ensures Resting(ms, coming) ==> Resting(ms + [m], coming + Encode(m))
  {
    hide Stream, Encode, HeadText;
    StreamAppend(ms, m);
    var n := |Stream(ms)| - |coming|;
    assert Stream(ms + [m])[n..] == Stream(ms)[n..] + Encode(m);
    if ms == [] {
      EncodeParts(m);
      assert Stream(ms) == [] by { StreamOfNone(); }
    } else {
      assert (ms + [m])[0] == ms[0];
    }
  }

  lemma StreamOfNone()
    ensures Stream([]) == []
  {}

  /** Bytes read move to the reader. */
  lemma ChannelReads(ms: seq<Message>, st: State, data: Bytes, coming: Bytes)
    requires Channel(ms, st, data + coming)
    ensures Channel(ms, State(st.held, st.window + data), coming)
  {
    hide Stream, Encode, HeadText;
    var s := Stream(ms);
    var n := |s| - |data + coming|;
    assert s[n..][..|data|] == data && s[n + |data|..] == coming;
    assert s[..n + |data|] == s[..n] + data;
  }

  /** Where the first line feed of a message lies. */
  lemma FirstLineFeed(kind: Kind, h: Head, w: Bytes, beyond: Byte)
    requires GoodHead(kind, h) && (w <= HeadText(h) || HeadText(h) <= w)
    ensures Stray(w, beyond) <==> |w| == |FirstText(h.first)| + 1 && beyond == LF
  {
    var l1 := FirstText(h.first);
    FirstPlain(kind, h.first);
    HeadTextLines(h);
    hide FirstText, HeadText, Stray, GoodHead;
    assert forall i :: 0 <= i < |w| && i <= |l1| ==> w[i] == HeadText(h)[i];
    StrayMeans(w, beyond, |l1|);
  }

  /** One turn of a read callback: it dispatches the next message when that is complete, keeps what it has read otherwise, and
      fails only on a stray line feed. */
  lemma ChannelTurn(kind: Kind, ms: seq<Message>, st: State, coming: Bytes, beyond: Byte)
    requires AllGood(kind, ms) && Channel(ms, st, coming)
    ensures var t := TakeTurn(kind, st, beyond);
      && (Resting(ms, coming) <==> !t.Emit?)
      && (t.Emit? ==> ms != [] && t.message == ms[0] && Channel(ms[1..], State(None, st.window[t.size..]), coming))
      && (t.Hold? ==> Channel(ms, State(Some(t.head), st.window[t.size..]), coming))
      && !t.Lost? && (t.Error? <==> st.held.None? && Stray(st.window, beyond))
  {
    hide TakeTurn, Encode, HeadText, FirstText, Stray, GoodMessage;
    var s := Stream(ms);
    var n := |s| - |coming|;
    if ms == [] {
      TurnOnNothing(kind, beyond);
    } else {
      var m, h := ms[0], ms[0].GetHead();
      EncodeParts(m);
      StreamSplit(ms);
      assert GoodHead(kind, h) by { GoodParts(kind, m); }
      if st.held.Some? {
        HeldChannel(kind, ms, st, coming, beyond);
      } else {
        hide Stream;
        assert st.window <= HeadText(h) || HeadText(h) <= st.window by { PrefixesMeet(st.window, HeadText(h), s); }
        FirstLineFeed(kind, h, st.window, beyond);
        FreshChannel(kind, ms, st.window, coming, beyond);
      }
    }
  }

  lemma PrefixesMeet(a: Bytes, b: Bytes, s: Bytes)
    requires a <= s && b <= s
    ensures a <= b || b <= a
  {}

  lemma TurnOnNothing(kind: Kind, beyond: Byte)
    ensures TakeTurn(kind, State(None, []), beyond) == Idle && !Stray([], beyond)
    ensures Stream([]) == []
  {}

  /** What a reader that holds a head has of the body. */
  lemma HeldBody(ms: seq<Message>, st: State, coming: Bytes)
    requires Channel(ms, st, coming) && st.held.Some?
    ensures ms != [] && ms[0].body != [] && st.held == Some(ms[0].GetHead())
    ensures if Resting(ms, coming) then st.window <= ms[0].body && |st.window| < |ms[0].body|
            else ms[0].body <= st.window && Channel(ms[1..], State(None, st.window[|ms[0].body|..]), coming)
  {
    hide Encode, HeadText;
    var m, w, n := ms[0], st.window, |Stream(ms)| - |coming|;
    EncodeParts(m);
    StreamSplit(ms);
    BodySlices(Stream(ms), HeadText(m.GetHead()), m.body, Stream(ms[1..]), n);
    if n >= |Encode(m)| {
      NextChannel(ms, coming, w[|m.body|..]);
    }
  }

  lemma HeldChannel(kind: Kind, ms: seq<Message>, st: State, coming: Bytes, beyond: Byte)
    requires Channel(ms, st, coming) && st.held.Some?
    ensures ms != []
    ensures var t := TakeTurn(kind, st, beyond);
      if Resting(ms, coming) then t == Idle
      else t == Emit(ms[0], |ms[0].body|) && Channel(ms[1..], State(None, st.window[|ms[0].body|..]), coming)
  {
    hide TakeTurn, Channel, Resting;
    HeldBody(ms, st, coming);
    HeldTurn(kind, ms[0], st.window, beyond);
  }

  /** With the first message gone the bytes to come are the same. */
  lemma NextChannel(ms: seq<Message>, coming: Bytes, w: Bytes)
    requires ms != [] && |Encode(ms[0])| + |coming| <= |Stream(ms)|
    requires Stream(ms)[|Stream(ms)| - |coming|..] == coming
    requires w <= Stream(ms[1..]) && |w| + |Encode(ms[0])| + |coming| == |Stream(ms)|
    ensures Channel(ms[1..], State(None, w), coming)
  {
    hide Encode;
    StreamSplit(ms);
    hide Stream;
  }

  lemma FreshChannel(kind: Kind, ms: seq<Message>, w: Bytes, coming: Bytes, beyond: Byte)
    requires ms != [] && GoodMessage(kind, ms[0]) && Channel(ms, State(None, w), coming)
    ensures var t := TakeTurn(kind, State(None, w), beyond);
      var line := |w| == |FirstText(ms[0].first)| + 1 && beyond == LF;
      if !Resting(ms, coming) then t == Emit(ms[0], |Encode(ms[0])|) && !line && Channel(ms[1..], State(None, w[t.size..]), coming)
      else (t.Hold? && !line && Channel(ms, State(Some(t.head), w[t.size..]), coming)) || t == if line then Error(|w|) else Idle
  {
    hide TakeTurn, Encode, HeadText, FirstText, GoodMessage;
    var m, h := ms[0], |HeadText(ms[0].GetHead())|;
    EncodeParts(m);
    StreamSplit(ms);
    hide Stream;
    var s, e, n := Stream(ms), |Encode(m)|, |w|;
    if n >= e {
      assert w == Encode(m) + Stream(ms[1..])[..n - e];
      FullTurn(kind, m, Stream(ms[1..])[..n - e], beyond);
      NextChannel(ms, coming, Stream(ms[1..])[..n - e]);
    } else if n >= h {
      assert w == HeadText(m.GetHead()) + m.body[..n - h];
      HoldTurn(kind, m, n - h, beyond);
      assert w[h..] == s[h..n];
    } else {
      assert w == HeadText(m.GetHead())[..n];
      assert GoodHead(kind, m.GetHead()) by { GoodParts(kind, m); }
      PartialTurn(kind, m.GetHead(), n, beyond);
    }
  }

  // ----- the system -----

  /** A connection: the bytes on their way and the reader at the end of each direction, `serving` and `receiving` while its
      callback runs, the server's curr_seq, and the vectors of the reply that the server is sending. `stopped` tells that the client's
      callback has ended at a response that went wrong; what lies behind that one waits for the next read. */
  datatype Pipe = Pipe(up: Bytes, server: State, serving: bool, curr: int, replying: seq<Bytes>,
                       down: Bytes, client: State, receiving: bool, stopped: bool)

  /** `calls` is the client without its connections; `iov` are the vectors that the writer thread is sending on connection `writeTo`;
      `failed` tells that a reader has given up on its input. */
  datatype System = System(calls: Calls.State, writeTo: nat, iov: seq<Bytes>, pipes: seq<Pipe>, failed: bool)

  datatype Action =
    | Local(step: Calls.Step)
    | Format
    | Write(size: nat)
    | ServerRead(conn: nat, size: nat)
    | ServerTurn(conn: nat, beyond: Byte)
    | ServerWrite(conn: nat, size: nat)
    | ClientRead(conn: nat, size: nat)
    | ClientTurn(conn: nat, beyond: Byte)

  const NEW_PIPE: Pipe := Pipe([], State(None, []), false, -1, [], [], State(None, []), false, false)

  function Initial(connections: nat): System {
    System(Calls.Initial(connections).(links := []), 0, [], seq(connections, _ => NEW_PIPE), false)
  }

  /** A read takes any positive number of the bytes that have arrived, a write any positive number of those offered. The
      writer goes on to the next call when it has sent the last one, a callback runs until the window holds no whole message, or to a
      response that goes wrong. */
  ghost predicate Can(b: System, t: Action) {
    match t
    case Local(step) =>
      && !step.Send? && !step.Serve? && !step.Fire? && Calls.Enabled(b.calls, step)
      && (step.Pop? ==> b.iov == [])
    case Format => !b.calls.crashed && b.calls.hand.Numbered? && b.calls.hand.id < |b.calls.issued| && b.pipes != [] && b.iov == []
    case Write(n) => !b.calls.crashed && 0 < n <= |Flatten(b.iov)| && b.writeTo < |b.pipes|
    case ServerRead(c, n) => c < |b.pipes| && !b.pipes[c].serving && 0 < n <= |b.pipes[c].up|
    case ServerTurn(c, _) => c < |b.pipes| && b.pipes[c].serving && b.pipes[c].replying == []
    case ServerWrite(c, n) => c < |b.pipes| && 0 < n <= |Flatten(b.pipes[c].replying)|
    case ClientRead(c, n) => !b.calls.crashed && c < |b.pipes| && !b.pipes[c].receiving && 0 < n <= |b.pipes[c].down|
    case ClientTurn(c, _) => !b.calls.crashed && c < |b.pipes| && b.pipes[c].receiving && b.calls.freeing.None?
  }

  /** Whatever can be read or written, any part of it can be, and all of it. */
  lemma AnyPart(b: System, t: Action, n: nat)
    requires Can(b, t) && 0 < n
    ensures t.Write? && n <= |Flatten(b.iov)| ==> Can(b, Write(n))
    ensures t.ServerRead? && n <= |b.pipes[t.conn].up| ==> Can(b, ServerRead(t.conn, n))
    ensures t.ServerWrite? && n <= |Flatten(b.pipes[t.conn].replying)| ==> Can(b, ServerWrite(t.conn, n))
    ensures t.ClientRead? && n <= |b.pipes[t.conn].down| ==> Can(b, ClientRead(t.conn, n))
  {}

  /** The vectors after one sendmsg: a call that ends at the end of a vector ends the loop. */
  function Unsent(iov: seq<Bytes>, n: nat): seq<Bytes>
    requires n <= |Flatten(iov)|
  {
    if AtBoundary(iov, n) then [] else Advance(iov, n)
  }

  function Later(st: State, t: Turn): State
    requires t.Emit? || t.Hold? || t.Error? ==> t.size <= |st.window|
  {
    match t
    case Emit(_, n) => State(None, st.window[n..])
    case Hold(h, n) => State(Some(h), st.window[n..])
    case Error(n) => State(None, AfterError(st.window, n))
    case _ => st
  }

  function ServerReads(p: Pipe, n: nat): Pipe
    requires n <= |p.up|
  {
    p.(up := p.up[n..], server := State(p.server.held, p.server.window + p.up[..n]), serving := true)
  }

  function ClientReads(p: Pipe, n: nat): Pipe
    requires n <= |p.down|
  {
    p.(down := p.down[n..], client := State(p.client.held, p.client.window + p.down[..n]), receiving := true, stopped := false)
  }

  function ServerTurns(sv: Server, p: Pipe, t: Turn): Pipe
    requires t.Emit? || t.Hold? || t.Error? ==> t.size <= |p.server.window|
  {
    var q := p.(server := Later(p.server, t));
    if t.Emit? then
      var (reply, curr) := Answer(sv, p.curr, t.message);
      q.(curr := curr, replying := MessageVectors(reply))
    else q.(serving := false)
  }

  /** The callback goes on behind a response that has found its request, and ends at any other. */
  function ClientTurns(slots: seq<Option<Pending>>, p: Pipe, t: Turn): Pipe
    requires t.Emit? || t.Hold? || t.Error? ==> t.size <= |p.client.window|
  {
    p.(client := Later(p.client, t), receiving := t.Emit? && Expected(slots, t.message.seqNo),
       stopped := t.Emit? && !Expected(slots, t.message.seqNo))
  }

  ghost function Do(sv: Server, b: System, t: Action): System
    requires Can(b, t)
  {
    match t
    case Local(step) => b.(calls := Calls.Do(sv, b.calls, step))
    case Format =>
      var c := Calls.Next(b.calls, |b.pipes|);
      b.(calls := b.calls.(hand := Calls.Nothing, lastConn := c), writeTo := c, iov := MessageVectors(Calls.InHand(b.calls).message))
    case Write(n) =>
      var p := b.pipes[b.writeTo];
      b.(iov := Unsent(b.iov, n), pipes := b.pipes[b.writeTo := p.(up := p.up + Flatten(b.iov)[..n])])
    case ServerRead(c, n) => b.(pipes := b.pipes[c := ServerReads(b.pipes[c], n)])
    case ServerTurn(c, beyond) =>
      var turn := TakeTurn(Requests, b.pipes[c].server, beyond);
      b.(pipes := b.pipes[c := ServerTurns(sv, b.pipes[c], turn)], failed := b.failed || turn.Error? || turn.Lost?)
    case ServerWrite(c, n) =>
      var p := b.pipes[c];
      b.(pipes := b.pipes[c := p.(replying := Unsent(p.replying, n), down := p.down + Flatten(p.replying)[..n])])
    case ClientRead(c, n) => b.(pipes := b.pipes[c := ClientReads(b.pipes[c], n)])
    case ClientTurn(c, beyond) =>
      var p := b.pipes[c];
      var turn := TakeTurn(Responses, p.client, beyond);
      var b' := b.(pipes := b.pipes[c := ClientTurns(b.calls.slots, p, turn)], failed := b.failed || turn.Error? || turn.Lost?);
      if turn.Emit? then b'.(calls := Calls.Callback(b.calls, turn.message)) else b'
  }

  // ----- the relation to messages -----

  function Messages(ts: seq<Calls.Tagged>): (ms: seq<Message>)
    ensures |ms| == |ts| && forall i :: 0 <= i < |ts| ==> ms[i] == ts[i].message
  {
    seq(|ts|, i requires 0 <= i < |ts| => ts[i].message)
  }

  /** What the writer has yet to send on connection `c`. */
  function Tail(b: System, c: nat): Bytes {
    if b.writeTo == c then Flatten(b.iov) else []
  }

  /** Each direction of a connection carries the messages of the link, and a reader at rest has no whole one, unless it has stopped. */
  ghost predicate Carries(p: Pipe, tail: Bytes, l: Calls.Link) {
    && p.curr == l.curr
    && Channel(Messages(l.up), p.server, p.up + tail) && (!p.serving ==> Resting(Messages(l.up), p.up + tail))
    && Channel(Messages(l.down), p.client, p.down + Flatten(p.replying))
    && (!p.receiving && !p.stopped ==> Resting(Messages(l.down), p.down + Flatten(p.replying)))
    && (p.replying != [] ==> Flatten(p.replying) != [])
  }

  /** While the writer is sending it holds no other call. */
  ghost predicate Writing(b: System, a: Calls.State) {
    b.iov != [] ==> a.hand.Nothing? && Flatten(b.iov) != [] && b.writeTo < |b.pipes|
  }

  /** A client's callback has stopped only because a response has gone wrong. */
  predicate StopsExplained(pipes: seq<Pipe>, a: Calls.State) {
    forall c :: 0 <= c < |pipes| && pipes[c].stopped ==> a.refused || a.crashed
  }

  ghost predicate Refines(b: System, a: Calls.State) {
    && b.calls == a.(links := []) && !b.failed
    && |b.pipes| == |a.links|
    && Writing(b, a) && StopsExplained(b.pipes, a)
    && forall c :: 0 <= c < |b.pipes| ==> Carries(b.pipes[c], Tail(b, c), a.links[c])
  }

  /** The step of the call protocol that an action amounts to, if any. */
  function Shadow(b: System, t: Action): Option<Calls.Step>
    requires t.ServerTurn? || t.ClientTurn? ==> t.conn < |b.pipes|
  {
    match t
    case Local(step) => Some(step)
    case Format => Some(Calls.Send)
    case ServerTurn(c, beyond) => if TakeTurn(Requests, b.pipes[c].server, beyond).Emit? then Some(Calls.Serve(c)) else None
    case ClientTurn(c, beyond) => if TakeTurn(Responses, b.pipes[c].client, beyond).Emit? then Some(Calls.Fire(c)) else None
    case _ => None
  }

  predicate StrayRead(st: State, beyond: Byte) {
    st.held.None? && Stray(st.window, beyond)
  }

  predicate CutOff(iov: seq<Bytes>, n: nat) {
    n < |Flatten(iov)| && AtBoundary(iov, n)
  }

  /** No write ends at the end of a vector with bytes left, and no read ends right behind a first line with a line feed
      lying behind it in memory. */
  ghost predicate Undisturbed(b: System, t: Action)
    requires Can(b, t)
  {
    match t
    case Write(n) => !CutOff(b.iov, n)
    case ServerWrite(c, n) => !CutOff(b.pipes[c].replying, n)
    case ServerTurn(c, beyond) => !StrayRead(b.pipes[c].server, beyond)
    case ClientTurn(c, beyond) => !StrayRead(b.pipes[c].client, beyond)
    case _ => true
  }

  /** A request that the protocol can carry. */
  ghost predicate Printable(r: Calls.Request) {
    Name(r.methodName) && '@' !in r.methodName && Name(r.service) && |r.input| <= INT_MAX
  }

  lemma PrintableNames(r: Calls.Request)
    requires (forall c :: c in " \n\0" ==> c !in r.methodName && c !in r.service) && '@' !in r.methodName && |r.input| <= 2147483647
    ensures Printable(r)
  {
    var s := " \n\0";
    assert s[0] in s && s[1] in s && s[2] in s;
  }

  ghost predicate AllPrintable(issued: seq<Calls.Request>) {
    forall r :: r in issued ==> Printable(r)
  }

  // ----- every action does what its step does -----

  lemma VectorsText(m: Message)
    requires |m.body| <= INT_MAX
    ensures Flatten(MessageVectors(m)) == Encode(m) != [] && MessageVectors(m) != []
  {
    EncodeParts(m);
    HeadVectorsText(m.GetHead(), Some(m.body));
  }

  lemma UnsentRest(iov: seq<Bytes>, n: nat)
    requires n <= |Flatten(iov)| && !CutOff(iov, n)
    ensures Flatten(iov)[..n] + Flatten(Unsent(iov, n)) == Flatten(iov)
    ensures Unsent(iov, n) != [] ==> Flatten(Unsent(iov, n)) != []
  {
    AllIsBoundary(iov);
    if AtBoundary(iov, n) {
      assert Flatten([]) == [];
    }
  }

  /** What a transport needs of the messages: they can be printed and read back, and numbers fit an `int`. Nothing is asked of the
      services called. */
  ghost predicate Sound(a: Calls.State) {
    Calls.Shaped(a) && forall l :: l in a.links ==> SoundLink(l)
  }

  ghost predicate SoundLink(l: Calls.Link) {
    INT_MIN <= l.curr <= INT_MAX && AllGood(Requests, Messages(l.up)) && AllGood(Responses, Messages(l.down))
  }

  lemma InitialSound(n: nat)
    requires n > 0
    ensures Sound(Calls.Initial(n))
  {}

  lemma LinksSound(a: Calls.State, c: nat, a': Calls.State)
    requires Sound(a) && c < |a.links| == |a'.links| && Calls.Shaped(a')
    requires a'.links == a.links[c := a'.links[c]] && SoundLink(a'.links[c])
    ensures Sound(a')
  {
    hide SoundLink, Calls.Shaped;
    assert forall d :: 0 <= d < |a.links| && d != c ==> a'.links[d] in a.links;
  }

  lemma SendSound(l: Calls.Link, r: Calls.Request, id: nat, seqNo: nat)
    requires SoundLink(l) && Printable(r) && seqNo <= INT_MAX
    ensures SoundLink(Calls.SendOn(l, Calls.Tagged(id, seqNo, Calls.RequestMessage(r, seqNo))))
  {
    var m := Calls.RequestMessage(r, seqNo);
    var t := Calls.Tagged(id, seqNo, m);
    assert GoodMessage(Requests, m);
    hide GoodMessage;
    assert Messages(l.up + [t]) == Messages(l.up) + [m];
  }

  lemma ServeSound(sv: Server, l: Calls.Link)
    requires SoundLink(l) && l.up != [] && Bounded(sv)
    ensures SoundLink(Calls.ServeOn(sv, l))
  {
    var m, l' := l.up[0].message, Calls.ServeOn(sv, l);
    assert Messages(l.up)[0] == m && m in Messages(l.up) && GoodMessage(Requests, m);
    AnswersAreGood(sv, l.curr, m);
    hide GoodMessage, Answer, Bounded;
    assert Messages(l'.up) == Messages(l.up)[1..];
    assert Messages(l'.down) == Messages(l.down) + [Answer(sv, l.curr, m).0];
  }

  lemma FireSound(l: Calls.Link)
    requires SoundLink(l) && l.down != []
    ensures SoundLink(l.(down := l.down[1..]))
  {
    hide GoodMessage;
    assert Messages(l.down[1..]) == Messages(l.down)[1..];
  }

  /** It holds throughout every run of printable requests. */
  lemma StepKeepsSound(sv: Server, a: Calls.State, step: Calls.Step)
    requires Sound(a) && AllPrintable(a.issued) && Bounded(sv) && Calls.Enabled(a, step)
    ensures Sound(Calls.Do(sv, a, step))
  {
    Calls.StepKeepsShape(sv, a, step);
    hide SoundLink, Printable, Bounded, Calls.SendOn, Calls.ServeOn, Calls.RequestMessage, SessionPool.Inserted;
    var a' := Calls.Do(sv, a, step);
    match step
    case Send =>
      var c := Calls.Next(a, |a.links|);
      assert a.issued[a.hand.id] in a.issued && a.links[c] in a.links;
      SendSound(a.links[c], a.issued[a.hand.id], a.hand.id, a.hand.index);
      LinksSound(a, c, a');
    case Serve(c) =>
      assert a.links[c] in a.links;
      ServeSound(sv, a.links[c]);
      LinksSound(a, c, a');
    case Fire(c) =>
      assert a.links[c] in a.links;
      FireSound(a.links[c]);
      LinksSound(a, c, a');
    case _ =>
      assert a'.links == a.links;
  }

  /** An action on one connection leaves the others as they are. */
  lemma OnePipe(b: System, a: Calls.State, b': System, a': Calls.State, c: nat)
    requires Refines(b, a) && c < |b.pipes| == |b'.pipes| && |a'.links| == |a.links|
    requires b'.pipes == b.pipes[c := b'.pipes[c]] && a'.links == a.links[c := a'.links[c]]
    requires b'.calls == a'.(links := []) && !b'.failed && Writing(b', a')
    requires b'.pipes[c].stopped ==> b.pipes[c].stopped
    requires a.refused || a.crashed ==> a'.refused || a'.crashed
    requires forall d :: 0 <= d < |b.pipes| && d != c ==> Tail(b', d) == Tail(b, d)
    requires Carries(b'.pipes[c], Tail(b', c), a'.links[c])
    ensures Refines(b', a')
  {
    hide Carries, Tail;
    forall d | 0 <= d < |b'.pipes| ensures Carries(b'.pipes[d], Tail(b', d), a'.links[d]) {
      assert Carries(b.pipes[d], Tail(b, d), a.links[d]);
    }
  }

  lemma LocalSimulates(sv: Server, b: System, a: Calls.State, step: Calls.Step)
    requires Refines(b, a) && Can(b, Local(step))
    ensures Calls.Enabled(a, step) && Refines(Do(sv, b, Local(step)), Calls.Do(sv, a, step))
  {
    hide Carries, SessionPool.Inserted, SessionPool.FirstEmpty, Flatten;
    var b', a' := Do(sv, b, Local(step)), Calls.Do(sv, a, step);
    forall c | 0 <= c < |b'.pipes| ensures Carries(b'.pipes[c], Tail(b', c), a'.links[c]) {
      assert Carries(b.pipes[c], Tail(b, c), a.links[c]);
    }
  }

  /** Nothing of the next request has been sent when its vectors are ready. */
  lemma CarriesMore(p: Pipe, l: Calls.Link, t: Calls.Tagged)
    requires Carries(p, [], l)
    ensures Carries(p, Encode(t.message), Calls.SendOn(l, t))
  {
    hide Flatten, Channel, Resting, Encode;
    assert Messages(l.up + [t]) == Messages(l.up) + [t.message];
    assert p.up + [] == p.up;
    ChannelSends(Messages(l.up), p.server, p.up, t.message);
  }

  lemma FormatTails(b: System, b': System, m: Message)
    requires b.iov == [] && b'.iov == MessageVectors(m) && |m.body| <= INT_MAX
    ensures b'.iov != [] && Flatten(b'.iov) != [] && Tail(b', b'.writeTo) == Encode(m)
    ensures forall d :: Tail(b, d) == [] && (d != b'.writeTo ==> Tail(b', d) == [])
  {
    VectorsText(m);
    assert Flatten([]) == [];
    hide Flatten, MessageVectors, Encode;
  }

  lemma FormatSimulates(sv: Server, b: System, a: Calls.State)
    requires Refines(b, a) && Can(b, Format) && AllPrintable(a.issued)
    ensures Calls.Enabled(a, Calls.Send) && Refines(Do(sv, b, Format), Calls.Do(sv, a, Calls.Send))
  {
    hide Flatten, Carries, MessageVectors, Encode, Tail, Calls.RequestMessage, Calls.SendOn;
    var b', a' := Do(sv, b, Format), Calls.Do(sv, a, Calls.Send);
    var t, c := Calls.InHand(a), b'.writeTo;
    assert a.issued[a.hand.id] in a.issued;
    BodyFits(a.issued[a.hand.id], a.hand.index);
    FormatTails(b, b', t.message);
    assert Carries(b.pipes[c], Tail(b, c), a.links[c]);
    CarriesMore(b.pipes[c], a.links[c], t);
    OnePipe(b, a, b', a', c);
  }

  lemma BodyFits(r: Calls.Request, seqNo: int)
    requires Printable(r)
    ensures |Calls.RequestMessage(r, seqNo).body| <= INT_MAX
  {}

  lemma WriteSimulates(sv: Server, b: System, a: Calls.State, n: nat)
    requires Refines(b, a) && Can(b, Write(n)) && Undisturbed(b, Write(n))
    ensures Refines(Do(sv, b, Write(n)), a)
  {
    hide Channel, Resting, Unsent, CutOff;
    var b', c := Do(sv, b, Write(n)), b.writeTo;
    UnsentRest(b.iov, n);
    assert b.iov != [];
    assert Carries(b.pipes[c], Tail(b, c), a.links[c]);
    assert b'.pipes[c].up + Tail(b', c) == b.pipes[c].up + Tail(b, c);
    OnePipe(b, a, b', a, c);
  }

  lemma CarriesRead(p: Pipe, tail: Bytes, l: Calls.Link, n: nat)
    requires Carries(p, tail, l)
    ensures n <= |p.up| ==> Carries(ServerReads(p, n), tail, l) && ServerReads(p, n).stopped == p.stopped
    ensures n <= |p.down| ==> Carries(ClientReads(p, n), tail, l) && !ClientReads(p, n).stopped
  {
    hide Flatten, Channel, Resting;
    if n <= |p.up| {
      assert p.up + tail == p.up[..n] + (p.up[n..] + tail);
      ChannelReads(Messages(l.up), p.server, p.up[..n], p.up[n..] + tail);
    }
    if n <= |p.down| {
      var rest := Flatten(p.replying);
      assert p.down + rest == p.down[..n] + (p.down[n..] + rest);
      ChannelReads(Messages(l.down), p.client, p.down[..n], p.down[n..] + rest);
    }
  }

  lemma ReadSimulates(sv: Server, b: System, a: Calls.State, t: Action)
    requires Refines(b, a) && Can(b, t) && (t.ServerRead? || t.ClientRead?)
    ensures Refines(Do(sv, b, t), a)
  {
    hide Carries, Tail, ServerReads, ClientReads;
    var c := t.conn;
    assert Carries(b.pipes[c], Tail(b, c), a.links[c]);
    CarriesRead(b.pipes[c], Tail(b, c), a.links[c], t.size);
    var b' := Do(sv, b, t);
    assert forall d :: 0 <= d < |b.pipes| ==> Tail(b', d) == Tail(b, d) by { SameTails(b, b'); }
    OnePipe(b, a, b', a, c);
  }

  lemma SameTails(b: System, b': System)
    requires b.iov == b'.iov && b.writeTo == b'.writeTo
    ensures forall d :: 0 <= d < |b.pipes| ==> Tail(b', d) == Tail(b, d)
  {}

  lemma ServerWriteSimulates(sv: Server, b: System, a: Calls.State, c: nat, n: nat)
    requires Refines(b, a) && Can(b, ServerWrite(c, n)) && Undisturbed(b, ServerWrite(c, n))
    ensures Refines(Do(sv, b, ServerWrite(c, n)), a)
  {
    hide Channel, Resting, Unsent, CutOff, Tail;
    var b', p := Do(sv, b, ServerWrite(c, n)), b.pipes[c];
    UnsentRest(p.replying, n);
    hide Flatten;
    assert Carries(p, Tail(b, c), a.links[c]);
    SameTails(b, b');
    assert b'.pipes[c].down + Flatten(b'.pipes[c].replying) == p.down + Flatten(p.replying);
    OnePipe(b, a, b', a, c);
  }

  /** A turn of the server's callback: the next request is answered, or nothing is dispatched; it fails exactly on a stray read. */
  lemma ServerTurnSimulates(sv: Server, b: System, a: Calls.State, c: nat, beyond: Byte)
    requires Refines(b, a) && Sound(a) && Bounded(sv) && Can(b, ServerTurn(c, beyond))
    ensures var t := ServerTurn(c, beyond); var b' := Do(sv, b, t);
      && (b'.failed <==> !Undisturbed(b, t))
      && (!b'.failed ==> match Shadow(b, t)
            case Some(step) => Calls.Enabled(a, step) && Refines(b', Calls.Do(sv, a, step))
            case None => Refines(b', a))
  {
    hide Calls.Shaped, Bounded, TakeTurn, Channel, Resting, Flatten, Stray, ServerTurns;
    var b', p, l := Do(sv, b, ServerTurn(c, beyond)), b.pipes[c], a.links[c];
    assert SoundLink(l) by { assert l in a.links; }
    assert Carries(p, Tail(b, c), l);
    ChannelTurn(Requests, Messages(l.up), p.server, p.up + Tail(b, c), beyond);
    var t := TakeTurn(Requests, p.server, beyond);
    if t.Emit? {
      ServerAnswers(sv, a, c, p, Tail(b, c), t);
    } else if !t.Error? {
      ServerRests(sv, p, Tail(b, c), l, t);
    }
    var a' := if t.Emit? then Calls.Do(sv, a, Calls.Serve(c)) else a;
    hide Carries;
    if !b'.failed {
      forall d | 0 <= d < |b'.pipes| ensures Carries(b'.pipes[d], Tail(b', d), a'.links[d]) {
        assert Carries(b.pipes[d], Tail(b, d), a.links[d]);
      }
    }
  }

  lemma ServerRests(sv: Server, p: Pipe, tail: Bytes, l: Calls.Link, t: Turn)
    requires Carries(p, tail, l) && !t.Emit? && !t.Error? && (t.Hold? ==> t.size <= |p.server.window|)
    requires Resting(Messages(l.up), p.up + tail)
    requires t.Hold? ==> Channel(Messages(l.up), State(Some(t.head), p.server.window[t.size..]), p.up + tail)
    ensures Carries(ServerTurns(sv, p, t), tail, l) && ServerTurns(sv, p, t).stopped == p.stopped
  {
    hide Channel, Resting, Flatten;
  }

  lemma ServerAnswers(sv: Server, a: Calls.State, c: nat, p: Pipe, tail: Bytes, t: Turn)
    requires c < |a.links| && Carries(p, tail, a.links[c]) && Bounded(sv) && p.serving && p.replying == []
    requires t.Emit? && a.links[c].up != [] && t.message == a.links[c].up[0].message && t.size <= |p.server.window|
    requires Channel(Messages(a.links[c].up)[1..], State(None, p.server.window[t.size..]), p.up + tail)
    ensures Carries(ServerTurns(sv, p, t), tail, Calls.ServeOn(sv, a.links[c])) && ServerTurns(sv, p, t).stopped == p.stopped
  {
    var l := a.links[c];
    var l', q := Calls.ServeOn(sv, l), ServerTurns(sv, p, t);
    var reply := Answer(sv, p.curr, t.message).0;
    AnswerFits(sv, p.curr, t.message);
    VectorsText(reply);
    assert Flatten(p.replying) == [];
    hide Channel, Resting, Flatten, MessageVectors, Answer, Encode, Bounded;
    assert Messages(l'.up) == Messages(l.up)[1..];
    assert Messages(l'.down) == Messages(l.down) + [reply];
    assert p.down + [] == p.down;
    ChannelSends(Messages(l.down), p.client, p.down, reply);
  }

  lemma AnswerFits(sv: Server, curr: int, m: Message)
    requires Bounded(sv)
    ensures |Answer(sv, curr, m).0.body| <= INT_MAX
  {}

  /** A turn of the client's callback. */
  lemma ClientTurnSimulates(sv: Server, b: System, a: Calls.State, c: nat, beyond: Byte)
    requires Refines(b, a) && Sound(a) && Bounded(sv) && Can(b, ClientTurn(c, beyond))
    ensures var t := ClientTurn(c, beyond); var b' := Do(sv, b, t);
      && (b'.failed <==> !Undisturbed(b, t))
      && (!b'.failed ==> match Shadow(b, t)
            case Some(step) => Calls.Enabled(a, step) && Refines(b', Calls.Do(sv, a, step))
            case None => Refines(b', a))
  {
    hide Calls.Shaped, Bounded, TakeTurn, Channel, Resting, Flatten, Stray;
    var b', p, l := Do(sv, b, ClientTurn(c, beyond)), b.pipes[c], a.links[c];
    assert SoundLink(l) by { assert l in a.links; }
    assert Carries(p, Tail(b, c), l);
    ChannelTurn(Responses, Messages(l.down), p.client, p.down + Flatten(p.replying), beyond);
    var t := TakeTurn(Responses, p.client, beyond);
    if t.Emit? {
      assert Messages(l.down[1..]) == Messages(l.down)[1..];
    }
    var a' := if t.Emit? then Calls.Do(sv, a, Calls.Fire(c)) else a;
    if !b'.failed {
      forall d | 0 <= d < |b'.pipes| ensures Carries(b'.pipes[d], Tail(b', d), a'.links[d]) {
        assert Carries(b.pipes[d], Tail(b, d), a.links[d]);
      }
    }
  }

  /** Every undisturbed action refines a step of the call protocol, or no step at all. */
  lemma Simulates(sv: Server, b: System, a: Calls.State, t: Action)
    requires Refines(b, a) && Sound(a) && AllPrintable(a.issued) && Bounded(sv) && Can(b, t) && Undisturbed(b, t)
    ensures t.ServerTurn? || t.ClientTurn? ==> t.conn < |b.pipes|
    ensures var b' := Do(sv, b, t);
      match Shadow(b, t)
      case Some(step) => Calls.Enabled(a, step) && Refines(b', Calls.Do(sv, a, step))
      case None => Refines(b', a)
  {
    hide Refines, Sound, AllPrintable, Bounded;
    match t
    case Local(step) => LocalSimulates(sv, b, a, step);
    case Format => FormatSimulates(sv, b, a);
    case Write(n) => WriteSimulates(sv, b, a, n);
    case ServerRead(_, _) => ReadSimulates(sv, b, a, t);
    case ServerTurn(c, beyond) => ServerTurnSimulates(sv, b, a, c, beyond);
    case ServerWrite(c, n) => ServerWriteSimulates(sv, b, a, c, n);
    case ClientRead(_, _) => ReadSimulates(sv, b, a, t);
    case ClientTurn(c, beyond) => ClientTurnSimulates(sv, b, a, c, beyond);
  }

  // ----- runs -----

  ghost predicate Legal(sv: Server, b: System, ts: seq<Action>)
    decreases |ts|
  {
    ts != [] ==> Can(b, ts[0]) && Legal(sv, Do(sv, b, ts[0]), ts[1..])
  }

  ghost function After(sv: Server, b: System, ts: seq<Action>): System
    requires Legal(sv, b, ts)
    decreases |ts|
  {
    if ts == [] then b else After(sv, Do(sv, b, ts[0]), ts[1..])
  }

  ghost predicate AllUndisturbed(sv: Server, b: System, ts: seq<Action>)
    requires Legal(sv, b, ts)
    decreases |ts|
  {
    ts != [] ==> Undisturbed(b, ts[0]) && AllUndisturbed(sv, Do(sv, b, ts[0]), ts[1..])
  }

  function Behind(s: Option<Calls.Step>, rest: seq<Calls.Step>): seq<Calls.Step> {
    match s
    case Some(step) => [step] + rest
    case None => rest
  }

  /** The run of the call protocol behind a run on bytes. */
  ghost function ShadowRun(sv: Server, b: System, ts: seq<Action>): seq<Calls.Step>
    requires Legal(sv, b, ts)
    decreases |ts|
  {
    if ts == [] then []
    else
      var rest := ShadowRun(sv, Do(sv, b, ts[0]), ts[1..]);
      Behind(Shadow(b, ts[0]), rest)
  }

  lemma StepIssues(sv: Server, b: System, t: Action)
    requires Can(b, t)
    ensures b.calls.issued <= Do(sv, b, t).calls.issued
  {
    hide TakeTurn, Flatten, Unsent, MessageVectors, Arrive, Later, ServerTurns, ClientTurns, ServerReads, ClientReads, Answer;
    hide SessionPool.Inserted, SessionPool.FirstEmpty;
  }

  lemma {:induction false} IssuedGrows(sv: Server, b: System, ts: seq<Action>)
    requires Legal(sv, b, ts)
    ensures b.calls.issued <= After(sv, b, ts).calls.issued
    decreases |ts|
  {
    hide Can, Do;
    if ts != [] {
      StepIssues(sv, b, ts[0]);
      IssuedGrows(sv, Do(sv, b, ts[0]), ts[1..]);
    }
  }

  lemma IssuedFit(now: seq<Calls.Request>, later: seq<Calls.Request>)
    requires now <= later && AllPrintable(later)
    ensures AllPrintable(now)
  {
    hide Printable;
    assert forall r :: r in now ==> r in later;
  }

  /** Refinement. Whatever the short writes, wherever the reads end and whichever services are called, an undisturbed run on bytes does
      what its shadow, a run of the call protocol on messages, does. */
  lemma {:induction false} Refinement(sv: Server, b: System, a: Calls.State, ts: seq<Action>)
    requires Refines(b, a) && Sound(a) && Bounded(sv)
    requires Legal(sv, b, ts) && AllUndisturbed(sv, b, ts) && AllPrintable(After(sv, b, ts).calls.issued)
    ensures var steps := ShadowRun(sv, b, ts);
      Calls.Legal(sv, a, steps) && Refines(After(sv, b, ts), Calls.After(sv, a, steps)) && Sound(Calls.After(sv, a, steps))
    decreases |ts|
  {
    hide Can, Do, Undisturbed, Sound, Calls.Do, Calls.Enabled, Shadow, AllPrintable, Bounded;
    if ts != [] {
      var b' := Do(sv, b, ts[0]);
      IssuedGrows(sv, b, ts);
      IssuedFit(b.calls.issued, After(sv, b, ts).calls.issued);
      Simulates(sv, b, a, ts[0]);
      hide Refines;
      match Shadow(b, ts[0]) {
        case Some(step) =>
          StepKeepsSound(sv, a, step);
          Refinement(sv, b', Calls.Do(sv, a, step), ts[1..]);
          Calls.Prepend(sv, a, step, ShadowRun(sv, b', ts[1..]));
        case None =>
          Refinement(sv, b', a, ts[1..]);
      }
    }
  }

  lemma InitialRefines(n: nat)
    requires n > 0
    ensures Refines(Initial(n), Calls.Initial(n))
  {
    assert Flatten([]) == [] && Stream([]) == [];
    assert Messages([]) == [];
  }

  /** Nothing is on its way and nobody is at work. */
  predicate Quiescent(b: System) {
    && b.calls.pending == [] && b.calls.hand.Nothing? && b.calls.freeing.None? && b.iov == []
    && forall p :: p in b.pipes ==> Quiet(p)
  }

  predicate Quiet(p: Pipe) {
    p.up == [] && p.down == [] && p.replying == [] && !p.serving && !p.receiving
  }

  lemma QuietCarries(p: Pipe, l: Calls.Link)
    requires Carries(p, [], l) && Quiet(p)
    ensures l.up == [] && (l.down == [] || p.stopped) && Channel(Messages(l.down), p.client, [])
  {
    hide Channel, Resting, Flatten, Messages;
    FlattenNothing();
    assert p.up + [] == [] && p.down + [] == [];
    NothingRests(Messages(l.up));
    NothingRests(Messages(l.down));
  }

  lemma FlattenNothing()
    ensures Flatten([]) == []
  {}

  lemma NothingRests(ms: seq<Message>)
    ensures Resting(ms, []) ==> ms == []
  {
    hide Encode;
    if ms != [] {
      StreamSplit(ms);
    }
  }

  /** What is not done at rest: responses behind one that went wrong, which lie with the client. */
  lemma LeftAtRest(b: System, a: Calls.State)
    requires Refines(b, a) && Quiescent(b)
    ensures forall c :: 0 <= c < |a.links| ==>
      && a.links[c].up == [] && (a.links[c].down == [] || b.pipes[c].stopped)
      && Channel(Messages(a.links[c].down), b.pipes[c].client, [])
  {
    hide Carries, Quiet, Flatten, Channel;
    FlattenNothing();
    forall c | 0 <= c < |a.links|
      ensures a.links[c].up == [] && (a.links[c].down == [] || b.pipes[c].stopped)
      ensures Channel(Messages(a.links[c].down), b.pipes[c].client, [])
    {
      assert Carries(b.pipes[c], Tail(b, c), a.links[c]);
      assert b.pipes[c] in b.pipes;
      QuietCarries(b.pipes[c], a.links[c]);
    }
  }

  lemma {:induction false} NoWork(links: seq<Calls.Link>)
    requires forall c :: 0 <= c < |links| ==> Calls.LinkWork(links[c]) == 0
    ensures Calls.Work(links) == 0
  {
    if links != [] {
      NoWork(links[1..]);
    }
  }

  lemma QuiescentHasNoWork(b: System, a: Calls.State)
    requires Refines(b, a) && Quiescent(b) && !a.refused && !a.crashed
    ensures Calls.Work(a.links) == 0
  {
    LeftAtRest(b, a);
    hide Carries, Quiet, Flatten, Channel;
    NoWork(a.links);
  }

  lemma NothingLeftIsComplete(sv: Server, a: Calls.State)
    requires Calls.Inv(sv, a) && Calls.StepsLeft(a) == 0
    ensures forall id :: 0 <= id < |a.issued| ==> multiset(Calls.FiredIds(a.fired))[id] == 1
  {
    hide Calls.Inv, Calls.Work, Calls.FiredIds;
    Calls.EmptyRun(sv, a);
    Calls.CallsComplete(sv, a, []);
  }

  /** When nothing is left to do every call has had its callback, once. */
  lemma QuiescentIsComplete(sv: Server, b: System, a: Calls.State)
    requires Refines(b, a) && Calls.Inv(sv, a) && Quiescent(b)
    ensures forall id :: 0 <= id < |b.calls.issued| ==> multiset(Calls.FiredIds(b.calls.fired))[id] == 1
  {
    QuiescentHasNoWork(b, a);
    hide Calls.Inv, Calls.Work, Calls.FiredIds, Carries;
    NothingLeftIsComplete(sv, a);
  }

  /** The system on bytes, over every undisturbed run in which printable requests for registered services are made: no reader fails and
      every call fires right, and when the system has come to rest no callback is missing. */
  lemma CallsThroughBytes(sv: Server, n: nat, ts: seq<Action>)
    requires n > 0 && Legal(sv, Initial(n), ts) && AllUndisturbed(sv, Initial(n), ts)
    requires forall k, b :: |sv.handle(k, b).output| <= 2147483647
    requires forall r :: r in After(sv, Initial(n), ts).calls.issued ==>
      && (forall c :: c in " \n\0" ==> c !in r.methodName && c !in r.service) && '@' !in r.methodName && |r.input| <= 2147483647
      && StoredKey(r.methodName, r.service) in sv.registered
    ensures var b := After(sv, Initial(n), ts);
      && !b.failed && Calls.FiredRight(sv, b.calls, n)
      && (Quiescent(b) ==> forall id :: 0 <= id < |b.calls.issued| ==> multiset(Calls.FiredIds(b.calls.fired))[id] == 1)
  {
    var b, steps := After(sv, Initial(n), ts), ShadowRun(sv, Initial(n), ts);
    InitialRefines(n);
    InitialSound(n);
    forall r | r in b.calls.issued ensures Printable(r) {
      PrintableNames(r);
    }
    hide After, Legal, AllUndisturbed, Initial, Sound, Calls.Inv, Calls.GoodReply, Calls.Legal, Calls.After, Calls.Initial, Quiescent,
      Calls.AllRegistered, Carries, Calls.NumbersDistinct;
    Refinement(sv, Initial(n), Calls.Initial(n), ts);
    var a := Calls.After(sv, Calls.Initial(n), steps);
    assert b.calls == a.(links := []) && !b.failed;
    Calls.KnownServicesMatch(sv, n, steps);
    if Quiescent(b) {
      QuiescentIsComplete(sv, b, a);
    }
  }

  // ----- runs come to an end -----

  function PipeLoad(p: Pipe): nat {
    3 * |Flatten(p.replying)| + 2 * (|p.up| + |p.down|) + (if p.serving then 1 else 0) + if p.receiving then 1 else 0
  }

  function PipesLoad(pipes: seq<Pipe>): nat {
    if pipes == [] then 0 else PipeLoad(pipes[0]) + PipesLoad(pipes[1..])
  }

  /** The reads, writes and turns that can be made before the next step of the call protocol. */
  function Load(b: System): nat {
    3 * |Flatten(b.iov)| + PipesLoad(b.pipes)
  }

  lemma {:induction false} PipesUpdate(pipes: seq<Pipe>, c: nat, p: Pipe)
    requires c < |pipes|
    ensures PipesLoad(pipes[c := p]) + PipeLoad(pipes[c]) == PipesLoad(pipes) + PipeLoad(p)
  {
    hide PipeLoad;
    if c == 0 {
      assert pipes[c := p][1..] == pipes[1..];
    } else {
      assert pipes[c := p][1..] == pipes[1..][c - 1 := p];
      PipesUpdate(pipes[1..], c - 1, p);
    }
  }

  /** An action without a shadow takes some of the load away. */
  lemma SilentActionUnloads(sv: Server, b: System, t: Action)
    requires Can(b, t) && Undisturbed(b, t) && Shadow(b, t).None?
    ensures Load(Do(sv, b, t)) < Load(b)
  {
    hide TakeTurn, Flatten, Unsent, CutOff, PipesLoad, StrayRead;
    var b' := Do(sv, b, t);
    match t
    case Write(n) =>
      UnsentRest(b.iov, n);
      PipesUpdate(b.pipes, b.writeTo, b'.pipes[b.writeTo]);
    case ServerWrite(c, n) =>
      UnsentRest(b.pipes[c].replying, n);
      PipesUpdate(b.pipes, c, b'.pipes[c]);
    case ServerRead(c, _) => PipesUpdate(b.pipes, c, b'.pipes[c]);
    case ServerTurn(c, _) => PipesUpdate(b.pipes, c, b'.pipes[c]);
    case ClientRead(c, _) => PipesUpdate(b.pipes, c, b'.pipes[c]);
    case ClientTurn(c, _) => PipesUpdate(b.pipes, c, b'.pipes[c]);
  }

  /** Every action but a new call brings the end nearer: there are fewer steps of the call protocol left, or as many and
      less load. So no run goes on for ever without new calls. */
  lemma Descends(sv: Server, b: System, a: Calls.State, t: Action)
    requires Refines(b, a) && Sound(a) && AllPrintable(a.issued) && Bounded(sv) && Can(b, t) && Undisturbed(b, t)
    requires !(t.Local? && t.step.Issue?)
    ensures t.ServerTurn? || t.ClientTurn? ==> t.conn < |b.pipes|
    ensures match Shadow(b, t)
      case Some(step) => Calls.Enabled(a, step) && Calls.StepsLeft(Calls.Do(sv, a, step)) < Calls.StepsLeft(a)
      case None => Load(Do(sv, b, t)) < Load(b)
  {
    hide Refines, Sound, AllPrintable, Bounded, Calls.Enabled, Calls.Do, Calls.StepsLeft, Load, Do;
    Simulates(sv, b, a, t);
    match Shadow(b, t)
    case Some(step) => Calls.StepWorks(sv, a, step);
    case None => SilentActionUnloads(sv, b, t);
  }

  /** Short of coming to rest something can always be done, without disturbance and without a new call, unless the writer waits for
      the table of numbers, which can grow no more. */
  lemma NeverStuck(b: System, a: Calls.State) returns (t: Action)
    requires Refines(b, a) && Calls.Shaped(a) && !b.calls.crashed && !Quiescent(b)
    requires b.calls.hand.Popped? ==> SessionPool.FirstEmpty(b.calls.slots) < |b.calls.slots| || 2 * |b.calls.slots| <= INT_MAX
    ensures Can(b, t) && Undisturbed(b, t) && !(t.Local? && t.step.Issue?)
  {
    hide Flatten, Carries, Quiet, Calls.Shaped, StrayRead;
    if b.iov != [] {
      t := Write(|Flatten(b.iov)|);
    } else if !b.calls.hand.Nothing? || b.calls.pending != [] || b.calls.freeing.Some? {
      t := ClientGoesOn(b, a);
    } else {
      var c := BusyPipe(b);
      assert Carries(b.pipes[c], Tail(b, c), a.links[c]);
      assert b.pipes[c].replying != [] ==> Flatten(b.pipes[c].replying) != [] by { CarriesReply(b.pipes[c], Tail(b, c), a.links[c]); }
      t := PipeGoesOn(b, c);
    }
  }

  lemma BusyPipe(b: System) returns (c: nat)
    requires !Quiescent(b) && b.iov == [] && b.calls.hand.Nothing? && b.calls.pending == [] && b.calls.freeing.None?
    ensures c < |b.pipes| && !Quiet(b.pipes[c])
  {
    hide Quiet;
    var p :| p in b.pipes && !Quiet(p);
    c :| 0 <= c < |b.pipes| && b.pipes[c] == p;
  }

  lemma CarriesReply(p: Pipe, tail: Bytes, l: Calls.Link)
    requires Carries(p, tail, l)
    ensures p.replying != [] ==> Flatten(p.replying) != []
  {}

  lemma ClientGoesOn(b: System, a: Calls.State) returns (t: Action)
    requires Refines(b, a) && Calls.Shaped(a) && !b.calls.crashed && b.iov == []
    requires !b.calls.hand.Nothing? || b.calls.pending != [] || b.calls.freeing.Some?
    requires b.calls.hand.Popped? ==> SessionPool.FirstEmpty(b.calls.slots) < |b.calls.slots| || 2 * |b.calls.slots| <= INT_MAX
    ensures Can(b, t) && Undisturbed(b, t) && !(t.Local? && t.step.Issue?)
  {
    hide Carries, Flatten, SessionPool.FirstEmpty;
    var step := Calls.ClientStep(a);
    t := if step.Send? then Format else Local(step);
  }

  lemma PipeGoesOn(b: System, c: nat) returns (t: Action)
    requires c < |b.pipes| && !Quiet(b.pipes[c]) && b.calls.freeing.None? && !b.calls.crashed
    requires b.pipes[c].replying != [] ==> Flatten(b.pipes[c].replying) != []
    ensures Can(b, t) && Undisturbed(b, t) && !t.Local?
  {
    hide Flatten;
    var p := b.pipes[c];
    if p.replying != [] {
      t := ServerWrite(c, |Flatten(p.replying)|);
    } else if p.serving {
      t := ServerTurn(c, NUL);
    } else if p.receiving {
      t := ClientTurn(c, NUL);
    } else if p.up != [] {
      t := ServerRead(c, |p.up|);
    } else {
      t := ClientRead(c, |p.down|);
    }
  }
}
