/** Calls from issue to callback, as interleaved atomic steps of the callers, the writer thread, the server and the
    receiver (src/rpc_client.c, src/rpc_thread.c, src/rpc_conn.c, src/rpc_sessionpool.c). Connections carry whole messages. */
module CallProtocol {
  import opened Wire
  import opened Frame
  import opened Seqs
  import opened Service
  import opened SessionPool
  import opened ClientLoop

  datatype Request = Request(methodName: Bytes, service: Bytes, input: Bytes)

  function RequestMessage(r: Request, seqNo: int): Message {
    Message(RequestLine(r.methodName, r.service, VERSION), seqNo, r.input)
  }

  /** The reply that a request deserves; the number plays no part in it. */
  function Outcome(sv: Server, r: Request): Reply {
    ReplyTo(sv, RequestMessage(r, 0))
  }

  /** A message on its way. `id` and `seqNo` are auxiliary: whose message it is, and the number that call was given. */
  datatype Tagged = Tagged(id: nat, seqNo: nat, message: Message)

  /** A connection: requests on the way to the server, responses on the way back, and the server's curr_seq. */
  datatype Link = Link(up: seq<Tagged>, down: seq<Tagged>, curr: int)

  /** What the writer thread holds. Between `Allocated` and `Numbered` the slot is taken but the request still has the
      number it had before. */
  datatype Hand = Nothing | Popped(id: nat) | Allocated(id: nat, index: nat) | Numbered(id: nat, index: nat)

  /** A call is known by its place in `issued`. `freeing` is the call whose callback has been made and whose slot is yet to be
      emptied; `fired` are the callbacks made, `refused` tells that a response carried another number than the request it found,
      and `crashed` that one found no request at all. */
  datatype State = State(
    issued: seq<Request>,
    pending: seq<nat>,
    hand: Hand,
    lastConn: int,
    slots: seq<Option<Pending>>,
    links: seq<Link>,
    freeing: Option<Pending>,
    fired: seq<(Pending, Message)>,
    refused: bool,
    crashed: bool)

  datatype Step =
    | Issue(request: Request)
    | Pop
    | Allocate(stale: int, slots: seq<Option<Pending>>)
    | Assign
    | Send
    | Serve(conn: nat)
    | Fire(conn: nat)
    | Release

  function Initial(connections: nat): State {
    State([], [], Nothing, -1, seq(POOL_CAPACITY, _ => None), seq(connections, _ => Link([], [], -1)), None, [], false, false)
  }

  ghost predicate Enabled(s: State, step: Step) {
    (step.Serve? || !s.crashed) &&
    match step
    case Issue(_) => true
    case Pop => s.hand.Nothing? && s.pending != []
    case Allocate(stale, slots') =>
      s.hand.Popped? && |slots'| <= INT_MAX && Inserted(s.slots, Call(s.hand.id, stale), FirstEmpty(s.slots), slots')
    case Assign => s.hand.Allocated? && s.hand.index < |s.slots|
    case Send => s.hand.Numbered? && s.hand.id < |s.issued| && s.links != []
    case Serve(c) => c < |s.links| && s.links[c].up != []
    case Fire(c) => c < |s.links| && s.links[c].down != [] && s.freeing.None?
    case Release => s.freeing.Some? && 0 <= s.freeing.value.seqNo < |s.slots|
  }

  function Next(s: State, connections: nat): nat
    requires connections > 0
  {
    (s.lastConn + 1) % connections
  }

  function InHand(s: State): Tagged
    requires s.hand.Numbered? && s.hand.id < |s.issued|
  {
    Tagged(s.hand.id, s.hand.index, RequestMessage(s.issued[s.hand.id], s.hand.index))
  }

  function SendOn(l: Link, t: Tagged): Link { l.(up := l.up + [t]) }

  function ServeOn(sv: Server, l: Link): Link
    requires l.up != []
  {
    var t := l.up[0];
    var (reply, curr) := Answer(sv, l.curr, t.message);
    Link(l.up[1..], l.down + [t.(message := reply)], curr)
  }

  /** What a response sets off. */
  function Callback(s: State, m: Message): State {
    match Arrive(s.slots, m.seqNo)
    case Found =>
      var call := s.slots[m.seqNo].value;
      s.(freeing := Some(call), fired := s.fired + [(call, m)])
    case Mismatch => s.(refused := true)
    case Crash => s.(crashed := true)
  }

  ghost function Do(sv: Server, s: State, step: Step): State
    requires Enabled(s, step)
  {
    match step
    case Issue(r) => s.(issued := s.issued + [r], pending := s.pending + [|s.issued|])
    case Pop => s.(hand := Popped(s.pending[0]), pending := s.pending[1..])
    case Allocate(_, slots') => s.(hand := Allocated(s.hand.id, FirstEmpty(s.slots)), slots := slots')
    case Assign =>
      s.(hand := Numbered(s.hand.id, s.hand.index), slots := s.slots[s.hand.index := Some(Call(s.hand.id, s.hand.index))])
    case Send =>
      var c := Next(s, |s.links|);
      s.(hand := Nothing, lastConn := c, links := s.links[c := SendOn(s.links[c], InHand(s))])
    case Serve(c) => s.(links := s.links[c := ServeOn(sv, s.links[c])])
    case Fire(c) =>
      var m := s.links[c].down[0].message;
      Callback(s.(links := s.links[c := s.links[c].(down := s.links[c].down[1..])]), m)
    case Release => s.(slots := s.slots[s.freeing.value.seqNo := None], freeing := None)
  }

  // ----- where the calls are -----

  /** The number of calls sent so far. */
  function Sent(s: State): int {
    |s.issued| - |s.pending| - if s.hand.Nothing? then 0 else 1
  }

  /** The calls below `k` that belong to connection `c` of `n`: every n-th one. */
  function Lane(k: nat, c: nat, n: nat): seq<nat>
    requires n > 0
  {
    if k == 0 then [] else Lane(k - 1, c, n) + if (k - 1) % n == c then [k - 1] else []
  }

  /** The callbacks made for the calls of connection `c`. */
  function FiredOn(fired: seq<(Pending, Message)>, c: nat, n: nat): seq<nat>
    requires n > 0
  {
    if fired == [] then []
    else
      var id := fired[|fired| - 1].0.id;
      FiredOn(fired[..|fired| - 1], c, n) + if id % n == c then [id] else []
  }

  function Ids(ts: seq<Tagged>): (ids: seq<nat>)
    ensures |ids| == |ts| && forall i :: 0 <= i < |ts| ==> ids[i] == ts[i].id
  {
    seq(|ts|, i requires 0 <= i < |ts| => ts[i].id)
  }

  /** Everything on a connection that has yet to fire, the oldest first. */
  function Flights(l: Link): seq<Tagged> { l.down + l.up }

  /** Calls keep the order of issue: those still pending, the one in hand, and on every connection every n-th of
      the others, first the ones that have fired, then those on the way back, then those on the way out. */
  ghost predicate Books(s: State) {
    && s.links != [] && Sent(s) >= 0
    && (forall i :: 0 <= i < |s.pending| ==> s.pending[i] == |s.issued| - |s.pending| + i)
    && (s.hand.Nothing? || s.hand.id == Sent(s))
    && s.lastConn == (if Sent(s) == 0 then -1 else (Sent(s) - 1) % |s.links|)
    && forall c :: 0 <= c < |s.links| ==> InLane(s.fired, s.links, Sent(s), c)
  }

  ghost predicate InLane(fired: seq<(Pending, Message)>, links: seq<Link>, sent: nat, c: nat)
    requires c < |links|
  {
    FiredOn(fired, c, |links|) + Ids(Flights(links[c])) == Lane(sent, c, |links|)
  }

  ghost predicate Owns(slots: seq<Option<Pending>>, id: nat, seqNo: int) {
    0 <= seqNo < |slots| && slots[seqNo] == Some(Call(id, seqNo))
  }

  /** Every number in use names the slot that holds its own call. */
  ghost predicate Slots(s: State) {
    && 0 < |s.slots| <= INT_MAX
    && (forall c, t :: 0 <= c < |s.links| && t in Flights(s.links[c]) ==> Owns(s.slots, t.id, t.seqNo))
    && (s.hand.Allocated? ==> s.hand.index < |s.slots| && s.slots[s.hand.index].Some? && s.slots[s.hand.index].value.id == s.hand.id)
    && (s.hand.Numbered? ==> Owns(s.slots, s.hand.id, s.hand.index))
    && (s.freeing.Some? ==>
         && Owns(s.slots, s.freeing.value.id, s.freeing.value.seqNo) && s.freeing.value.id < Sent(s)
         && forall c, t :: 0 <= c < |s.links| && t in Flights(s.links[c]) ==> t.id != s.freeing.value.id)
  }

  ghost predicate GoodRequest(issued: seq<Request>, t: Tagged) {
    t.id < |issued| &&
    var r := issued[t.id];
    t.message.first == RequestLine(r.methodName, r.service, "RPC/1.0") && t.message.seqNo == t.seqNo && t.message.body == r.input
  }

  ghost predicate GoodReply(sv: Server, issued: seq<Request>, id: nat, seqNo: int, m: Message) {
    id < |issued| && m.seqNo == seqNo && Replied(sv, issued[id].methodName, issued[id].service, issued[id].input, m)
  }

  lemma ReplyIsReplied(sv: Server, r: Request, seqNo: int, m: Message)
    ensures m == ReplyMessage(seqNo, Outcome(sv, r)) <==> m.seqNo == seqNo && Replied(sv, r.methodName, r.service, r.input, m)
  {}

  /** Every message is the one its call calls for. */
  ghost predicate Contents(sv: Server, s: State) {
    && (forall c, t :: 0 <= c < |s.links| && t in s.links[c].up ==> GoodRequest(s.issued, t))
    && (forall c, t :: 0 <= c < |s.links| && t in s.links[c].down ==> GoodReply(sv, s.issued, t.id, t.seqNo, t.message))
    && (forall i :: 0 <= i < |s.fired| ==> GoodReply(sv, s.issued, s.fired[i].0.id, s.fired[i].0.seqNo, s.fired[i].1))
    && !s.refused && !s.crashed
  }

  ghost predicate Inv(sv: Server, s: State) {
    Books(s) && Slots(s) && Contents(sv, s)
  }

  /** Every call and every slot that the client refers to exists. */
  ghost predicate Shaped(s: State) {
    && s.links != [] && 0 < |s.slots| <= INT_MAX
    && (forall id :: id in s.pending ==> id < |s.issued|)
    && (!s.hand.Nothing? ==> s.hand.id < |s.issued|)
    && (s.hand.Allocated? || s.hand.Numbered? ==> s.hand.index < |s.slots|)
    && (s.freeing.Some? ==> 0 <= s.freeing.value.seqNo < |s.slots|)
  }

  /** That much holds throughout every run, whatever the services called. */
  lemma StepKeepsShape(sv: Server, s: State, step: Step)
    requires Shaped(s) && Enabled(s, step)
    ensures Shaped(Do(sv, s, step))
  {
    hide RequestMessage, Answer;
    if step.Pop? {
      assert s.pending[0] in s.pending;
      forall id | id in s.pending[1..] ensures id in s.pending {
        assert s.pending == [s.pending[0]] + s.pending[1..];
      }
    }
  }

  /** Whose step it is. */
  datatype Actor = Caller | WriterThread | ServerSide(conn: nat) | Receiver

  function ActorOf(step: Step): Actor {
    match step
    case Issue(_) => Caller
    case Pop => WriterThread
    case Allocate(_, _) => WriterThread
    case Assign => WriterThread
    case Send => WriterThread
    case Serve(c) => ServerSide(c)
    case Fire(_) => Receiver
    case Release => Receiver
  }

  /** Nobody waits for anybody: what one thread can do it can still do after a step of another, short of a crash. Only the writer then
      finds another table, when it is about to take a slot. */
  lemma NobodyBlocks(sv: Server, s: State, a: Step, b: Step) returns (b': Step)
    requires Shaped(s) && Enabled(s, a) && Enabled(s, b) && ActorOf(a) != ActorOf(b) && !Do(sv, s, a).crashed
    ensures Enabled(Do(sv, s, a), b')
    ensures b' == b || (a.Release? && b.Allocate? && b'.Allocate? && b'.stale == b.stale)
  {
    hide Answer, RequestMessage;
    b' := b;
    if a.Release? && b.Allocate? {
      var slots := Do(sv, s, a).slots;
      var i := FirstEmpty(slots);
      assert slots[s.freeing.value.seqNo].None?;
      b' := Allocate(b.stale, slots[i := Some(Call(s.hand.id, b.stale))]);
    }
  }

  lemma {:induction false} LaneMeaning(k: nat, c: nat, n: nat)
    requires n > 0
    ensures forall x :: x in Lane(k, c, n) <==> 0 <= x < k && x % n == c
    ensures forall i, j :: 0 <= i < j < |Lane(k, c, n)| ==> Lane(k, c, n)[i] < Lane(k, c, n)[j]
  {
    if k > 0 {
      LaneMeaning(k - 1, c, n);
      var l := Lane(k - 1, c, n);
      assert forall i :: 0 <= i < |l| ==> l[i] in l;
    }
  }

  lemma LaneNext(k: nat, c: nat, n: nat)
    requires n > 0
    ensures Lane(k + 1, c, n) == Lane(k, c, n) + if k % n == c then [k] else []
  {}

  lemma FiredOnNext(fired: seq<(Pending, Message)>, x: (Pending, Message), c: nat, n: nat)
    requires n > 0
    ensures FiredOn(fired + [x], c, n) == FiredOn(fired, c, n) + if x.0.id % n == c then [x.0.id] else []
  {
    assert (fired + [x])[..|fired|] == fired;
  }

  /** One more call on a connection keeps its lane when it is its turn. */
  lemma SendLane(fired: seq<(Pending, Message)>, links: seq<Link>, k: nat, links': seq<Link>, k': nat, t: Tagged)
    requires links != [] && t.id == k && k' == k + 1 && links' == links[k % |links| := SendOn(links[k % |links|], t)]
    requires forall c :: 0 <= c < |links| ==> InLane(fired, links, k, c)
    ensures forall c :: 0 <= c < |links| ==> InLane(fired, links', k', c)
    ensures forall c, u :: 0 <= c < |links| && u in Flights(links'[c]) ==> u in Flights(links[c]) || u == t
  {
    hide Lane, FiredOn;
    var n := |links|;
    var b := k % n;
    assert Flights(links'[b]) == Flights(links[b]) + [t];
    forall c | 0 <= c < n ensures InLane(fired, links', k', c) {
      assert InLane(fired, links, k, c);
      LaneNext(k, c, n);
      if c == b {
        assert Ids(Flights(links'[c])) == Ids(Flights(links[c])) + [k];
      }
    }
  }

  /** The first response of a connection fires. */
  lemma FireLane(fired: seq<(Pending, Message)>, links: seq<Link>, k: nat, c: nat, links': seq<Link>, x: (Pending, Message))
    requires c < |links| && links[c].down != [] && links' == links[c := links[c].(down := links[c].down[1..])]
    requires x.0.id == links[c].down[0].id && x.0.id % |links| == c
    requires forall d :: 0 <= d < |links| ==> InLane(fired, links, k, d)
    ensures forall d :: 0 <= d < |links| ==> InLane(fired + [x], links', k, d)
    ensures Flights(links[c]) == [links[c].down[0]] + Flights(links'[c])
  {
    hide Lane, FiredOn;
    var n, t := |links|, links[c].down[0];
    assert Flights(links[c]) == [t] + Flights(links'[c]);
    assert Ids(Flights(links[c])) == [t.id] + Ids(Flights(links'[c]));
    forall d | 0 <= d < n ensures InLane(fired + [x], links', k, d) {
      assert InLane(fired, links, k, d);
      FiredOnNext(fired, x, d, n);
    }
  }

  /** A call on its way has been sent, on the connection that is its turn. */
  lemma InFlight(s: State, c: nat, t: Tagged)
    requires Books(s) && c < |s.links| && t in Flights(s.links[c])
    ensures t.id < Sent(s) && t.id % |s.links| == c
  {
    var ids := Ids(Flights(s.links[c]));
    var i :| 0 <= i < |ids| && Flights(s.links[c])[i] == t;
    assert InLane(s.fired, s.links, Sent(s), c);
    var l := Lane(Sent(s), c, |s.links|);
    assert l[|FiredOn(s.fired, c, |s.links|)| + i] == t.id && t.id in l;
    LaneMeaning(Sent(s), c, |s.links|);
  }

  /** Two places in flight hold two calls. */
  lemma FlightsDiffer(s: State, c: nat, i: nat, d: nat, j: nat)
    requires Books(s) && c < |s.links| && d < |s.links| && (c != d || i != j)
    requires i < |Flights(s.links[c])| && j < |Flights(s.links[d])|
    ensures Flights(s.links[c])[i].id != Flights(s.links[d])[j].id
  {
    var n := |s.links|;
    InFlight(s, c, Flights(s.links[c])[i]);
    InFlight(s, d, Flights(s.links[d])[j]);
    if c == d {
      LaneMeaning(Sent(s), c, n);
      assert InLane(s.fired, s.links, Sent(s), c);
      var l, f := Lane(Sent(s), c, n), |FiredOn(s.fired, c, n)|;
      assert l[f + i] == Flights(s.links[c])[i].id && l[f + j] == Flights(s.links[c])[j].id;
    }
  }

  // ----- every step keeps the invariant -----

  lemma InitialInv(sv: Server, n: nat)
    requires n > 0
    ensures Inv(sv, Initial(n))
  {}

  lemma IssueKeeps(sv: Server, s: State, r: Request)
    requires Inv(sv, s)
    ensures Inv(sv, Do(sv, s, Issue(r)))
  {
    hide Flights, Outcome, Replied, Lane, FiredOn;
    var s' := Do(sv, s, Issue(r));
    assert Sent(s') == Sent(s);
    forall c, t | 0 <= c < |s.links| && t in s'.links[c].up ensures GoodRequest(s'.issued, t) {
      assert GoodRequest(s.issued, t);
    }
    assert forall id :: 0 <= id < |s.issued| ==> s'.issued[id] == s.issued[id];
  }

  lemma PopKeeps(sv: Server, s: State)
    requires Inv(sv, s) && Enabled(s, Pop)
    ensures Inv(sv, Do(sv, s, Pop))
  {
    hide Flights, Outcome, Replied, Lane, FiredOn;
    assert Sent(Do(sv, s, Pop)) == Sent(s);
  }

  /** The slot given out was not in use, also when the table has grown and whatever is in the new half. */
  lemma AllocateKeeps(sv: Server, s: State, step: Step)
    requires Inv(sv, s) && step.Allocate? && Enabled(s, step)
    ensures Inv(sv, Do(sv, s, step))
  {
    hide Flights, Outcome, Replied, Lane, FiredOn;
    var s' := Do(sv, s, step);
    assert Sent(s') == Sent(s);
    forall j | 0 <= j < |s.slots| && s.slots[j].Some? ensures j < |s'.slots| && s'.slots[j] == s.slots[j] {
      if FirstEmpty(s.slots) == |s.slots| {
        assert s'.slots[..|s.slots|][j] == s.slots[j];
      }
    }
  }

  lemma AssignKeeps(sv: Server, s: State)
    requires Inv(sv, s) && Enabled(s, Assign)
    ensures Inv(sv, Do(sv, s, Assign))
  {
    var s' := Do(sv, s, Assign);
    assert Sent(s') == Sent(s);
    forall c, t | 0 <= c < |s.links| && t in Flights(s.links[c]) ensures Owns(s'.slots, t.id, t.seqNo) {
      InFlight(s, c, t);
      assert Owns(s.slots, t.id, t.seqNo);
    }
    hide Flights, Outcome, Replied, Lane, FiredOn;
  }

  lemma NextConnection(a: int, n: nat)
    requires n > 0 && a >= 0
    ensures a > 0 ==> ((a - 1) % n + 1) % n == a % n
    ensures a == 0 ==> (-1 + 1) % n == a % n
  {
    if a > 0 {
      var q, r := (a - 1) / n, (a - 1) % n;
      assert a - 1 == q * n + r;
      if r + 1 < n {
        ModIs(a, n, q, r + 1);
        ModIs(r + 1, n, 0, r + 1);
      } else {
        assert a == (q + 1) * n;
        ModIs(a, n, q + 1, 0);
        ModIs(n, n, 1, 0);
      }
    } else {
      ModIs(0, n, 0, 0);
    }
  }

  lemma ModIs(a: int, n: nat, q: int, r: int)
    requires n > 0 && a == q * n + r && 0 <= r < n
    ensures a % n == r
  {
    var q', r' := a / n, a % n;
    assert (q' - q) * n == r - r';
    Multiple(q' - q, n);
  }

  lemma Multiple(k: int, n: nat)
    requires n > 0
    ensures k >= 1 ==> k * n >= n
    ensures k <= -1 ==> k * n <= 0 - n
  {}

  lemma SendBooks(sv: Server, s: State)
    requires Inv(sv, s) && Enabled(s, Send)
    ensures var s' := Do(sv, s, Send);
      && Books(s') && Sent(s') == Sent(s) + 1
      && forall c, u :: 0 <= c < |s.links| && u in Flights(s'.links[c]) ==> u in Flights(s.links[c]) || u == InHand(s)
  {
    hide Flights, Outcome, Replied, Lane, FiredOn, InLane, Slots, Contents;
    var s', n, k := Do(sv, s, Send), |s.links|, Sent(s);
    NextConnection(k, n);
    assert Sent(s') == k + 1 && Next(s, n) == k % n;
    SendLane(s.fired, s.links, k, s'.links, Sent(s'), InHand(s));
    assert |s'.links| == n && s'.lastConn == (Sent(s') - 1) % |s'.links|;
    assert forall i :: 0 <= i < |s'.pending| ==> s'.pending[i] == |s'.issued| - |s'.pending| + i;
  }

  lemma SendKeeps(sv: Server, s: State)
    requires Inv(sv, s) && Enabled(s, Send)
    ensures Inv(sv, Do(sv, s, Send))
  {
    var s' := Do(sv, s, Send);
    SendBooks(sv, s);
    hide Flights, Outcome, Replied, Books;
    assert Slots(s');
    assert Contents(sv, s');
  }

  /** The reply will carry the number of its request. */
  ghost predicate Reaches(sv: Server, l: Link)
    requires l.up != []
  {
    Registered(sv, l.up[0].message) || l.curr == l.up[0].message.seqNo
  }

  /** An answer keeps the invariant if and only if the service is registered or the number of the request is
      the one that the connection answered last. */
  lemma ServeKeepsIff(sv: Server, s: State, c: nat)
    requires Inv(sv, s) && Enabled(s, Serve(c))
    ensures Inv(sv, Do(sv, s, Serve(c))) <==> Reaches(sv, s.links[c])
  {
    var s', l := Do(sv, s, Serve(c)), s.links[c];
    var l', t := s'.links[c], l.up[0];
    var t' := l'.down[|l.down|];
    assert l'.down == l.down + [t'] && l.up == [t] + l'.up;
    assert t in l.up && t' in l'.down;
    assert GoodRequest(s.issued, t);
    assert t'.message == ReplyMessage(if Reaches(sv, l) then t.seqNo else l.curr, Outcome(sv, s.issued[t.id]));
    ReplyIsReplied(sv, s.issued[t.id], if Reaches(sv, l) then t.seqNo else l.curr, t'.message);
    if Reaches(sv, l) {
      ServeFlights(s, s', c, t');
      hide Outcome, Lane, FiredOn, Answer, ReplyMessage, Replied;
      assert GoodReply(sv, s.issued, t.id, t.seqNo, t'.message);
      assert forall u :: u in l'.down ==> u in l.down || u == t';
    } else {
      assert !GoodReply(sv, s.issued, t'.id, t'.seqNo, t'.message);
    }
  }

  /** A request on the way out becomes a reply on the way back in the same place. */
  lemma ServeFlights(s: State, s': State, c: nat, t': Tagged)
    requires Books(s) && Slots(s) && c < |s.links| && s.links[c].up != []
    requires t'.id == s.links[c].up[0].id && t'.seqNo == s.links[c].up[0].seqNo
    requires |s'.links| == |s.links| && s'.links == s.links[c := s'.links[c]] && s' == s.(links := s'.links)
    requires s'.links[c].down == s.links[c].down + [t'] && s.links[c].up == [s.links[c].up[0]] + s'.links[c].up
    ensures Books(s') && Slots(s')
  {
    var l, l' := s.links[c], s'.links[c];
    var t := l.up[0];
    assert t in Flights(l);
    assert Sent(s') == Sent(s);
    assert Ids(Flights(l')) == Ids(Flights(l)) by {
      assert forall i :: 0 <= i < |Flights(l)| ==> Flights(l')[i].id == Flights(l)[i].id;
    }
    forall d | 0 <= d < |s.links| ensures InLane(s'.fired, s'.links, Sent(s), d) {
      assert InLane(s.fired, s.links, Sent(s), d);
    }
    forall d, u | 0 <= d < |s.links| && u in Flights(s'.links[d]) ensures u in Flights(s.links[d]) || u == t' {}
    hide Flights, Lane, FiredOn;
  }

  /** The response finds its own call, whose callback is made with the reply it deserves. */
  lemma FireKeeps(sv: Server, s: State, c: nat)
    requires Inv(sv, s) && Enabled(s, Fire(c))
    ensures Inv(sv, Do(sv, s, Fire(c)))
    ensures Do(sv, s, Fire(c)).freeing.Some? && Do(sv, s, Fire(c)).freeing.value.id == s.links[c].down[0].id
  {
    var s', l, n := Do(sv, s, Fire(c)), s.links[c], |s.links|;
    var l', t := s'.links[c], l.down[0];
    assert t in l.down && t in Flights(l) && l.down == [t] + l'.down;
    assert Owns(s.slots, t.id, t.seqNo) && GoodReply(sv, s.issued, t.id, t.seqNo, t.message);
    var call := Call(t.id, t.seqNo);
    assert s'.fired == s.fired + [(call, t.message)] && Sent(s') == Sent(s);
    InFlight(s, c, t);
    FireLane(s.fired, s.links, Sent(s), c, s'.links, (call, t.message));
    forall d, u | 0 <= d < n && u in Flights(s'.links[d]) ensures u in Flights(s.links[d]) && u.id != t.id {
      FiredIsGone(s, c, s'.links, d, u);
    }
    hide Flights, Lane, FiredOn, Outcome, Replied;
  }

  lemma FiredIsGone(s: State, c: nat, links': seq<Link>, d: nat, u: Tagged)
    requires Books(s) && c < |s.links| && d < |s.links| && Flights(s.links[c]) != []
    requires |links'| == |s.links| && links' == s.links[c := links'[c]]
    requires Flights(s.links[c]) == [Flights(s.links[c])[0]] + Flights(links'[c])
    requires u in Flights(links'[d])
    ensures u in Flights(s.links[d]) && u.id != Flights(s.links[c])[0].id
  {
    hide Flights, Lane, FiredOn;
    var j :| 0 <= j < |Flights(links'[d])| && Flights(links'[d])[j] == u;
    if d == c {
      assert Flights(s.links[c])[j + 1] == u;
    }
    FlightsDiffer(s, c, 0, d, if d == c then j + 1 else j);
  }

  lemma ReleaseKeeps(sv: Server, s: State)
    requires Inv(sv, s) && Enabled(s, Release)
    ensures Inv(sv, Do(sv, s, Release))
  {
    hide Flights, Outcome, Replied, Lane, FiredOn;
    assert Sent(Do(sv, s, Release)) == Sent(s);
  }

  lemma StepKeepsIff(sv: Server, s: State, step: Step)
    requires Inv(sv, s) && Enabled(s, step)
    ensures Inv(sv, Do(sv, s, step)) <==> (step.Serve? ==> Reaches(sv, s.links[step.conn]))
  {
    hide Inv, Reaches;
    match step
    case Issue(r) => IssueKeeps(sv, s, r);
    case Pop => PopKeeps(sv, s);
    case Allocate(_, _) => AllocateKeeps(sv, s, step);
    case Assign => AssignKeeps(sv, s);
    case Send => SendKeeps(sv, s);
    case Serve(c) => ServeKeepsIff(sv, s, c);
    case Fire(c) => FireKeeps(sv, s, c);
    case Release => ReleaseKeeps(sv, s);
  }

  // ----- runs -----

  ghost predicate Legal(sv: Server, s: State, steps: seq<Step>)
    decreases |steps|
  {
    steps != [] ==> Enabled(s, steps[0]) && Legal(sv, Do(sv, s, steps[0]), steps[1..])
  }

  ghost function After(sv: Server, s: State, steps: seq<Step>): State
    requires Legal(sv, s, steps)
    decreases |steps|
  {
    if steps == [] then s else After(sv, Do(sv, s, steps[0]), steps[1..])
  }

  /** The invariant holds after every step of the run. */
  ghost predicate Safe(sv: Server, s: State, steps: seq<Step>)
    requires Legal(sv, s, steps)
    decreases |steps|
  {
    Inv(sv, s) && (steps != [] ==> Safe(sv, Do(sv, s, steps[0]), steps[1..]))
  }

  ghost predicate AllReach(sv: Server, s: State, steps: seq<Step>)
    requires Legal(sv, s, steps)
    decreases |steps|
  {
    steps != [] ==>
      && (steps[0].Serve? ==> Reaches(sv, s.links[steps[0].conn]))
      && AllReach(sv, Do(sv, s, steps[0]), steps[1..])
  }

  /** A run is safe throughout if and only if every answer carries the number of its request. */
  lemma {:induction false} SafeIffAllReach(sv: Server, s: State, steps: seq<Step>)
    requires Inv(sv, s) && Legal(sv, s, steps)
    ensures Safe(sv, s, steps) <==> AllReach(sv, s, steps)
    decreases |steps|
  {
    hide Inv, Reaches, Do;
    if steps != [] {
      StepKeepsIff(sv, s, steps[0]);
      var s' := Do(sv, s, steps[0]);
      if Inv(sv, s') {
        SafeIffAllReach(sv, s', steps[1..]);
      }
    }
  }

  predicate AllRegistered(sv: Server, issued: seq<Request>) {
    forall r :: r in issued ==> StoredKey(r.methodName, r.service) in sv.registered
  }

  lemma KnownServiceReaches(sv: Server, s: State, step: Step)
    requires Inv(sv, s) && Enabled(s, step) && AllRegistered(sv, s.issued)
    ensures step.Serve? ==> Reaches(sv, s.links[step.conn])
  {
    if step.Serve? {
      var t := s.links[step.conn].up[0];
      assert t in s.links[step.conn].up;
      assert GoodRequest(s.issued, t);
      assert s.issued[t.id] in s.issued;
    }
  }

  lemma {:induction false} KnownServicesReach(sv: Server, s: State, steps: seq<Step>)
    requires Inv(sv, s) && Legal(sv, s, steps) && AllRegistered(sv, After(sv, s, steps).issued)
    ensures AllReach(sv, s, steps) && s.issued <= After(sv, s, steps).issued && Inv(sv, After(sv, s, steps))
    decreases |steps|
  {
    if steps != [] {
      IssuedGrows(sv, s, steps);
      KnownServiceReaches(sv, s, steps[0]);
      hide Inv, Enabled, Do;
      StepKeepsIff(sv, s, steps[0]);
      KnownServicesReach(sv, Do(sv, s, steps[0]), steps[1..]);
    }
  }

  lemma {:induction false} IssuedGrows(sv: Server, s: State, steps: seq<Step>)
    requires Legal(sv, s, steps)
    ensures s.issued <= After(sv, s, steps).issued
    decreases |steps|
  {
    if steps != [] {
      var s' := Do(sv, s, steps[0]);
      assert s.issued <= s'.issued;
      IssuedGrows(sv, s', steps[1..]);
    }
  }

  // ----- what the invariant means -----

  lemma {:induction false} FiredOnOrder(fired: seq<(Pending, Message)>, c: nat, n: nat, i: nat, j: nat) returns (p: nat, q: nat)
    requires n > 0 && i <= j < |fired| && fired[i].0.id % n == c && fired[j].0.id % n == c
    ensures p <= q < |FiredOn(fired, c, n)| && (i < j ==> p < q)
    ensures FiredOn(fired, c, n)[p] == fired[i].0.id && FiredOn(fired, c, n)[q] == fired[j].0.id
  {
    var last := |fired| - 1;
    var before := FiredOn(fired[..last], c, n);
    if j < last {
      p, q := FiredOnOrder(fired[..last], c, n, i, j);
    } else {
      q := |before|;
      p := q;
      if i < j {
        var q';
        p, q' := FiredOnOrder(fired[..last], c, n, i, i);
      }
    }
  }

  /** No call fires twice, and the calls of a connection fire in the order of issue. */
  lemma FiredInOrder(s: State, i: nat, j: nat)
    requires Books(s) && i < j < |s.fired|
    ensures s.fired[i].0.id != s.fired[j].0.id
    ensures s.fired[i].0.id % |s.links| == s.fired[j].0.id % |s.links| ==> s.fired[i].0.id < s.fired[j].0.id
  {
    var n := |s.links|;
    var c := s.fired[i].0.id % n;
    if s.fired[j].0.id % n == c {
      var p, q := FiredOnOrder(s.fired, c, n, i, j);
      assert InLane(s.fired, s.links, Sent(s), c);
      LaneMeaning(Sent(s), c, n);
      assert Lane(Sent(s), c, n)[p] == s.fired[i].0.id && Lane(Sent(s), c, n)[q] == s.fired[j].0.id;
    }
  }

  /** What callers want: no response has gone wrong, every callback has got the reply to its own call, none was made twice, and those
      of each of the `n` connections were made in the order of issue. */
  ghost predicate FiredRight(sv: Server, s: State, n: nat)
    requires n > 0
  {
    && !s.refused && !s.crashed
    && (forall i :: 0 <= i < |s.fired| ==> GoodReply(sv, s.issued, s.fired[i].0.id, s.fired[i].0.seqNo, s.fired[i].1))
    && (forall i, j :: 0 <= i < j < |s.fired| ==> s.fired[i].0.id != s.fired[j].0.id)
    && (forall i, j :: 0 <= i < j < |s.fired| && s.fired[i].0.id % n == s.fired[j].0.id % n ==> s.fired[i].0.id < s.fired[j].0.id)
  }

  /** No two messages in flight carry the same number. */
  ghost predicate NumbersDistinct(links: seq<Link>) {
    forall c, t, d, u :: 0 <= c < |links| && 0 <= d < |links| && t in Flights(links[c]) && u in Flights(links[d]) && t.id != u.id
      ==> t.seqNo != u.seqNo
  }

  lemma InvMatches(sv: Server, s: State)
    requires Inv(sv, s)
    ensures s.links != [] && FiredRight(sv, s, |s.links|) && NumbersDistinct(s.links)
  {
    var n := |s.links|;
    forall i, j | 0 <= i < j < |s.fired|
      ensures s.fired[i].0.id != s.fired[j].0.id
      ensures s.fired[i].0.id % n == s.fired[j].0.id % n ==> s.fired[i].0.id < s.fired[j].0.id
    {
      FiredInOrder(s, i, j);
    }
    forall c, t, d, u | 0 <= c < n && 0 <= d < n && t in Flights(s.links[c]) && u in Flights(s.links[d]) && t.id != u.id
      ensures t.seqNo != u.seqNo
    {
      assert Owns(s.slots, t.id, t.seqNo) && Owns(s.slots, u.id, u.seqNo);
    }
  }

  lemma {:induction false} SafeEnds(sv: Server, s: State, steps: seq<Step>)
    requires Legal(sv, s, steps) && Safe(sv, s, steps)
    ensures Inv(sv, After(sv, s, steps))
    decreases |steps|
  {
    hide Inv, Enabled, Do;
    if steps != [] {
      SafeEnds(sv, Do(sv, s, steps[0]), steps[1..]);
    }
  }

  /** Over every interleaving in which all answers carry the numbers of their requests. */
  lemma CallbacksMatch(sv: Server, n: nat, steps: seq<Step>)
    requires n > 0 && Legal(sv, Initial(n), steps) && AllReach(sv, Initial(n), steps)
    ensures FiredRight(sv, After(sv, Initial(n), steps), n) && NumbersDistinct(After(sv, Initial(n), steps).links)
    ensures Inv(sv, After(sv, Initial(n), steps))
  {
    InitialInv(sv, n);
    hide After, Legal, Inv, Initial, Safe, AllReach, FiredRight, NumbersDistinct;
    SafeIffAllReach(sv, Initial(n), steps);
    SafeEnds(sv, Initial(n), steps);
    InitialLinks(n);
    LinksStay(sv, Initial(n), steps);
    InvMatches(sv, After(sv, Initial(n), steps));
  }

  lemma InitialLinks(n: nat)
    ensures |Initial(n).links| == n
  {}

  /** In particular when only registered services are called. */
  lemma KnownServicesMatch(sv: Server, n: nat, steps: seq<Step>)
    requires n > 0 && Legal(sv, Initial(n), steps)
    requires forall r :: r in After(sv, Initial(n), steps).issued ==> StoredKey(r.methodName, r.service) in sv.registered
    ensures FiredRight(sv, After(sv, Initial(n), steps), n) && NumbersDistinct(After(sv, Initial(n), steps).links)
    ensures Inv(sv, After(sv, Initial(n), steps))
  {
    InitialInv(sv, n);
    KnownServicesReach(sv, Initial(n), steps);
    hide After, Legal, Inv, Initial, AllReach, FiredRight, NumbersDistinct;
    CallbacksMatch(sv, n, steps);
  }

  lemma {:induction false} LinksStay(sv: Server, s: State, steps: seq<Step>)
    requires Legal(sv, s, steps)
    ensures |After(sv, s, steps).links| == |s.links|
    decreases |steps|
  {
    if steps != [] {
      LinksStay(sv, Do(sv, s, steps[0]), steps[1..]);
    }
  }

  // ----- every call in exactly one place -----

  function OnLinks(links: seq<Link>, id: nat): nat {
    if links == [] then 0 else OnLinks(links[..|links| - 1], id) + multiset(Ids(Flights(links[|links| - 1])))[id]
  }

  function FiredIds(fired: seq<(Pending, Message)>): seq<nat> {
    seq(|fired|, i requires 0 <= i < |fired| => fired[i].0.id)
  }

  /** How often a call occurs among those pending, in the writer's hand, on the connections and with their callbacks made. */
  function Occurrences(s: State, id: nat): nat {
    multiset(s.pending)[id] + (if !s.hand.Nothing? && s.hand.id == id then 1 else 0)
    + OnLinks(s.links, id) + multiset(FiredIds(s.fired))[id]
  }

  lemma {:induction false} CountFired(fired: seq<(Pending, Message)>, id: nat, n: nat)
    requires n > 0
    ensures multiset(FiredIds(fired))[id] == multiset(FiredOn(fired, id % n, n))[id]
  {
    if fired != [] {
      var front, last := fired[..|fired| - 1], fired[|fired| - 1].0.id;
      CountFired(front, id, n);
      assert FiredIds(fired) == FiredIds(front) + [last];
    }
  }

  lemma {:induction false} CountOnLinks(links: seq<Link>, id: nat, c: nat)
    requires forall d :: 0 <= d < |links| && d != c ==> id !in Ids(Flights(links[d]))
    ensures OnLinks(links, id) == if c < |links| then multiset(Ids(Flights(links[c])))[id] else 0
  {
    if links != [] {
      var front := links[..|links| - 1];
      assert forall d :: 0 <= d < |front| ==> front[d] == links[d];
      CountOnLinks(front, id, c);
    }
  }

  lemma ExactlyOnePlace(s: State, id: nat)
    requires Books(s)
    ensures Occurrences(s, id) == if id < |s.issued| then 1 else 0
  {
    var n, k := |s.links|, Sent(s);
    var c := id % n;
    assert InLane(s.fired, s.links, k, c);
    LaneMeaning(k, c, n);
    CountOnce(Lane(k, c, n), id);
    CountFired(s.fired, id, n);
    forall d | 0 <= d < n && d != c ensures id !in Ids(Flights(s.links[d])) {
      if id in Ids(Flights(s.links[d])) {
        var i :| 0 <= i < |Flights(s.links[d])| && Ids(Flights(s.links[d]))[i] == id;
        InFlight(s, d, Flights(s.links[d])[i]);
      }
    }
    CountOnLinks(s.links, id, c);
    CountOnce(s.pending, id);
    var first := |s.issued| - |s.pending|;
    assert first <= id < |s.issued| ==> s.pending[id - first] == id;
    assert id in s.pending <==> first <= id < |s.issued|;
  }

  // ----- every call gets done -----

  function LinkWork(l: Link): nat { 3 * |l.up| + 2 * |l.down| }

  function Work(links: seq<Link>): nat {
    if links == [] then 0 else LinkWork(links[0]) + Work(links[1..])
  }

  /** The steps that the issued calls still need: seven for each, fewer for those on their way. */
  function StepsLeft(s: State): nat {
    7 * |s.pending|
    + (match s.hand case Nothing => 0 case Popped(_) => 6 case Allocated(_, _) => 5 case Numbered(_, _) => 4)
    + Work(s.links) + if s.freeing.Some? then 1 else 0
  }

  lemma {:induction false} WorkUpdate(links: seq<Link>, c: nat, l: Link)
    requires c < |links|
    ensures Work(links[c := l]) + LinkWork(links[c]) == Work(links) + LinkWork(l)
  {
    if c == 0 {
      assert links[c := l][1..] == links[1..];
    } else {
      assert links[c := l][1..] == links[1..][c - 1 := l];
      WorkUpdate(links[1..], c - 1, l);
    }
  }

  lemma {:induction false} WorkToDo(links: seq<Link>) returns (c: nat)
    requires Work(links) > 0
    ensures c < |links| && (links[c].up != [] || links[c].down != [])
  {
    if LinkWork(links[0]) > 0 {
      c := 0;
    } else {
      c := WorkToDo(links[1..]);
      c := c + 1;
    }
  }

  /** Each step other than a new call does some of the work, and exactly one step of it unless a response goes wrong. */
  lemma StepWorks(sv: Server, s: State, step: Step)
    requires Enabled(s, step)
    ensures step.Issue? ==> StepsLeft(Do(sv, s, step)) == StepsLeft(s) + 7
    ensures !step.Issue? ==> StepsLeft(Do(sv, s, step)) < StepsLeft(s)
    ensures !step.Issue? && Inv(sv, s) ==> StepsLeft(Do(sv, s, step)) == StepsLeft(s) - 1
  {
    hide Inserted, Work, Answer, Outcome, Books, Slots, Contents;
    var s' := Do(sv, s, step);
    match step
    case Send => WorkUpdate(s.links, Next(s, |s.links|), s'.links[Next(s, |s.links|)]);
    case Serve(c) => WorkUpdate(s.links, c, s'.links[c]);
    case Fire(c) =>
      WorkUpdate(s.links, c, s'.links[c]);
      if Inv(sv, s) {
        assert s'.freeing.Some? by { FireKeeps(sv, s, c); }
      }
    case _ =>
  }

  /** While work is left some step is possible, unless the writer waits for the table of numbers, which can grow no more. Once a response
      has been refused those behind it can wait for a read that nothing brings about. */
  lemma NeverStuck(s: State) returns (step: Step)
    requires Shaped(s) && !s.refused && !s.crashed && StepsLeft(s) > 0
    requires s.hand.Popped? ==> FirstEmpty(s.slots) < |s.slots| || 2 * |s.slots| <= INT_MAX
    ensures !step.Issue? && Enabled(s, step)
  {
    if !s.hand.Nothing? || s.pending != [] || s.freeing.Some? {
      step := ClientStep(s);
    } else {
      var c := WorkToDo(s.links);
      step := if s.links[c].up != [] then Serve(c) else Fire(c);
    }
  }

  lemma ClientStep(s: State) returns (step: Step)
    requires Shaped(s) && !s.crashed && (!s.hand.Nothing? || s.pending != [] || s.freeing.Some?)
    requires s.hand.Popped? ==> FirstEmpty(s.slots) < |s.slots| || 2 * |s.slots| <= INT_MAX
    ensures !step.Issue? && !step.Serve? && !step.Fire? && Enabled(s, step)
  {
    match s.hand
    case Popped(id) =>
      var i, n := FirstEmpty(s.slots), |s.slots|;
      if i < n {
        step := Allocate(0, s.slots[i := Some(Call(id, 0))]);
      } else {
        var slots' := s.slots + seq(n, _ => Some(Call(id, 0)));
        assert slots'[..n] == s.slots;
        step := Allocate(0, slots');
      }
    case Allocated(_, _) => step := Assign;
    case Numbered(_, _) => step := Send;
    case Nothing => step := if s.pending != [] then Pop else Release;
  }

  lemma {:induction false} NothingOnLinks(links: seq<Link>, id: nat)
    requires Work(links) == 0
    ensures OnLinks(links, id) == 0
  {
    if links != [] {
      WorkFront(links);
      NothingOnLinks(links[..|links| - 1], id);
    }
  }

  lemma {:induction false} WorkFront(links: seq<Link>)
    requires links != []
    ensures Work(links) == Work(links[..|links| - 1]) + LinkWork(links[|links| - 1])
  {
    if |links| > 1 {
      WorkFront(links[1..]);
      assert links[1..][..|links| - 2] == links[..|links| - 1][1..];
    }
  }

  /** From any safe state on, a run without new calls takes exactly the steps that are left, and when none is left every
      call has had its callback. */
  lemma {:induction false} CallsComplete(sv: Server, s: State, steps: seq<Step>)
    requires Inv(sv, s) && Legal(sv, s, steps) && AllReach(sv, s, steps)
    requires forall step :: step in steps ==> !step.Issue?
    ensures var s' := After(sv, s, steps);
      && s'.issued == s.issued && |steps| + StepsLeft(s') == StepsLeft(s)
      && (|steps| == StepsLeft(s) ==> forall id :: 0 <= id < |s.issued| ==> multiset(FiredIds(s'.fired))[id] == 1)
    decreases |steps|
  {
    if steps == [] {
      forall id: nat | id < |s.issued| && StepsLeft(s) == 0 ensures multiset(FiredIds(s.fired))[id] == 1 {
        ExactlyOnePlace(s, id);
        NothingOnLinks(s.links, id);
      }
    } else {
      assert steps[0] in steps;
      assert Do(sv, s, steps[0]).issued == s.issued;
      hide Inv, Do, Enabled, Reaches, StepsLeft;
      StepKeepsIff(sv, s, steps[0]);
      StepWorks(sv, s, steps[0]);
      CallsComplete(sv, Do(sv, s, steps[0]), steps[1..]);
    }
  }

  // ----- a service that is not registered -----

  lemma Prepend(sv: Server, s: State, step: Step, rest: seq<Step>)
    requires Enabled(s, step) && Legal(sv, Do(sv, s, step), rest)
    ensures Legal(sv, s, [step] + rest) && After(sv, s, [step] + rest) == After(sv, Do(sv, s, step), rest)
  {
    assert ([step] + rest)[1..] == rest;
  }

  /** The writer's turn: the call at the head of the queue is popped, numbered and sent. */
  function SendSteps(stale: int, slots: seq<Option<Pending>>): seq<Step> {
    [Pop] + ([Allocate(stale, slots)] + ([Assign] + ([Send] + [])))
  }

  ghost predicate ReadyToSend(s: State, stale: int, slots: seq<Option<Pending>>) {
    && !s.crashed && s.hand.Nothing? && s.pending != [] && s.pending[0] < |s.issued| && s.links != [] && s.slots != []
    && Inserted(s.slots, Call(s.pending[0], stale), FirstEmpty(s.slots), slots) && |slots| <= INT_MAX
  }

  lemma SendRun(sv: Server, s: State, stale: int, slots: seq<Option<Pending>>)
    requires ReadyToSend(s, stale, slots)
    ensures var id, i, c := s.pending[0], FirstEmpty(s.slots), Next(s, |s.links|);
      && i < |slots| && Legal(sv, s, SendSteps(stale, slots))
      && After(sv, s, SendSteps(stale, slots)) ==
         s.(pending := s.pending[1..], lastConn := c, slots := slots[i := Some(Call(id, i))],
            links := s.links[c := SendOn(s.links[c], Tagged(id, i, RequestMessage(s.issued[id], i)))])
  {
    hide Legal, After, FirstEmpty, RequestMessage, SendOn;
    var s1 := Do(sv, s, Pop);
    var s2 := Do(sv, s1, Allocate(stale, slots));
    var s3 := Do(sv, s2, Assign);
    var s4 := Do(sv, s3, Send);
    EmptyRun(sv, s4);
    Prepend(sv, s3, Send, []);
    Prepend(sv, s2, Assign, [Send] + []);
    Prepend(sv, s1, Allocate(stale, slots), [Assign] + ([Send] + []));
    Prepend(sv, s, Pop, [Allocate(stale, slots)] + ([Assign] + ([Send] + [])));
  }

  lemma EmptyRun(sv: Server, s: State)
    ensures Legal(sv, s, []) && After(sv, s, []) == s
  {}

  lemma {:induction false} RunOn(sv: Server, s: State, a: seq<Step>, b: seq<Step>)
    requires Legal(sv, s, a) && Legal(sv, After(sv, s, a), b)
    ensures Legal(sv, s, a + b) && After(sv, s, a + b) == After(sv, After(sv, s, a), b)
    decreases |a|
  {
    if a == [] {
      assert a + b == b;
    } else {
      assert (a + b)[1..] == a[1..] + b && (a + b)[0] == a[0];
      hide Enabled, Do;
      RunOn(sv, Do(sv, s, a[0]), a[1..], b);
    }
  }

  /** One more step at the end of a run. */
  lemma RunThen(sv: Server, s: State, steps: seq<Step>, step: Step)
    requires Legal(sv, s, steps) && Enabled(After(sv, s, steps), step)
    ensures Legal(sv, s, steps + [step]) && After(sv, s, steps + [step]) == Do(sv, After(sv, s, steps), step)
  {
    hide Enabled, Do;
    var s1 := After(sv, s, steps);
    EmptyRun(sv, Do(sv, s1, step));
    Prepend(sv, s1, step, []);
    assert [step] + [] == [step];
    RunOn(sv, s, steps, [step]);
  }

  /** What goes wrong otherwise: the reply to a request for an unknown service carries the number that the connection answered last. It
      goes to the call that waits under this number; it crashes the client when there is no such number in use, and is refused when the
      slot holds a request that has another number as yet. */
  lemma StaleReply(sv: Server, s: State, c: nat)
    requires Enabled(s, Serve(c)) && s.links[c].down == [] && s.freeing.None? && !s.crashed
    requires !Registered(sv, s.links[c].up[0].message)
    ensures var curr := s.links[c].curr; var steps := [Serve(c)] + ([Fire(c)] + []);
      && Legal(sv, s, steps)
      && var s' := After(sv, s, steps);
         && s'.issued == s.issued && s'.slots == s.slots
         && s'.fired == s.fired +
            (if Expected(s.slots, curr)
             then [(s.slots[curr].value, Message(StatusLine(404, "NotFound"), curr, "not find method@service"))] else [])
         && (s'.crashed <==> !(0 <= curr < |s.slots|) || s.slots[curr].None?)
         && (s'.refused <==> s.refused || (0 <= curr < |s.slots| && s.slots[curr].Some? && s.slots[curr].value.seqNo != curr))
  {
    var s1 := Do(sv, s, Serve(c));
    var s2 := Do(sv, s1, Fire(c));
    hide Legal, After;
    EmptyRun(sv, s2);
    Prepend(sv, s1, Fire(c), []);
    Prepend(sv, s, Serve(c), [Fire(c)] + []);
  }

  /** A request for a registered service is answered, its caller gets the reply, and its slot is emptied. */
  lemma OwnReply(sv: Server, s: State, c: nat)
    requires Enabled(s, Serve(c)) && s.links[c].down == [] && s.freeing.None? && !s.crashed
    requires Registered(sv, s.links[c].up[0].message) && Expected(s.slots, s.links[c].up[0].message.seqNo)
    ensures var m := s.links[c].up[0].message; var steps := [Serve(c)] + ([Fire(c)] + ([Release] + []));
      && Legal(sv, s, steps)
      && var h := sv.handle(StoredKey(m.first.methodName, m.first.service), m.body);
         var reply := Message(StatusLine(h.code.Number(), h.code.Phrase()), m.seqNo, h.output);
         After(sv, s, steps) ==
         s.(links := s.links[c := Link(s.links[c].up[1..], [], m.seqNo)], slots := s.slots[m.seqNo := None],
            fired := s.fired + [(s.slots[m.seqNo].value, reply)])
  {
    var m := s.links[c].up[0].message;
    RepliedByHandler(sv, m);
    hide ReplyTo, ReplyMessage, Code.Number, Code.Phrase;
    var s1 := Do(sv, s, Serve(c));
    AnswerNumber(sv, s.links[c].curr, m);
    hide Answer, Legal, After;
    assert |s1.links[c].down| == 1 && s1.links[c].down[1..] == [];
    var s2 := Do(sv, s1, Fire(c));
    var s3 := Do(sv, s2, Release);
    assert s3.links == s.links[c := Link(s.links[c].up[1..], [], m.seqNo)];
    EmptyRun(sv, s3);
    Prepend(sv, s2, Release, []);
    Prepend(sv, s1, Fire(c), [Release] + []);
    Prepend(sv, s, Serve(c), [Fire(c)] + ([Release] + []));
  }

  lemma RepliedByHandler(sv: Server, m: Message)
    requires Registered(sv, m)
    ensures var h := sv.handle(StoredKey(m.first.methodName, m.first.service), m.body);
      ReplyMessage(m.seqNo, ReplyTo(sv, m)) == Message(StatusLine(h.code.Number(), h.code.Phrase()), m.seqNo, h.output)
  {}

  lemma AnswerNumber(sv: Server, curr: int, m: Message)
    requires Registered(sv, m)
    ensures Answer(sv, curr, m) == (ReplyMessage(m.seqNo, ReplyTo(sv, m)), m.seqNo)
    ensures Answer(sv, curr, m).0.seqNo == m.seqNo
  {}

  /** A client with one connection has issued calls and sent them all. */
  function SentAll(rs: seq<Request>): State
    requires |rs| <= POOL_CAPACITY
  {
    Initial(1).(issued := rs, lastConn := if rs == [] then -1 else 0,
                slots := seq(POOL_CAPACITY, i requires 0 <= i < POOL_CAPACITY => if i < |rs| then Some(Call(i, i)) else None),
                links := [Link(seq(|rs|, i requires 0 <= i < |rs| => Tagged(i, i, RequestMessage(rs[i], i))), [], -1)])
  }

  lemma OneMoreSent(sv: Server, rs: seq<Request>, r: Request) returns (steps: seq<Step>)
    requires |rs| < POOL_CAPACITY
    ensures Legal(sv, SentAll(rs), steps) && After(sv, SentAll(rs), steps) == SentAll(rs + [r])
  {
    hide Legal, After, SendSteps, RequestMessage, FirstEmpty;
    var s, k := SentAll(rs), |rs|;
    var s1 := Do(sv, s, Issue(r));
    FirstEmptyIs(s.slots, k);
    var slots := s.slots[k := Some(Call(k, 0))];
    SendRun(sv, s1, 0, slots);
    Prepend(sv, s, Issue(r), SendSteps(0, slots));
    steps := [Issue(r)] + SendSteps(0, slots);
    assert slots[k := Some(Call(k, k))] == SentAll(rs + [r]).slots;
    var t := Tagged(k, k, RequestMessage(r, k));
    assert s.links[0].up + [t] == SentAll(rs + [r]).links[0].up;
    assert s1.links[0 := SendOn(s1.links[0], t)] == SentAll(rs + [r]).links;
  }

  lemma {:induction false} SentAllReached(sv: Server, rs: seq<Request>) returns (steps: seq<Step>)
    requires |rs| <= POOL_CAPACITY
    ensures Legal(sv, Initial(1), steps) && After(sv, Initial(1), steps) == SentAll(rs)
    decreases |rs|
  {
    if rs == [] {
      steps := [];
      EmptyRun(sv, Initial(1));
      assert Initial(1).slots == SentAll([]).slots && SentAll([]).links[0] == Link([], [], -1);
      assert Initial(1).links == SentAll([]).links;
    } else {
      var front, r := rs[..|rs| - 1], rs[|rs| - 1];
      var first := SentAllReached(sv, front);
      var more := OneMoreSent(sv, front, r);
      RunOn(sv, Initial(1), first, more);
      assert front + [r] == rs;
      steps := first + more;
    }
  }

  /** It does happen, whatever the two services are: the second of three calls is for a service that is not registered. The
      first call is answered and its number goes to the third one, which then gets the reply to the second. */
  lemma WrongCallback(sv: Server, known: Request, unknown: Request) returns (steps: seq<Step>)
    requires StoredKey(known.methodName, known.service) in sv.registered && StoredKey(unknown.methodName, unknown.service) !in sv.registered
    ensures Legal(sv, Initial(1), steps)
    ensures var s := After(sv, Initial(1), steps);
      && s.issued == [known, unknown, known] && |s.fired| == 2
      && s.fired[1] == (Call(2, 0), Message(StatusLine(404, "NotFound"), 0, "not find method@service"))
  {
    var before := SentAllReached(sv, [known, unknown]);
    var s := SentAll([known, unknown]);
    hide Legal, After, ReplyTo, ReplyMessage;
    OwnReply(sv, s, 0);
    var reply := [Serve(0)] + ([Fire(0)] + ([Release] + []));
    var s1 := After(sv, s, reply);
    var again, s2 := ThirdSent(sv, s1, known);
    StaleReply(sv, s2, 0);
    var stale := [Serve(0)] + ([Fire(0)] + []);
    RunOn(sv, s1, again, stale);
    RunOn(sv, s, reply, again + stale);
    RunOn(sv, Initial(1), before, reply + (again + stale));
    steps := before + (reply + (again + stale));
  }

  /** One more call takes the first slot when that is empty. */
  lemma ThirdSent(sv: Server, s: State, r: Request) returns (steps: seq<Step>, s': State)
    requires !s.crashed && s.pending == [] && s.hand.Nothing? && |s.links| == 1 && 0 < |s.slots| <= INT_MAX && s.slots[0].None?
    ensures Legal(sv, s, steps) && s' == After(sv, s, steps)
    ensures s'.issued == s.issued + [r] && s'.fired == s.fired && s'.freeing == s.freeing && !s'.crashed && |s'.links| == 1
    ensures s'.slots == s.slots[0 := Some(Call(|s.issued|, 0))]
    ensures exists t :: s'.links[0] == SendOn(s.links[0], t)
  {
    var id := |s.issued|;
    var s1 := Do(sv, s, Issue(r));
    var slots := s.slots[0 := Some(Call(id, 0))];
    FirstEmptyIs(s.slots, 0);
    hide Legal, After, SendSteps, RequestMessage, FirstEmpty;
    SendRun(sv, s1, 0, slots);
    assert slots[0 := Some(Call(id, 0))] == slots;
    Prepend(sv, s, Issue(r), SendSteps(0, slots));
    steps := [Issue(r)] + SendSteps(0, slots);
    s' := After(sv, s, steps);
    assert Next(s1, 1) == 0;
    assert s'.links[0] == SendOn(s.links[0], Tagged(id, 0, RequestMessage(r, 0)));
  }

  /** The first call on fresh connections: it gets its reply if its service is registered, and crashes the client otherwise, as no
      number has been answered yet. */
  lemma FirstCall(sv: Server, n: nat, r: Request) returns (steps: seq<Step>)
    requires n > 0
    ensures Legal(sv, Initial(n), steps)
    ensures var s := After(sv, Initial(n), steps);
      && s.issued == [r] && (s.crashed <==> StoredKey(r.methodName, r.service) !in sv.registered)
      && (s.crashed ==> s.fired == [])
      && (!s.crashed ==> |s.fired| == 1 && s.fired[0].0 == Call(0, 0) && GoodReply(sv, s.issued, 0, 0, s.fired[0].1))
  {
    var s0 := Initial(n);
    var s1 := Do(sv, s0, Issue(r));
    var slots := s1.slots[0 := Some(Call(0, 0))];
    FirstEmptyIs(s1.slots, 0);
    hide Legal, After, SendSteps, FirstEmpty;
    SendRun(sv, s1, 0, slots);
    Prepend(sv, s0, Issue(r), SendSteps(0, slots));
    steps := [Issue(r)] + SendSteps(0, slots);
    var s2 := After(sv, s0, steps);
    var t := Tagged(0, 0, RequestMessage(r, 0));
    assert Next(s1, n) == 0 && s2.links[0] == Link([t], [], -1);
    RunThen(sv, s0, steps, Serve(0));
    steps := steps + [Serve(0)];
    var s3 := After(sv, s0, steps);
    RunThen(sv, s0, steps, Fire(0));
    steps := steps + [Fire(0)];
  }

  lemma AnswerTo(sv: Server, r: Request, seqNo: int, curr: int)
    ensures var number := if StoredKey(r.methodName, r.service) in sv.registered then seqNo else curr;
      Answer(sv, curr, RequestMessage(r, seqNo)) == (ReplyMessage(number, Outcome(sv, r)), number)
    ensures StoredKey(r.methodName, r.service) !in sv.registered ==> Outcome(sv, r) == Reply(NotFound, NOT_FOUND)
  {}

  /** Three calls, the second one for a service that is not registered, with their answers on the way back. */
  function ThreeAnswered(sv: Server, known: Request, unknown: Request): State {
    SentAll([known, unknown, known]).(links := [Link([],
      [Tagged(0, 0, ReplyMessage(0, Outcome(sv, known))), Tagged(1, 1, ReplyMessage(0, Outcome(sv, unknown))),
       Tagged(2, 2, ReplyMessage(2, Outcome(sv, known)))], 2)])
  }

  lemma ThreeAnsweredReached(sv: Server, known: Request, unknown: Request) returns (steps: seq<Step>)
    requires StoredKey(known.methodName, known.service) in sv.registered && StoredKey(unknown.methodName, unknown.service) !in sv.registered
    ensures Legal(sv, Initial(1), steps) && After(sv, Initial(1), steps) == ThreeAnswered(sv, known, unknown)
  {
    steps := SentAllReached(sv, [known, unknown, known]);
    var s, s' := SentAll([known, unknown, known]), ThreeAnswered(sv, known, unknown);
    var t0, t1, t2 := Tagged(0, 0, RequestMessage(known, 0)), Tagged(1, 1, RequestMessage(unknown, 1)), Tagged(2, 2, RequestMessage(known, 2));
    assert s.links == [Link([t0] + ([t1] + [t2]), [], -1)] by { ThreeSent(known, unknown, known); }
    var d := s'.links[0].down;
    AnswerTo(sv, known, 0, -1);
    AnswerTo(sv, unknown, 1, 0);
    AnswerTo(sv, known, 2, 0);
    hide Legal, After, Answer, Outcome, ReplyMessage, RequestMessage, Enabled, Do, SentAll, Registered;
    ServeFirst(sv, s, t0, [t1] + [t2], [], -1);
    RunThen(sv, Initial(1), steps, Serve(0));
    steps := steps + [Serve(0)];
    ServeFirst(sv, s, t1, [t2] + [], [] + [d[0]], 0);
    RunThen(sv, Initial(1), steps, Serve(0));
    steps := steps + [Serve(0)];
    assert [t2] + [] == [t2];
    ServeFirst(sv, s, t2, [], [] + [d[0]] + [d[1]], 0);
    RunThen(sv, Initial(1), steps, Serve(0));
    steps := steps + [Serve(0)];
    assert [] + [d[0]] + [d[1]] + [d[2]] == d;
  }

  lemma ThreeSent(a: Request, b: Request, c: Request)
    ensures SentAll([a, b, c]).links ==
      [Link([Tagged(0, 0, RequestMessage(a, 0))] + ([Tagged(1, 1, RequestMessage(b, 1))] + [Tagged(2, 2, RequestMessage(c, 2))]), [], -1)]
  {
    hide RequestMessage;
    var rs := [a, b, c];
    var up := SentAll(rs).links[0].up;
    var t0, t1, t2 := Tagged(0, 0, RequestMessage(a, 0)), Tagged(1, 1, RequestMessage(b, 1)), Tagged(2, 2, RequestMessage(c, 2));
    assert rs[0] == a && rs[1] == b && rs[2] == c && |up| == 3 && up[0] == t0 && up[1] == t1 && up[2] == t2;
    assert up == [t0] + ([t1] + [t2]);
  }

  lemma ServeFirst(sv: Server, s: State, t: Tagged, rest: seq<Tagged>, down: seq<Tagged>, curr: int)
    ensures var st := s.(links := [Link([t] + rest, down, curr)]); var (reply, curr') := Answer(sv, curr, t.message);
      Enabled(st, Serve(0)) && Do(sv, st, Serve(0)) == s.(links := [Link(rest, down + [t.(message := reply)], curr')])
  {
    hide Answer;
    assert ([t] + rest)[1..] == rest;
  }

  /** The first of the three is done, and its slot has been given to a fourth call, which still has the number `stale` of a request
      before it. The answer to the second one, which names this slot, and that to the third one are on their way. */
  function BeforeRefusal(sv: Server, known: Request, unknown: Request, stale: int): State {
    var s := ThreeAnswered(sv, known, unknown);
    s.(issued := s.issued + [known], hand := Allocated(3, 0), slots := s.slots[0 := Some(Call(3, stale))],
       fired := [(Call(0, 0), ReplyMessage(0, Outcome(sv, known)))],
       links := [Link([], s.links[0].down[1..], 2)])
  }

  lemma BeforeRefusalReached(sv: Server, known: Request, unknown: Request, stale: int) returns (steps: seq<Step>)
    requires StoredKey(known.methodName, known.service) in sv.registered && StoredKey(unknown.methodName, unknown.service) !in sv.registered
    ensures Legal(sv, Initial(1), steps) && After(sv, Initial(1), steps) == BeforeRefusal(sv, known, unknown, stale)
  {
    steps := ThreeAnsweredReached(sv, known, unknown);
    var s := ThreeAnswered(sv, known, unknown);
    hide Legal, After, Outcome, ReplyMessage, RequestMessage, FirstEmpty;
    RunThen(sv, Initial(1), steps, Fire(0));
    steps := steps + [Fire(0)];
    RunThen(sv, Initial(1), steps, Release);
    steps := steps + [Release];
    RunThen(sv, Initial(1), steps, Issue(known));
    steps := steps + [Issue(known)];
    RunThen(sv, Initial(1), steps, Pop);
    steps := steps + [Pop];
    var s4 := After(sv, Initial(1), steps);
    FirstEmptyIs(s4.slots, 0);
    var slots := s4.slots[0 := Some(Call(3, stale))];
    RunThen(sv, Initial(1), steps, Allocate(stale, slots));
    steps := steps + [Allocate(stale, slots)];
    assert slots == s.slots[0 := Some(Call(3, stale))];
  }
}
