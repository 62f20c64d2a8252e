/** The read callback of the client (cb_rsp_read in src/rpc_conn.c). */
module ClientLoop {
  import opened Wire
  import opened Frame
  import opened ObjectPool
  import opened Connection
  import opened Reader
  import opened Packets
  import opened SessionPool

  /** A request that waits for its response, as the session pool holds it. */
  datatype Pending = Call(id: nat, seqNo: int)

  /** What becomes of a response. `Mismatch` is the test on the number that ends the callback; `Crash` is a number outside the
      table, where the assertions of rpc_sessionpool_get fail, or an empty slot, whose null pointer is followed. */
  datatype Arrival = Found | Mismatch | Crash

  function Arrive(slots: seq<Option<Pending>>, seqNo: int): Arrival {
    if !(0 <= seqNo < |slots|) || slots[seqNo].None? then Crash
    else if slots[seqNo].value.seqNo != seqNo then Mismatch
    else Found
  }

  /** The slot that a response names holds a request with that number. */
  predicate Expected(slots: seq<Option<Pending>>, seqNo: int) { Arrive(slots, seqNo).Found? }

  /** The callbacks made, each with its response, and the slots afterwards; `last` is `Found` when nothing went wrong. */
  datatype Delivery = Delivery(log: seq<(Pending, Message)>, slots: seq<Option<Pending>>, last: Arrival)

  /** Responses in the order of arrival: each goes to the request in the slot it names, which is then emptied. */
  function Deliver(slots: seq<Option<Pending>>, ms: seq<Message>): Delivery
    decreases |ms|
  {
    if ms == [] then Delivery([], slots, Found)
    else if !Expected(slots, ms[0].seqNo) then Delivery([], slots, Arrive(slots, ms[0].seqNo))
    else
      var i := ms[0].seqNo;
      var d := Deliver(slots[i := None], ms[1..]);
      d.(log := [(slots[i].value, ms[0])] + d.log)
  }

  lemma {:induction false} DeliverAppend(slots: seq<Option<Pending>>, ms: seq<Message>, more: seq<Message>)
    ensures var d := Deliver(slots, ms);
      Deliver(slots, ms + more) ==
      if d.last.Found? then var d' := Deliver(d.slots, more); d'.(log := d.log + d'.log) else d
    decreases |ms|
  {
    if ms == [] {
      assert ms + more == more;
      assert Deliver(slots, more).log == [] + Deliver(slots, more).log;
    } else {
      assert (ms + more)[0] == ms[0] && (ms + more)[1..] == ms[1..] + more;
      if Expected(slots, ms[0].seqNo) {
        var i := ms[0].seqNo;
        DeliverAppend(slots[i := None], ms[1..], more);
        var d := Deliver(slots[i := None], ms[1..]);
        var d' := Deliver(d.slots, more);
        assert [(slots[i].value, ms[0])] + (d.log + d'.log) == [(slots[i].value, ms[0])] + d.log + d'.log;
      }
    }
  }

  /** One response: one with the wrong number ends the callback and is not given back to the free list. */
  method Hand(pool: Pool<Pending>, m: Message) returns (a: Arrival, call: Pending)
    requires pool.Valid()
    modifies pool`live, pool.data
    ensures pool.Valid()
    ensures a == Arrive(old(pool.data[..]), m.seqNo)
    ensures a.Found? ==> Some(call) == old(pool.data[..])[m.seqNo] && pool.data[..] == old(pool.data[..])[m.seqNo := None]
    ensures !a.Found? ==> pool.data[..] == old(pool.data[..])
  {
    call := Call(0, 0);
    if !(0 <= m.seqNo < pool.data.Length) {
      return Crash, call;
    }
    var item := pool.Get(m.seqNo);
    if item.None? {
      return Crash, call;
    }
    if item.value.seqNo != m.seqNo {
      return Mismatch, call;
    }
    a, call := Found, item.value;
    pool.Remove(m.seqNo);
  }

  method ReadMessage(c: Conn<Packet>, rsp: Packet) returns (m: Message)
    requires c.Valid()
    ensures m == MessageOf(c.rbuf[..], rsp)
  {
    var mem := c.rbuf[..];
    m := Message(DerefLine(mem, rsp.line), rsp.seqNo,
                 if rsp.input + rsp.inputLen <= |mem| then mem[rsp.input..rsp.input + rsp.inputLen] else []);
  }

  datatype Progress = GoesOn | Rests(status: Status) | Stops(why: Arrival)

  /** The connection and its free list on the one side, the session pool on the other. */
  ghost predicate Separate(c: Conn<Packet>, fl: FreeList<Packet>, pool: Pool<Pending>)
    reads c, fl, fl.list, pool
  {
    pool.data as object !in fl.Repr() && pool as object !in fl.Repr() && pool.data as object != c.rbuf
  }

  /** The second half of a turn: the callback, the slot freed and the object given back. */
  method Finish(c: Conn<Packet>, fl: FreeList<Packet>, pool: Pool<Pending>, rsp: Packet)
    returns (a: Arrival, call: Pending, m: Message)
    requires Ready(c, fl) && pool.Valid() && Separate(c, fl, pool) && c.unprocess == None && rsp in fl.live
    modifies fl.Repr(), rsp, pool`live, pool.data
    ensures Ready(c, fl) && pool.Valid() && Separate(c, fl, pool) && c.unprocess == None
    ensures fl.list.data == old(fl.list.data) || fresh(fl.list.data)
    ensures m == old(MessageOf(c.rbuf[..], rsp)) && a == Arrive(old(pool.data[..]), m.seqNo)
    ensures a.Found? ==> Some(call) == old(pool.data[..])[m.seqNo] && pool.data[..] == old(pool.data[..])[m.seqNo := None]
    ensures !a.Found? ==> pool.data[..] == old(pool.data[..])
    ensures fl.live == if a.Found? then old(fl.live) - {rsp} else old(fl.live)
    ensures fl.Free() <= old(fl.Free()) + {rsp}
    ensures StateOf(c) == old(StateOf(c)) && forall o :: c.Behind(o) == old(c.Behind(o))
  {
    hide FreeList.Valid, FreeList.Free, Arrive, HeadOf;
    m := ReadMessage(c, rsp);
    a, call := Hand(pool, m);
    ghost var slots := pool.data[..];
    if a.Found? {
      PacketFree(fl, rsp);
    }
    assert pool.data[..] == slots;
  }

  /** One turn of cb_rsp_read's loop. */
  method TurnOnce(c: Conn<Packet>, fl: FreeList<Packet>, pool: Pool<Pending>, outside: Byte)
    returns (p: Progress, call: Pending, m: Message)
    requires Ready(c, fl) && pool.Valid() && Separate(c, fl, pool) && c.rbytes > 0
    modifies c`rcurr, c`rbytes, c`unprocess, c.rbuf, fl.Repr(), fl.Free(), Held(c), pool`live, pool.data
    ensures Ready(c, fl) && pool.Valid() && Separate(c, fl, pool)
    ensures fl.list.data == old(fl.list.data) || fresh(fl.list.data)
    ensures c.rcurr + c.rbytes == old(c.rcurr + c.rbytes) && c.Behind(outside) == old(c.Behind(outside))
    ensures var t := TakeTurn(Responses, old(StateOf(c)), old(c.Behind(outside)));
      && TurnTaken(t, old(StateOf(c)), StateOf(c), if p.Rests? then p.status else Waiting)
      && Handed(t, old(pool.data[..]), p, call, m, pool.data[..])
    ensures NoStrangers(c, fl) && (!p.Stops? ==> OwnObjects(c, fl))
    ensures p.Stops? ==> old(fl.live - Held(c)) < fl.live - Held(c)
  {
    hide FreeList.Valid, FreeList.Free, TakeTurn, Arrive, TurnTaken, StateOf, Conn.Behind;
    ghost var slots := pool.data[..];
    var status, req := Acquire(Responses, c, fl, outside);
    assert pool.data[..] == slots;
    if req.Some? {
      var a;
      a, call, m := Finish(c, fl, pool, req.value);
      p := if a.Found? then GoesOn else Stops(a);
    } else {
      p, call, m := Rests(status), Call(0, 0), Message(StatusLine(0, []), 0, []);
    }
    assert !p.Stops? ==> fl.live - Held(c) == old(fl.live - Held(c));
  }

  ghost predicate Handed(t: Turn, slots: seq<Option<Pending>>, p: Progress, call: Pending, m: Message, slots': seq<Option<Pending>>) {
    match t
    case Emit(msg, n) =>
      && m == msg
      && if Expected(slots, m.seqNo) then p.GoesOn? && slots[m.seqNo] == Some(call) && slots' == slots[m.seqNo := None]
         else p == Stops(Arrive(slots, m.seqNo)) && slots' == slots
    case _ => p.Rests? && slots' == slots
  }

  /** What a callback comes to: the responses taken from the window in order, the last of which can be one that goes wrong; the callbacks
      made; the slots; how it ended; and the state of the reader afterwards. */
  datatype Reception = Reception(out: seq<Message>, log: seq<(Pending, Message)>, slots: seq<Option<Pending>>, end: Progress, state: State)

  function Ahead(out: seq<Message>, log: seq<(Pending, Message)>, r: Reception): Reception {
    r.(out := out + r.out, log := log + r.log)
  }

  /** A callback turn by turn. It ends at a response that goes wrong, and leaves those behind it in the window. */
  function Receive(st: State, slots: seq<Option<Pending>>, beyond: Byte): Reception
    decreases |st.window|, if st.held.Some? then 1 else 0
  {
    match TakeTurn(Responses, st, beyond)
    case Idle => Reception([], [], slots, Rests(Waiting), st)
    case Hold(h, n) => Reception([], [], slots, Rests(Waiting), State(Some(h), st.window[n..]))
    case Error(n) => Reception([], [], slots, Rests(ParseError), State(None, AfterError(st.window, n)))
    case Lost => Reception([], [], slots, Rests(Unspecified), st)
    case Emit(m, n) =>
      var st' := State(None, st.window[n..]);
      if Expected(slots, m.seqNo) then
        Ahead([m], [(slots[m.seqNo].value, m)], Receive(st', slots[m.seqNo := None], beyond))
      else Reception([m], [], slots, Stops(Arrive(slots, m.seqNo)), st')
  }

  /** The same, except that a reader that has lost its way has no state. */
  ghost predicate Receives(r: Reception, out: seq<Message>, log: seq<(Pending, Message)>, slots: seq<Option<Pending>>, p: Progress, st: State) {
    r.out == out && r.log == log && r.slots == slots && r.end == p && (p != Rests(Unspecified) ==> r.state == st)
  }

  lemma ReceiveStep(st: State, slots: seq<Option<Pending>>, beyond: Byte,
                    st': State, p: Progress, call: Pending, m: Message, slots': seq<Option<Pending>>)
    requires var t := TakeTurn(Responses, st, beyond);
      TurnTaken(t, st, st', if p.Rests? then p.status else Waiting) && Handed(t, slots, p, call, m, slots')
    ensures p.GoesOn? ==>
      && Receive(st, slots, beyond) == Ahead([m], [(call, m)], Receive(st', slots', beyond))
      && (|st'.window| < |st.window| || (|st'.window| == |st.window| && st.held.Some? && st'.held.None?))
    ensures !p.GoesOn? ==> Receives(Receive(st, slots, beyond), if p.Stops? then [m] else [], [], slots', p, st')
  {
    hide TakeTurn, Arrive;
  }

  lemma ReceiveNothing(st: State, slots: seq<Option<Pending>>, beyond: Byte)
    requires st.window == []
    ensures Receives(Receive(st, slots, beyond), [], [], slots, Rests(Waiting), st)
  {}

  lemma AheadTwice(out: seq<Message>, log: seq<(Pending, Message)>, m: Message, call: Pending, r: Reception)
    ensures Ahead(out, log, Ahead([m], [(call, m)], r)) == Ahead(out + [m], log + [(call, m)], r)
  {
    assert out + ([m] + r.out) == out + [m] + r.out && log + ([(call, m)] + r.log) == log + [(call, m)] + r.log;
  }

  /** A callback takes the messages that the reader would dispatch, up to one that goes wrong, and delivers them. */
  lemma {:induction false} ReceiveIsDelivery(st: State, slots: seq<Option<Pending>>, beyond: Byte)
    ensures var r, whole := Receive(st, slots, beyond), Drain(Responses, st, beyond);
      && r.out <= whole.out && Deliver(slots, r.out) == Deliver(slots, whole.out)
      && Result(whole, slots, r.end, r.log, r.slots, r.state)
      && |r.out| == |r.log| + if r.end.Stops? then 1 else 0
    decreases |st.window|, if st.held.Some? then 1 else 0
  {
    DrainTurn(Responses, st, beyond);
    hide Drain, TakeTurn;
    var t := TakeTurn(Responses, st, beyond);
    if t.Emit? && Expected(slots, t.message.seqNo) {
      var st', slots' := State(None, st.window[t.size..]), slots[t.message.seqNo := None];
      ReceiveIsDelivery(st', slots', beyond);
      assert ([t.message] + Receive(st', slots', beyond).out)[1..] == Receive(st', slots', beyond).out;
      assert ([t.message] + Drain(Responses, st', beyond).out)[1..] == Drain(Responses, st', beyond).out;
    }
  }

  /** The callbacks made and the slots are those of delivering what the reader dispatches, and nothing goes wrong, or the callback ends
      where the first response goes wrong. */
  ghost predicate Result(whole: Run, slots: seq<Option<Pending>>, p: Progress, log: seq<(Pending, Message)>,
                         now: seq<Option<Pending>>, st: State) {
    var d := Deliver(slots, whole.out);
    && log == d.log && now == d.slots
    && (d.last.Found? ==> p == Rests(whole.status) && (whole.status != Unspecified ==> st == whole.state))
    && (!d.last.Found? ==> p == Stops(d.last))
  }

  /** The dispatch loop of cb_rsp_read. If every response is expected no object is lost. */
  method DrainWindow(c: Conn<Packet>, fl: FreeList<Packet>, pool: Pool<Pending>, outside: Byte)
    returns (p: Progress, out: seq<Message>, log: seq<(Pending, Message)>)
    requires Ready(c, fl) && pool.Valid() && Separate(c, fl, pool)
    modifies c`rcurr, c`rbytes, c`unprocess, c.rbuf, fl.Repr(), fl.Free(), Held(c), pool`live, pool.data
    ensures Ready(c, fl) && pool.Valid() && Separate(c, fl, pool) && (fl.list.data == old(fl.list.data) || fresh(fl.list.data))
    ensures Receives(Receive(old(StateOf(c)), old(pool.data[..]), old(c.Behind(outside))), out, log, pool.data[..], p, StateOf(c))
    ensures |out| == |log| + if p.Stops? then 1 else 0
    ensures NoStrangers(c, fl) && (!p.Stops? ==> OwnObjects(c, fl))
  {
    hide FreeList.Valid, FreeList.Free, TakeTurn, Receive, TurnTaken, Handed, Conn.Behind;
    ghost var beyond := c.Behind(outside);
    ghost var whole := Receive(StateOf(c), pool.data[..], beyond);
    out, log := [], [];
    assert whole == Ahead([], [], whole);
    while c.rbytes > 0
      invariant Ready(c, fl) && pool.Valid() && Separate(c, fl, pool)
      invariant fl.list.data == old(fl.list.data) || fresh(fl.list.data)
      invariant c.Behind(outside) == beyond
      invariant whole == Ahead(out, log, Receive(StateOf(c), pool.data[..], beyond))
      invariant OwnObjects(c, fl) && |out| == |log|
      decreases c.rbytes, if c.unprocess.Some? then 1 else 0
    {
      ghost var st, now := StateOf(c), pool.data[..];
      var call, m;
      p, call, m := TurnOnce(c, fl, pool, outside);
      ReceiveStep(st, now, beyond, StateOf(c), p, call, m, pool.data[..]);
      if !p.GoesOn? {
        out := if p.Stops? then out + [m] else out;
        return;
      }
      AheadTwice(out, log, m, call, Receive(StateOf(c), pool.data[..], beyond));
      out := out + [m];
      log := log + [(call, m)];
    }
    p := Rests(Waiting);
    ReceiveNothing(StateOf(c), pool.data[..], beyond);
  }

  /** cb_rsp_read. When the peer has closed nothing is delivered; when the read has failed the window pointer is null and followed
      if there are bytes in the window. */
  method CbRspRead(c: Conn<Packet>, sock: Socket, fl: FreeList<Packet>, pool: Pool<Pending>, grants: nat, outside: Byte)
    returns (end: ReadEnd, read: Read, p: Progress, out: seq<Message>, log: seq<(Pending, Message)>)
    requires Ready(c, fl) && pool.Valid() && Separate(c, fl, pool)
    modifies c, c.rbuf, sock, fl.Repr(), fl.Free(), Held(c), pool`live, pool.data
    ensures Ready(c, fl) && pool.Valid() && Separate(c, fl, pool) && read.data + sock.incoming == old(sock.incoming)
    ensures (c.rbuf == old(c.rbuf) || fresh(c.rbuf)) && (fl.list.data == old(fl.list.data) || fresh(fl.list.data))
    ensures end == BytesRead ==>
      Receives(Receive(State(old(SavedHead(c)), old(c.Window()) + read.data), old(pool.data[..]), read.beyond),
               out, log, pool.data[..], p, StateOf(c))
    ensures end == BytesRead && read.data == [] ==> grants == 0
    ensures old(sock.trace) <= sock.trace && ReadsTell(sock.trace[|old(sock.trace)|..], end, read.data)
    ensures end != BytesRead ==> out == [] && log == [] && pool.data[..] == old(pool.data[..])
    ensures end == PeerClosed ==> sock.incoming == [] && p == Rests(Waiting)
    ensures end == ReadFailed ==> sock.broken && p == Rests(if old(c.Window()) + read.data == [] then Waiting else Unspecified)
    ensures |out| == |log| + if p.Stops? then 1 else 0
    ensures NoStrangers(c, fl) && (!p.Stops? ==> OwnObjects(c, fl))
  {
    hide FreeList.Valid, FreeList.Free, Receive;
    p, out, log := Rests(Waiting), [], [];
    ghost var head, window := SavedHead(c), c.Window();
    var data;
    end, data := c.ReadFromConn(sock, grants);
    read := Read(data, c.Behind(outside));
    ReadsToldBy(sock.trace[|old(sock.trace)|..], end, c.rbytes == c.rbuf.Length);
    assert StateOf(c) == State(head, window + data);
    if end == BytesRead {
      p, out, log := DrainWindow(c, fl, pool, outside);
    } else if end == ReadFailed && c.rbytes > 0 {
      p := Rests(Unspecified);
    }
  }

  // ----- the callbacks of a connection -----

  /** After a crash, or a token that was never stored, there are no more callbacks. */
  predicate Halts(p: Progress) { p == Rests(Unspecified) || p == Stops(Crash) }

  /** What the callbacks after several reads come to. One that ends at a refused response is followed by the next, which begins with the
      response behind it. `end` is how the last one ended. */
  function ReceiveAll(st: State, slots: seq<Option<Pending>>, rs: seq<Read>): Reception
    decreases |rs|
  {
    if rs == [] then Reception([], [], slots, Rests(Waiting), st)
    else
      var r, read := ReceiveAll(st, slots, rs[..|rs| - 1]), rs[|rs| - 1];
      if Halts(r.end) then r
      else Ahead(r.out, r.log, Receive(State(r.state.held, r.state.window + read.data), r.slots, read.beyond))
  }

  lemma ReceiveAllLast(st: State, slots: seq<Option<Pending>>, rs: seq<Read>, read: Read)
    ensures var r := ReceiveAll(st, slots, rs);
      ReceiveAll(st, slots, rs + [read]) ==
        if Halts(r.end) then r else Ahead(r.out, r.log, Receive(State(r.state.held, r.state.window + read.data), r.slots, read.beyond))
  {
    hide Receive;
    assert (rs + [read])[..|rs|] == rs;
  }

  lemma ReceiveMore(st: State, slots: seq<Option<Pending>>, rs: seq<Read>, read: Read, before: State, now: seq<Option<Pending>>, p: Progress,
                    out: seq<Message>, log: seq<(Pending, Message)>, out': seq<Message>, log': seq<(Pending, Message)>,
                    now': seq<Option<Pending>>, p': Progress, after: State)
    requires Receives(ReceiveAll(st, slots, rs), out, log, now, p, before) && !Halts(p)
    requires Receives(Receive(State(before.held, before.window + read.data), now, read.beyond), out', log', now', p', after)
    ensures Receives(ReceiveAll(st, slots, rs + [read]), out + out', log + log', now', p', after)
  {
    hide Receive, ReceiveAll;
    ReceiveAllLast(st, slots, rs, read);
  }

  /** The callbacks of a connection, one after the other, as long as nobody else takes numbers. No response object is lost if no response
      goes wrong, that is if as many callbacks are made as responses taken. */
  method ServeConnection(c: Conn<Packet>, sock: Socket, fl: FreeList<Packet>, pool: Pool<Pending>, callbacks: seq<(nat, Byte)>)
    returns (rs: seq<Read>, p: Progress, out: seq<Message>, log: seq<(Pending, Message)>, closed: bool, ghost kept: State)
    requires Ready(c, fl) && pool.Valid() && Separate(c, fl, pool)
    modifies c, c.rbuf, sock, fl.Repr(), fl.Free(), Held(c), pool`live, pool.data
    ensures Ready(c, fl) && pool.Valid() && Received(rs) <= old(sock.incoming)
    ensures Receives(ReceiveAll(old(StateOf(c)), old(pool.data[..]), rs), out, log, pool.data[..], p, kept)
    ensures !closed ==> kept == StateOf(c) && Received(rs) + sock.incoming == old(sock.incoming)
    ensures closed ==> LastReadCloses(sock.trace)
    ensures !closed && !Halts(p) ==> |rs| == |callbacks|
    ensures NoStrangers(c, fl) && (|out| == |log| ==> OwnObjects(c, fl))
  {
    hide FreeList.Valid, FreeList.Free, Receive, ReceiveAll, Receives, Received, Conn.Window, Separate;
    ghost var st, slots, incoming := StateOf(c), pool.data[..], sock.incoming;
    rs, p, out, log, closed, kept := [], Rests(Waiting), [], [], false, st;
    ReceivedNone(incoming);
    ReceiveAllNothing(st, slots);
    for i := 0 to |callbacks|
      invariant Ready(c, fl) && pool.Valid() && Separate(c, fl, pool)
      invariant (c.rbuf == old(c.rbuf) || fresh(c.rbuf)) && (fl.list.data == old(fl.list.data) || fresh(fl.list.data))
      invariant !Halts(p) && !closed && kept == StateOf(c) && |rs| == i
      invariant Receives(ReceiveAll(st, slots, rs), out, log, pool.data[..], p, kept)
      invariant Received(rs) + sock.incoming == incoming
      invariant NoStrangers(c, fl) && |log| <= |out| && (|out| == |log| ==> OwnObjects(c, fl))
    {
      ghost var before, now, trace := StateOf(c), pool.data[..], sock.trace;
      assert Received(rs) <= incoming;
      var end, read, last, taken, more := CbRspRead(c, sock, fl, pool, callbacks[i].0, callbacks[i].1);
      if end != BytesRead {
        ReadsClose(trace, sock.trace, end, read.data);
        closed := true;
        return;
      }
      kept := StateOf(c);
      ReceiveMore(st, slots, rs, read, before, now, p, out, log, taken, more, pool.data[..], last, kept);
      assert Received(rs + [read]) + sock.incoming == incoming by { ReceivedMore(rs, read); }
      rs, out, log, p := rs + [read], out + taken, log + more, last;
      if Halts(p) {
        return;
      }
    }
  }

  lemma ReceiveAllNothing(st: State, slots: seq<Option<Pending>>)
    ensures Receives(ReceiveAll(st, slots, []), [], [], slots, Rests(Waiting), st)
  {}

  /** Nothing has gone wrong if there is a callback for every response; then these are the deliveries of a whole run. */
  ghost predicate Matches(r: Reception, slots: seq<Option<Pending>>, whole: Run) {
    && |r.log| <= |r.out| && (r.end.Stops? ==> |r.log| < |r.out|)
    && (|r.out| == |r.log| ==>
          && r.out == whole.out && Deliver(slots, whole.out) == Delivery(r.log, r.slots, Found)
          && (whole.status != Unspecified ==> r.state == whole.state) && (r.end == Rests(Unspecified) <==> whole.status == Unspecified))
  }

  lemma MatchesMore(r: Reception, slots: seq<Option<Pending>>, whole: Run, st: State, beyond: Byte)
    requires Matches(r, slots, whole) && !Halts(r.end)
    ensures Matches(Ahead(r.out, r.log, Receive(st, r.slots, beyond)), slots, Followed(whole, Drain(Responses, st, beyond)))
    ensures var r' := Receive(st, r.slots, beyond); |r'.log| <= |r'.out|
  {
    ReceiveIsDelivery(st, r.slots, beyond);
    hide Receive, Drain, Deliver;
    var r', whole' := Receive(st, r.slots, beyond), Drain(Responses, st, beyond);
    DeliverAppend(slots, whole.out, whole'.out);
    DeliverCount(r.slots, whole'.out);
  }

  lemma {:induction false} DeliverCount(slots: seq<Option<Pending>>, ms: seq<Message>)
    ensures var d := Deliver(slots, ms); d.last.Found? ==> |d.log| == |ms|
    decreases |ms|
  {
    if ms != [] && Expected(slots, ms[0].seqNo) {
      DeliverCount(slots[ms[0].seqNo := None], ms[1..]);
    }
  }

  lemma NothingMatches(st: State, slots: seq<Option<Pending>>)
    ensures Matches(ReceiveAll(st, slots, []), slots, Serve(Responses, st, []))
  {}

  /** As long as nothing goes wrong the callbacks together deliver what Serve dispatches. */
  lemma {:induction false} ReceiveAllIsServe(st: State, slots: seq<Option<Pending>>, rs: seq<Read>)
    ensures Matches(ReceiveAll(st, slots, rs), slots, Serve(Responses, st, rs))
    decreases |rs|
  {
    hide Serve, Drain, Receive, ReceiveAll, Deliver;
    if rs == [] {
      NothingMatches(st, slots);
    } else {
      var front, read := rs[..|rs| - 1], rs[|rs| - 1];
      assert front + [read] == rs;
      ReceiveAllIsServe(st, slots, front);
      ServeMore(Responses, st, front, read);
      ReceiveAllLast(st, slots, front, read);
      var r, whole := ReceiveAll(st, slots, front), Serve(Responses, st, front);
      if !Halts(r.end) {
        MatchesMore(r, slots, whole, State(r.state.held, r.state.window + read.data), read.beyond);
      }
    }
  }
}
