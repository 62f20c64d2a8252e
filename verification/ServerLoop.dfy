/** The read callback of the server (cb_req_read in src/rpc_conn.c). */
module ServerLoop {
  import opened Wire
  import opened Frame
  import opened ObjectPool
  import opened Connection
  import opened Reader
  import opened Packets
  import opened Service

  /** The service call, or the error reply when there is no such service. */
  method Dispatch(c: Conn<Packet>, req: Packet, sv: Server) returns (m: Message, reply: Message)
    requires c.Valid()
    modifies c`currSeq
    ensures m == MessageOf(c.rbuf[..], req)
    ensures req.input + req.inputLen <= c.rbuf.Length ==> m.body == c.rbuf[req.input..req.input + req.inputLen]
    ensures ReplyDue(sv, m, reply, old(c.currSeq)) && c.currSeq == reply.seqNo
    ensures (reply, c.currSeq) == Answer(sv, old(c.currSeq), m)
  {
    var mem := c.rbuf[..];
    var first := DerefLine(mem, req.line);
    var input := if req.input + req.inputLen <= |mem| then mem[req.input..req.input + req.inputLen] else [];
    m := Message(first, req.seqNo, input);
    var r := Reply(NotFound, NOT_FOUND);
    if first.RequestLine? && StoredKey(first.methodName, first.service) in sv.registered {
      c.currSeq := req.seqNo;
      r := sv.handle(StoredKey(first.methodName, first.service), input);
    }
    reply := ReplyMessage(c.currSeq, r);
  }

  /** The second half: the call, the reply, and the object given back. */
  method Finish(c: Conn<Packet>, fl: FreeList<Packet>, sv: Server, req: Packet) returns (m: Message, reply: Message)
    requires Ready(c, fl) && c.unprocess == None && req in fl.live
    modifies c`currSeq, fl.Repr(), req
    ensures Ready(c, fl) && c.unprocess == None
    ensures fl.list.data == old(fl.list.data) || fresh(fl.list.data)
    ensures m == old(MessageOf(c.rbuf[..], req)) && (reply, c.currSeq) == Answer(sv, old(c.currSeq), m)
    ensures fl.live == old(fl.live) - {req} && fl.Free() <= old(fl.Free()) + {req}
    ensures StateOf(c) == old(StateOf(c)) && forall o :: c.Behind(o) == old(c.Behind(o))
  {
    hide FreeList.Valid, FreeList.Free;
    m, reply := Dispatch(c, req, sv);
    PacketFree(fl, req);
  }

  /** One turn of cb_req_read's loop, from the saved head or the window to the release of the request. */
  method TurnOnce(c: Conn<Packet>, fl: FreeList<Packet>, sv: Server, outside: Byte)
    returns (status: Status, sent: Option<(Message, Message)>)
    requires Ready(c, fl) && c.rbytes > 0
    modifies c`rcurr, c`rbytes, c`unprocess, c`currSeq, c.rbuf, fl.Repr(), fl.Free(), Held(c)
    ensures Ready(c, fl) && c.rcurr + c.rbytes == old(c.rcurr + c.rbytes) && c.Behind(outside) == old(c.Behind(outside))
    ensures fl.list.data == old(fl.list.data) || fresh(fl.list.data)
    ensures var t := TakeTurn(Requests, old(StateOf(c)), old(c.Behind(outside)));
      && TurnTaken(t, old(StateOf(c)), StateOf(c), status)
      && Sent(sv, old(c.currSeq), t, sent, c.currSeq)
    ensures OwnObjects(c, fl)
  {
    hide FreeList.Valid, FreeList.Free, TakeTurn, Answer, TurnTaken, StateOf, Conn.Behind;
    var req;
    status, req := Acquire(Requests, c, fl, outside);
    sent := None;
    if req.Some? {
      var m, reply := Finish(c, fl, sv, req.value);
      sent := Some((m, reply));
    }
    assert fl.live - Held(c) == old(fl.live - Held(c));
  }

  ghost predicate Sent(sv: Server, curr: int, t: Turn, sent: Option<(Message, Message)>, curr': int) {
    match t
    case Emit(m, n) => sent.Some? && sent.value.0 == m && (sent.value.1, curr') == Answer(sv, curr, m)
    case _ => sent == None && curr' == curr
  }

  /** The dispatch loop of cb_req_read. */
  method DrainWindow(c: Conn<Packet>, fl: FreeList<Packet>, sv: Server, outside: Byte)
    returns (status: Status, out: seq<Message>, replies: seq<Message>)
    requires Ready(c, fl)
    modifies c`rcurr, c`rbytes, c`unprocess, c`currSeq, c.rbuf, fl.Repr(), fl.Free(), Held(c)
    ensures Ready(c, fl) && (fl.list.data == old(fl.list.data) || fresh(fl.list.data))
    ensures var r := Drain(Requests, old(StateOf(c)), old(c.Behind(outside)));
      out == r.out && status == r.status && (status != Unspecified ==> StateOf(c) == r.state)
    ensures (replies, c.currSeq) == AnswerAll(sv, old(c.currSeq), out)
    ensures OwnObjects(c, fl)
  {
    hide FreeList.Valid, FreeList.Free, TakeTurn, Answer, Drain, TurnTaken, AnswerAll, OnCourse, Conn.Window, Conn.Behind;
    ghost var beyond, curr := c.Behind(outside), c.currSeq;
    ghost var whole := Drain(Requests, StateOf(c), beyond);
    out, replies, status := [], [], Waiting;
    CourseBegins(whole);
    assert (replies, c.currSeq) == AnswerAll(sv, curr, out) by { AnswerNothing(sv, curr); }
    while c.rbytes > 0
      invariant Ready(c, fl) && (fl.list.data == old(fl.list.data) || fresh(fl.list.data))
      invariant c.Behind(outside) == beyond && status == Waiting
      invariant OnCourse(whole, out, Drain(Requests, StateOf(c), beyond))
      invariant (replies, c.currSeq) == AnswerAll(sv, curr, out)
      invariant OwnObjects(c, fl)
      decreases c.rbytes, if c.unprocess.Some? then 1 else 0
    {
      ghost var st, t := StateOf(c), TakeTurn(Requests, StateOf(c), beyond);
      var sent;
      ghost var before := c.currSeq;
      status, sent := TurnOnce(c, fl, sv, outside);
      CourseKept(Requests, whole, out, st, beyond, StateOf(c), status);
      if sent.None? {
        return;
      }
      AnswerAllAppend(sv, curr, out, t.message);
      out := out + [sent.value.0];
      replies := replies + [sent.value.1];
    }
    CourseEnds(Requests, whole, out, StateOf(c), beyond);
  }

  /** cb_req_read. `read` is what arrived and the byte then found behind the window. The messages dispatched, the replies
      and the state kept are those of Drain; no request object is lost, given back twice or left on the free list while in
      use. When the peer has closed, nothing is dispatched; when the read has failed, the window pointer is null and
      followed if there are bytes in the window. */
  method CbReqRead(c: Conn<Packet>, sock: Socket, fl: FreeList<Packet>, sv: Server, grants: nat, outside: Byte)
    returns (end: ReadEnd, read: Read, status: Status, out: seq<Message>, replies: seq<Message>)
    requires Ready(c, fl)
    modifies c, c.rbuf, sock, fl.Repr(), fl.Free(), Held(c)
    ensures Ready(c, fl) && read.data + sock.incoming == old(sock.incoming)
    ensures (c.rbuf == old(c.rbuf) || fresh(c.rbuf)) && (fl.list.data == old(fl.list.data) || fresh(fl.list.data))
    ensures end == BytesRead ==>
      var r := Drain(Requests, State(old(SavedHead(c)), old(c.Window()) + read.data), read.beyond);
      out == r.out && status == r.status && (status != Unspecified ==> StateOf(c) == r.state)
    ensures end == BytesRead && read.data == [] ==> grants == 0
    ensures old(sock.trace) <= sock.trace && ReadsTell(sock.trace[|old(sock.trace)|..], end, read.data)
    ensures end != BytesRead ==> out == [] && replies == [] && c.currSeq == old(c.currSeq)
    ensures end != BytesRead ==> StateOf(c) == State(old(SavedHead(c)), old(c.Window()) + read.data)
    ensures end == PeerClosed ==> sock.incoming == [] && status == Waiting
    ensures end == ReadFailed ==> sock.broken && status == if old(c.Window()) + read.data == [] then Waiting else Unspecified
    ensures (replies, c.currSeq) == AnswerAll(sv, old(c.currSeq), out)
    ensures OwnObjects(c, fl)
  {
    hide FreeList.Valid, FreeList.Free, Drain, AnswerAll;
    status, out, replies := Waiting, [], [];
    AnswerNothing(sv, c.currSeq);
    ghost var head, window := SavedHead(c), c.Window();
    var data;
    end, data := c.ReadFromConn(sock, grants);
    read := Read(data, c.Behind(outside));
    ReadsToldBy(sock.trace[|old(sock.trace)|..], end, c.rbytes == c.rbuf.Length);
    assert StateOf(c) == State(head, window + data);
    if end == BytesRead {
      status, out, replies := DrainWindow(c, fl, sv, outside);
    } else if end == ReadFailed && c.rbytes > 0 {
      status := Unspecified;
    }
  }

  /** The callbacks of a connection, one after the other, until it is closed or the code has lost its way: `rs` are the reads after
      which the window was looked at. Together they are Serve, and the replies are those to all messages dispatched. `kept` is
      the state after the last of them, which the connection is still in unless it was closed. */
  method ServeConnection(c: Conn<Packet>, sock: Socket, fl: FreeList<Packet>, sv: Server, callbacks: seq<(nat, Byte)>)
    returns (rs: seq<Read>, status: Status, out: seq<Message>, replies: seq<Message>, closed: bool, ghost kept: State)
    requires Ready(c, fl)
    modifies c, c.rbuf, sock, fl.Repr(), fl.Free(), Held(c)
    ensures Ready(c, fl) && Received(rs) <= old(sock.incoming)
    ensures Served(Serve(Requests, old(StateOf(c)), rs), out, status, kept) && (!closed ==> kept == StateOf(c))
    ensures !closed ==> Received(rs) + sock.incoming == old(sock.incoming)
    ensures closed ==> LastReadCloses(sock.trace)
    ensures !closed && status != Unspecified ==> |rs| == |callbacks|
    ensures (replies, c.currSeq) == AnswerAll(sv, old(c.currSeq), out)
    ensures OwnObjects(c, fl)
  {
    hide FreeList.Valid, FreeList.Free, Drain, AnswerAll, Serve, Served, Received, Conn.Window;
    ghost var st, curr, incoming := StateOf(c), c.currSeq, sock.incoming;
    rs, status, out, replies, closed, kept := [], Waiting, [], [], false, st;
    AnswerNothing(sv, curr);
    ServedNone(st);
    ReceivedNone(incoming);
    for i := 0 to |callbacks|
      invariant Ready(c, fl) && (c.rbuf == old(c.rbuf) || fresh(c.rbuf)) && (fl.list.data == old(fl.list.data) || fresh(fl.list.data))
      invariant status != Unspecified && !closed && kept == StateOf(c) && |rs| == i
      invariant Served(Serve(Requests, st, rs), out, status, kept)
      invariant Received(rs) + sock.incoming == incoming
      invariant (replies, c.currSeq) == AnswerAll(sv, curr, out)
      invariant OwnObjects(c, fl)
    {
      ghost var before, trace := StateOf(c), sock.trace;
      assert Received(rs) <= incoming;
      var end, read, last, more, answers := CbReqRead(c, sock, fl, sv, callbacks[i].0, callbacks[i].1);
      if end != BytesRead {
        ReadsClose(trace, sock.trace, end, read.data);
        closed := true;
        return;
      }
      kept := StateOf(c);
      ServedMore(Requests, st, rs, out, status, before, read, last, StateOf(c));
      AnswerAllJoin(sv, curr, out, more);
      assert Received(rs + [read]) + sock.incoming == incoming by { ReceivedMore(rs, read); }
      rs, out, replies := rs + [read], out + more, replies + answers;
      status := if last == Waiting then status else last;
      if status == Unspecified {
        return;
      }
    }
  }
}
