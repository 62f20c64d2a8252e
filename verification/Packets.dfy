/** Parsing a message in place and keeping its head for the next read: the part that the two sides of a connection have
    in common (src/rpc_request.c, src/rpc_response.c, the first half of the callbacks in src/rpc_conn.c). */
module Packets {
  import opened Wire
  import opened Frame
  import opened HeadDetection
  import opened HeadLines
  import opened ObjectPool
  import opened Connection
  import opened Reader

  /** A string field: null, a pointer into the receive buffer, or a string of its own (strdup). */
  datatype CStr = Null | At(pos: nat) | Own(text: Bytes)

  function Deref(mem: Bytes, p: CStr): Bytes {
    match p
    case Null => []
    case At(pos) => StringFrom(mem, pos)
    case Own(text) => text
  }

  /** The fields that the first line fills: those of rpc_request, those of rpc_response, or none yet. */
  datatype Line =
    | CallLine(methodName: CStr, service: CStr, version: CStr)
    | ReplyLine(code: int, phrase: CStr)
    | Unset

  function DerefLine(mem: Bytes, line: Line): First {
    match line
    case CallLine(m, s, v) => RequestLine(Deref(mem, m), Deref(mem, s), Deref(mem, v))
    case ReplyLine(code, phrase) => StatusLine(code, Deref(mem, phrase))
    case Unset => StatusLine(0, [])
  }

  function OwnStrings(line: Line): bool {
    match line
    case CallLine(m, s, v) => m.Own? && s.Own? && v.Own?
    case ReplyLine(code, phrase) => phrase.Own?
    case Unset => true
  }

  /** strdup on every string. */
  function Duplicate(mem: Bytes, line: Line): (r: Line)
    ensures OwnStrings(r)
    ensures forall any :: DerefLine(any, r) == DerefLine(mem, line)
  {
    match line
    case CallLine(m, s, v) => CallLine(Own(Deref(mem, m)), Own(Deref(mem, s)), Own(Deref(mem, v)))
    case ReplyLine(code, phrase) => ReplyLine(code, Own(Deref(mem, phrase)))
    case Unset => Unset
  }

  /** An rpc_request or rpc_response object. */
  class Packet {
    var line: Line
    var seqNo: int
    var input: nat  // offset into the receive buffer
    var inputLen: nat

    constructor () {}
  }

  /** The head that `req` describes, its strings read in `mem`. */
  ghost function HeadOf(mem: Bytes, req: Packet): Head
    reads req
  {
    Head(DerefLine(mem, req.line), req.seqNo, req.inputLen)
  }

  /** rpc_request_new and rpc_response_new: from the free list, or from malloc. */
  method PacketNew(fl: FreeList<Packet>) returns (req: Packet)
    requires fl.Valid()
    modifies fl.Repr()
    ensures fl.Valid() && fl.list.data == old(fl.list.data)
    ensures if old(fl.Free()) == {} then fresh(req) else req in old(fl.Free())
    ensures req !in old(fl.live) && fl.live == old(fl.live) + {req} && fl.Free() == old(fl.Free()) - {req}
  {
    ghost var free, live := fl.Free(), fl.live;
    var item := fl.Take();
    if item.Some? {
      req := item.value;
    } else {
      req := new Packet();
      assert req !in live && req !in free;
      fl.Enlist(req);
    }
  }

  /** rpc_request_free and rpc_response_free: memset and back to the free list, which has room or may fail to grow. */
  method PacketFree(fl: FreeList<Packet>, req: Packet)
    requires fl.Valid() && req in fl.live
    modifies fl.Repr(), req
    ensures fl.Valid() && (fl.list.data == old(fl.list.data) || fresh(fl.list.data))
    ensures fl.live == old(fl.live) - {req}
    ensures old(fl.Free()) <= fl.Free() <= old(fl.Free()) + {req}
    ensures old(fl.list.cur < fl.list.data.Length) ==> req in fl.Free()
    ensures req.line == Unset && req.seqNo == 0 && req.input == 0 && req.inputLen == 0
  {
    req.line, req.seqNo, req.input, req.inputLen := Unset, 0, 0, 0;
    var memory: bool := *;
    var kept := fl.Give(req, memory);
  }

  /** rpc_request_copy_head and rpc_response_copy_head: a second object with strings of its own. */
  method PacketCopyHead(fl: FreeList<Packet>, req: Packet, mem: Bytes) returns (copy: Packet)
    requires fl.Valid() && req in fl.live
    modifies fl.Repr(), fl.Free()
    ensures fl.Valid() && fl.list.data == old(fl.list.data)
    ensures copy in old(fl.Free()) || fresh(copy)
    ensures copy !in old(fl.live) && fl.live == old(fl.live) + {copy} && fl.Free() == old(fl.Free()) - {copy}
    ensures OwnStrings(copy.line)
    ensures forall any :: HeadOf(any, copy) == old(HeadOf(mem, req))
  {
    copy := PacketNew(fl);
    copy.line := Duplicate(mem, req.line);
    copy.seqNo, copy.inputLen := req.seqNo, req.inputLen;
  }

  datatype ParseResult = ParseOK | NeedData | ParseFailed | ParseUndefined

  /** The connection's memory and the free list's memory are separate. */
  ghost predicate Apart(c: Conn<Packet>, fl: FreeList<Packet>)
    reads c, fl, fl.list
  {
    {c, c.rbuf as object} !! fl.Repr()
  }

  lemma PointerKept(was: Bytes, now: Bytes, p: nat, text: Bytes, limit: nat, hi: nat)
    requires StringBelow(was, p, text, limit) && limit <= |was| && Kept(was, now, limit, hi)
    ensures StringFrom(now, p) == text
  {
    assert was[..limit] == now[..limit];
    StringKept(was, now, p, text, limit);
    StringFromIs(now, p, text);
  }

  /** The pointers of `line` find the fields of `first` in the buffer, below `limit`. */
  ghost predicate LineAt(mem: Bytes, line: Line, first: First, limit: nat) {
    match line
    case CallLine(m, s, v) =>
      && m.At? && s.At? && v.At? && first.RequestLine?
      && StringBelow(mem, m.pos, first.methodName, limit)
      && StringBelow(mem, s.pos, first.service, limit)
      && StringBelow(mem, v.pos, first.version, limit)
    case ReplyLine(code, phrase) =>
      && phrase.At? && first.StatusLine? && code == first.code
      && StringBelow(mem, phrase.pos, first.phrase, limit)
    case Unset => false
  }

  lemma LineKept(was: Bytes, now: Bytes, line: Line, first: First, limit: nat, hi: nat)
    requires LineAt(was, line, first, limit) && limit <= |was| && Kept(was, now, limit, hi)
    ensures DerefLine(now, line) == first
  {
    hide StringFrom, StringBelow, Kept;
    match line
    case CallLine(m, s, v) =>
      PointerKept(was, now, m.pos, first.methodName, limit, hi);
      PointerKept(was, now, s.pos, first.service, limit, hi);
      PointerKept(was, now, v.pos, first.version, limit, hi);
    case ReplyLine(code, phrase) =>
      PointerKept(was, now, phrase.pos, first.phrase, limit, hi);
  }

  /** What reading the first line of the window `w` at `pos` yields; the line ends at `cont`. */
  ghost predicate FirstLineRead(kind: Kind, w: Bytes, pos: nat, verdict: Verdict, line: Line, mem: Bytes, cont: nat) {
    match TakeLine(w)
    case None => verdict == Refused && cont == pos
    case Some((text, n)) =>
      && cont == pos + n
      && match ReadFirst(kind, text)
         case Wild => verdict == Reckless
         case Bad => verdict == Refused
         case Good(first) => verdict == Accepted && LineAt(mem, line, first, cont)
  }

  /** The first line, by the kind of message. */
  method ParseFirstLine(kind: Kind, buf: array<Byte>, pos: nat, len: nat)
    returns (verdict: Verdict, line: Line, cont: nat)
    requires pos + len <= buf.Length
    modifies buf
    ensures FirstLineRead(kind, old(buf[pos..pos + len]), pos, verdict, line, buf[..], cont)
    ensures pos <= cont <= pos + len
    ensures Kept(old(buf[..]), buf[..], pos, cont)
    ensures verdict == Refused ==> buf[pos..pos + len] == Marred(old(buf[pos..pos + len]))
  {
    hide ReadRequestLine, ReadStatusLine, TakeLine, StringBelow, Kept, Marred;
    ghost var mem := buf[..];
    match kind {
      case Requests =>
        var m, s, v;
        verdict, m, s, v, cont := ParseRequestLine(buf, pos, len);
        line := CallLine(At(m), At(s), At(v));
      case Responses =>
        var code, phrase;
        verdict, code, phrase, cont := ParseStatusLine(buf, pos, len);
        line := ReplyLine(code, At(phrase));
    }
    KeptSlices(mem, buf[..], pos, cont);
  }

  lemma InBuffer(c: Conn<Packet>)
    requires c.Valid()
    ensures c.rcurr + c.rbytes <= |c.rbuf[..]| && c.Window() == c.rbuf[..][c.rcurr..c.rcurr + c.rbytes]
  {}

  /** The first line; when it is accepted the window moves on to the next one. */
  method TakeFirstLine(kind: Kind, c: Conn<Packet>) returns (verdict: Verdict, line: Line, ghost cont: nat)
    requires c.Valid()
    modifies c`rcurr, c`rbytes, c.rbuf
    ensures c.Valid() && c.rcurr + c.rbytes == old(c.rcurr + c.rbytes)
    ensures FirstLineRead(kind, old(c.Window()), old(c.rcurr), verdict, line, c.rbuf[..], cont)
    ensures old(c.rcurr) <= c.rcurr == if verdict == Accepted then cont else old(c.rcurr)
    ensures verdict == Accepted ==> c.Window() == old(c.Window())[c.rcurr - old(c.rcurr)..]
    ensures verdict == Refused ==> c.Window() == Marred(old(c.Window()))
    ensures Kept(old(c.rbuf[..]), c.rbuf[..], old(c.rcurr), if verdict == Accepted then c.rcurr else c.rcurr + c.rbytes)
  {
    hide FirstLineRead, Kept, Marred, Conn.Window;
    InBuffer(c);
    ghost var mem, start, end := c.rbuf[..], c.rcurr, c.rcurr + c.rbytes;
    var next;
    verdict, line, next := ParseFirstLine(kind, c.rbuf, c.rcurr, c.rbytes);
    cont := next;
    ghost var now := c.rbuf[..];
    FirstLineMoved(mem, now, start, next, end);
    if verdict == Accepted {
      c.rcurr, c.rbytes := next, c.rbytes - (next - c.rcurr);
    }
    assert c.rbuf[..] == now;
    InBuffer(c);
  }

  lemma FirstLineMoved(was: Bytes, now: Bytes, start: nat, next: nat, end: nat)
    requires start <= next <= end <= |was| && Kept(was, now, start, next)
    ensures |was| == |now| && Kept(was, now, start, end)
    ensures now[next..end] == was[start..end][next - start..]
  {
    KeptWindow(was, now, start, next, end);
    KeptMore(was, now, start, next, end);
  }

  /** What a parse leaves behind, for the window `w` that began at `start`; `head` is read off the object. */
  ghost predicate Outcome(kind: Kind, w: Bytes, start: nat, result: ParseResult, rcurr: nat, head: Option<Head>, input: nat) {
    match ParseHead(kind, w)
    case Undefined => result == ParseUndefined && head == None
    case Failed(n) => result == ParseFailed && rcurr == start + n && head == None
    case Parsed(h, n) =>
      && head == Some(h)
      && if |w| - n >= h.length then result == ParseOK && input == start + n && rcurr == input + h.length
         else result == NeedData && rcurr == start + n
  }

  ghost function HeadIn(mem: Bytes, req: Option<Packet>): Option<Head>
    reads if req.Some? then {req.value} else {}
  {
    match req case None => None case Some(r) => Some(HeadOf(mem, r))
  }

  ghost function InputOf(req: Option<Packet>): nat
    reads if req.Some? then {req.value} else {}
  {
    match req case None => 0 case Some(r) => r.input
  }

  function Returned(result: ParseResult, r: Packet): Option<Packet> {
    if result == ParseFailed then None else Some(r)
  }

  /** The first byte behind what parsing may have written to. */
  function Untouched(result: ParseResult, rcurr: nat, input: nat, end: nat): nat {
    match result
    case ParseOK => input
    case NeedData => rcurr
    case _ => end
  }

  lemma OutcomeEarly(kind: Kind, w: Bytes, start: nat, verdict: Verdict, rcurr: nat)
    requires verdict == Refused ==> rcurr == start
    requires match TakeLine(w)
      case None => verdict == Refused
      case Some((text, n)) =>
        match ReadFirst(kind, text)
        case Wild => verdict == Reckless
        case Bad => verdict == Refused
        case Good(first) => false
    ensures Outcome(kind, w, start, if verdict == Refused then ParseFailed else ParseUndefined, rcurr, None, 0)
  {}

  lemma OutcomeLate(kind: Kind, w: Bytes, start: nat, n: nat, first: First, result: ParseResult, rcurr: nat, head: Option<Head>, input: nat)
    requires TakeLine(w).Some? && n == TakeLine(w).value.1 && ReadFirst(kind, TakeLine(w).value.0) == Good(first)
    requires match ReadFields(w[n..])
      case NoFields(k) => result == ParseFailed && rcurr == start + n + k && head == None
      case Fields(seqNo, len, k) =>
        && head == Some(Head(first, seqNo, len))
        && if |w| - n - k >= len then result == ParseOK && input == start + n + k && rcurr == input + len
           else result == NeedData && rcurr == start + n + k
    ensures Outcome(kind, w, start, result, rcurr, head, input)
  {}

  /** rpc_request_parse and rpc_response_parse on the window. */
  method Parse(kind: Kind, c: Conn<Packet>, fl: FreeList<Packet>) returns (result: ParseResult, req: Option<Packet>)
    requires c.Valid() && fl.Valid() && Apart(c, fl)
    modifies c`rcurr, c`rbytes, c.rbuf, fl.Repr(), fl.Free()
    ensures c.Valid() && fl.Valid() && Apart(c, fl)
    ensures fl.list.data == old(fl.list.data) || fresh(fl.list.data)
    ensures c.rcurr + c.rbytes == old(c.rcurr + c.rbytes)
    ensures Outcome(kind, old(c.Window()), old(c.rcurr), result, c.rcurr, HeadIn(c.rbuf[..], req), InputOf(req))
    ensures Kept(old(c.rbuf[..]), c.rbuf[..], old(c.rcurr),
                 Untouched(result, c.rcurr, InputOf(req), c.rcurr + c.rbytes))
    ensures result == ParseFailed ==>
      0 <= c.rcurr - old(c.rcurr) <= |old(c.Window())| && c.Window() == AfterError(old(c.Window()), c.rcurr - old(c.rcurr))
    ensures req.Some? ==> req.value !in old(fl.live) && (req.value in old(fl.Free()) || fresh(req.value))
    ensures fl.live == old(fl.live) + if req.Some? then {req.value} else {}
    ensures forall r :: r in fl.Free() ==> r in old(fl.Free()) || fresh(r)
  {
    hide FreeList.Valid, FreeList.Free, Outcome, ReadFields, TakeLine, ReadFirst, LineAt, StringFrom, Kept, Marred, Conn.Window;
    req := None;
    ghost var w, start, mem0 := c.Window(), c.rcurr, c.rbuf[..];
    var verdict, line, cont := TakeFirstLine(kind, c);
    if verdict != Accepted {
      OutcomeEarly(kind, w, start, verdict, c.rcurr);
      result := if verdict == Refused then ParseFailed else ParseUndefined;
      return;
    }
    var r := PacketNew(fl);
    r.line := line;
    ghost var mem1, limit := c.rbuf[..], c.rcurr;
    result := ParseRest(kind, c, r, w, start);
    ghost var mem2 := c.rbuf[..];
    KeptJoin(mem0, mem1, mem2, start, limit, Untouched(result, c.rcurr, InputOf(Returned(result, r)), c.rcurr + c.rbytes));
    req := Returned(result, r);
    if result == ParseFailed {
      PacketFree(fl, r);
    }
    assert c.rbuf[..] == mem2;
  }

  /** The first line of the window `w` has been read into `r`, and the window stands behind it. */
  ghost predicate LineDone(kind: Kind, c: Conn<Packet>, r: Packet, w: Bytes, start: nat)
    reads c, c.rbuf, r
  {
    && c.Valid() && start <= c.rcurr
    && TakeLine(w).Some?
    && var (text, n) := TakeLine(w).value;
    && ReadFirst(kind, text).Good?
    && c.rcurr == start + n && c.Window() == w[n..]
    && LineAt(c.rbuf[..], r.line, ReadFirst(kind, text).first, c.rcurr)
  }

  lemma AtLine(kind: Kind, c: Conn<Packet>, r: Packet, w: Bytes, start: nat)
    requires LineDone(kind, c, r, w, start)
    ensures c.Valid() && TakeLine(w).Some? && ReadFirst(kind, TakeLine(w).value.0).Good?
    ensures var n := TakeLine(w).value.1;
      c.rcurr == start + n && start + |w| == c.rcurr + c.rbytes && ReadFields(c.Window()) == ReadFields(w[n..])
      && Dropped(c.Window(), w, n) && LineAt(c.rbuf[..], r.line, ReadFirst(kind, TakeLine(w).value.0).first, start + n)
  {}

  /** The stages after the first line, with the object `r` in hand. */
  method ParseRest(kind: Kind, c: Conn<Packet>, r: Packet, ghost w: Bytes, ghost start: nat) returns (result: ParseResult)
    requires LineDone(kind, c, r, w, start)
    modifies c`rcurr, c`rbytes, c.rbuf, r`seqNo, r`input, r`inputLen
    ensures c.Valid() && c.rcurr + c.rbytes == old(c.rcurr + c.rbytes) && result != ParseUndefined
    ensures Outcome(kind, w, start, result, c.rcurr, HeadIn(c.rbuf[..], Returned(result, r)), InputOf(Returned(result, r)))
    ensures Kept(old(c.rbuf[..]), c.rbuf[..], old(c.rcurr),
                 Untouched(result, c.rcurr, InputOf(Returned(result, r)), c.rcurr + c.rbytes))
    ensures old(c.rcurr) <= Untouched(result, c.rcurr, InputOf(Returned(result, r)), c.rcurr + c.rbytes)
    ensures result == ParseFailed ==>
      start < c.rcurr && Dropped(c.Window(), w, c.rcurr - start)
  {
    hide Outcome, ReadFields, TakeLine, ReadFirst, LineAt, DerefLine, Kept, Conn.Window, Dropped, LineDone;
    AtLine(kind, c, r, w, start);
    ghost var n, mem, limit, end := TakeLine(w).value.1, c.rbuf[..], c.rcurr, c.rcurr + c.rbytes;
    var ok, seqNo, len, next := c.ParseFields();
    ghost var now, mid := c.rbuf[..], c.rcurr;
    if ok {
      result := TakeBody(c, r, seqNo, len, next);
      RestRead(kind, w, start, n, mem, now, r.line, seqNo, len, mid, next, result, c.rcurr, r.input);
    } else {
      result := ParseFailed;
      DroppedTwice(w, n, old(c.Window()), mid - limit, c.Window());
      RestRefused(kind, w, start, n, mem, now, mid, end);
    }
    assert c.rbuf[..] == now;
  }

  lemma RestRead(kind: Kind, w: Bytes, start: nat, n: nat, mem: Bytes, now: Bytes, line: Line, seqNo: int, len: nat,
                 mid: nat, next: nat, result: ParseResult, rcurr: nat, input: nat)
    requires TakeLine(w).Some? && n == TakeLine(w).value.1 && ReadFirst(kind, TakeLine(w).value.0).Good?
    requires start + n <= mid <= next && ReadFields(w[n..]) == Fields(seqNo, len, next - start - n)
    requires LineAt(mem, line, ReadFirst(kind, TakeLine(w).value.0).first, start + n)
    requires start + |w| <= |mem| && Kept(mem, now, start + n, mid)
    requires if start + |w| - next >= len then result == ParseOK && input == next && rcurr == next + len
             else result == NeedData && rcurr == next
    ensures Outcome(kind, w, start, result, rcurr, Some(Head(DerefLine(now, line), seqNo, len)), input)
    ensures Kept(mem, now, start + n, Untouched(result, rcurr, input, 0))
  {
    hide Outcome, ReadFields, TakeLine, ReadFirst, LineAt, DerefLine, Kept;
    var first := ReadFirst(kind, TakeLine(w).value.0).first;
    LineKept(mem, now, line, first, start + n, mid);
    KeptMore(mem, now, start + n, mid, next);
    OutcomeLate(kind, w, start, n, first, result, rcurr, Some(Head(first, seqNo, len)), input);
  }

  lemma RestRefused(kind: Kind, w: Bytes, start: nat, n: nat, mem: Bytes, now: Bytes, mid: nat, end: nat)
    requires TakeLine(w).Some? && n == TakeLine(w).value.1 && ReadFirst(kind, TakeLine(w).value.0).Good?
    requires start + n <= mid <= end == start + |w| && ReadFields(w[n..]) == NoFields(mid - start - n)
    requires Kept(mem, now, start + n, mid)
    ensures Outcome(kind, w, start, ParseFailed, mid, None, 0) && Kept(mem, now, start + n, end)
  {
    hide Outcome, ReadFields, TakeLine, ReadFirst, Kept;
    KeptMore(mem, now, start + n, mid, end);
    OutcomeLate(kind, w, start, n, ReadFirst(kind, TakeLine(w).value.0).first, ParseFailed, mid, None, 0);
  }

  /** The body is taken when it is all there; otherwise the window is left at its beginning. */
  method TakeBody(c: Conn<Packet>, r: Packet, seqNo: int, len: nat, next: nat) returns (result: ParseResult)
    requires c.Valid() && c.rcurr <= next <= c.rcurr + c.rbytes
    modifies c`rcurr, c`rbytes, r`seqNo, r`input, r`inputLen
    ensures c.Valid() && c.rcurr + c.rbytes == old(c.rcurr + c.rbytes)
    ensures r.seqNo == seqNo && r.inputLen == len && c.rbuf[..] == old(c.rbuf[..])
    ensures if old(c.rcurr + c.rbytes) - next >= len then result == ParseOK && r.input == next && c.rcurr == next + len
            else result == NeedData && c.rcurr == next
  {
    r.seqNo, r.inputLen := seqNo, len;
    var avail := c.rcurr + c.rbytes - next;
    if avail >= len {
      r.input := next;
      c.rcurr, c.rbytes := next + len, avail - len;
      result := ParseOK;
    } else {
      c.rcurr, c.rbytes := next, avail;
      result := NeedData;
    }
  }

  lemma KeptJoin(a: Bytes, b: Bytes, c: Bytes, lo: nat, mid: nat, hi: nat)
    requires Kept(a, b, lo, mid) && Kept(b, c, mid, hi) && lo <= mid
    ensures Kept(a, c, lo, if mid <= hi then hi else mid)
  {}

  lemma KeptMore(was: Bytes, now: Bytes, lo: nat, hi: nat, hi': nat)
    requires Kept(was, now, lo, hi) && hi <= hi'
    ensures Kept(was, now, lo, hi')
  {}

  // ----- the read callback -----

  /** The message that `req` stands for: its head, and the body it points to in `mem`. */
  ghost function MessageOf(mem: Bytes, req: Packet): Message
    reads req
  {
    var h := HeadOf(mem, req);
    Message(h.first, h.seqNo, if req.input + req.inputLen <= |mem| then mem[req.input..req.input + req.inputLen] else [])
  }

  ghost function Held(c: Conn<Packet>): set<Packet>
    reads c
  {
    if c.unprocess.Some? then {c.unprocess.value} else {}
  }

  /** A saved head has strings of its own and is in use. */
  ghost predicate Ready(c: Conn<Packet>, fl: FreeList<Packet>)
    reads c, fl, fl.list, fl.list.data, Held(c)
  {
    && c.Valid() && fl.Valid() && Apart(c, fl)
    && Held(c) <= fl.live
    && forall r :: r in Held(c) ==> OwnStrings(r.line)
  }

  ghost function SavedHead(c: Conn<Packet>): Option<Head>
    reads c, Held(c)
  {
    HeadIn([], c.unprocess)
  }

  ghost function StateOf(c: Conn<Packet>): State
    reads c, c.rbuf, Held(c)
    requires c.Valid()
  {
    State(SavedHead(c), c.Window())
  }

  /** The body of a saved head is taken from the front of the window. */
  method GiveBody(c: Conn<Packet>, last: Packet)
    requires c.Valid() && c.unprocess == Some(last) && OwnStrings(last.line) && last.inputLen <= c.rbytes
    modifies c`rcurr, c`rbytes, c`unprocess, last`input
    ensures c.Valid() && c.unprocess == None && c.rcurr + c.rbytes == old(c.rcurr + c.rbytes)
    ensures c.Window() == old(c.Window())[last.inputLen..]
    ensures var h := old(HeadOf([], last)); MessageOf(c.rbuf[..], last) == Message(h.first, h.seqNo, old(c.Window())[..last.inputLen])
  {
    ghost var mem := c.rbuf[..];
    SliceSlice(mem, c.rcurr, c.rbytes, last.inputLen);
    last.input := c.rcurr;
    c.rcurr := c.rcurr + last.inputLen;
    c.rbytes := c.rbytes - last.inputLen;
    c.unprocess := None;
    assert c.rbuf[..] == mem && c.Window() == mem[c.rcurr..c.rcurr + c.rbytes];
  }

  /** The saved head gets its body, if all of it is there. */
  method TakeHeld(kind: Kind, c: Conn<Packet>, fl: FreeList<Packet>, ghost beyond: Byte) returns (req: Option<Packet>)
    requires Ready(c, fl) && c.unprocess.Some? && c.rbytes > 0
    modifies c`rcurr, c`rbytes, c`unprocess, Held(c)
    ensures Ready(c, fl) && c.rcurr + c.rbytes == old(c.rcurr + c.rbytes)
    ensures var t := TakeTurn(kind, old(StateOf(c)), beyond);
      TurnTaken(t, old(StateOf(c)), StateOf(c), Waiting) && MessageIn(c.rbuf[..], req) == Emitted(t)
    ensures if req.Some? then req == old(c.unprocess) && c.unprocess == None else c.unprocess == old(c.unprocess)
  {
    hide FreeList.Valid, TakeTurn, TurnTaken, Emitted, MessageOf, Conn.Window;
    var last := c.unprocess.value;
    HeldIsTaken(kind, HeadOf([], last), c.Window(), beyond);
    req := None;
    if c.rbytes >= last.inputLen {
      GiveBody(c, last);
      req := Some(last);
    }
  }

  lemma HeldIsTaken(kind: Kind, h: Head, w: Bytes, beyond: Byte)
    requires w != []
    ensures var st := State(Some(h), w); var t := TakeTurn(kind, st, beyond);
      if |w| >= h.length then
        TurnTaken(t, st, State(None, w[h.length..]), Waiting) && Emitted(t) == Some(Message(h.first, h.seqNo, w[..h.length]))
      else TurnTaken(t, st, st, Waiting) && Emitted(t) == None
  {}

  /** What a turn that parses a head from the window leaves, by the kind of turn. */
  ghost predicate ParsedTurn(t: Turn, w: Bytes, status: Status, head: Option<Head>, message: Option<Message>, window: Bytes)
  {
    match t
    case Idle => status == Waiting && head == None && message == None && window == w
    case Hold(h, n) => status == Waiting && head == Some(h) && message == None && n <= |w| && window == w[n..]
    case Error(n) => status == ParseError && head == None && message == None && n <= |w| && window == AfterError(w, n)
    case Lost => status == Unspecified && message == None
    case Emit(m, n) => status == Waiting && head == None && message == Some(m) && n <= |w| && window == w[n..]
  }

  ghost function Emitted(t: Turn): Option<Message> {
    if t.Emit? then Some(t.message) else None
  }

  lemma ParsedIsTaken(t: Turn, w: Bytes, status: Status, head: Option<Head>, message: Option<Message>, window: Bytes)
    requires ParsedTurn(t, w, status, head, message, window)
    ensures TurnTaken(t, State(None, w), State(head, window), status) && message == Emitted(t)
  {}

  ghost function MessageIn(mem: Bytes, req: Option<Packet>): Option<Message>
    reads if req.Some? then {req.value} else {}
  {
    match req case None => None case Some(r) => Some(MessageOf(mem, r))
  }

  lemma ParseTurn(kind: Kind, w: Bytes, beyond: Byte, start: nat, result: ParseResult, rcurr: nat, head: Option<Head>, input: nat)
    requires w != [] && ReceivedHead(w, beyond)
    requires Outcome(kind, w, start, result, rcurr, head, input)
    ensures match TakeTurn(kind, State(None, w), beyond)
      case Idle => false
      case Hold(h, n) => result == NeedData && head == Some(h) && rcurr == start + n
      case Error(n) => result == ParseFailed && head == None && rcurr == start + n
      case Lost => result == ParseUndefined && head == None
      case Emit(m, n) =>
        result == ParseOK && head.Some? && rcurr == start + n && start <= input && rcurr == input + head.value.length
        && m == Message(head.value.first, head.value.seqNo, w[input - start..rcurr - start])
  {
    hide ReceivedHead, ParseHead;
  }

  /** Keeps the head for later: a copy with strings of its own replaces the parsed object. */
  method SaveHead(c: Conn<Packet>, fl: FreeList<Packet>, req: Packet)
    requires c.Valid() && fl.Valid() && Apart(c, fl) && c.unprocess.None? && req in fl.live
    modifies c`unprocess, fl.Repr(), fl.Free(), req
    ensures Ready(c, fl) && c.unprocess.Some? && c.unprocess.value !in old(fl.live)
    ensures fl.list.data == old(fl.list.data) || fresh(fl.list.data)
    ensures SavedHead(c) == Some(old(HeadOf(c.rbuf[..], req)))
    ensures fl.live == old(fl.live) - {req} + Held(c)
    ensures c.unprocess.value in old(fl.Free()) || fresh(c.unprocess.value)
    ensures forall r :: r in fl.Free() ==> r in old(fl.Free()) || r == req || fresh(r)
    ensures c.rbuf[..] == old(c.rbuf[..]) && c.Window() == old(c.Window())
  {
    hide FreeList.Valid, FreeList.Free;
    var copy := PacketCopyHead(fl, req, c.rbuf[..]);
    ghost var h := HeadOf([], copy);
    PacketFree(fl, req);
    c.unprocess := Some(copy);
    assert HeadOf([], copy) == h;
  }

  lemma BodyRead(w: Bytes, mem: Bytes, now: Bytes, start: nat, input: nat, rcurr: nat, head: Head, body: Bytes)
    requires start + |w| <= |mem| && w == mem[start..start + |w|] && Kept(mem, now, start, input)
    requires start <= input <= rcurr <= start + |w| && rcurr == input + head.length && body == w[input - start..rcurr - start]
    ensures now[input..input + head.length] == body
    ensures now[rcurr..start + |w|] == w[rcurr - start..]
  {
    hide Kept;
    KeptWindow(mem, now, start, input, start + |w|);
    var rest := w[input - start..|w|];
    assert now[input..start + |w|] == rest;
    SliceSlice(now, input, start + |w| - input, rcurr - input);
    SliceSlice(w, input - start, start + |w| - input, rcurr - input);
  }

  /** What the parser makes of a turn. */
  ghost predicate ParseStep(t: Turn, w: Bytes, result: ParseResult, head: Option<Head>, message: Option<Message>, window: Bytes)
  {
    match t
    case Idle => false
    case Hold(h, n) => result == NeedData && head == Some(h) && n <= |w| && window == w[n..]
    case Error(n) => result == ParseFailed && head == None && n <= |w| && window == AfterError(w, n)
    case Lost => result == ParseUndefined && head == None
    case Emit(m, n) => result == ParseOK && message == Some(m) && n <= |w| && window == w[n..]
  }

  lemma ParseStepIs(kind: Kind, w: Bytes, beyond: Byte, mem: Bytes, now: Bytes, start: nat, result: ParseResult, rcurr: nat,
                    head: Option<Head>, input: nat, message: Option<Message>)
    requires w != [] && ReceivedHead(w, beyond) && Outcome(kind, w, start, result, rcurr, head, input)
    requires start + |w| <= |mem| == |now| && w == mem[start..start + |w|] && rcurr <= start + |w|
    requires Kept(mem, now, start, Untouched(result, rcurr, input, start + |w|))
    requires result == ParseFailed ==> start <= rcurr && now[rcurr..start + |w|] == AfterError(w, rcurr - start)
    requires head.Some? && result == ParseOK && input + head.value.length <= |now| ==>
      message == Some(Message(head.value.first, head.value.seqNo, now[input..input + head.value.length]))
    ensures ParseStep(TakeTurn(kind, State(None, w), beyond), w, result, head, message, now[rcurr..start + |w|])
    ensures forall p :: start + |w| <= p < |mem| == |now| ==> now[p] == mem[p]
  {
    hide TakeTurn, Outcome, Kept, ReceivedHead;
    ParseTurn(kind, w, beyond, start, result, rcurr, head, input);
    KeptBehind(mem, now, start, Untouched(result, rcurr, input, start + |w|), start + |w|);
    if result == ParseOK {
      BodyRead(w, mem, now, start, input, rcurr, head.value, w[input - start..rcurr - start]);
    } else if result == NeedData {
      KeptWindow(mem, now, start, rcurr, start + |w|);
    }
  }

  lemma KeptBehind(was: Bytes, now: Bytes, lo: nat, hi: nat, end: nat)
    requires Kept(was, now, lo, hi) && hi <= end
    ensures |was| == |now| && forall p :: end <= p < |was| ==> now[p] == was[p]
  {}

  /** What remains of a parse once a head with no body yet has been put aside. */
  lemma StepIsTurn(t: Turn, w: Bytes, result: ParseResult, head: Option<Head>, message: Option<Message>, window: Bytes, status: Status)
    requires ParseStep(t, w, result, head, message, window) && (message.None? <==> head.None?)
    requires status == StatusAfter(result)
    ensures ParsedTurn(t, w, status, if result == NeedData then head else None, if result == NeedData then None else message, window)
    ensures head.None? <==> result == ParseFailed || result == ParseUndefined
  {}

  function StatusAfter(result: ParseResult): Status {
    match result
    case ParseFailed => ParseError
    case ParseUndefined => Unspecified
    case _ => Waiting
  }

  lemma ParseIsTurn(kind: Kind, w: Bytes, beyond: Byte, mem: Bytes, now: Bytes, start: nat, result: ParseResult, rcurr: nat,
                    req: Option<Packet>)
    requires w != [] && ReceivedHead(w, beyond) && Outcome(kind, w, start, result, rcurr, HeadIn(now, req), InputOf(req))
    requires start + |w| <= |mem| == |now| && w == mem[start..start + |w|] && rcurr <= start + |w|
    requires Kept(mem, now, start, Untouched(result, rcurr, InputOf(req), start + |w|))
    requires result == ParseFailed ==> start <= rcurr && now[rcurr..start + |w|] == AfterError(w, rcurr - start)
    ensures ParsedTurn(TakeTurn(kind, State(None, w), beyond), w, StatusAfter(result),
                       if result == NeedData then HeadIn(now, req) else None,
                       if result == NeedData then None else MessageIn(now, req), now[rcurr..start + |w|])
    ensures req.None? <==> result == ParseFailed || result == ParseUndefined
    ensures forall p :: start + |w| <= p < |mem| == |now| ==> now[p] == mem[p]
  {
    hide TakeTurn, Outcome, Kept, ReceivedHead, DerefLine, ParseStep, ParsedTurn;
    ParseStepIs(kind, w, beyond, mem, now, start, result, rcurr, HeadIn(now, req), InputOf(req), MessageIn(now, req));
    StepIsTurn(TakeTurn(kind, State(None, w), beyond), w, result, HeadIn(now, req), MessageIn(now, req), now[rcurr..start + |w|],
               StatusAfter(result));
  }

  /** A turn without a saved head, when a head has been seen. */
  method TakeParsed(kind: Kind, c: Conn<Packet>, fl: FreeList<Packet>, ghost beyond: Byte)
    returns (status: Status, req: Option<Packet>)
    requires Ready(c, fl) && c.unprocess.None? && c.rbytes > 0 && ReceivedHead(c.Window(), beyond)
    modifies c`rcurr, c`rbytes, c`unprocess, c.rbuf, fl.Repr(), fl.Free()
    ensures Ready(c, fl) && c.rcurr + c.rbytes == old(c.rcurr + c.rbytes)
    ensures fl.list.data == old(fl.list.data) || fresh(fl.list.data)
    ensures forall p :: old(c.rcurr + c.rbytes) <= p < c.rbuf.Length ==> c.rbuf[p] == old(c.rbuf[p])
    ensures ParsedTurn(TakeTurn(kind, State(None, old(c.Window())), beyond), old(c.Window()),
                       status, SavedHead(c), MessageIn(c.rbuf[..], req), c.Window())
    ensures fl.live == old(fl.live) + Held(c) + if req.Some? then {req.value} else {}
    ensures req.Some? ==>
      c.unprocess == None && status == Waiting && req.value !in old(fl.live) && (req.value in old(fl.Free()) || fresh(req.value))
    ensures forall r :: r in Held(c) ==> (r in old(fl.Free()) || fresh(r)) && r !in old(fl.live)
    ensures forall r :: r in fl.Free() ==> r in old(fl.Free()) || fresh(r)
  {
    hide FreeList.Valid, FreeList.Free, ReceivedHead, TakeTurn, Outcome, Kept, ParseHead, Conn.Window, ParsedTurn, HeadOf, MessageOf;
    ghost var w, start, mem := c.Window(), c.rcurr, c.rbuf[..];
    InBuffer(c);
    var result;
    status := Waiting;
    result, req := Parse(kind, c, fl);
    InBuffer(c);
    ghost var now := c.rbuf[..];
    ParseIsTurn(kind, w, beyond, mem, now, start, result, c.rcurr, req);
    if result == NeedData {
      SaveHead(c, fl, req.value);
      req := None;
    } else if result == ParseFailed {
      status := ParseError;
    } else if result == ParseUndefined {
      status := Unspecified;
    }
  }

  /** Objects of the free list and of the connection are old ones or new ones, never somebody else's. */
  twostate predicate NoStrangers(c: Conn<Packet>, fl: FreeList<Packet>)
    reads c, fl, fl.list, fl.list.data
    requires old(fl.Valid()) && fl.Valid()
  {
    && (forall r :: r in fl.Free() ==> r in old(fl.Free()) || r in old(Held(c)) || fresh(r))
    && (forall r :: r in Held(c) ==> r in old(fl.Free()) || r in old(Held(c)) || fresh(r))
  }

  /** And none has been lost. */
  twostate predicate OwnObjects(c: Conn<Packet>, fl: FreeList<Packet>)
    reads c, fl, fl.list, fl.list.data
    requires old(fl.Valid()) && fl.Valid()
  {
    NoStrangers(c, fl) && fl.live - Held(c) == old(fl.live - Held(c))
  }

  /** The first half of a turn: a message with its body, if there is one. */
  lemma TurnUnseen(kind: Kind, st: State, beyond: Byte)
    requires st.held.None? && !ReceivedHead(st.window, beyond)
    ensures var t := TakeTurn(kind, st, beyond); TurnTaken(t, st, st, Waiting) && Emitted(t) == None
  {}

  method Acquire(kind: Kind, c: Conn<Packet>, fl: FreeList<Packet>, outside: Byte) returns (status: Status, req: Option<Packet>)
    requires Ready(c, fl) && c.rbytes > 0
    modifies c`rcurr, c`rbytes, c`unprocess, c.rbuf, fl.Repr(), fl.Free(), Held(c)
    ensures Ready(c, fl) && c.rcurr + c.rbytes == old(c.rcurr + c.rbytes) && c.Behind(outside) == old(c.Behind(outside))
    ensures fl.list.data == old(fl.list.data) || fresh(fl.list.data)
    ensures var t := TakeTurn(kind, old(StateOf(c)), old(c.Behind(outside)));
      && TurnTaken(t, old(StateOf(c)), StateOf(c), status)
      && MessageIn(c.rbuf[..], req) == Emitted(t)
    ensures forall r :: r in fl.Free() ==> r in old(fl.Free()) || fresh(r)
    ensures forall r :: r in Held(c) || req == Some(r) ==> r in old(fl.Free()) || r in old(Held(c)) || fresh(r)
    ensures fl.live == (old(fl.live) - old(Held(c))) + Held(c) + if req.Some? then {req.value} else {}
    ensures req.Some? ==> c.unprocess == None && req.value !in old(fl.live) - old(Held(c)) && status == Waiting
    ensures Held(c) !! old(fl.live) - old(Held(c))
  {
    hide FreeList.Valid, FreeList.Free, ReceivedHead, TakeTurn, TurnTaken, ParsedTurn, Emitted, Conn.Window, HeadOf, MessageOf;
    ghost var beyond, st := c.Behind(outside), StateOf(c);
    if c.unprocess.Some? {
      status := Waiting;
      req := TakeHeld(kind, c, fl, beyond);
    } else {
      var seen := c.HeadReceived(outside);
      if seen {
        status, req := TakeParsed(kind, c, fl, beyond);
        ParsedIsTaken(TakeTurn(kind, st, beyond), st.window, status, SavedHead(c), MessageIn(c.rbuf[..], req), c.Window());
      } else {
        TurnUnseen(kind, st, beyond);
        status, req := Waiting, None;
      }
    }
  }
}
