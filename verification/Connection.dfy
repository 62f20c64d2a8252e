/** A connection's receive buffer: refilling it and looking for a complete head (src/rpc_conn.c). */
module Connection {
  import opened Wire
  import opened Frame
  import opened HeadDetection
  import opened HeadLines

  const BUFFER_SIZE: nat := 2048

  /** Memory differs at most in the positions from `lo` up to `hi`. */
  ghost predicate Kept(was: Bytes, now: Bytes, lo: nat, hi: nat) {
    |was| == |now| && forall p :: 0 <= p < |was| && !(lo <= p < hi) ==> now[p] == was[p]
  }

  lemma KeptSlices(was: Bytes, now: Bytes, lo: nat, hi: nat)
    requires lo <= hi <= |was| == |now| && now[..lo] == was[..lo] && now[hi..] == was[hi..]
    ensures Kept(was, now, lo, hi)
  {
    forall p | 0 <= p < lo ensures now[p] == was[p] {
      assert now[..lo][p] == was[..lo][p];
    }
    forall p | hi <= p < |was| ensures now[p] == was[p] {
      assert now[hi..][p - hi] == was[hi..][p - hi];
    }
  }

  lemma KeptWindow(was: Bytes, now: Bytes, lo: nat, hi: nat, end: nat)
    requires Kept(was, now, lo, hi) && lo <= hi <= end <= |was|
    ensures |was| == |now| && now[hi..end] == was[hi..end] == was[lo..end][hi - lo..]
  {}

  lemma WindowDropped(was: Bytes, now: Bytes, lo: nat, hi: nat, end: nat)
    requires Kept(was, now, lo, hi) && lo <= hi <= end <= |was|
    ensures |was| == |now| && Dropped(now[hi..end], was[lo..end], hi - lo)
  {
    KeptWindow(was, now, lo, hi, end);
  }

  /** What read(2) returns: bytes, 0, or -1 with EINTR or EWOULDBLOCK, or with another error. */
  datatype ReadResult = Data(bytes: Bytes) | Closed | Again | Broken

  /** One read(2) with room for so many bytes. */
  datatype SingleRead = SingleRead(room: nat, result: ReadResult) {
    /** It has delivered less than there was room for. */
    predicate Short() { result.Data? && |result.bytes| != room }

    /** It is followed by another one, if the buffer has or gets room for it. */
    predicate GoesOn() { result.Again? || (result.Data? && |result.bytes| == room) }
  }

  function Gathered(trace: seq<SingleRead>): Bytes {
    if trace == [] then []
    else
      var last := trace[|trace| - 1].result;
      Gathered(trace[..|trace| - 1]) + if last.Data? then last.bytes else []
  }

  /** The first read has the free part of the buffer, or the new half of it. */
  function FirstRoom(size: nat, used: nat): int {
    if used < size then size - used else size
  }

  /** What the single reads say of a call: all but the last one lead to another; the call ends with the bytes at a short one or when
      the buffer is full for good, with the peer gone at a 0, and with a failure at an error. */
  ghost predicate ReadsEnd(trace: seq<SingleRead>, end: ReadEnd, full: bool) {
    && (forall i :: 0 <= i < |trace| - 1 ==> trace[i].GoesOn())
    && (end == PeerClosed <==> trace != [] && trace[|trace| - 1].result.Closed?)
    && (end == ReadFailed <==> trace != [] && trace[|trace| - 1].result.Broken?)
    && (end == BytesRead <==> (trace != [] && trace[|trace| - 1].Short()) || full)
  }

  /** The reads so far have all led to another one. */
  ghost predicate Going(trace: seq<SingleRead>, data: Bytes, size: nat, used: nat) {
    && Gathered(trace) == data && (forall i :: 0 <= i < |trace| ==> trace[i].GoesOn())
    && (trace != [] ==> trace[0].room == FirstRoom(size, used))
  }

  lemma GoingNowhere(size: nat, used: nat)
    ensures Going([], [], size, used)
  {}

  lemma GoingEnds(trace: seq<SingleRead>, data: Bytes, size: nat, used: nat)
    requires Going(trace, data, size, used)
    ensures ReadsEnd(trace, BytesRead, true) && Gathered(trace) == data
    ensures trace != [] ==> trace[0].room == FirstRoom(size, used)
  {
    hide Gathered;
  }

  lemma GoingMore(trace: seq<SingleRead>, data: Bytes, size: nat, used: nat, read: SingleRead)
    requires Going(trace, data, size, used) && (trace == [] ==> read.room == FirstRoom(size, used))
    ensures var trace', data' := trace + [read], data + BytesOf(read.result);
      && Gathered(trace') == data' && trace'[0].room == FirstRoom(size, used)
      && (read.GoesOn() ==> Going(trace', data', size, used))
      && (read.Short() ==> ReadsEnd(trace', BytesRead, false))
      && (read.result.Closed? ==> ReadsEnd(trace', PeerClosed, false))
      && (read.result.Broken? ==> ReadsEnd(trace', ReadFailed, false))
  {
    assert (trace + [read])[..|trace|] == trace;
    assert data + [] == data;
  }

  /** How a call ends, and with what, as far as the single reads tell. When the first one is short it ends with just its bytes. */
  ghost predicate ReadsTell(trace: seq<SingleRead>, end: ReadEnd, data: Bytes) {
    && Gathered(trace) == data && (ReadsEnd(trace, end, true) || ReadsEnd(trace, end, false))
    && (trace != [] && trace[0].Short() ==> end == BytesRead && data == trace[0].result.bytes)
  }

  /** The last read of a socket has found the peer gone or has failed. */
  ghost predicate LastReadCloses(trace: seq<SingleRead>) {
    trace != [] && (trace[|trace| - 1].result.Closed? || trace[|trace| - 1].result.Broken?)
  }

  lemma ReadsClose(before: seq<SingleRead>, trace: seq<SingleRead>, end: ReadEnd, data: Bytes)
    requires before <= trace && ReadsTell(trace[|before|..], end, data) && end != BytesRead
    ensures LastReadCloses(trace)
  {
    hide Gathered;
    assert trace == before + trace[|before|..];
  }

  lemma ReadsToldBy(trace: seq<SingleRead>, end: ReadEnd, full: bool)
    requires ReadsEnd(trace, end, full)
    ensures ReadsTell(trace, end, Gathered(trace))
  {
    hide Gathered;
    if trace != [] && trace[0].Short() {
      FirstShort(trace, end, full);
    }
  }

  lemma FirstShort(trace: seq<SingleRead>, end: ReadEnd, full: bool)
    requires ReadsEnd(trace, end, full) && trace != [] && trace[0].Short()
    ensures end == BytesRead && Gathered(trace) == trace[0].result.bytes
  {
    assert |trace| > 1 ==> trace[0].GoesOn();
    assert trace == [trace[0]];
    assert Gathered(trace[..0]) == [];
  }

  /** The peer: `incoming` is everything it will still send before it closes. A read may deliver any part that fits, and 0 only
      when all has been delivered; before that it can be interrupted `interrupts` times. `trace` records the reads made. */
  class Socket {
    var incoming: Bytes
    var interrupts: nat
    const broken: bool
    ghost var trace: seq<SingleRead>

    constructor (incoming: Bytes, interrupts: nat, broken: bool)
      ensures this.incoming == incoming && this.interrupts == interrupts && this.broken == broken && trace == []
    {
      this.incoming, this.interrupts, this.broken, trace := incoming, interrupts, broken, [];
    }

    method Receive(room: nat) returns (r: ReadResult)
      requires 0 < room
      modifies this
      ensures trace == old(trace) + [SingleRead(room, r)]
      ensures interrupts == old(interrupts) - if r.Again? then 1 else 0
      ensures match r
        case Data(part) => 0 < |part| <= room && part + incoming == old(incoming)
        case Closed => incoming == old(incoming) == []
        case Again => incoming == old(incoming)
        case Broken => incoming == old(incoming) && broken
    {
      var interrupted: bool, fails: bool := *, *;
      if interrupted && interrupts > 0 {
        interrupts := interrupts - 1;
        r := Again;
      } else if fails && broken {
        r := Broken;
      } else if incoming == [] {
        r := Closed;
      } else {
        var n: nat :| 0 < n <= room && n <= |incoming|;
        r := Data(incoming[..n]);
        incoming := incoming[n..];
      }
      trace := trace + [SingleRead(room, r)];
    }
  }

  function BytesOf(r: ReadResult): Bytes {
    match r case Data(part) => part case _ => []
  }

  /** How read_from_conn ends: with what has been read, with the peer gone, or with a failure, after either of which the connection
      is closed and its window pointer is null. */
  datatype ReadEnd = BytesRead | PeerClosed | ReadFailed

  /** After a read the window is the one before it followed by the bytes read, and these came from the front of what had arrived. */
  ghost predicate Got(before: Bytes, arrived: Bytes, window: Bytes, data: Bytes, incoming: Bytes) {
    window == before + data && data + incoming == arrived
  }

  lemma GotNothing(window: Bytes, arrived: Bytes)
    ensures Got(window, arrived, window, [], arrived)
  {
    assert window + [] == window;
  }

  lemma GotMore(before: Bytes, arrived: Bytes, window: Bytes, data: Bytes, incoming: Bytes, part: Bytes, incoming': Bytes)
    requires Got(before, arrived, window, data, incoming) && part + incoming' == incoming
    ensures Got(before, arrived, window + part, data + part, incoming')
  {
    assert before + data + part == before + (data + part);
  }

  /** `H` is the kind of object that holds a parsed head. `rsize` in the source is `rbuf.Length`, and
      `rcurr` is kept as an offset into `rbuf`. */
  class Conn<H> {
    var rbuf: array<Byte>
    var rcurr: nat
    var rbytes: nat
    var unprocess: Option<H>
    var currSeq: int

    ghost predicate Valid()
      reads this
    {
      0 < rbuf.Length && rcurr + rbytes <= rbuf.Length
    }

    /** The received bytes that have not been consumed. */
    ghost function Window(): (w: Bytes)
      reads this, rbuf
      requires Valid()
      ensures |w| == rbytes
    {
      rbuf[rcurr..rcurr + rbytes]
    }

    /** The byte in memory behind the window; `outside` is what lies behind the buffer. */
    function Behind(outside: Byte): Byte
      reads this, rbuf
      requires Valid()
    {
      if rcurr + rbytes < rbuf.Length then rbuf[rcurr + rbytes] else outside
    }

    constructor ()
      ensures Valid() && fresh(rbuf) && rbuf.Length == 2048
      ensures Window() == [] && unprocess == None && currSeq == -1
    {
      rbuf := new Byte[BUFFER_SIZE];
      rcurr, rbytes := 0, 0;
      unprocess, currSeq := None, -1;
    }

    /** memcpy to the front of the buffer. */
    method Compact()
      requires Valid()
      modifies this, rbuf
      ensures Valid() && rcurr == 0 && rbuf == old(rbuf) && rbytes == old(rbytes)
      ensures Window() == old(Window()) && unprocess == old(unprocess) && currSeq == old(currSeq)
      ensures forall p :: rbytes <= p < rbuf.Length ==> rbuf[p] == old(rbuf[p])
    {
      if rcurr != 0 {
        forall i | 0 <= i < rbytes {
          rbuf[i] := rbuf[rcurr + i];
        }
        rcurr := 0;
      }
    }

    /** realloc to twice the size; the new half holds arbitrary bytes. */
    method Grow()
      requires Valid() && rcurr == 0
      modifies this
      ensures Valid() && fresh(rbuf) && rbuf.Length == 2 * old(rbuf.Length) && rcurr == 0 && rbytes == old(rbytes)
      ensures Window() == old(Window()) && unprocess == old(unprocess) && currSeq == old(currSeq)
    {
      var bigger := new Byte[2 * rbuf.Length];
      forall i | 0 <= i < rbuf.Length {
        bigger[i] := rbuf[i];
      }
      rbuf := bigger;
      assert rbuf[..rbytes] == old(rbuf[..rbytes]);
    }

    /** One read(2) into the free part of the buffer. */
    method Fill(sock: Socket, room: nat) returns (r: ReadResult)
      requires Valid() && rcurr == 0 && 0 < room == rbuf.Length - rbytes
      modifies this, rbuf, sock
      ensures Valid() && rcurr == 0 && rbuf == old(rbuf)
      ensures Window() == old(Window()) + BytesOf(r) && BytesOf(r) + sock.incoming == old(sock.incoming)
      ensures r.Closed? ==> sock.incoming == []
      ensures r.Broken? ==> sock.broken
      ensures sock.interrupts == old(sock.interrupts) - if r.Again? then 1 else 0
      ensures sock.trace == old(sock.trace) + [SingleRead(room, r)]
      ensures r.Data? ==> 0 < |r.bytes| <= room && rbytes == old(rbytes) + |r.bytes|
      ensures !r.Data? ==> rbytes == old(rbytes)
      ensures unprocess == old(unprocess) && currSeq == old(currSeq)
    {
      r := sock.Receive(room);
      var part := BytesOf(r);
      forall i | 0 <= i < |part| {
        rbuf[rbytes + i] := part[i];
      }
      rbytes := rbytes + |part|;
      assert Window() == old(Window()) + part;
    }

    /** A full buffer is doubled, at most four times and as long as there is memory. */
    method MakeRoom(ghost size: nat, allocs: nat, grants: nat) returns (ok: bool, now: nat)
      requires Valid() && rcurr == 0 && allocs <= 4 && allocs <= grants && rbuf.Length == Doubled(size, allocs)
      modifies this
      ensures Valid() && rcurr == 0 && rbytes == old(rbytes) && (rbuf == old(rbuf) || fresh(rbuf)) && Window() == old(Window())
      ensures unprocess == old(unprocess) && currSeq == old(currSeq)
      ensures now <= 4 && now <= grants && rbuf.Length == Doubled(size, now) <= 16 * size
      ensures ok == (old(rbytes) < old(rbuf.Length) || (allocs < 4 && allocs < grants))
      ensures now == if ok && old(rbytes) == old(rbuf.Length) then allocs + 1 else allocs
      ensures ok == (rbytes < rbuf.Length)
    {
      hide Doubled, Window;
      DoubledGrows(size, allocs, 4);
      DoubledNext(size, allocs);
      ok, now := true, allocs;
      if rbytes >= rbuf.Length {
        ok := allocs < 4 && allocs < grants;
        if ok {
          now := allocs + 1;
          Grow();
          DoubledGrows(size, now, 4);
        }
      }
    }

    /** read_from_conn: the window afterwards is the window before followed by what was read, whatever the sizes of the single
        reads; `grants` is the number of times that realloc can deliver. It reads on until a read comes up short, the buffer can
        grow no more, the peer has closed or the read fails; an interrupted read is repeated. */
    method ReadFromConn(sock: Socket, grants: nat) returns (end: ReadEnd, data: Bytes)
      requires Valid()
      modifies this, rbuf, sock
      ensures Valid() && (rbuf == old(rbuf) || fresh(rbuf))
      ensures Got(old(Window()), old(sock.incoming), Window(), data, sock.incoming)
      ensures unprocess == old(unprocess) && currSeq == old(currSeq)
      ensures old(sock.trace) <= sock.trace && Gathered(sock.trace[|old(sock.trace)|..]) == data
      ensures ReadsEnd(sock.trace[|old(sock.trace)|..], end, rbytes == rbuf.Length)
      ensures |sock.trace| > |old(sock.trace)| ==>
        sock.trace[|old(sock.trace)|].room == FirstRoom(old(rbuf.Length), old(rbytes))
      ensures end == PeerClosed ==> sock.incoming == []
      ensures end == ReadFailed ==> sock.broken
      ensures rbytes == rbuf.Length ==> rbuf.Length == Doubled(old(rbuf.Length), if grants < 4 then grants else 4)
      ensures end == BytesRead && data == [] ==> old(rbytes) == old(rbuf.Length) && grants == 0
      ensures rbuf.Length <= 16 * old(rbuf.Length)
    {
      hide Doubled, Behind, Window, Got, Going, Gathered, ReadsEnd;
      Compact();
      end, data := BytesRead, [];
      ghost var window := Window();
      GotNothing(window, sock.incoming);
      var allocs: nat := 0;
      ghost var t: seq<SingleRead> := [];
      GoingNowhere(rbuf.Length, rbytes);
      DoubledNext(rbuf.Length, 0);
      while true
        invariant Valid() && rcurr == 0 && (rbuf == old(rbuf) || fresh(rbuf))
        invariant Got(window, old(sock.incoming), Window(), data, sock.incoming)
        invariant unprocess == old(unprocess) && currSeq == old(currSeq) && end == BytesRead
        invariant allocs <= 4 && allocs <= grants && rbuf.Length == Doubled(old(rbuf.Length), allocs) <= 16 * old(rbuf.Length)
        invariant data == [] ==> rbytes == old(rbytes) && (allocs == 0 || rbytes < rbuf.Length)
        invariant sock.trace == old(sock.trace) + t && Going(t, data, old(rbuf.Length), old(rbytes))
        invariant t == [] ==> allocs == 0 && data == []
        decreases |sock.incoming|, sock.interrupts
      {
        GoingEnds(t, data, old(rbuf.Length), old(rbytes));
        assert sock.trace[|old(sock.trace)|..] == t;
        var ok;
        ok, allocs := MakeRoom(old(rbuf.Length), allocs, grants);
        if !ok {
          return;
        }
        var room := rbuf.Length - rbytes;
        ghost var w, incoming := Window(), sock.incoming;
        var r := Fill(sock, room);
        GotMore(window, old(sock.incoming), w, data, incoming, BytesOf(r), sock.incoming);
        GoingMore(t, data, old(rbuf.Length), old(rbytes), SingleRead(room, r));
        t, data := t + [SingleRead(room, r)], data + BytesOf(r);
        assert sock.trace == old(sock.trace) + t && sock.trace[|old(sock.trace)|..] == t;
        match r {
          case Closed =>
            end := PeerClosed;
            return;
          case Again =>
            continue;
          case Broken =>
            end := ReadFailed;
            return;
          case Data(part) =>
            if |part| != room {
              return;
            }
        }
      }
    }

    /** Reads one "key:number" line and moves the window past it, whether or not it scans. */
    method ParseField(key: Bytes) returns (ok: bool, value: int)
      requires Valid()
      modifies this`rcurr, this`rbytes, rbuf
      ensures Valid() && rcurr + rbytes == old(rcurr + rbytes)
      ensures var r := ReadField(old(Window()), key);
        ok == r.Field? && (ok ==> value == r.value) && rcurr == old(rcurr) + r.next
        && Dropped(Window(), old(Window()), r.next)
      ensures Kept(old(rbuf[..]), rbuf[..], old(rcurr), rcurr)
    {
      hide ReadField, Dropped, Kept;
      ghost var mem, start, end := rbuf[..], rcurr, rcurr + rbytes;
      assert rbuf[rcurr..rcurr + rbytes] == mem[start..end];
      var next;
      ok, value, next := ScanLine(rbuf, rcurr, rbytes, key);
      ghost var now := rbuf[..];
      KeptSlices(mem, now, start, next);
      WindowDropped(mem, now, start, next, end);
      rcurr, rbytes := next, rbytes - (next - rcurr);
      assert rbuf[..] == now && Window() == now[next..end];
    }

    /** The stages after the first line, common to rpc_request_parse and rpc_response_parse. The window moves past
        each line that is read; `cont` is the position behind the empty line, to which the caller moves on. */
    method ParseFields() returns (ok: bool, seqNo: int, length: nat, cont: nat)
      requires Valid()
      modifies this`rcurr, this`rbytes, rbuf
      ensures Valid() && rcurr + rbytes == old(rcurr + rbytes) && old(rcurr) <= rcurr
      ensures match ReadFields(old(Window()))
        case NoFields(n) => !ok && rcurr == old(rcurr) + n
        case Fields(s, len, n) =>
          ok && seqNo == s && length == len && cont == old(rcurr) + n && rcurr <= cont
      ensures Kept(old(rbuf[..]), rbuf[..], old(rcurr), rcurr)
      ensures Dropped(Window(), old(Window()), rcurr - old(rcurr))
    {
      hide ReadField, ReadBlank, ReadFields, Dropped, Window;
      ghost var w := Window();
      var value;
      length, cont := 0, 0;
      ok, seqNo := ParseField(SEQ_KEY);
      if ok {
        ghost var w1, n1 := Window(), rcurr - old(rcurr);
        ok, value := ParseField(LEN_KEY);
        FieldsByLines(w, w1, Window());
        DroppedTwice(w, n1, w1, rcurr - old(rcurr) - n1, Window());
        if ok {
          var blank := BlankHere();
          ok := blank.Some?;
          length, cont := ToSize(value), rcurr + if ok then blank.value else 0;
        }
      } else {
        FieldsByLine(w);
      }
    }

    /** The empty line, if the window begins with one. */
    function BlankHere(): (blank: Option<nat>)
      requires Valid()
      reads this, rbuf
      ensures blank == ReadBlank(Window())
    {
      ReadBlank(rbuf[rcurr..rcurr + rbytes])
    }

    /** Whether the window begins with a whole head, as far as the code can tell. */
    method HeadReceived(outside: Byte) returns (seen: bool)
      requires Valid()
      ensures seen == ReceivedHead(Window(), Behind(outside))
    {
      var mem := rbuf[..] + [outside];
      ScanShift(Window() + [Behind(outside)], mem, rcurr, 0, rbytes, None);
      seen := FindHead(mem, rcurr, rbytes);
    }
  }

  /** rpc_conn_received_head on `len` bytes at `data`; `mem` is memory up to the byte behind the buffer. */
  method FindHead(mem: Bytes, data: nat, len: nat) returns (seen: bool)
    requires data + len < |mem|
    ensures seen == Scan(mem, data, len, None)
  {
    hide Scan, ScanSecond, NextLF;
    var cont: nat, avail: nat, last: Option<nat> := data, len, None;
    var line := NextLF(mem, cont, avail);
    while line.Some?
      invariant cont + avail < |mem| && (last.Some? ==> last.value < cont)
      invariant line == NextLF(mem, cont, avail)
      invariant Scan(mem, data, len, None) == Scan(mem, cont, avail, last)
      decreases avail
    {
      var el := line.value;
      ScanUnfold(mem, cont, avail, last);
      if last.Some? && EmptyBetween(mem, last.value, el) {
        return true;
      }
      avail := avail - (el + 1 - cont);
      if avail == 0 && mem[el + 1] == LF {
        return true;
      }
      ScanSecondUnfold(mem, el, avail);
      var second := NextLF(mem, el + 1, avail);
      if second.None? {
        return false;
      }
      var bl := second.value;
      if EmptyBetween(mem, el, bl) {
        return true;
      }
      if avail <= bl + 1 - el {
        return false;
      }
      cont, avail, last := bl + 1, avail - (bl + 1 - el), second;
      line := NextLF(mem, cont, avail);
    }
    ScanUnfold(mem, cont, avail, last);
    seen := false;
  }

  function Doubled(n: nat, k: nat): nat {
    if k == 0 then n else 2 * Doubled(n, k - 1)
  }

  lemma DoubledNext(n: nat, k: nat)
    ensures Doubled(n, 0) == n && Doubled(n, k + 1) == 2 * Doubled(n, k)
  {}

  lemma DoubledGrows(n: nat, k: nat, k': nat)
    requires k <= k'
    ensures Doubled(n, k) <= Doubled(n, k')
    ensures Doubled(n, 4) == 16 * n
    decreases k' - k
  {
    assert Doubled(n, 1) == 2 * n;
    assert Doubled(n, 2) == 4 * n;
    assert Doubled(n, 3) == 8 * n;
    if k < k' {
      DoubledGrows(n, k + 1, k');
    }
  }
}
