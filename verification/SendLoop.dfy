/** Sending: the message vectors and the loop around sendmsg (src/rpc_conn.c), and the two printers
    that fill the vectors (rpc_request_format, rpc_send_response). */
module SendLoop {
  import opened Wire
  import opened Frame
  import opened Service
  import opened ProtocolText

  // ----- what a schedule of short writes sends -----

  function Flatten(iov: seq<Bytes>): Bytes {
    if iov == [] then [] else iov[0] + Flatten(iov[1..])
  }

  /** The vectors that remain after `n` sent bytes, the exhausted ones dropped. */
  function Advance(iov: seq<Bytes>, n: nat): (rest: seq<Bytes>)
    requires n <= |Flatten(iov)|
    ensures Flatten(rest) == Flatten(iov)[n..]
    decreases |iov|
  {
    if iov != [] && n >= |iov[0]| then
      var rest := Advance(iov[1..], n - |iov[0]|);
      assert Flatten(iov)[n..] == Flatten(iov[1..])[n - |iov[0]|..];
      rest
    else if iov == [] then []
    else
      assert [iov[0][n..]] + iov[1..] != [] && ([iov[0][n..]] + iov[1..])[1..] == iov[1..];
      [iov[0][n..]] + iov[1..]
  }

  /** `n` bytes from the front of `iov` end at the end of a vector. */
  predicate AtBoundary(iov: seq<Bytes>, n: nat)
    decreases |iov|
  {
    n == 0 || (iov != [] && n >= |iov[0]| && AtBoundary(iov[1..], n - |iov[0]|))
  }

  /** Some short write of the schedule ends at the end of a vector while bytes are left. `sizes` are the amounts
      that the kernel is willing to take, one call after the other; 0 stands for EAGAIN, and after the
      schedule the kernel takes all that is left. */
  predicate CutShort(iov: seq<Bytes>, sizes: seq<nat>)
    decreases |sizes|
  {
    sizes != [] && sizes[0] < |Flatten(iov)| &&
    if sizes[0] == 0 then CutShort(iov, sizes[1..])
    else AtBoundary(iov, sizes[0]) || CutShort(Advance(iov, sizes[0]), sizes[1..])
  }

  lemma FlattenAppend(a: seq<Bytes>, b: seq<Bytes>)
    ensures Flatten(a + b) == Flatten(a) + Flatten(b)
  {
    if a == [] {
      assert a + b == b;
    } else {
      assert (a + b)[1..] == a[1..] + b;
      FlattenAppend(a[1..], b);
    }
  }

  lemma FlattenOne(v: Bytes)
    ensures Flatten([v]) == v
  {
    assert [v][1..] == [];
  }

  /** What is left once no vector can be skipped any more. */
  lemma AdvanceStops(iov: seq<Bytes>, n: nat)
    requires n <= |Flatten(iov)| && (iov == [] || n < |iov[0]|)
    ensures AtBoundary(iov, n) <==> n == 0
    ensures Advance(iov, n) == if iov == [] then [] else [iov[0][n..]] + iov[1..]
  {}

  // ----- the vectors of a connection -----

  class Vectors {
    var iov: array<Bytes>
    var iovused: nat
    ghost var wire: Bytes  // all that has gone out on the socket

    ghost predicate Valid()
      reads this
    {
      0 < iov.Length && iovused <= iov.Length
    }

    ghost function Contents(): seq<Bytes>
      reads this, iov
      requires Valid()
    {
      iov[..iovused]
    }

    constructor ()
      ensures Valid() && fresh(iov) && Contents() == [] && wire == []
    {
      iov := new Bytes[5](_ => []);
      iovused, wire := 0, [];
    }

    /** rpc_conn_addiov; memory is taken to suffice. */
    method AddIov(data: Bytes)
      requires Valid()
      modifies this, iov
      ensures Valid() && (iov == old(iov) || fresh(iov))
      ensures Contents() == old(Contents()) + [data] && wire == old(wire)
    {
      if iovused >= iov.Length {
        var bigger := new Bytes[2 * iov.Length](_ => []);
        forall i | 0 <= i < iov.Length {
          bigger[i] := iov[i];
        }
        iov := bigger;
        assert iov[..iovused] == old(iov[..iovused]);
      }
      iov[iovused] := data;
      iovused := iovused + 1;
    }

    /** The inner loop of rpc_send_message: drops the vectors that `n` sent bytes exhaust. */
    method Skip(first: nat, n: nat) returns (k: nat, res: nat)
      requires Valid() && first <= iovused && n <= |Flatten(iov[first..iovused])|
      ensures first <= k <= iovused && res <= |Flatten(iov[k..iovused])|
      ensures k == iovused || res < |iov[k]|
      ensures Advance(iov[first..iovused], n) == Advance(iov[k..iovused], res)
      ensures AtBoundary(iov[first..iovused], n) <==> AtBoundary(iov[k..iovused], res)
    {
      k, res := first, n;
      while k < iovused && res >= |iov[k]|
        invariant first <= k <= iovused && res <= |Flatten(iov[k..iovused])|
        invariant Advance(iov[first..iovused], n) == Advance(iov[k..iovused], res)
        invariant AtBoundary(iov[first..iovused], n) <==> AtBoundary(iov[k..iovused], res)
      {
        assert iov[k..iovused][1..] == iov[k + 1..iovused];
        res := res - |iov[k]|;
        k := k + 1;
      }
    }

    /** What rpc_send_message does after `n` bytes went out: the vectors from `next` on are those left, the
        first of them shortened in place. */
    method Account(first: nat, n: nat) returns (next: nat, more: bool)
      requires Valid() && first <= iovused && n <= |Flatten(iov[first..iovused])|
      modifies iov
      ensures first <= next <= iovused
      ensures more <==> !AtBoundary(old(iov[first..iovused]), n)
      ensures more ==> iov[next..iovused] == Advance(old(iov[first..iovused]), n)
    {
      var res;
      next, res := Skip(first, n);
      AdvanceStops(iov[next..iovused], res);
      more := res > 0;
      if more {
        iov[next] := iov[next][res..];
      }
    }

    /** rpc_send_message. The bytes sent and the bytes that the remaining vectors describe always make up the original
        ones; everything is sent if and only if no short write of the schedule ends at the end of a vector. */
    method SendMessage(sizes: seq<nat>) returns (sent: Bytes, ghost left: Bytes)
      requires Valid()
      modifies this`iovused, this`wire, iov
      ensures Valid() && Contents() == [] && iov == old(iov)
      ensures sent + left == Flatten(old(Contents())) && wire == old(wire) + sent
      ensures left == [] <==> !CutShort(old(Contents()), sizes)
    {
      hide Flatten, Advance, AtBoundary, CutShort, Sending;
      ghost var original := Contents();
      var first: nat, j: nat := 0, 0;
      sent := [];
      assert wire == wire + sent;
      SendingStarts(original, sizes);
      while true
        invariant Valid() && iov == old(iov) && first <= iovused && j <= |sizes| && wire == old(wire) + sent
        invariant Sending(original, sizes, sent, iov[first..iovused], sizes[j..])
        decreases |Flatten(iov[first..iovused])|, |sizes| - j
      {
        ghost var vecs := iov[first..iovused];
        var all := Flatten(iov[first..iovused]);
        left := all;
        if all == [] {  // sendmsg has nothing to send and returns 0
          SendingEnds(original, sizes, sent, vecs, sizes[j..], 0);
          break;
        }
        if j < |sizes| && sizes[j] == 0 {  // EAGAIN
          SendingGoesOn(original, sizes, sent, vecs, sizes, j, 0);
          j := j + 1;
          continue;
        }
        var n := if j < |sizes| && sizes[j] < |all| then sizes[j] else |all|;
        AllIsBoundary(vecs);
        if n < |all| && !AtBoundary(vecs, n) {
          SendingGoesOn(original, sizes, sent, vecs, sizes, j, n);
        } else {
          SendingEnds(original, sizes, sent, vecs, sizes[j..], n);
        }
        wire := wire + all[..n];
        assert old(wire) + sent + all[..n] == old(wire) + (sent + all[..n]);
        sent := sent + all[..n];
        left := all[n..];
        var more;
        first, more := Account(first, n);
        if !more {
          break;
        }
        j := j + 1;
      }
      iovused := 0;
    }
  }

  /** `sent` and the vectors that remain make up the original bytes, and the rest of the schedule cuts them short exactly
      when the whole of it does so from the start. */
  ghost predicate Sending(original: seq<Bytes>, sizes: seq<nat>, sent: Bytes, vecs: seq<Bytes>, todo: seq<nat>) {
    sent + Flatten(vecs) == Flatten(original) && (CutShort(original, sizes) <==> CutShort(vecs, todo))
  }

  lemma SendingStarts(original: seq<Bytes>, sizes: seq<nat>)
    ensures Sending(original, sizes, [], original, sizes[0..])
  {
    assert sizes[0..] == sizes && [] + Flatten(original) == Flatten(original);
  }

  lemma SendingGoesOn(original: seq<Bytes>, sizes: seq<nat>, sent: Bytes, vecs: seq<Bytes>, all: seq<nat>, j: nat, n: nat)
    requires j < |all| && all[j] == n < |Flatten(vecs)| && (n == 0 || !AtBoundary(vecs, n))
    requires Sending(original, sizes, sent, vecs, all[j..])
    ensures if n == 0 then Sending(original, sizes, sent, vecs, all[j + 1..])
            else Sending(original, sizes, sent + Flatten(vecs)[..n], Advance(vecs, n), all[j + 1..])
  {
    hide Flatten, AtBoundary, Advance;
    assert all[j..][1..] == all[j + 1..];
  }

  lemma SendingEnds(original: seq<Bytes>, sizes: seq<nat>, sent: Bytes, vecs: seq<Bytes>, todo: seq<nat>, n: nat)
    requires Sending(original, sizes, sent, vecs, todo) && n <= |Flatten(vecs)|
    requires if n < |Flatten(vecs)| then 0 < n && todo != [] && todo[0] == n && AtBoundary(vecs, n)
             else todo == [] || todo[0] >= n
    ensures sent + Flatten(vecs) == sent + Flatten(vecs)[..n] + Flatten(vecs)[n..] == Flatten(original)
    ensures Flatten(vecs)[n..] == [] <==> !CutShort(original, sizes)
  {
    hide Flatten, AtBoundary, Advance;
  }

  // ----- the printers -----

  /** A head goes out as three vectors, the body as a fourth unless its pointer is null. */
  function HeadVectors(first: First, seqNo: int, length: nat): seq<Bytes> {
    [FirstText(first) + [LF], SEQ_KEY + Dec(seqNo) + [LF], LEN_KEY + Dec(ToInt(length)) + [LF] + [LF]]
  }

  function BodyVectors(body: Option<Bytes>): seq<Bytes> {
    match body case None => [] case Some(b) => [b]
  }

  /** The vectors of a message whose body is not null. */
  function MessageVectors(m: Message): seq<Bytes> {
    HeadVectors(m.first, m.seqNo, |m.body|) + BodyVectors(Some(m.body))
  }

  lemma HeadVectorsText(h: Head, body: Option<Bytes>)
    requires h.length <= INT_MAX
    ensures Flatten(HeadVectors(h.first, h.seqNo, h.length) + BodyVectors(body)) ==
      HeadText(h) + (match body case None => [] case Some(b) => b)
  {
    hide FirstText, Dec;
    var v := HeadVectors(h.first, h.seqNo, h.length);
    FlattenAppend(v, BodyVectors(body));
    assert v == [v[0]] + ([v[1]] + [v[2]]);
    FlattenAppend([v[0]], [v[1]] + [v[2]]);
    FlattenAppend([v[1]], [v[2]]);
    FlattenOne(v[0]);
    FlattenOne(v[1]);
    FlattenOne(v[2]);
    if body.Some? {
      FlattenOne(body.value);
    }
  }

  /** The vectors of a request, written out. */
  lemma RequestVectors(methodName: Bytes, service: Bytes, seqNo: int, length: nat)
    ensures HeadVectors(RequestLine(methodName, service, "RPC/1.0"), seqNo, length) ==
      ["CALL " + methodName + "@" + service + " RPC/1.0\n", "seq:" + Dec(seqNo) + "\n", "body-len:" + Dec(ToInt(length)) + "\n\n"]
  {
    hide Dec, FirstText;
    RequestFirstLine(methodName, service);
    var l3 := "body-len:" + Dec(ToInt(length));
    assert l3 + "\n\n" == l3 + "\n" + "\n";
  }

  /** rpc_request_format: the vectors added to those already there. A null pointer adds no body, whatever its length. */
  method RequestFormat(vs: Vectors, methodName: Bytes, service: Bytes, seqNo: int, input: Option<Bytes>, inputLen: nat)
    requires vs.Valid()
    modifies vs, vs.iov
    ensures vs.Valid() && (vs.iov == old(vs.iov) || fresh(vs.iov)) && vs.wire == old(vs.wire)
    ensures vs.Contents() == old(vs.Contents())
      + ["CALL " + methodName + "@" + service + " RPC/1.0\n", "seq:" + Dec(seqNo) + "\n", "body-len:" + Dec(ToInt(inputLen)) + "\n\n"]
      + (match input case None => [] case Some(b) => [b])
    ensures vs.Contents() == old(vs.Contents())
      + HeadVectors(RequestLine(methodName, service, VERSION), seqNo, inputLen) + BodyVectors(input)
  {
    hide FirstText, Dec;
    RequestVectors(methodName, service, seqNo, inputLen);
    vs.AddIov(FirstText(RequestLine(methodName, service, VERSION)) + [LF]);
    vs.AddIov(SEQ_KEY + Dec(seqNo) + [LF]);
    vs.AddIov(LEN_KEY + Dec(ToInt(inputLen)) + [LF] + [LF]);
    if input.Some? {
      vs.AddIov(input.value);
    }
  }

  /** The text of a request is that of its vectors. */
  lemma RequestVectorsText(methodName: Bytes, service: Bytes, seqNo: int, input: Bytes)
    requires |input| <= INT_MAX
    ensures Flatten(MessageVectors(Message(RequestLine(methodName, service, VERSION), seqNo, input))) ==
      RequestText(methodName, service, seqNo, input)
  {
    hide Flatten, HeadVectors, HeadText, RequestText;
    HeadVectorsText(Head(RequestLine(methodName, service, VERSION), seqNo, |input|), Some(input));
    RequestIsText(methodName, service, seqNo, input);
  }

  function BodyOf(output: Option<Bytes>): Bytes {
    match output case None => [] case Some(b) => b
  }

  /** rpc_send_response: what is sent, and what is not, make up the text of the reply; nothing is left unless a
      short write ends at the end of a vector. */
  method SendResponse(vs: Vectors, code: Code, currSeq: int, output: Option<Bytes>, outputLen: nat, sizes: seq<nat>)
    returns (sent: Bytes, ghost left: Bytes)
    requires vs.Valid() && vs.Contents() == []
    requires outputLen == |BodyOf(output)| <= INT_MAX
    modifies vs, vs.iov
    ensures vs.Valid() && vs.Contents() == [] && vs.wire == old(vs.wire) + sent
    ensures sent + left == ReplyText(code, currSeq, BodyOf(output)) == Encode(ReplyMessage(currSeq, Reply(code, BodyOf(output))))
    ensures left == [] <==>
      !CutShort(HeadVectors(StatusLine(code.Number(), code.Phrase()), currSeq, outputLen) + BodyVectors(output), sizes)
  {
    hide FirstText, Dec, Code.Phrase, HeadText, ReplyText;
    var line := StatusLine(code.Number(), code.Phrase());
    HeadVectorsText(Head(line, currSeq, outputLen), output);
    ReplyIsText(code, currSeq, BodyOf(output));
    vs.AddIov(FirstText(line) + [LF]);
    vs.AddIov(SEQ_KEY + Dec(currSeq) + [LF]);
    vs.AddIov(LEN_KEY + Dec(ToInt(outputLen)) + [LF] + [LF]);
    if output.Some? {
      vs.AddIov(output.value);
    }
    assert vs.Contents() == HeadVectors(line, currSeq, outputLen) + BodyVectors(output);
    sent, left := vs.SendMessage(sizes);
  }

  /** A short write that ends with the first line of a reply loses the rest of it. */
  lemma CutShortExample(first: First, seqNo: int, length: nat)
    ensures CutShort(HeadVectors(first, seqNo, length), [|FirstText(first)| + 1])
  {
    var v := HeadVectors(first, seqNo, length);
    var n := |FirstText(first)| + 1;
    assert v[1..] == [v[1], v[2]];
    assert Flatten(v) == v[0] + Flatten(v[1..]) && Flatten(v[1..]) == v[1] + Flatten(v[1..][1..]);
    assert AtBoundary(v[1..], 0) && AtBoundary(v, n);
  }

  /** All bytes together always end at a boundary. */
  lemma AllIsBoundary(iov: seq<Bytes>)
    ensures AtBoundary(iov, |Flatten(iov)|)
  {
    if iov != [] {
      AllIsBoundary(iov[1..]);
    }
  }
}
