/** The writer thread (thread_write_hander in src/rpc_thread.c). */
module Writer {
  import opened Wire
  import opened Frame
  import opened Service
  import opened SendLoop
  import opened ProtocolText
  import opened SessionPool
  import opened ClientLoop
  import Calls = CallProtocol

  class WriterThread {
    const pool: Pool<Pending>
    const conns: seq<Vectors>
    var lastConn: int

    ghost predicate Valid()
      reads this, pool, pool.data, conns, set v | v in conns :: v.iov
    {
      && pool.Valid() && conns != [] && -1 <= lastConn < |conns|
      && (forall v :: v in conns ==> v.Valid() && v.Contents() == [])
      && (forall i, j :: 0 <= i < j < |conns| ==> conns[i].iov != conns[j].iov && conns[i] != conns[j])
    }

    constructor (pool: Pool<Pending>, conns: seq<Vectors>)
      requires pool.Valid() && conns != [] && (forall v :: v in conns ==> v.Valid() && v.Contents() == [])
      requires forall i, j :: 0 <= i < j < |conns| ==> conns[i].iov != conns[j].iov && conns[i] != conns[j]
      ensures Valid() && this.pool == pool && this.conns == conns && lastConn == -1
    {
      this.pool, this.conns, lastConn := pool, conns, -1;
    }

    /** The call gets a number that no other call has. `grown` is the table before the request itself is given it. */
    method Number(id: nat, stale: int) returns (index: nat, ghost grown: seq<Option<Pending>>)
      requires pool.Valid()
      modifies pool, pool.data
      ensures pool.Valid() && (pool.data == old(pool.data) || fresh(pool.data))
      ensures index !in old(pool.live) && pool.live == old(pool.live)[index := Call(id, index)]
      ensures index == FirstEmpty(old(pool.data[..])) < |grown| && Inserted(old(pool.data[..]), Call(id, stale), index, grown)
      ensures pool.data[..] == grown[index := Some(Call(id, index))]
    {
      index := pool.Insert(Call(id, stale));
      grown := pool.data[..];
      pool.Change(index, Call(id, index));
    }

    /** The text of the request, with the input of its caller, goes out on the next connection and on no other. */
    method SendOut(r: Calls.Request, index: nat, sizes: seq<nat>) returns (sent: Bytes, ghost left: Bytes)
      requires Valid() && |r.input| <= INT_MAX
      modifies this`lastConn, conns, set v | v in conns :: v.iov
      ensures Valid() && lastConn == (old(lastConn) + 1) % |conns|
      ensures sent + left == RequestText(r.methodName, r.service, index, r.input) == Encode(Calls.RequestMessage(r, index))
      ensures conns[lastConn].wire == old(conns[(lastConn + 1) % |conns|].wire) + sent
      ensures forall i :: 0 <= i < |conns| && i != lastConn ==> conns[i].wire == old(conns[i].wire)
      ensures left == [] <==> !CutShort(MessageVectors(Calls.RequestMessage(r, index)), sizes)
    {
      hide CutShort, MessageVectors, Encode, RequestText;
      lastConn := (lastConn + 1) % |conns|;
      sent, left := SendRequest(conns[lastConn], r, index, sizes);
    }

    /** One turn, after the pop. It is the four steps of the call protocol; all of the text goes out unless a short
        write ends at the end of a vector. */
    method Turn(id: nat, stale: int, r: Calls.Request, sizes: seq<nat>, ghost sv: Server, ghost s: Calls.State)
      returns (index: nat, sent: Bytes, ghost left: Bytes, ghost grown: seq<Option<Pending>>)
      requires Valid() && |r.input| <= INT_MAX
      requires !s.crashed && s.hand.Nothing? && s.pending != [] && s.pending[0] == id < |s.issued| && s.issued[id] == r
      requires s.slots == pool.data[..] && s.lastConn == lastConn && |s.links| == |conns|
      modifies this`lastConn, pool, pool.data, conns, set v | v in conns :: v.iov
      ensures Valid() && index !in old(pool.live) && pool.live == old(pool.live)[index := Call(id, index)]
      ensures lastConn == (old(lastConn) + 1) % |conns|
      ensures sent + left == RequestText(r.methodName, r.service, index, r.input)
      ensures conns[lastConn].wire == old(conns[(lastConn + 1) % |conns|].wire) + sent
      ensures forall i :: 0 <= i < |conns| && i != lastConn ==> conns[i].wire == old(conns[i].wire)
      ensures |grown| <= INT_MAX ==> TurnDone(sv, s, stale, grown, pool.data[..], lastConn, sent + left)
      ensures left == [] <==> !CutShort(MessageVectors(Calls.RequestMessage(r, index)), sizes)
    {
      hide FirstEmpty, Inserted, CutShort, MessageVectors, TurnDone, Encode, RequestText;
      index, grown := Number(id, stale);
      ghost var slots := pool.data[..];
      sent, left := SendOut(r, index, sizes);
      assert pool.data[..] == slots;
      if |grown| <= INT_MAX {
        TurnIsSteps(sv, s, stale, grown, slots, lastConn, sent + left);
      }
    }
  }

  /** rpc_request_format and rpc_send_message. */
  method SendRequest(conn: Vectors, r: Calls.Request, index: nat, sizes: seq<nat>) returns (sent: Bytes, ghost left: Bytes)
    requires conn.Valid() && conn.Contents() == [] && |r.input| <= INT_MAX
    modifies conn, conn.iov
    ensures conn.Valid() && conn.Contents() == [] && (conn.iov == old(conn.iov) || fresh(conn.iov))
    ensures sent + left == RequestText(r.methodName, r.service, index, r.input) == Encode(Calls.RequestMessage(r, index))
    ensures conn.wire == old(conn.wire) + sent
    ensures left == [] <==> !CutShort(MessageVectors(Calls.RequestMessage(r, index)), sizes)
  {
    hide HeadText, Flatten, CutShort, HeadVectors, BodyVectors, RequestText;
    RequestVectorsText(r.methodName, r.service, index, r.input);
    RequestIsText(r.methodName, r.service, index, r.input);
    RequestFormat(conn, r.methodName, r.service, index, Some(r.input), |r.input|);
    assert conn.Contents() == MessageVectors(Calls.RequestMessage(r, index));
    sent, left := conn.SendMessage(sizes);
  }

  /** The table, the last connection and the text sent are those of the four steps. */
  ghost predicate TurnDone(sv: Server, s: Calls.State, stale: int, grown: seq<Option<Pending>>,
                           slots: seq<Option<Pending>>, conn: int, text: Bytes)
  {
    Calls.Legal(sv, s, Calls.SendSteps(stale, grown)) &&
    var s' := Calls.After(sv, s, Calls.SendSteps(stale, grown));
    && s'.slots == slots && s'.lastConn == conn
    && 0 <= conn < |s.links| == |s'.links|
    && s'.links[conn].up != [] && text == Encode(s'.links[conn].up[|s'.links[conn].up| - 1].message)
  }

  lemma TurnIsSteps(sv: Server, s: Calls.State, stale: int, grown: seq<Option<Pending>>,
                    slots: seq<Option<Pending>>, conn: int, text: Bytes)
    requires Calls.ReadyToSend(s, stale, grown)
    requires var i := FirstEmpty(s.slots);
      && i < |grown| && slots == grown[i := Some(Call(s.pending[0], i))]
      && text == Encode(Calls.RequestMessage(s.issued[s.pending[0]], i))
    requires conn == Calls.Next(s, |s.links|)
    ensures TurnDone(sv, s, stale, grown, slots, conn, text)
  {
    hide Calls.Legal, Calls.After, Calls.SendSteps, Encode, FirstEmpty, Inserted, Calls.RequestMessage;
    Calls.SendRun(sv, s, stale, grown);
  }
}
