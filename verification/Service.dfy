/** What the server answers (the dispatch in cb_req_read and rpc_send_response in src/rpc_conn.c). */
module Service {
  import opened Wire
  import opened Frame

  datatype Reply = Reply(code: Code, output: Bytes)

  /** The registered services, by their key, and what their handlers return.
      Every handler replies exactly once. */
  datatype Server = Server(registered: set<Bytes>, handle: (Bytes, Bytes) -> Reply)

  const NOT_FOUND: Bytes := "not find method@service"

  function Key(methodName: Bytes, service: Bytes): Bytes {
    methodName + "@" + service
  }

  const KEY_SIZE: nat := 255

  /** The key as the server looks it up, printed into a buffer that takes 254 characters. */
  function StoredKey(methodName: Bytes, service: Bytes): Bytes {
    var key := Key(methodName, service);
    if |key| < KEY_SIZE then key else key[..KEY_SIZE - 1]
  }

  /** The stored keys tell services apart, and the methods of one service, unless both keys agree in all the characters that fit. */
  lemma KeysTellServices(m: Bytes, s: Bytes, m': Bytes, s': Bytes)
    requires '@' !in m && '@' !in m'
    ensures StoredKey(m, s) == StoredKey(m', s') <==>
      (m == m' && s == s') || (var k, k' := m + "@" + s, m' + "@" + s'; 254 <= |k| && 254 <= |k'| && k[..254] == k'[..254])
  {
    var n, k, k' := KEY_SIZE - 1, Key(m, s), Key(m', s');
    assert |k| == n ==> k[..n] == k;
    assert |k'| == n ==> k'[..n] == k';
    if k == k' {
      SplitAt(m, s);
      SplitAt(m', s');
    }
  }

  /** The stored key is what fits of method, '@' and service. */
  lemma KeyText(m: Bytes, s: Bytes)
    ensures |m| + |s| < 254 ==> StoredKey(m, s) == m + "@" + s
    ensures |m| + |s| >= 254 ==> |StoredKey(m, s)| == 254 && StoredKey(m, s) <= m + "@" + s
  {}

  /** Long keys collide: one more character behind the first 254 makes no difference. */
  lemma LongKeysCollide(m: Bytes, s: Bytes, c: Byte)
    requires |m| + |s| == 253
    ensures StoredKey(m, s + [c]) == StoredKey(m, s) == m + "@" + s
  {
    assert Key(m, s + [c]) == Key(m, s) + [c];
  }

  function ReplyMessage(seqNo: int, r: Reply): Message {
    Message(StatusLine(r.code.Number(), r.code.Phrase()), seqNo, r.output)
  }

  predicate Registered(sv: Server, m: Message) {
    m.first.RequestLine? && StoredKey(m.first.methodName, m.first.service) in sv.registered
  }

  function ReplyTo(sv: Server, m: Message): Reply {
    if Registered(sv, m) then sv.handle(StoredKey(m.first.methodName, m.first.service), m.body)
    else Reply(NotFound, NOT_FOUND)
  }

  /** What a request is owed: the handler of its service, called with the body of the request, says code and text of the reply; without
      such a service they are those of not found. */
  ghost predicate Replied(sv: Server, methodName: Bytes, service: Bytes, input: Bytes, reply: Message) {
    var key := StoredKey(methodName, service);
    if key in sv.registered then
      var h := sv.handle(key, input);
      reply.first == StatusLine(h.code.Number(), h.code.Phrase()) && reply.body == h.output
    else reply.first == StatusLine(404, "NotFound") && reply.body == "not find method@service"
  }

  /** One dispatch. `curr` is the connection's curr_seq, which only a registered service updates. */
  function Answer(sv: Server, curr: int, m: Message): (Message, int) {
    var seqNo := if Registered(sv, m) then m.seqNo else curr;
    (ReplyMessage(seqNo, ReplyTo(sv, m)), seqNo)
  }

  function AnswerAll(sv: Server, curr: int, ms: seq<Message>): (seq<Message>, int)
    decreases |ms|
  {
    if ms == [] then ([], curr)
    else
      var (reply, curr') := Answer(sv, curr, ms[0]);
      var (replies, last) := AnswerAll(sv, curr', ms[1..]);
      ([reply] + replies, last)
  }

  lemma AnswerNothing(sv: Server, curr: int)
    ensures AnswerAll(sv, curr, []) == ([], curr)
  {}

  lemma {:induction false} AnswerAllAppend(sv: Server, curr: int, ms: seq<Message>, m: Message)
    ensures var (rs, c) := AnswerAll(sv, curr, ms); var (r, c') := Answer(sv, c, m);
      AnswerAll(sv, curr, ms + [m]) == (rs + [r], c')
    decreases |ms|
  {
    if ms == [] {
      assert ms + [m] == [m] && [m][1..] == [];
      var (r, c) := Answer(sv, curr, m);
      assert [] + [r] == [r] + [];
    } else {
      assert (ms + [m])[0] == ms[0];
      var (reply, c) := Answer(sv, curr, ms[0]);
      AnswerAllAppend(sv, c, ms[1..], m);
      assert (ms + [m])[1..] == ms[1..] + [m];
      var (rs, last) := AnswerAll(sv, c, ms[1..]);
      var r := Answer(sv, last, m).0;
      assert [reply] + (rs + [r]) == ([reply] + rs) + [r];
    }
  }

  lemma {:induction false} AnswerAllJoin(sv: Server, curr: int, a: seq<Message>, b: seq<Message>)
    ensures var (rs, c) := AnswerAll(sv, curr, a); var (rs', c') := AnswerAll(sv, c, b);
      AnswerAll(sv, curr, a + b) == (rs + rs', c')
    decreases |b|
  {
    hide Answer, AnswerAll;
    if b == [] {
      var (rs, c) := AnswerAll(sv, curr, a);
      AnswerNothing(sv, c);
      assert a + b == a && rs + [] == rs;
    } else {
      var front := b[..|b| - 1];
      AnswerAllJoin(sv, curr, a, front);
      var c := AnswerAll(sv, curr, a).1;
      AnswerAllAppend(sv, curr, a + front, b[|b| - 1]);
      AnswerAllAppend(sv, c, front, b[|b| - 1]);
      assert a + b == a + front + [b[|b| - 1]] && b == front + [b[|b| - 1]];
      var rs, rs' := AnswerAll(sv, curr, a).0, AnswerAll(sv, c, front).0;
      var r := Answer(sv, AnswerAll(sv, c, front).1, b[|b| - 1]).0;
      assert rs + (rs' + [r]) == rs + rs' + [r];
    }
  }

  /** The body a server sends fits the length field. */
  ghost predicate Bounded(sv: Server) {
    forall k, b :: |sv.handle(k, b).output| <= INT_MAX
  }

  lemma AnswersAreGood(sv: Server, curr: int, m: Message)
    requires Bounded(sv) && INT_MIN <= curr <= INT_MAX && INT_MIN <= m.seqNo <= INT_MAX
    ensures GoodMessage(Responses, Answer(sv, curr, m).0)
    ensures INT_MIN <= Answer(sv, curr, m).1 <= INT_MAX
  {}

  /** The reply that is due: with the number of its request, or, when there is no such service, the number answered `before`. */
  ghost predicate ReplyDue(sv: Server, m: Message, reply: Message, before: int) {
    && (m.first.RequestLine? ==> Replied(sv, m.first.methodName, m.first.service, m.body, reply))
    && reply.seqNo == if Registered(sv, m) then m.seqNo else before
  }

  /** The number answered before the reply at `i`. */
  function Before(curr: int, replies: seq<Message>, i: nat): int
    requires i <= |replies|
  {
    if i == 0 then curr else replies[i - 1].seqNo
  }

  /** Each request is for a registered service, or repeats the number of the request before it. */
  predicate NumbersReach(sv: Server, curr: int, ms: seq<Message>)
    decreases |ms|
  {
    ms != [] ==> (Registered(sv, ms[0]) || ms[0].seqNo == curr) && NumbersReach(sv, ms[0].seqNo, ms[1..])
  }

  /** Requests and replies on a connection correspond one to one and in order, and the replies carry the
      sequence numbers of their requests if and only if the numbers reach them. */
  lemma {:induction false} RepliesMatch(sv: Server, curr: int, ms: seq<Message>)
    ensures var replies := AnswerAll(sv, curr, ms).0;
      && |replies| == |ms|
      && (forall i :: 0 <= i < |ms| ==> ReplyDue(sv, ms[i], replies[i], Before(curr, replies, i)))
      && ((forall i :: 0 <= i < |ms| ==> replies[i].seqNo == ms[i].seqNo) <==> NumbersReach(sv, curr, ms))
    decreases |ms|
  {
    hide AnswerAll, Registered, Answer, ReplyDue, Before;
    AnswerAllFirst(sv, curr, ms);
    if ms != [] {
      var (reply, c) := Answer(sv, curr, ms[0]);
      RepliesMatch(sv, c, ms[1..]);
      OneReply(sv, curr, ms[0]);
      FirstAndRest(sv, curr, reply, AnswerAll(sv, c, ms[1..]).0, ms);
      NumbersFirst(reply, AnswerAll(sv, c, ms[1..]).0, ms);
    }
  }

  lemma OneReply(sv: Server, curr: int, m: Message)
    ensures var (reply, c) := Answer(sv, curr, m);
      ReplyDue(sv, m, reply, curr) && c == reply.seqNo && (reply.seqNo == m.seqNo <==> Registered(sv, m) || m.seqNo == curr)
  {}

  lemma FirstAndRest(sv: Server, curr: int, reply: Message, tail: seq<Message>, ms: seq<Message>)
    requires |ms| == |tail| + 1 && ReplyDue(sv, ms[0], reply, curr)
    requires forall i :: 0 <= i < |tail| ==> ReplyDue(sv, ms[1..][i], tail[i], Before(reply.seqNo, tail, i))
    ensures var all := [reply] + tail;
      forall i :: 0 <= i < |ms| ==> ReplyDue(sv, ms[i], all[i], Before(curr, all, i))
  {
    hide ReplyDue;
    var all := [reply] + tail;
    forall i | 0 <= i < |ms| ensures ReplyDue(sv, ms[i], all[i], Before(curr, all, i)) {
      if i > 0 {
        assert ms[1..][i - 1] == ms[i] && tail[i - 1] == all[i];
        assert Before(curr, all, i) == Before(reply.seqNo, tail, i - 1);
      }
    }
  }

  lemma NumbersFirst(reply: Message, tail: seq<Message>, ms: seq<Message>)
    requires |ms| == |tail| + 1
    ensures var all := [reply] + tail;
      (forall i :: 0 <= i < |ms| ==> all[i].seqNo == ms[i].seqNo) <==>
      reply.seqNo == ms[0].seqNo && forall i :: 0 <= i < |tail| ==> tail[i].seqNo == ms[1..][i].seqNo
  {
    var all := [reply] + tail;
    assert forall i :: 0 <= i < |tail| ==> tail[i] == all[i + 1] && ms[1..][i] == ms[i + 1];
    assert forall i :: 1 <= i < |ms| ==> all[i] == tail[i - 1] && ms[i] == ms[1..][i - 1];
  }

  lemma AnswerAllFirst(sv: Server, curr: int, ms: seq<Message>)
    ensures AnswerAll(sv, curr, ms).0 ==
      if ms == [] then [] else [Answer(sv, curr, ms[0]).0] + AnswerAll(sv, Answer(sv, curr, ms[0]).1, ms[1..]).0
  {
    hide Answer;
  }
}
