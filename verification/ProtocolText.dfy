/** The text of the protocol (doc/protocal.txt), written out, and what printing and parsing make of it. */
module ProtocolText {
  import opened Wire
  import opened Frame
  import opened Reader

  function RequestText(methodName: Bytes, service: Bytes, seqNo: int, body: Bytes): Bytes {
    ("CALL " + methodName + "@" + service + " RPC/1.0\n")
    + ("seq:" + Dec(seqNo) + "\n")
    + ("body-len:" + Dec(|body|) + "\n\n")
    + body
  }

  /** The number and the phrase of a status line. */
  function StatusText(code: Code): (Bytes, Bytes) {
    match code
    case Unknown => ("0", "Unkown")
    case OK => ("200", "OK")
    case BadRequest => ("400", "BadRequest")
    case NotFound => ("404", "NotFound")
    case Timeout => ("408", "Timeout")
    case ServerError => ("500", "ServerError")
  }

  function ReplyText(code: Code, seqNo: int, body: Bytes): Bytes {
    ("RPC/1.0 " + StatusText(code).0 + " " + StatusText(code).1 + "\n")
    + ("seq:" + Dec(seqNo) + "\n")
    + ("body-len:" + Dec(|body|) + "\n\n")
    + body
  }

  // ----- printing -----

  /** The lines of a message, each with its line feed. */
  lemma LinesText(first: First, seqNo: int, body: Bytes, line: Bytes)
    requires FirstText(first) + "\n" == line
    ensures Encode(Message(first, seqNo, body)) == line + ("seq:" + Dec(seqNo) + "\n") + ("body-len:" + Dec(|body|) + "\n\n") + body
  {
    hide Dec, FirstText;
    var l2, l3 := "seq:" + Dec(seqNo), "body-len:" + Dec(|body|);
    assert l3 + "\n\n" == l3 + "\n" + "\n";
    assert line + (l2 + "\n" + (l3 + "\n" + "\n")) == line + (l2 + "\n") + (l3 + "\n" + "\n");
  }

  /** The printed request is that text. */
  lemma RequestIsText(methodName: Bytes, service: Bytes, seqNo: int, body: Bytes)
    ensures Encode(Message(RequestLine(methodName, service, "RPC/1.0"), seqNo, body)) == RequestText(methodName, service, seqNo, body)
  {
    hide Dec, Encode;
    var first := RequestLine(methodName, service, "RPC/1.0");
    RequestFirstLine(methodName, service);
    LinesText(first, seqNo, body, "CALL " + methodName + "@" + service + " RPC/1.0\n");
  }

  lemma RequestFirstLine(m: Bytes, s: Bytes)
    ensures FirstText(RequestLine(m, s, "RPC/1.0")) + "\n" == "CALL " + m + "@" + s + " RPC/1.0\n"
  {
    assert "CALL " == "CALL" + " ";
    assert " RPC/1.0\n" == " " + "RPC/1.0" + "\n";
  }

  lemma CodeText(code: Code)
    ensures (Dec(code.Number()), code.Phrase()) == StatusText(code)
  {
    hide Dec;
    HundredText(2);
    HundredText(4);
    HundredText(5);
    DecimalText(0, 0);
    DecimalText(40, 4);
    DecimalText(40, 8);
    assert Dec(0) == "0" && Dec(200) == "200" && Dec(400) == "400" && Dec(500) == "500";
    assert Dec(404) == "40" + "4" == "404" && Dec(408) == "40" + "8" == "408";
  }

  lemma HundredText(d: nat)
    requires 0 < d < 10
    ensures Dec(10 * d) == ["0123456789"[d], '0'] && Dec(100 * d) == ["0123456789"[d], '0', '0']
  {
    hide Dec;
    DecimalText(0, d);
    DecimalText(d, 0);
    DecimalText(10 * d, 0);
  }

  /** So is the printed reply. */
  lemma ReplyIsText(code: Code, seqNo: int, body: Bytes)
    ensures Encode(Message(StatusLine(code.Number(), code.Phrase()), seqNo, body)) == ReplyText(code, seqNo, body)
  {
    hide Dec, StatusText, Code.Phrase, Code.Number, Encode;
    CodeText(code);
    assert "RPC/1.0 " == "RPC/1.0" + " ";
    LinesText(StatusLine(code.Number(), code.Phrase()), seqNo, body,
              "RPC/1.0 " + StatusText(code).0 + " " + StatusText(code).1 + "\n");
  }

  // ----- parsing -----

  /** A line ends with LF or with CR LF. */
  predicate LineBreak(e: Bytes) { e == "\n" || e == "\r\n" }

  lemma TakeEnded(l: Bytes, e: Bytes, rest: Bytes)
    requires Plain(l) && LineBreak(e)
    ensures TakeLine(l + e + rest) == Some((l, |l| + |e|)) && (l + e + rest)[|l| + |e|..] == rest
  {
    var w := l + e + rest;
    if e == "\n" {
      IndexOfIs(w, LF, |l|);
      assert w[..|l|] == l;
    } else {
      IndexOfIs(w, LF, |l| + 1);
      assert w[..|l| + 1] == l + ['\r'];
      StripCRMeaning(l);
    }
    CutNothing(l);
  }

  lemma BlankEnded(e: Bytes, rest: Bytes)
    requires LineBreak(e)
    ensures ReadBlank(e + rest) == Some(|e|)
  {
    IndexOfIs(e + rest, LF, |e| - 1);
  }

  /** A field line, whatever ends it. */
  lemma FieldEnded(key: Bytes, v: int, e: Bytes, rest: Bytes)
    requires (key == "seq:" || key == "body-len:") && -2147483648 <= v <= 2147483647 && LineBreak(e)
    ensures var l := key + Dec(v); ReadField(l + e + rest, key) == Field(v, |l| + |e|) && (l + e + rest)[|l| + |e|..] == rest
  {
    FieldPlain(key, v);
    TakeEnded(key + Dec(v), e, rest);
    ScanFieldDec(key, v);
  }

  function HeadLines(first: Bytes, e1: Bytes, seqNo: int, e2: Bytes, length: int, e3: Bytes, e4: Bytes): Bytes {
    first + e1 + ("seq:" + Dec(seqNo) + e2 + ("body-len:" + Dec(length) + e3 + e4))
  }

  /** Whatever ends the lines of a head, parsing it gives its fields and consumes exactly the head. */
  lemma AnyLineBreaks(kind: Kind, first: First, e1: Bytes, seqNo: int, e2: Bytes, length: nat, e3: Bytes, e4: Bytes, rest: Bytes)
    requires GoodFirst(kind, first) && -2147483648 <= seqNo <= 2147483647 && length <= 2147483647
    requires LineBreak(e1) && LineBreak(e2) && LineBreak(e3) && LineBreak(e4)
    ensures var text := HeadLines(FirstText(first), e1, seqNo, e2, length, e3, e4);
      ParseHead(kind, text + rest) == Parsed(Head(first, seqNo, length), |text|)
  {
    hide Dec, FirstText, ReadFirst, ReadFields, TakeLine, GoodFirst, Plain, LineBreak, HeadLines;
    var l1, l2, l3 := FirstText(first), "seq:" + Dec(seqNo), "body-len:" + Dec(length);
    var fields := l2 + e2 + (l3 + e3 + (e4 + rest));
    FirstPlain(kind, first);
    FirstRoundTrip(kind, first);
    TakeEnded(l1, e1, fields);
    FieldsAnyLineBreaks(seqNo, e2, length, e3, e4, rest);
    HeadLinesSplit(l1, e1, seqNo, e2, length, e3, e4, rest);
  }

  lemma HeadLinesSplit(first: Bytes, e1: Bytes, seqNo: int, e2: Bytes, length: int, e3: Bytes, e4: Bytes, rest: Bytes)
    ensures var l2, l3, text := "seq:" + Dec(seqNo), "body-len:" + Dec(length), HeadLines(first, e1, seqNo, e2, length, e3, e4);
      && text + rest == first + e1 + (l2 + e2 + (l3 + e3 + (e4 + rest)))
      && |text| == |first| + |e1| + (|l2| + |e2| + (|l3| + |e3|) + |e4|)
  {
    hide Dec;
    var l2, l3 := "seq:" + Dec(seqNo), "body-len:" + Dec(length);
    assert l3 + e3 + e4 + rest == l3 + e3 + (e4 + rest);
    assert l2 + e2 + (l3 + e3 + e4) + rest == l2 + e2 + (l3 + e3 + e4 + rest);
  }

  lemma FieldsAnyLineBreaks(seqNo: int, e2: Bytes, length: nat, e3: Bytes, e4: Bytes, rest: Bytes)
    requires -2147483648 <= seqNo <= 2147483647 && length <= 2147483647
    requires LineBreak(e2) && LineBreak(e3) && LineBreak(e4)
    ensures var l2, l3 := "seq:" + Dec(seqNo), "body-len:" + Dec(length);
      ReadFields(l2 + e2 + (l3 + e3 + (e4 + rest))) == Fields(seqNo, length, |l2| + |e2| + (|l3| + |e3|) + |e4|)
  {
    hide Dec, ReadField, ReadBlank, LineBreak;
    var l2, l3 := "seq:" + Dec(seqNo), "body-len:" + Dec(length);
    var r3 := e4 + rest;
    var r2 := l3 + e3 + r3;
    FieldEnded("seq:", seqNo, e2, r2);
    FieldEnded("body-len:", length, e3, r3);
    BlankEnded(e4, rest);
    DropDrop(l2 + e2 + r2, |l2| + |e2|, |l3| + |e3|);
  }

  /** A head whose second line does not begin with its key is refused, and both lines are consumed. */
  lemma WrongSeqLine(kind: Kind, first: First, e1: Bytes, line: Bytes, e2: Bytes, rest: Bytes)
    requires GoodFirst(kind, first) && LineBreak(e1) && LineBreak(e2) && Plain(line) && !("seq:" <= line)
    ensures ParseHead(kind, FirstText(first) + e1 + (line + e2 + rest)) == Failed(|FirstText(first)| + |e1| + |line| + |e2|)
  {
    hide FirstText, ReadFirst, TakeLine, GoodFirst, Plain, LineBreak;
    FirstPlain(kind, first);
    FirstRoundTrip(kind, first);
    TakeEnded(FirstText(first), e1, line + e2 + rest);
    TakeEnded(line, e2, rest);
  }

  /** The same for the third line. */
  lemma WrongLengthLine(kind: Kind, first: First, e1: Bytes, seqNo: int, e2: Bytes, line: Bytes, e3: Bytes, rest: Bytes)
    requires GoodFirst(kind, first) && LineBreak(e1) && LineBreak(e2) && LineBreak(e3)
    requires -2147483648 <= seqNo <= 2147483647 && Plain(line) && !("body-len:" <= line)
    ensures var l2 := "seq:" + Dec(seqNo);
      ParseHead(kind, FirstText(first) + e1 + (l2 + e2 + (line + e3 + rest))) ==
        Failed(|FirstText(first)| + |e1| + (|l2| + |e2|) + (|line| + |e3|))
  {
    hide FirstText, ReadFirst, TakeLine, GoodFirst, Plain, LineBreak, Dec;
    var l2, r2 := "seq:" + Dec(seqNo), line + e3 + rest;
    FirstPlain(kind, first);
    FirstRoundTrip(kind, first);
    TakeEnded(FirstText(first), e1, l2 + e2 + r2);
    FieldEnded("seq:", seqNo, e2, r2);
    TakeEnded(line, e3, rest);

  }

  /** A fourth line with something in it is refused too, but stays in the window. */
  lemma WrongEmptyLine(kind: Kind, first: First, e1: Bytes, seqNo: int, e2: Bytes, length: nat, e3: Bytes, line: Bytes, rest: Bytes)
    requires GoodFirst(kind, first) && LineBreak(e1) && LineBreak(e2) && LineBreak(e3)
    requires -2147483648 <= seqNo <= 2147483647 && length <= 2147483647 && line != [] && line != "\r" && LF !in line
    ensures var l2, l3 := "seq:" + Dec(seqNo), "body-len:" + Dec(length);
      ParseHead(kind, FirstText(first) + e1 + (l2 + e2 + (l3 + e3 + (line + "\n" + rest)))) ==
        Failed(|FirstText(first)| + |e1| + (|l2| + |e2|) + (|l3| + |e3|))
  {
    hide FirstText, ReadFirst, TakeLine, GoodFirst, Plain, LineBreak, Dec, ReadField, ReadBlank;
    var l2, l3, r3 := "seq:" + Dec(seqNo), "body-len:" + Dec(length), line + "\n" + rest;
    var r2 := l3 + e3 + r3;
    FirstPlain(kind, first);
    FirstRoundTrip(kind, first);
    TakeEnded(FirstText(first), e1, l2 + e2 + r2);
    FieldEnded("seq:", seqNo, e2, r2);
    FieldEnded("body-len:", length, e3, r3);
    DropDrop(l2 + e2 + r2, |l2| + |e2|, |l3| + |e3|);
    NotBlank(line, rest);
  }

  lemma NotBlank(line: Bytes, rest: Bytes)
    requires line != [] && line != "\r" && LF !in line
    ensures ReadBlank(line + "\n" + rest) == None
  {
    IndexOfIs(line + "\n" + rest, LF, |line|);
    assert |line| == 1 ==> line == [line[0]];
  }

  /** The text of a request at the front of a window is dispatched with its own fields, whatever follows it. */
  lemma TextIsRequest(methodName: Bytes, service: Bytes, seqNo: int, body: Bytes, rest: Bytes, beyond: Byte)
    requires Name(methodName) && '@' !in methodName && Name(service)
    requires -2147483648 <= seqNo <= 2147483647 && |body| <= 2147483647
    ensures var text := RequestText(methodName, service, seqNo, body);
      TakeTurn(Requests, State(None, text + rest), beyond) == Emit(Message(RequestLine(methodName, service, "RPC/1.0"), seqNo, body), |text|)
  {
    hide TakeTurn, Encode, RequestText;
    RequestIsText(methodName, service, seqNo, body);
    FullTurn(Requests, Message(RequestLine(methodName, service, "RPC/1.0"), seqNo, body), rest, beyond);
  }

  /** The same for replies. */
  lemma TextIsReply(code: Code, seqNo: int, body: Bytes, rest: Bytes, beyond: Byte)
    requires -2147483648 <= seqNo <= 2147483647 && |body| <= 2147483647
    ensures var text := ReplyText(code, seqNo, body);
      TakeTurn(Responses, State(None, text + rest), beyond) == Emit(Message(StatusLine(code.Number(), code.Phrase()), seqNo, body), |text|)
  {
    hide TakeTurn, Encode, ReplyText, Code.Phrase, Code.Number;
    ReplyIsText(code, seqNo, body);
    FullTurn(Responses, Message(StatusLine(code.Number(), code.Phrase()), seqNo, body), rest, beyond);
  }
}
