/** Messages of the protocol: their text, how a head is recognised, and how it is parsed
    (doc/protocal.txt, src/rpc_request.c, src/rpc_response.c, src/rpc_conn.c). */
module Frame {
  import opened Wire
  import opened Tokens

  const VERSION: Bytes := "RPC/1.0"
  const CALL: Bytes := "CALL"
  const SEQ_KEY: Bytes := "seq:"
  const LEN_KEY: Bytes := "body-len:"

  datatype Code = Unknown | OK | BadRequest | NotFound | Timeout | ServerError {
    function Number(): int {
      match this
      case Unknown => 0
      case OK => 200
      case BadRequest => 400
      case NotFound => 404
      case Timeout => 408
      case ServerError => 500
    }

    function Phrase(): Bytes {
      match this
      case Unknown => "Unkown"
      case OK => "OK"
      case BadRequest => "BadRequest"
      case NotFound => "NotFound"
      case Timeout => "Timeout"
      case ServerError => "ServerError"
    }
  }

  /** The two directions of a connection. */
  datatype Kind = Requests | Responses

  datatype First =
    | RequestLine(methodName: Bytes, service: Bytes, version: Bytes)
    | StatusLine(code: int, phrase: Bytes)

  /** What a parsed head says; `length` is the number of body bytes to come. */
  datatype Head = Head(first: First, seqNo: int, length: nat)

  datatype Message = Message(first: First, seqNo: int, body: Bytes) {
    function GetHead(): Head { Head(first, seqNo, |body|) }
  }

  // ----- printing -----

  function FirstText(first: First): Bytes {
    match first
    case RequestLine(m, s, v) => CALL + [SP] + (m + "@" + s) + [SP] + v
    case StatusLine(code, phrase) => VERSION + [SP] + Dec(code) + [SP] + phrase
  }

  /** Three lines and an empty one. */
  function Lines(l1: Bytes, l2: Bytes, l3: Bytes): Bytes {
    l1 + [LF] + (l2 + [LF] + (l3 + [LF] + [LF]))
  }

  function HeadText(h: Head): Bytes {
    Lines(FirstText(h.first), SEQ_KEY + Dec(h.seqNo), LEN_KEY + Dec(h.length))
  }

  function Encode(m: Message): Bytes {
    HeadText(m.GetHead()) + m.body
  }

  // ----- parsing -----

  datatype FirstResult = Good(first: First) | Bad | Wild

  /** The request line. `Wild` marks the lines for which the code goes on to read a token that
      tokenize_command did not store: the test joins its two conditions with `&&`. */
  function ReadRequestLine(text: Bytes): (r: FirstResult)
    ensures r.Good? ==> r.first.RequestLine?
  {
    var t := Tokenize(text, 3);
    if |t| == 0 then Wild
    else if |t| != 3 && Text(text, t[0]) != CALL then Bad
    else if |t| == 1 then Wild
    else
      var target := Text(text, t[1]);
      var at := IndexOf(target, '@');
      if at == |target| then Bad
      else if |t| == 2 then Wild
      else Good(RequestLine(target[..at], target[at + 1..], Text(text, t[2])))
  }

  /** The status line; the same remark applies. */
  function ReadStatusLine(text: Bytes): (r: FirstResult)
    ensures r.Good? ==> r.first.StatusLine?
  {
    var t := Tokenize(text, 3);
    if |t| == 0 then Wild
    else if |t| != 3 && Text(text, t[0]) != VERSION then Bad
    else if |t| < 3 then Wild
    else Good(StatusLine(Strtol(Text(text, t[1])), Text(text, t[2])))
  }

  function ReadFirst(kind: Kind, text: Bytes): FirstResult {
    match kind
    case Requests => ReadRequestLine(text)
    case Responses => ReadStatusLine(text)
  }

  /** The C string of the first line of `w` and the position after its line feed. */
  function TakeLine(w: Bytes): (r: Option<(Bytes, nat)>)
    ensures r.Some? ==> 0 < r.value.1 <= |w|
  {
    var i := IndexOf(w, LF);
    if i == |w| then None else Some((Cut(StripCR(w[..i])), i + 1))
  }

  /** The window after its first line has been refused: the end of the line and the ends of its words have become NUL. */
  function Marred(w: Bytes): (r: Bytes)
    ensures |r| == |w|
  {
    match TakeLine(w)
    case None => w
    case Some((text, n)) =>
      var end, toks := |StripCR(w[..n - 1])|, Tokenize(text, 3);
      seq(|w|, i requires 0 <= i < |w| => if i == end || EndsOne(toks, i) then NUL else w[i])
  }

  /** What a parse error leaves of the window when `n` bytes have been consumed. */
  function AfterError(w: Bytes, n: nat): Bytes
    requires n <= |w|
  {
    if n == 0 then Marred(w) else w[n..]
  }

  datatype FieldResult = Field(value: int, next: nat) | NoField(next: nat)

  /** A line holding `key` and a number. A line that does not scan is consumed all the same. */
  function ReadField(w: Bytes, key: Bytes): (r: FieldResult)
    ensures r.next <= |w|
    ensures r.Field? ==> 0 < r.next
  {
    match TakeLine(w)
    case None => NoField(0)
    case Some((text, n)) =>
      match ScanField(text, key)
      case None => NoField(n)
      case Some(v) => Field(v, n)
  }

  /** The empty line that closes a head, and the position after it. */
  function ReadBlank(w: Bytes): (r: Option<nat>)
    ensures r.Some? ==> 0 < r.value <= |w|
  {
    var i := IndexOf(w, LF);
    if i < |w| && (i == 0 || (i == 1 && w[0] == CR)) then Some(i + 1) else None
  }

  datatype HeadResult =
    | Parsed(head: Head, size: nat)
    | Failed(size: nat)  // parse error, `size` bytes consumed
    | Undefined

  /** `%d` stores into an object of type size_t whose upper half is zero. */
  function ToSize(v: int): nat { v % UINT_RANGE }

  /** A negative length is a large one. */
  lemma ToSizeMeaning(v: int)
    requires -2147483648 <= v <= 2147483647
    ensures ToSize(v) == if v < 0 then v + 4294967296 else v
  {}

  datatype FieldsResult = Fields(seqNo: int, length: nat, next: nat) | NoFields(next: nat)

  /** The lines after the first one, with the empty line. */
  function ReadFields(w: Bytes): (r: FieldsResult)
    ensures r.next <= |w|
    ensures r.Fields? ==> 0 < r.next
  {
    match ReadField(w, SEQ_KEY)
    case NoField(n1) => NoFields(n1)
    case Field(seqNo, n1) =>
      match ReadField(w[n1..], LEN_KEY)
      case NoField(n2) => NoFields(n1 + n2)
      case Field(len, n2) =>
        match ReadBlank(w[n1 + n2..])
        case None => NoFields(n1 + n2)
        case Some(n3) => Fields(seqNo, ToSize(len), n1 + n2 + n3)
  }

  function ParseHead(kind: Kind, w: Bytes): (r: HeadResult)
    ensures r.Parsed? ==> 0 < r.size <= |w|
    ensures r.Failed? ==> r.size <= |w|
  {
    match TakeLine(w)
    case None => Failed(0)
    case Some((text, n)) =>
      match ReadFirst(kind, text)
      case Wild => Undefined
      case Bad => Failed(0)
      case Good(first) =>
        match ReadFields(w[n..])
        case NoFields(k) => Failed(n + k)
        case Fields(seqNo, len, k) => Parsed(Head(first, seqNo, len), n + k)
  }

  // ----- well-formed messages -----

  ghost predicate Name(s: Bytes) {
    SP !in s && LF !in s && NUL !in s
  }

  ghost predicate GoodFirst(kind: Kind, first: First) {
    match kind
    case Requests =>
      first.RequestLine? && Name(first.methodName) && '@' !in first.methodName && Name(first.service)
      && first.version == VERSION
    case Responses =>
      first.StatusLine? && exists c: Code :: first == StatusLine(c.Number(), c.Phrase())
  }

  ghost predicate GoodHead(kind: Kind, h: Head) {
    GoodFirst(kind, h.first) && INT_MIN <= h.seqNo <= INT_MAX && h.length <= INT_MAX
  }

  ghost predicate GoodMessage(kind: Kind, m: Message) {
    GoodHead(kind, m.GetHead())
  }

  /** A line as the printers write it. */
  ghost predicate Plain(l: Bytes) {
    |l| > 2 && LF !in l && NUL !in l && l[|l| - 1] != CR
  }

  // ----- parsing undoes printing -----

  lemma TakePlain(l: Bytes, rest: Bytes)
    requires Plain(l)
    ensures TakeLine(l + [LF] + rest) == Some((l, |l| + 1))
    ensures (l + [LF] + rest)[|l| + 1..] == rest
  {
    var w := l + [LF] + rest;
    IndexOfIs(w, LF, |l|);
    assert w[..|l|] == l;
    CutNothing(l);
  }

  lemma FieldPlain(key: Bytes, v: int)
    requires key == SEQ_KEY || key == LEN_KEY
    ensures Plain(key + Dec(v))
  {
    var l := key + Dec(v);
    assert l[|l| - 1] == Dec(v)[|Dec(v)| - 1];
  }

  lemma ReadFieldOf(key: Bytes, v: int, rest: Bytes)
    requires key == SEQ_KEY || key == LEN_KEY
    requires INT_MIN <= v <= INT_MAX
    ensures ReadField(key + Dec(v) + [LF] + rest, key) == Field(v, |key + Dec(v)| + 1)
    ensures (key + Dec(v) + [LF] + rest)[|key + Dec(v)| + 1..] == rest
  {
    FieldPlain(key, v);
    TakePlain(key + Dec(v), rest);
    ScanFieldDec(key, v);
  }

  lemma PhraseIsWord(c: Code)
    ensures c.Phrase() != [] && Name(c.Phrase()) && CR !in c.Phrase()
    ensures INT_MIN <= c.Number() <= INT_MAX
  {
    var s := c.Phrase();
    assert Letters(s) by {
      match c
      case Unknown => assert Letters("Unkown");
      case OK => assert Letters("OK");
      case BadRequest => assert Letters("BadRequest");
      case NotFound => assert Letters("NotFound");
      case Timeout => assert Letters("Timeout");
      case ServerError => assert Letters("ServerError");
    }
  }

  ghost predicate Letters(s: Bytes) {
    forall i :: 0 <= i < |s| ==> 'A' <= s[i] <= 'z'
  }

  lemma DecIsWord(n: int)
    ensures Dec(n) != [] && Name(Dec(n))
  {}

  lemma RequestLinePlain(m: Bytes, s: Bytes, v: Bytes)
    requires Name(m) && Name(s) && v == VERSION
    ensures Plain(FirstText(RequestLine(m, s, v)))
  {
    var l := FirstText(RequestLine(m, s, v));
    assert l[|l| - 1] == v[|v| - 1];
    assert LF !in v && NUL !in v;
  }

  lemma StatusLinePlain(c: Code)
    ensures Plain(FirstText(StatusLine(c.Number(), c.Phrase())))
  {
    PhraseIsWord(c);
    DecIsWord(c.Number());
    hide Code.Phrase, Dec;
    var l := FirstText(StatusLine(c.Number(), c.Phrase()));
    assert l[|l| - 1] == c.Phrase()[|c.Phrase()| - 1];
    assert LF !in VERSION && NUL !in VERSION;
  }

  lemma FirstPlain(kind: Kind, first: First)
    requires GoodFirst(kind, first)
    ensures Plain(FirstText(first))
  {
    hide Plain, FirstText;
    match kind
    case Requests =>
      RequestLinePlain(first.methodName, first.service, first.version);
    case Responses =>
      var c: Code :| first == StatusLine(c.Number(), c.Phrase());
      StatusLinePlain(c);
  }

  lemma RequestLineRoundTrip(m: Bytes, s: Bytes, v: Bytes)
    requires Name(m) && '@' !in m && Name(s) && v == VERSION
    ensures ReadRequestLine(FirstText(RequestLine(m, s, v))) == Good(RequestLine(m, s, v))
  {
    hide Tokenize, Text, IndexOf;
    var target := m + "@" + s;
    SplitAt(m, s);
    ThreeWords(CALL, target, v);
  }

  lemma SplitAt(m: Bytes, s: Bytes)
    requires '@' !in m
    ensures var t := m + "@" + s; IndexOf(t, '@') == |m| && t[..|m|] == m && t[|m| + 1..] == s
  {
    IndexOfIs(m + "@" + s, '@', |m|);
  }

  lemma StatusLineRoundTrip(c: Code)
    ensures var line := StatusLine(c.Number(), c.Phrase()); ReadStatusLine(FirstText(line)) == Good(line)
  {
    PhraseIsWord(c);
    DecIsWord(c.Number());
    hide Tokenize, Code.Phrase, Code.Number, Dec, ScanInt;
    ThreeWords(VERSION, Dec(c.Number()), c.Phrase());
    ScanDec(c.Number(), []);
    assert Dec(c.Number()) + [] == Dec(c.Number());
  }

  /** The first line is read back, for requests and for responses. */
  lemma FirstRoundTrip(kind: Kind, first: First)
    requires GoodFirst(kind, first)
    ensures ReadFirst(kind, FirstText(first)) == Good(first)
  {
    hide ReadRequestLine, ReadStatusLine, FirstText;
    match kind
    case Requests =>
      RequestLineRoundTrip(first.methodName, first.service, first.version);
    case Responses =>
      var c: Code :| first == StatusLine(c.Number(), c.Phrase());
      StatusLineRoundTrip(c);
  }

  lemma BlankOf(rest: Bytes)
    ensures ReadBlank([LF] + rest) == Some(1)
  {
    IndexOfIs([LF] + rest, LF, 0);
  }

  lemma SplitLines(l1: Bytes, l2: Bytes, l3: Bytes, rest: Bytes)
    ensures var r3 := [LF] + rest; var r2 := l3 + [LF] + r3; var r1 := l2 + [LF] + r2;
      Lines(l1, l2, l3) + rest == l1 + [LF] + r1
      && |Lines(l1, l2, l3)| == |l1| + 1 + (|l2| + 1) + (|l3| + 1) + 1
  {}

  lemma DropDrop(w: Bytes, i: nat, j: nat)
    requires i + j <= |w|
    ensures w[i + j..] == w[i..][j..]
  {}

  /** `r` is what `w` leaves behind its first `n` bytes. */
  ghost predicate Dropped(r: Bytes, w: Bytes, n: int) {
    0 <= n <= |w| && r == w[n..]
  }

  lemma DroppedTwice(w: Bytes, i: int, r: Bytes, j: int, r': Bytes)
    requires Dropped(r, w, i) && Dropped(r', r, j)
    ensures Dropped(r', w, i + j)
  {
    DropDrop(w, i, j);
  }

  lemma FieldsByLine(w: Bytes)
    requires ReadField(w, SEQ_KEY).NoField?
    ensures ReadFields(w) == NoFields(ReadField(w, SEQ_KEY).next)
  {}

  /** The stages, with the window moving past each line. */
  lemma FieldsByLines(w: Bytes, w1: Bytes, w2: Bytes)
    requires ReadField(w, SEQ_KEY).Field?
    requires Dropped(w1, w, ReadField(w, SEQ_KEY).next) && Dropped(w2, w1, ReadField(w1, LEN_KEY).next)
    ensures var n := ReadField(w, SEQ_KEY).next + ReadField(w1, LEN_KEY).next;
      ReadFields(w) ==
        match ReadField(w1, LEN_KEY)
        case NoField(_) => NoFields(n)
        case Field(len, _) =>
          match ReadBlank(w2) case None => NoFields(n) case Some(k) => Fields(ReadField(w, SEQ_KEY).value, ToSize(len), n + k)
  {
    hide ReadField, ReadBlank;
    DropDrop(w, ReadField(w, SEQ_KEY).next, ReadField(w1, LEN_KEY).next);
  }

  lemma FieldsRoundTrip(seqNo: int, len: nat, rest: Bytes)
    requires INT_MIN <= seqNo <= INT_MAX && len <= INT_MAX
    ensures var l2, l3 := SEQ_KEY + Dec(seqNo), LEN_KEY + Dec(len);
      ReadFields(l2 + [LF] + (l3 + [LF] + ([LF] + rest))) == Fields(seqNo, len, |l2| + 1 + (|l3| + 1) + 1)
  {
    hide ReadField, Dec, ReadBlank;
    var l2, l3 := SEQ_KEY + Dec(seqNo), LEN_KEY + Dec(len);
    var r3 := [LF] + rest;
    var r2 := l3 + [LF] + r3;
    ReadFieldOf(SEQ_KEY, seqNo, r2);
    ReadFieldOf(LEN_KEY, len, r3);
    BlankOf(rest);
    DropDrop(l2 + [LF] + r2, |l2| + 1, |l3| + 1);
  }

  /** Whatever follows the head, parsing it gives back every field and consumes exactly the head. */
  lemma HeadRoundTrip(kind: Kind, h: Head, rest: Bytes)
    requires GoodHead(kind, h)
    ensures ParseHead(kind, HeadText(h) + rest) == Parsed(h, |HeadText(h)|)
  {
    hide ReadFields, TakeLine, ReadFirst, FirstText, Dec, Lines, GoodFirst, Plain;
    var l1, l2, l3 := FirstText(h.first), SEQ_KEY + Dec(h.seqNo), LEN_KEY + Dec(h.length);
    SplitLines(l1, l2, l3, rest);
    FirstPlain(kind, h.first);
    TakePlain(l1, l2 + [LF] + (l3 + [LF] + ([LF] + rest)));
    FirstRoundTrip(kind, h.first);
    FieldsRoundTrip(h.seqNo, h.length, rest);
  }

  /** The first word of a request line is not looked at as long as the line has three words. */
  lemma FirstWordIgnored(word: Bytes, m: Bytes, s: Bytes, v: Bytes)
    requires word != [] && SP !in word && SP !in m && '@' !in m && SP !in s && v != [] && SP !in v
    ensures ReadRequestLine(word + [SP] + (m + "@" + s) + [SP] + v) == Good(RequestLine(m, s, v))
  {
    hide Tokenize, Text, IndexOf;
    SplitAt(m, s);
    ThreeWords(word, m + "@" + s, v);
  }

  /** Word `i` of a line. */
  function Word(text: Bytes, toks: seq<Token>, i: nat): Bytes
    requires i < |toks|
  {
    Text(text, toks[i])
  }

  /** The words for which the code reads a token that was never stored: there is none at all, or fewer than three with the right one
      in front; a second one without an '@' saves a request line. */
  predicate UnsetToken(kind: Kind, text: Bytes, toks: seq<Token>) {
    toks == [] ||
    match kind
    case Requests => |toks| < 3 && Word(text, toks, 0) == CALL && (|toks| == 1 || '@' in Word(text, toks, 1))
    case Responses => |toks| < 3 && Word(text, toks, 0) == VERSION
  }

  /** What becomes of a request line, by its words. It is accepted exactly when there are three of them, whatever the first one is, and
      the second holds an '@'. */
  lemma RequestLineByWords(text: Bytes, toks: seq<Token>)
    requires AreTokens(text, 0, 3, toks)
    ensures ReadRequestLine(text).Good? <==> |toks| == 3 && '@' in Word(text, toks, 1)
    ensures ReadRequestLine(text).Wild? <==> UnsetToken(Requests, text, toks)
    ensures ReadRequestLine(text).Good? ==>
      var first := ReadRequestLine(text).first;
      '@' !in first.methodName && first.methodName + "@" + first.service == Word(text, toks, 1) && first.version == Word(text, toks, 2)
  {
    TokenizeMeaning(text, 3, toks);
    AtMost(text, 0, 3, toks);
    hide Tokenize, AreTokens, Text;
    if |toks| >= 2 {
      var target := Word(text, toks, 1);
      var at := IndexOf(target, '@');
      assert at < |target| ==> target == target[..at] + "@" + target[at + 1..];
    }
  }

  lemma {:induction false} AtMost(s: Bytes, from: nat, max: nat, toks: seq<Token>)
    requires AreTokens(s, from, max, toks)
    ensures |toks| <= max
    decreases |toks|
  {
    if toks != [] {
      AtMost(s, toks[0].End(), max - 1, toks[1..]);
    }
  }

  /** A request line that begins with a wrong word is refused if and only if it does not have three words with an '@' in the
      second one. */
  lemma WrongFirstWord(text: Bytes, toks: seq<Token>)
    requires AreTokens(text, 0, 3, toks) && toks != [] && Word(text, toks, 0) != CALL
    ensures ReadRequestLine(text).Bad? <==> !(|toks| == 3 && '@' in Word(text, toks, 1))
  {
    RequestLineByWords(text, toks);
    hide ReadRequestLine, AreTokens;
  }

  /** The same for status lines: three words are accepted, whatever they are. */
  lemma StatusLineByWords(text: Bytes, toks: seq<Token>)
    requires AreTokens(text, 0, 3, toks)
    ensures ReadStatusLine(text).Good? <==> |toks| == 3
    ensures ReadStatusLine(text).Wild? <==> UnsetToken(Responses, text, toks)
    ensures ReadStatusLine(text).Good? ==>
      ReadStatusLine(text).first == StatusLine(Strtol(Word(text, toks, 1)), Word(text, toks, 2))
  {
    TokenizeMeaning(text, 3, toks);
    AtMost(text, 0, 3, toks);
    hide Tokenize, AreTokens, Text;
  }

  lemma WrongFirstWordOfStatus(text: Bytes, toks: seq<Token>)
    requires AreTokens(text, 0, 3, toks) && toks != [] && Word(text, toks, 0) != VERSION
    ensures ReadStatusLine(text).Bad? <==> |toks| != 3
  {
    StatusLineByWords(text, toks);
    hide ReadStatusLine, AreTokens;
  }
}
