/** The stages of head parsing on the receive buffer: each finds a line, closes it with a NUL in place and
    reads the C strings so formed (src/rpc_request.c, src/rpc_response.c, src/rpc_conn.c). */
module HeadLines {
  import opened Wire
  import opened Tokens
  import opened Frame

  // ----- C strings in memory -----

  /** The NUL-terminated string `text` lies at `p`. */
  ghost predicate StringAt(mem: Bytes, p: nat, text: Bytes) {
    && p + |text| < |mem|
    && mem[p..p + |text|] == text
    && mem[p + |text|] == NUL
    && NUL !in text
  }

  /** What a pointer to `p` denotes as a C string. */
  function StringFrom(mem: Bytes, p: nat): Bytes {
    if p <= |mem| then Cut(mem[p..]) else []
  }

  lemma StringFromIs(mem: Bytes, p: nat, text: Bytes)
    requires StringAt(mem, p, text)
    ensures StringFrom(mem, p) == text
  {
    var s := mem[p..];
    assert s[..|text|] == text;
    assert forall j :: 0 <= j < |text| ==> s[j] == text[j];
    IndexOfIs(s, NUL, |text|);
  }

  lemma StringKept(mem: Bytes, mem': Bytes, p: nat, text: Bytes, limit: nat)
    requires StringAt(mem, p, text) && p + |text| < limit <= |mem| == |mem'|
    requires mem[..limit] == mem'[..limit]
    ensures StringAt(mem', p, text)
  {
    forall i | 0 <= i < limit ensures mem'[i] == mem[i] {
      assert mem'[..limit][i] == mem[..limit][i];
    }
    assert mem'[p..p + |text|] == mem[p..p + |text|];
  }

  // ----- a line -----

  /** memchr for the line feed, then `*el = '\0'` at the end of the line, in front of a CR if there is one. */
  method CloseLine(buf: array<Byte>, pos: nat, len: nat) returns (found: bool, cont: nat)
    requires pos + len <= buf.Length
    modifies buf
    ensures var line := TakeLine(old(buf[pos..pos + len]));
      && found == line.Some?
      && (!found ==> buf[..] == old(buf[..]))
      && (found ==>
            && cont == pos + line.value.1
            && pos + |line.value.0| < cont
            && StringAt(buf[..], pos, line.value.0)
            && var end := pos + |StripCR(old(buf[pos..pos + len])[..line.value.1 - 1])|;
               end < cont && buf[..] == old(buf[..])[end := NUL])
  {
    hide TakeLine, StripCR, StringAt, Cut, IndexOf;
    ghost var mem := buf[..];
    assert buf[pos..pos + len] == mem[pos..pos + len];
    TakeLineIs(mem[pos..pos + len]);
    var i := IndexOf(buf[pos..pos + len], LF);
    found, cont := i < len, pos + i + 1;
    if found {
      var el := pos + i;
      if el - pos > 1 && buf[el - 1] == CR {
        el := el - 1;
      }
      LineEnd(mem, pos, len, i);
      buf[el] := NUL;
      assert buf[..] == mem[el := NUL];
      ClosedLine(mem, pos, el);
      LineIsString(buf[..], pos, mem[pos..el]);
    }
  }

  lemma TakeLineIs(w: Bytes)
    ensures var i := IndexOf(w, LF);
      TakeLine(w) == if i == |w| then None else Some((Cut(StripCR(w[..i])), i + 1))
  {}

  lemma LineEnd(mem: Bytes, pos: nat, len: nat, i: nat)
    requires pos + len <= |mem| && i < len
    ensures var el := if i > 1 && mem[pos + i - 1] == CR then pos + i - 1 else pos + i;
      el == pos + |StripCR(mem[pos..pos + len][..i])| && mem[pos..el] == StripCR(mem[pos..pos + len][..i])
  {
    SliceSlice(mem, pos, len, i);
  }

  lemma ClosedLine(mem: Bytes, pos: nat, el: nat)
    requires pos <= el < |mem|
    ensures mem[el := NUL][pos..el] == mem[pos..el]
  {}

  lemma LineIsString(mem: Bytes, pos: nat, line: Bytes)
    requires pos + |line| < |mem| && mem[pos..pos + |line|] == line && mem[pos + |line|] == NUL
    ensures StringAt(mem, pos, Cut(line))
  {
    var t := Cut(line);
    assert mem[pos..pos + |t|] == mem[pos..pos + |line|][..|t|];
    if |t| < |line| {
      assert mem[pos + |t|] == mem[pos..pos + |line|][|t|];
    }
  }

  lemma SetOutside(mem: Bytes, p: nat, pos: nat, cont: nat)
    requires pos <= p < cont <= |mem|
    ensures mem[p := NUL][..pos] == mem[..pos] && mem[p := NUL][cont..] == mem[cont..]
  {}

  /** The seq and body-len lines: sscanf on the closed line. */
  method ScanLine(buf: array<Byte>, pos: nat, len: nat, key: Bytes) returns (ok: bool, value: int, cont: nat)
    requires pos + len <= buf.Length
    modifies buf
    ensures var r := ReadField(old(buf[pos..pos + len]), key);
      && ok == r.Field?
      && cont == pos + r.next
      && (ok ==> value == r.value)
      && buf[..pos] == old(buf[..pos]) && buf[cont..] == old(buf[cont..])
  {
    var found, next := CloseLine(buf, pos, len);
    if !found {
      return false, 0, pos;
    }
    cont := next;
    SetOutside(old(buf[..]), pos + |StripCR(old(buf[pos..pos + len])[..cont - pos - 1])|, pos, cont);
    StringFromIs(buf[..], pos, TakeLine(old(buf[pos..pos + len])).value.0);
    var num := ScanField(StringFrom(buf[..], pos), key);
    ok, value := num.Some?, if num.Some? then num.value else 0;
  }

  // ----- the first line -----

  /** Tokens read back through the marked buffer are the words of the line. */
  lemma TokenIsString(was: Bytes, now: Bytes, pos: nat, text: Bytes, max: nat, i: nat)
    requires StringAt(was, pos, text)
    requires Marked(was, now, Shift(Tokenize(text, max), pos))
    requires i < |Tokenize(text, max)|
    ensures var t := Tokenize(text, max)[i];
      StringAt(now, pos + t.start, Text(text, t)) && t.End() <= |text|
  {
    hide *;
    var toks := Tokenize(text, max);
    TokenFacts(text, max, i);
    MarkedToken(was, now, pos, text, toks, i);
  }

  lemma TokenFacts(text: Bytes, max: nat, i: nat)
    requires i < |Tokenize(text, max)|
    ensures var toks := Tokenize(text, max);
      toks[i].End() <= |text| && forall a, b :: 0 <= a < b < |toks| ==> toks[a].End() < toks[b].start
  {
    var toks := Tokenize(text, max);
    TokenizeMeaning(text, max, toks);
    TokensInside(text, 0, max, toks);
    assert IsRun(text, toks[i]);
  }

  lemma MarkedToken(was: Bytes, now: Bytes, pos: nat, text: Bytes, toks: seq<Token>, i: nat)
    requires StringAt(was, pos, text) && Marked(was, now, Shift(toks, pos))
    requires i < |toks| && toks[i].End() <= |text|
    requires forall a, b :: 0 <= a < b < |toks| ==> toks[a].End() < toks[b].start
    ensures StringAt(now, pos + toks[i].start, Text(text, toks[i]))
  {
    hide Marked, EndsOne;
    var t, s := toks[i], Shift(toks, pos);
    forall q | pos + t.start <= q < pos + t.End() ensures !EndsOne(s, q) {
      NotInside(text, toks, pos, i, q - pos);
    }
    UnmarkedSpan(was, now, s, pos + t.start, pos + t.End());
    SubString(was, pos, text, t.start, t.End());
    EndMarked(was, now, s, i);
  }

  lemma EndMarked(was: Bytes, now: Bytes, toks: seq<Token>, i: nat)
    requires Marked(was, now, toks) && i < |toks| && toks[i].End() < |was|
    ensures now[toks[i].End()] == NUL
  {
    assert EndsOne(toks, toks[i].End());
  }

  lemma UnmarkedSpan(was: Bytes, now: Bytes, toks: seq<Token>, lo: nat, hi: nat)
    requires Marked(was, now, toks) && lo <= hi <= |was|
    requires forall q :: lo <= q < hi ==> !EndsOne(toks, q)
    ensures |now| == |was| && now[lo..hi] == was[lo..hi]
  {}

  lemma SubString(mem: Bytes, pos: nat, text: Bytes, lo: nat, hi: nat)
    requires pos + |text| <= |mem| && mem[pos..pos + |text|] == text && lo <= hi <= |text|
    ensures mem[pos + lo..pos + hi] == text[lo..hi]
  {
    forall j | 0 <= j < hi - lo ensures mem[pos + lo..pos + hi][j] == text[lo..hi][j] {
      assert mem[pos..pos + |text|][lo + j] == mem[pos + lo + j];
    }
  }

  lemma NotInside(text: Bytes, toks: seq<Token>, pos: nat, i: nat, j: nat)
    requires i < |toks| && toks[i].start <= j < toks[i].End()
    requires forall a, b :: 0 <= a < b < |toks| ==> toks[a].End() < toks[b].start
    ensures !EndsOne(Shift(toks, pos), pos + j)
  {
    forall k | 0 <= k < |toks| ensures Shift(toks, pos)[k].End() != pos + j {
      if k < i {
        assert toks[k].End() < toks[i].start;
      } else if i < k {
        assert toks[i].End() < toks[k].start;
      }
    }
  }

  lemma MarkedOutside(was: Bytes, now: Bytes, pos: nat, text: Bytes, max: nat)
    requires StringAt(was, pos, text)
    requires Marked(was, now, Shift(Tokenize(text, max), pos))
    ensures now[..pos] == was[..pos]
    ensures forall k :: pos + |text| < k <= |was| ==> now[k..] == was[k..]
  {
    var toks := Tokenize(text, max);
    TokenizeMeaning(text, max, toks);
    TokensInside(text, 0, max, toks);
    assert forall i :: 0 <= i < |toks| ==> IsRun(text, toks[i]) && 0 < toks[i].End() <= |text|;
    hide Tokenize, AreTokens, IsRun;
    forall p: nat | p < pos || pos + |text| < p ensures !EndsOne(Shift(toks, pos), p) {}
  }

  lemma CutString(mem: Bytes, p: nat, text: Bytes, at: nat)
    requires StringAt(mem, p, text) && at < |text|
    ensures StringAt(mem[p + at := NUL], p, text[..at])
    ensures StringAt(mem[p + at := NUL], p + at + 1, text[at + 1..])
  {
    var mem' := mem[p + at := NUL];
    SubString(mem, p, text, 0, at);
    SubString(mem, p, text, at + 1, |text|);
    assert mem'[p..p + at] == mem[p..p + at];
    assert mem'[p + at + 1..p + |text|] == mem[p + at + 1..p + |text|];
  }

  lemma StringElsewhere(mem: Bytes, p: nat, text: Bytes, q: nat, c: Byte)
    requires StringAt(mem, p, text) && q < |mem| && (q < p || p + |text| < q)
    ensures StringAt(mem[q := c], p, text)
  {
    assert mem[q := c][p..p + |text|] == mem[p..p + |text|];
  }

  /** A string that ends before `limit`. */
  ghost predicate StringBelow(mem: Bytes, p: nat, text: Bytes, limit: nat) {
    StringAt(mem, p, text) && p + |text| < limit
  }

  /** Pointer `toks[i]` finds word `i` of the line, and nothing of it lies beyond `limit`. */
  ghost predicate WordsAt(mem: Bytes, toks: seq<Token>, text: Bytes, limit: nat) {
    var t := Tokenize(text, 3);
    && |toks| == |t|
    && (forall i :: 0 <= i < |t| ==>
          StringBelow(mem, toks[i].start, Text(text, t[i]), limit)
          && StringFrom(mem, toks[i].start) == Text(text, t[i]))
    && forall i, j :: 0 <= i < j < |t| ==> toks[i].start + |Text(text, t[i])| < toks[j].start
  }

  /** Closing the line and marking its words mars the window. */
  lemma MarredIs(mem: Bytes, pos: nat, len: nat, now: Bytes)
    requires pos + len <= |mem| && TakeLine(mem[pos..pos + len]).Some?
    requires var w := mem[pos..pos + len]; var (text, n) := TakeLine(w).value;
      Marked(mem[pos + |StripCR(w[..n - 1])| := NUL], now, Shift(Tokenize(text, 3), pos))
    ensures |now| == |mem| && now[pos..pos + len] == Marred(mem[pos..pos + len])
  {
    hide TakeLine, Tokenize, EndsOne;
    var w := mem[pos..pos + len];
    var toks := Tokenize(TakeLine(w).value.0, 3);
    forall i | 0 <= i < len ensures now[pos..pos + len][i] == Marred(w)[i] {
      EndsShifted(toks, pos, i);
    }
  }

  lemma EndsShifted(toks: seq<Token>, base: nat, p: nat)
    ensures EndsOne(Shift(toks, base), base + p) <==> EndsOne(toks, p)
  {
    if EndsOne(toks, p) {
      var i :| 0 <= i < |toks| && toks[i].End() == p;
      assert Shift(toks, base)[i].End() == base + p;
    }
  }

  /** Closing the first line and splitting it into words in place. */
  method SplitLine(buf: array<Byte>, pos: nat, len: nat) returns (found: bool, toks: seq<Token>, cont: nat)
    requires pos + len <= buf.Length
    modifies buf
    ensures var line := TakeLine(old(buf[pos..pos + len]));
      && found == line.Some?
      && (!found ==> cont == pos && buf[..] == old(buf[..]))
      && (found ==>
            && cont == pos + line.value.1
            && WordsAt(buf[..], toks, line.value.0, cont)
            && (forall i :: 0 <= i < |toks| ==> pos <= toks[i].start)
            && buf[..pos] == old(buf[..pos]) && buf[cont..] == old(buf[cont..]))
    ensures buf[pos..pos + len] == Marred(old(buf[pos..pos + len]))
  {
    hide TakeLine, Tokenize, AreTokens, IsRun, Marked, StripCR, Marred, WordsAt, EndsOne;
    ghost var mem, w := buf[..], buf[pos..pos + len];
    assert w == mem[pos..pos + len];
    toks, cont := [], pos;
    var next;
    found, next := CloseLine(buf, pos, len);
    if found {
      cont := next;
      ghost var text, end := TakeLine(w).value.0, pos + |StripCR(w[..cont - pos - 1])|;
      ghost var closed := buf[..];
      assert closed == mem[end := NUL];
      SetOutside(mem, end, pos, cont);
      assert buf[pos..pos + |text|] == text;
      toks := TokenizeCommand(buf, pos, pos + |text|, 3);
      MarkedOutside(closed, buf[..], pos, text, 3);
      WordsMarked(closed, buf[..], pos, text, cont);
      MarredIs(mem, pos, len, buf[..]);
    } else {
      NotMarred(w);
    }
  }

  lemma NotMarred(w: Bytes)
    requires TakeLine(w).None?
    ensures Marred(w) == w
  {}

  lemma WordsMarked(was: Bytes, now: Bytes, pos: nat, text: Bytes, limit: nat)
    requires StringAt(was, pos, text) && pos + |text| < limit
    requires Marked(was, now, Shift(Tokenize(text, 3), pos))
    ensures WordsAt(now, Shift(Tokenize(text, 3), pos), text, limit)
  {
    hide Tokenize, Marked, StringAt, Text, StringFrom;
    var t := Tokenize(text, 3);
    forall i | 0 <= i < |t|
      ensures t[i].End() <= |text| && |Text(text, t[i])| == t[i].length
      ensures StringAt(now, pos + t[i].start, Text(text, t[i]))
      ensures StringFrom(now, pos + t[i].start) == Text(text, t[i])
    {
      TokenString(was, now, pos, text, i);
    }
    forall i, j | 0 <= i < j < |t| ensures t[i].End() < t[j].start {
      TokensApart(text, i, j);
    }
  }

  datatype Verdict = Accepted | Refused | Reckless

  /** The words of a request line: the tests on them, and the method name cut off at the '@'. */
  method ReadWords(buf: array<Byte>, toks: seq<Token>, ghost text: Bytes, ghost pos: nat, ghost cont: nat)
    returns (verdict: Verdict, m: nat, s: nat, v: nat)
    requires WordsAt(buf[..], toks, text, cont) && cont <= buf.Length
    requires forall i :: 0 <= i < |toks| ==> pos <= toks[i].start
    modifies buf
    ensures match ReadRequestLine(text)
      case Wild => verdict == Reckless
      case Bad => verdict == Refused
      case Good(first) =>
        && verdict == Accepted
        && StringBelow(buf[..], m, first.methodName, cont)
        && StringBelow(buf[..], s, first.service, cont)
        && StringBelow(buf[..], v, first.version, cont)
    ensures forall p :: 0 <= p < buf.Length && !(pos <= p < cont) ==> buf[p] == old(buf[p])
    ensures verdict == Refused ==> buf[..] == old(buf[..])
  {
    hide Tokenize, Text, StringFrom, IndexOf, StringAt, StringBelow;
    m, s, v := 0, 0, 0;
    if |toks| == 0 {
      return Reckless, 0, 0, 0;
    }
    if |toks| != 3 && StringFrom(buf[..], toks[0].start) != CALL {
      return Refused, 0, 0, 0;
    }
    if |toks| == 1 {
      return Reckless, 0, 0, 0;
    }
    var target := StringFrom(buf[..], toks[1].start);
    var at := IndexOf(target, '@');
    if at == |target| {
      return Refused, 0, 0, 0;
    }
    if |toks| == 2 {
      return Reckless, 0, 0, 0;
    }
    m, s, v := toks[1].start, toks[1].start + at + 1, toks[2].start;
    ghost var marked := buf[..];
    TargetCut(marked, toks, text, cont, at);
    buf[m + at] := NUL;
    assert buf[..] == marked[m + at := NUL];
    verdict := Accepted;
  }

  /** The first stage of rpc_request_parse: `m`, `s` and `v` point to the method name, the service name
      and the version, inside the line. */
  method ParseRequestLine(buf: array<Byte>, pos: nat, len: nat)
    returns (verdict: Verdict, m: nat, s: nat, v: nat, cont: nat)
    requires pos + len <= buf.Length
    modifies buf
    ensures var line := TakeLine(old(buf[pos..pos + len]));
      && (line.None? ==> verdict == Refused && cont == pos)
      && (line.Some? ==>
            && cont == pos + line.value.1
            && match ReadRequestLine(line.value.0)
               case Wild => verdict == Reckless
               case Bad => verdict == Refused
               case Good(first) =>
                 && verdict == Accepted
                 && StringBelow(buf[..], m, first.methodName, cont)
                 && StringBelow(buf[..], s, first.service, cont)
                 && StringBelow(buf[..], v, first.version, cont))
    ensures buf[..pos] == old(buf[..pos]) && buf[cont..] == old(buf[cont..])
    ensures verdict == Refused ==> buf[pos..pos + len] == Marred(old(buf[pos..pos + len]))
  {
    hide *;
    m, s, v := 0, 0, 0;
    var found, toks;
    found, toks, cont := SplitLine(buf, pos, len);
    verdict := Refused;
    if found {
      ghost var split := buf[..];
      verdict, m, s, v := ReadWords(buf, toks, TakeLine(old(buf[pos..pos + len])).value.0, pos, cont);
      assert buf[..pos] == split[..pos] && buf[cont..] == split[cont..];
      assert verdict == Refused ==> buf[pos..pos + len] == split[pos..pos + len];
    }
  }

  lemma TargetCut(mem: Bytes, toks: seq<Token>, text: Bytes, limit: nat, at: nat)
    requires WordsAt(mem, toks, text, limit) && |toks| == 3
    requires var target := Text(text, Tokenize(text, 3)[1]); at == IndexOf(target, '@') < |target|
    ensures var m := toks[1].start;
      && m + at < |mem| && m + at < limit
      && var mem' := mem[m + at := NUL];
      && ReadRequestLine(text).Good?
      && var first := ReadRequestLine(text).first;
      && StringBelow(mem', m, first.methodName, limit)
      && StringBelow(mem', m + at + 1, first.service, limit)
      && StringBelow(mem', toks[2].start, first.version, limit)
  {
    hide Tokenize, Text, StringAt, StringFrom;
    var m := toks[1].start;
    var target := Text(text, Tokenize(text, 3)[1]);
    StringInside(mem, m, target);
    CutString(mem, m, target, at);
    StringElsewhere(mem, toks[2].start, Text(text, Tokenize(text, 3)[2]), m + at, NUL);
  }

  lemma StringInside(mem: Bytes, p: nat, text: Bytes)
    requires StringAt(mem, p, text)
    ensures p + |text| < |mem|
  {}

  /** The first stage of rpc_response_parse: the code, and a pointer to the phrase. */
  method ParseStatusLine(buf: array<Byte>, pos: nat, len: nat)
    returns (verdict: Verdict, code: int, phrase: nat, cont: nat)
    requires pos + len <= buf.Length
    modifies buf
    ensures var line := TakeLine(old(buf[pos..pos + len]));
      && (line.None? ==> verdict == Refused && cont == pos)
      && (line.Some? ==>
            && cont == pos + line.value.1
            && match ReadStatusLine(line.value.0)
               case Wild => verdict == Reckless
               case Bad => verdict == Refused
               case Good(first) =>
                 verdict == Accepted && code == first.code && StringBelow(buf[..], phrase, first.phrase, cont))
    ensures buf[..pos] == old(buf[..pos]) && buf[cont..] == old(buf[cont..])
    ensures verdict == Refused ==> buf[pos..pos + len] == Marred(old(buf[pos..pos + len]))
  {
    code, phrase := 0, 0;
    var found, toks;
    found, toks, cont := SplitLine(buf, pos, len);
    hide TakeLine, Tokenize, Text, StringFrom, StringAt, StringBelow, Marred;
    if !found {
      verdict := Refused;
    } else if |toks| == 0 {
      verdict := Reckless;
    } else if |toks| != 3 && StringFrom(buf[..], toks[0].start) != VERSION {
      verdict := Refused;
    } else if |toks| < 3 {
      verdict := Reckless;
    } else {
      verdict, code, phrase := Accepted, Strtol(StringFrom(buf[..], toks[1].start)), toks[2].start;
    }
  }

  lemma TokenString(was: Bytes, now: Bytes, pos: nat, text: Bytes, i: nat)
    requires StringAt(was, pos, text)
    requires Marked(was, now, Shift(Tokenize(text, 3), pos))
    requires i < |Tokenize(text, 3)|
    ensures var t := Tokenize(text, 3)[i];
      && t.End() <= |text| && |Text(text, t)| == t.length
      && StringAt(now, pos + t.start, Text(text, t))
      && StringFrom(now, pos + t.start) == Text(text, t)
  {
    hide Tokenize, Marked, StringAt, StringFrom;
    TokenIsString(was, now, pos, text, 3, i);
    StringFromIs(now, pos + Tokenize(text, 3)[i].start, Text(text, Tokenize(text, 3)[i]));
  }

  lemma TokensApart(text: Bytes, i: nat, j: nat)
    requires i < j < |Tokenize(text, 3)|
    ensures Tokenize(text, 3)[i].End() < Tokenize(text, 3)[j].start
  {
    TokenizeMeaning(text, 3, Tokenize(text, 3));
    TokensInside(text, 0, 3, Tokenize(text, 3));
  }
}
