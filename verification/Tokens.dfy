/** Splitting a command line at spaces (src/rpc_common.c). */
module Tokens {
  import opened Wire

  datatype Token = Token(start: nat, length: nat) {
    function End(): nat { start + length }
  }

  // ----- what the tokens of a string are -----

  predicate IsRun(s: Bytes, t: Token) {
    && 0 < t.length && t.End() <= |s|
    && (forall j :: t.start <= j < t.End() ==> s[j] != SP)
    && (t.start == 0 || s[t.start - 1] == SP)
    && (t.End() == |s| || s[t.End()] == SP)
  }

  predicate Blank(s: Bytes, lo: nat, hi: nat) {
    lo <= hi <= |s| && forall j :: lo <= j < hi ==> s[j] == SP
  }

  /** `toks` are the first maximal runs of non-spaces of `s` from position `from` on: nothing but spaces
      lies between them, and nothing but spaces follows them unless there are already `max` of them. */
  predicate AreTokens(s: Bytes, from: nat, max: nat, toks: seq<Token>)
    decreases |toks|
  {
    if toks == [] then
      max == 0 || Blank(s, from, |s|)
    else
      && 0 < max
      && IsRun(s, toks[0])
      && Blank(s, from, toks[0].start)
      && AreTokens(s, toks[0].End(), max - 1, toks[1..])
  }

  /** There is only one such list. */
  lemma {:induction false} TokensAreUnique(s: Bytes, from: nat, max: nat, toks: seq<Token>, toks': seq<Token>)
    requires AreTokens(s, from, max, toks) && AreTokens(s, from, max, toks')
    ensures toks == toks'
    decreases |toks|
  {
    if toks == [] {
      NoRunInBlank(s, from, max, toks');
    } else if toks' == [] {
      NoRunInBlank(s, from, max, toks);
    } else {
      SameRun(s, from, toks[0], toks'[0]);
      TokensAreUnique(s, toks[0].End(), max - 1, toks[1..], toks'[1..]);
      assert toks == [toks[0]] + toks[1..] && toks' == [toks'[0]] + toks'[1..];
    }
  }

  lemma NoRunInBlank(s: Bytes, from: nat, max: nat, toks: seq<Token>)
    requires AreTokens(s, from, max, toks)
    requires max == 0 || Blank(s, from, |s|)
    ensures toks == []
  {
    if toks != [] {
      RunStart(s, toks[0]);
      assert false;
    }
  }

  lemma RunStart(s: Bytes, t: Token)
    requires IsRun(s, t)
    ensures s[t.start] != SP
  {}

  lemma SameRun(s: Bytes, from: nat, t: Token, t': Token)
    requires IsRun(s, t) && IsRun(s, t') && Blank(s, from, t.start) && Blank(s, from, t'.start)
    ensures t == t'
  {
    assert s[t.start] != SP && s[t'.start] != SP;
    assert t.start == t'.start;
  }

  // ----- computing them -----

  function RunEnd(s: Bytes, i: nat): (k: nat)
    requires i <= |s|
    ensures i <= k <= |s|
    ensures forall j :: i <= j < k ==> s[j] != SP
    ensures k < |s| ==> s[k] == SP
    decreases |s| - i
  {
    if i == |s| || s[i] == SP then i else RunEnd(s, i + 1)
  }

  function TokensFrom(s: Bytes, i: nat, max: nat): (toks: seq<Token>)
    requires i <= |s|
    ensures |toks| <= max
    decreases |s| - i
  {
    if max == 0 || i == |s| then []
    else if s[i] == SP then TokensFrom(s, i + 1, max)
    else
      var k := RunEnd(s, i);
      [Token(i, k - i)] + TokensFrom(s, k, max - 1)
  }

  function Tokenize(s: Bytes, max: nat): (toks: seq<Token>)
    ensures |toks| <= max
  {
    TokensFrom(s, 0, max)
  }

  lemma {:induction false} TokensFromAreTokens(s: Bytes, i: nat, max: nat)
    requires i <= |s|
    requires i == 0 || i == |s| || s[i] == SP || s[i - 1] == SP
    ensures AreTokens(s, i, max, TokensFrom(s, i, max))
    decreases |s| - i
  {
    if max == 0 || i == |s| {
    } else if s[i] == SP {
      TokensFromAreTokens(s, i + 1, max);
      SpaceBefore(s, i, max, TokensFrom(s, i + 1, max));
    } else {
      var k := RunEnd(s, i);
      TokensFromAreTokens(s, k, max - 1);
      RunBefore(s, i, k, max, TokensFrom(s, k, max - 1));
    }
  }

  lemma SpaceBefore(s: Bytes, i: nat, max: nat, toks: seq<Token>)
    requires i < |s| && s[i] == SP && AreTokens(s, i + 1, max, toks)
    ensures AreTokens(s, i, max, toks)
  {}

  lemma RunBefore(s: Bytes, i: nat, k: nat, max: nat, toks: seq<Token>)
    requires i < k <= |s| && 0 < max && IsRun(s, Token(i, k - i)) && AreTokens(s, k, max - 1, toks)
    ensures AreTokens(s, i, max, [Token(i, k - i)] + toks)
  {
    assert ([Token(i, k - i)] + toks)[1..] == toks;
  }

  /** Tokenize is characterised by AreTokens, in both directions. */
  lemma TokenizeMeaning(s: Bytes, max: nat, toks: seq<Token>)
    ensures AreTokens(s, 0, max, toks) <==> toks == Tokenize(s, max)
  {
    TokensFromAreTokens(s, 0, max);
    if AreTokens(s, 0, max, toks) {
      TokensAreUnique(s, 0, max, toks, Tokenize(s, max));
    }
  }

  function Text(s: Bytes, t: Token): Bytes {
    if t.End() <= |s| then s[t.start..t.End()] else []
  }

  lemma {:induction false} TokensInside(s: Bytes, from: nat, max: nat, toks: seq<Token>)
    requires AreTokens(s, from, max, toks)
    ensures forall i :: 0 <= i < |toks| ==> from <= toks[i].start && IsRun(s, toks[i])
    ensures forall i, j :: 0 <= i < j < |toks| ==> toks[i].End() < toks[j].start
    decreases |toks|
  {
    if toks != [] {
      TokensInside(s, toks[0].End(), max - 1, toks[1..]);
      forall j | 1 <= j < |toks| ensures toks[0].End() < toks[j].start && IsRun(s, toks[j]) {
        assert toks[j] == toks[1..][j - 1];
        assert s[toks[j].start] != SP;
      }
    }
  }

  /** Three words separated by single spaces are three tokens. */
  lemma ThreeWords(a: Bytes, b: Bytes, c: Bytes)
    requires a != [] && b != [] && c != []
    requires SP !in a && SP !in b && SP !in c
    ensures var s := a + [SP] + b + [SP] + c; var t := Tokenize(s, 3);
      |t| == 3 && Text(s, t[0]) == a && Text(s, t[1]) == b && Text(s, t[2]) == c
  {
    var s := a + [SP] + b + [SP] + c;
    var n := |a| + 1 + |b| + 1;
    var t0, t1, t2 := Token(0, |a|), Token(|a| + 1, |b|), Token(n, |c|);
    assert Text(s, t0) == a && Text(s, t1) == b && Text(s, t2) == c;
    assert forall j :: t0.start <= j < t0.End() ==> s[j] == a[j];
    assert forall j :: t1.start <= j < t1.End() ==> s[j] == b[j - t1.start];
    assert forall j :: t2.start <= j < t2.End() ==> s[j] == c[j - t2.start];
    assert IsRun(s, t0) && IsRun(s, t1) && IsRun(s, t2);
    assert AreTokens(s, t2.End(), 0, []);
    assert AreTokens(s, t1.End(), 1, [t2]);
    assert AreTokens(s, t0.End(), 2, [t1, t2]) by { assert [t1, t2][1..] == [t2]; }
    assert AreTokens(s, 0, 3, [t0, t1, t2]) by { assert [t0, t1, t2][1..] == [t1, t2]; }
    TokenizeMeaning(s, 3, [t0, t1, t2]);
  }

  lemma OneWord(a: Bytes)
    requires a != [] && SP !in a
    ensures var t := Token(0, |a|); AreTokens(a, 0, 3, [t]) && Text(a, t) == a
  {
    var t := Token(0, |a|);
    assert IsRun(a, t) && AreTokens(a, t.End(), 2, []);
    assert [t][1..] == [];
  }

  // ----- the scanning loop -----

  predicate EndsOne(toks: seq<Token>, p: nat) {
    exists i :: 0 <= i < |toks| && toks[i].End() == p
  }

  function Shift(toks: seq<Token>, base: nat): (r: seq<Token>)
    ensures |r| == |toks|
    ensures forall i :: 0 <= i < |r| ==> r[i] == Token(base + toks[i].start, toks[i].length)
  {
    seq(|toks|, i requires 0 <= i < |toks| => Token(base + toks[i].start, toks[i].length))
  }

  lemma ShiftSnoc(toks: seq<Token>, t: Token, base: nat)
    ensures Shift(toks + [t], base) == Shift(toks, base) + [Token(base + t.start, t.length)]
  {}

  /** What the scanning loop has established when `rel` is found and the current run started at `b`. */
  ghost predicate Scanned(s: Bytes, max: nat, rel: seq<Token>, b: nat, e: nat) {
    && b <= e <= |s| && |rel| <= max
    && (b == 0 || b == |s| || s[b - 1] == SP)
    && (forall j :: b <= j < e ==> s[j] != SP)
    && Tokenize(s, max) == rel + TokensFrom(s, b, max - |rel|)
  }

  lemma ScanStart(s: Bytes, max: nat)
    ensures Scanned(s, max, [], 0, 0)
  {
    assert [] + Tokenize(s, max) == Tokenize(s, max);
  }

  lemma RunFound(s: Bytes, max: nat, rel: seq<Token>, b: nat, e: nat)
    requires Scanned(s, max, rel, b, e) && b < e && |rel| < max
    requires e == |s| || s[e] == SP
    ensures var next := if e == |s| then e else e + 1;
      Scanned(s, max, rel + [Token(b, e - b)], next, next)
  {
    assert RunEnd(s, b) == e;
    var next := if e == |s| then e else e + 1;
    assert TokensFrom(s, b, max - |rel|) == [Token(b, e - b)] + TokensFrom(s, next, max - |rel| - 1);
  }

  lemma SpaceSkipped(s: Bytes, max: nat, rel: seq<Token>, e: nat)
    requires Scanned(s, max, rel, e, e) && |rel| < max && e < |s| && s[e] == SP
    ensures Scanned(s, max, rel, e + 1, e + 1)
  {}

  lemma RunGoesOn(s: Bytes, max: nat, rel: seq<Token>, b: nat, e: nat)
    requires Scanned(s, max, rel, b, e) && e < |s| && s[e] != SP
    ensures Scanned(s, max, rel, b, e + 1)
  {}

  lemma ScanDone(s: Bytes, max: nat, rel: seq<Token>, b: nat, e: nat)
    requires Scanned(s, max, rel, b, e) && (|rel| == max || b == |s|)
    ensures Tokenize(s, max) == rel
  {
    assert rel + [] == rel;
  }

  /** `now` is `was` with NUL written over the end of every token. */
  ghost predicate Marked(was: Bytes, now: Bytes, toks: seq<Token>) {
    |now| == |was| &&
    forall p :: 0 <= p < |was| ==> now[p] == if EndsOne(toks, p) then NUL else was[p]
  }

  lemma MarkedSnoc(was: Bytes, now: Bytes, toks: seq<Token>, t: Token)
    requires Marked(was, now, toks) && t.End() < |was|
    ensures Marked(was, now[t.End() := NUL], toks + [t])
  {
    EndsOneSnoc(toks, t);
  }

  lemma EndsOneSnoc(toks: seq<Token>, t: Token)
    ensures forall p :: EndsOne(toks + [t], p) <==> EndsOne(toks, p) || p == t.End()
  {
    assert (toks + [t])[|toks|] == t;
    forall p | EndsOne(toks, p) ensures EndsOne(toks + [t], p) {
      var i :| 0 <= i < |toks| && toks[i].End() == p;
      assert (toks + [t])[i] == toks[i];
    }
  }

  /** tokenize_command on the C string that starts at `command` and whose NUL stands at `nul`:
      the first `max` tokens in order, and the space that ends a returned token, but no other byte,
      is overwritten with NUL. */
  method TokenizeCommand(a: array<Byte>, command: nat, ghost nul: nat, max: nat) returns (toks: seq<Token>)
    requires command <= nul < a.Length && a[nul] == NUL
    requires NUL !in a[command..nul]
    modifies a
    ensures toks == Shift(Tokenize(old(a[command..nul]), max), command)
    ensures Marked(old(a[..]), a[..], toks)
  {
    hide TokensFrom, Tokenize, RunEnd, Scanned;
    ghost var s, rel: seq<Token> := a[command..nul], [];
    ScanStart(s, max);
    ghost var was := a[..];
    var b, e := command, command;
    toks := [];
    while |toks| < max
      invariant command <= b <= e <= nul
      invariant toks == Shift(rel, command) && |rel| == |toks| <= max
      invariant Scanned(s, max, rel, b - command, e - command)
      invariant Marked(was, a[..], toks)
      invariant forall p :: e <= p < a.Length ==> a[p] == was[p]
      decreases nul - e
    {
      assert e < nul ==> a[e] == s[e - command];
      if a[e] == SP {
        if b != e {
          RunFound(s, max, rel, b - command, e - command);
          MarkedSnoc(was, a[..], toks, Token(b, e - b));
          ShiftSnoc(rel, Token(b - command, e - b), command);
          toks := toks + [Token(b, e - b)];
          rel := rel + [Token(b - command, e - b)];
          a[e] := NUL;
        } else {
          SpaceSkipped(s, max, rel, e - command);
        }
        b := e + 1;
      } else if a[e] == NUL {
        if b != e {
          RunFound(s, max, rel, b - command, e - command);
          MarkedSnoc(was, a[..], toks, Token(b, e - b));
          assert a[..][e := NUL] == a[..];
          ShiftSnoc(rel, Token(b - command, e - b), command);
          toks := toks + [Token(b, e - b)];
          rel := rel + [Token(b - command, e - b)];
        }
        ScanDone(s, max, rel, |s|, |s|);
        return;
      } else {
        RunGoesOn(s, max, rel, b - command, e - command);
      }
      e := e + 1;
    }
    ScanDone(s, max, rel, b - command, e - command);
  }
}
