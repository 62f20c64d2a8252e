/** Bytes, C strings and decimal text: the vocabulary of the text protocol.

    A C `char` is modelled by Dafny's `char`; nothing below depends on values above 255 being absent,
    so every statement holds in particular for all sequences of bytes. */
module Wire {

  datatype Option<+T> = None | Some(value: T)

  type Byte = char
  type Bytes = seq<Byte>

  const NUL: Byte := '\0'
  const LF: Byte := '\n'
  const CR: Byte := '\r'
  const SP: Byte := ' '

  const INT_MIN: int := -0x8000_0000
  const INT_MAX: int := 0x7fff_ffff
  const LONG_MIN: int := -0x8000_0000_0000_0000
  const LONG_MAX: int := 0x7fff_ffff_ffff_ffff
  const UINT_RANGE: int := 0x1_0000_0000

  // ----- searching -----

  /** The position of the first `c` in `s`, or `|s|` when there is none (memchr, strchr, strlen). */
  function IndexOf(s: Bytes, c: Byte): (i: nat)
    ensures i <= |s|
    ensures i < |s| ==> s[i] == c
    ensures forall j :: 0 <= j < i ==> s[j] != c
  {
    if s == [] || s[0] == c then 0 else 1 + IndexOf(s[1..], c)
  }

  lemma IndexOfIs(s: Bytes, c: Byte, i: nat)
    requires i <= |s|
    requires i < |s| ==> s[i] == c
    requires forall j :: 0 <= j < i ==> s[j] != c
    ensures IndexOf(s, c) == i
  {}

  /** The C string stored at the front of `s`: everything before the first NUL. */
  function Cut(s: Bytes): (t: Bytes)
    ensures t <= s && NUL !in t && (t == s || s[|t|] == NUL)
  {
    s[..IndexOf(s, NUL)]
  }

  lemma CutNothing(s: Bytes)
    requires NUL !in s
    ensures Cut(s) == s
  {
    IndexOfIs(s, NUL, |s|);
  }

  /** The line break is LF, or CR LF when something stands before the CR. */
  function StripCR(line: Bytes): Bytes {
    if |line| > 1 && line[|line| - 1] == CR then line[..|line| - 1] else line
  }

  // ----- integers as text -----

  predicate IsDigit(c: Byte) { '0' <= c <= '9' }

  /** isspace in the C locale. */
  predicate IsSpace(c: Byte) {
    c == ' ' || ('\t' <= c <= '\r')
  }

  function DigitOf(d: nat): (c: Byte)
    requires d < 10
    ensures IsDigit(c) && c as int == '0' as int + d
  {
    ('0' as int + d) as char
  }

  /** What printf prints for %d of a number that is not negative. */
  function Digits(n: nat): (s: Bytes)
    ensures |s| > 0
    ensures forall i :: 0 <= i < |s| ==> IsDigit(s[i])
  {
    if n < 10 then [DigitOf(n)] else Digits(n / 10) + [DigitOf(n % 10)]
  }

  function Dec(n: int): (s: Bytes)
    ensures |s| > 0
    ensures forall i :: 0 <= i < |s| ==> IsDigit(s[i]) || s[i] == '-'
  {
    if n < 0 then "-" + Digits(-n) else Digits(n)
  }

  function ValueOf(s: Bytes): nat
    requires forall i :: 0 <= i < |s| ==> IsDigit(s[i])
  {
    if s == [] then 0
    else
      assert IsDigit(s[|s| - 1]);
      10 * ValueOf(s[..|s| - 1]) + (s[|s| - 1] as int - '0' as int)
  }

  function DigitRun(s: Bytes): (k: nat)
    ensures k <= |s|
    ensures forall i :: 0 <= i < k ==> IsDigit(s[i])
    ensures k < |s| ==> !IsDigit(s[k])
  {
    if s == [] || !IsDigit(s[0]) then 0 else 1 + DigitRun(s[1..])
  }

  function SkipSpace(s: Bytes): Bytes {
    if s != [] && IsSpace(s[0]) then SkipSpace(s[1..]) else s
  }

  /** The conversion to `int` of a decimal text of any size: strtol saturates at `long`, the store keeps 32 bits. */
  function ToInt(v: int): (r: int)
    ensures INT_MIN <= r <= INT_MAX
    ensures INT_MIN <= v <= INT_MAX ==> r == v
  {
    var l := if v < LONG_MIN then LONG_MIN else if v > LONG_MAX then LONG_MAX else v;
    var u := l % UINT_RANGE;
    if u > INT_MAX then u - UINT_RANGE else u
  }

  /** scanf's %d: white space, an optional sign, at least one digit. */
  function ScanInt(s: Bytes): Option<int> {
    var t := SkipSpace(s);
    var signed := t != [] && (t[0] == '-' || t[0] == '+');
    var u := if signed then t[1..] else t;
    var k := DigitRun(u);
    if k == 0 then None
    else
      var v: int := ValueOf(u[..k]);
      Some(ToInt(if signed && t[0] == '-' then -v else v))
  }

  /** sscanf(line, key "%d", ...). */
  function ScanField(line: Bytes, key: Bytes): Option<int> {
    if key <= line then ScanInt(line[|key|..]) else None
  }

  /** (int) strtol(s, NULL, 10). */
  function Strtol(s: Bytes): int {
    match ScanInt(s) case Some(v) => v case None => 0
  }

  // ----- printing and scanning are inverse on `int` -----

  lemma {:induction false} ValueOfDigits(n: nat)
    ensures ValueOf(Digits(n)) == n
  {
    if n < 10 {
      assert Digits(n) == [DigitOf(n)];
      assert ValueOf([]) == 0;
    } else {
      ValueOfDigits(n / 10);
      assert Digits(n)[..|Digits(n)| - 1] == Digits(n / 10);
    }
  }

  lemma DigitRunIs(s: Bytes, k: nat)
    requires k <= |s|
    requires forall i :: 0 <= i < k ==> IsDigit(s[i])
    requires k < |s| ==> !IsDigit(s[k])
    ensures DigitRun(s) == k
  {}

  /** Whatever follows the number, as long as it is not a digit, scanning a printed `int` gives it back. */
  lemma ScanDec(n: int, rest: Bytes)
    requires INT_MIN <= n <= INT_MAX
    requires rest == [] || !IsDigit(rest[0])
    ensures ScanInt(Dec(n) + rest) == Some(n)
  {
    hide ScanInt, Dec;
    var m: nat := if n < 0 then 0 - n else n;
    var sign := if n < 0 then "-" else "";
    SignedText(n);
    ScanIntMeaning([], sign, [], m, rest);
    assert [] + (sign + ([] + Dec(m) + rest)) == sign + Dec(m) + rest;
  }

  lemma SignedText(n: int)
    ensures Dec(n) == (if n < 0 then "-" else "") + Dec(if n < 0 then 0 - n else n)
  {}

  lemma ScanFieldDec(key: Bytes, n: int)
    requires INT_MIN <= n <= INT_MAX
    ensures ScanField(key + Dec(n), key) == Some(n)
  {
    assert (key + Dec(n))[|key|..] == Dec(n) + [];
    ScanDec(n, []);
  }

  // ----- what the texts are -----

  /** Decimal digits, the highest first, none too many. */
  lemma DecimalText(n: nat, d: nat)
    requires d < 10
    ensures Dec(d) == ["0123456789"[d]]
    ensures n > 0 ==> Dec(10 * n + d) == Dec(n) + ["0123456789"[d]] && Dec(0 - n) == "-" + Dec(n)
  {
    assert "0123456789"[d] == DigitOf(d);
    if n > 0 {
      assert (10 * n + d) / 10 == n && (10 * n + d) % 10 == d;
    }
  }

  /** A number that fits stays, a `long` keeps its lower 32 bits, and a larger one becomes the largest or the smallest `long` first. */
  lemma ToIntMeaning(v: int)
    ensures -2147483648 <= ToInt(v) <= 2147483647
    ensures -9223372036854775808 <= v <= 9223372036854775807 ==> (v - ToInt(v)) % 4294967296 == 0
    ensures v > 9223372036854775807 ==> ToInt(v) == -1
    ensures v < -9223372036854775808 ==> ToInt(v) == 0
  {}

  /** The CR of a line break belongs to the break when something stands before it. */
  lemma StripCRMeaning(line: Bytes)
    ensures line != [] ==> StripCR(line + ['\r']) == line
    ensures StripCR(['\r']) == ['\r']
    ensures (forall l :: line != l + ['\r']) ==> StripCR(line) == line
  {
    assert (line + ['\r'])[..|line|] == line;
    if line != [] && line[|line| - 1] == '\r' {
      assert line == line[..|line| - 1] + ['\r'];
    }
  }

  const SPACES: Bytes := " \t\n\U{0b}\U{0c}\r"

  lemma {:induction false} SkipSpaces(ws: Bytes, t: Bytes)
    requires forall c :: c in ws ==> c in SPACES
    ensures SkipSpace(ws + t) == SkipSpace(t)
    decreases |ws|
  {
    if ws == [] {
      assert ws + t == t;
    } else {
      assert ws[0] in ws;
      assert (ws + t)[1..] == ws[1..] + t;
      SkipSpaces(ws[1..], t);
    }
  }

  lemma {:induction false} ValueOfZeros(zeros: Bytes, s: Bytes)
    requires forall c :: c in zeros ==> c == '0'
    requires forall i :: 0 <= i < |s| ==> IsDigit(s[i])
    ensures (forall i :: 0 <= i < |zeros + s| ==> IsDigit((zeros + s)[i])) && ValueOf(zeros + s) == ValueOf(s)
    decreases |s| + |zeros|
  {
    assert forall i :: 0 <= i < |zeros| ==> zeros[i] in zeros;
    if s == [] {
      assert zeros + s == zeros;
      if zeros != [] {
        ValueOfZeros(zeros[..|zeros| - 1], []);
        assert zeros[..|zeros| - 1] + [] == zeros[..|zeros| - 1];
      }
    } else {
      ValueOfZeros(zeros, s[..|s| - 1]);
      assert (zeros + s)[..|zeros + s| - 1] == zeros + s[..|s| - 1];
    }
  }

  /** What %d takes: white space, a sign, zeros and a number, whatever follows that is not a digit. */
  lemma ScanIntMeaning(ws: Bytes, sign: Bytes, zeros: Bytes, n: nat, rest: Bytes)
    requires (forall c :: c in ws ==> c in SPACES) && sign in {"", "+", "-"} && (forall c :: c in zeros ==> c == '0')
    requires rest == [] || !('0' <= rest[0] <= '9')
    ensures ScanInt(ws + (sign + (zeros + Dec(n) + rest))) == Some(ToInt(if sign == "-" then 0 - n else n))
  {
    hide SkipSpace, ToInt, Dec, ValueOf, DigitRun;
    var u := zeros + Dec(n) + rest;
    NumberRead(zeros, n, rest);
    SkipSpaces(ws, sign + u);
    StandsStill(sign + u);
    assert sign != [] ==> (sign + u)[1..] == u;
    assert sign == [] ==> sign + u == u;
  }

  lemma StandsStill(t: Bytes)
    ensures t != [] && !IsSpace(t[0]) ==> SkipSpace(t) == t
  {}

  lemma NumberRead(zeros: Bytes, n: nat, rest: Bytes)
    requires forall c :: c in zeros ==> c == '0'
    requires rest == [] || !('0' <= rest[0] <= '9')
    ensures var u := zeros + Dec(n) + rest; var k := |zeros + Dec(n)|;
      IsDigit(u[0]) && DigitRun(u) == k && ValueOf(u[..k]) == n
  {
    var u := zeros + Dec(n) + rest;
    assert forall i :: 0 <= i < |zeros| ==> zeros[i] in zeros;
    DigitRunIs(u, |zeros + Dec(n)|);
    assert u[..|zeros + Dec(n)|] == zeros + Dec(n);
    ValueOfZeros(zeros, Dec(n));
    ValueOfDigits(n);
  }

  /** And what it refuses: anything else. */
  lemma ScanIntNone(ws: Bytes, sign: Bytes, rest: Bytes)
    requires (forall c :: c in ws ==> c in SPACES) && sign in {"", "+", "-"}
    requires rest == [] || !('0' <= rest[0] <= '9')
    requires sign == "" && rest != [] ==> rest[0] !in SPACES && rest[0] != '+' && rest[0] != '-'
    ensures ScanInt(ws + (sign + rest)) == None && Strtol(ws + (sign + rest)) == 0
  {
    var t := sign + rest;
    SkipSpaces(ws, t);
    assert SkipSpace(t) == t;
    assert sign != [] ==> t[1..] == rest;
    assert sign == [] ==> t == rest;
  }

  lemma SliceSlice(mem: Bytes, i: nat, n: nat, k: nat)
    requires i + n <= |mem| && k <= n
    ensures mem[i..i + n][..k] == mem[i..i + k] && mem[i..i + n][k..] == mem[i + k..i + n]
  {}
}
