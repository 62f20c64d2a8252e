/** Recognising that a whole head has arrived (rpc_conn_received_head in src/rpc_conn.c). */
module HeadDetection {
  import opened Wire

  /** memchr(mem + lo, '\n', n). */
  function NextLF(mem: Bytes, lo: nat, n: nat): (r: Option<nat>)
    requires lo + n <= |mem|
    ensures r.Some? ==> lo <= r.value < lo + n && mem[r.value] == LF
    ensures forall j :: lo <= j < (if r.Some? then r.value else lo + n) ==> mem[j] != LF
    decreases n
  {
    if n == 0 then None else if mem[lo] == LF then Some(lo) else NextLF(mem, lo + 1, n - 1)
  }

  lemma NextLFIs(mem: Bytes, lo: nat, n: nat, i: nat)
    requires lo <= i < lo + n <= |mem|
    requires mem[i] == LF && forall j :: lo <= j < i ==> mem[j] != LF
    ensures NextLF(mem, lo, n) == Some(i)
  {}

  lemma NextLFNone(mem: Bytes, lo: nat, n: nat)
    requires lo + n <= |mem|
    requires forall j :: lo <= j < lo + n ==> mem[j] != LF
    ensures NextLF(mem, lo, n) == None
  {}

  /** The line between the line feeds at `lo` and `hi` is empty. */
  predicate EmptyBetween(mem: Bytes, lo: nat, hi: nat)
    requires lo < hi < |mem|
  {
    hi - lo == 1 || (hi - lo == 2 && mem[hi - 1] == CR)
  }

  /** One and all later turns of the loop. `mem` is the received window and the byte behind it; the loop looks
      at line feeds in pairs, `last` is the second one of the previous pair. The window that remains is
      reckoned one byte short after each pair, and a pair whose first line feed ends the
      reckoned window is completed by looking at the byte behind that. */
  function Scan(mem: Bytes, cont: nat, avail: nat, last: Option<nat>): bool
    requires cont + avail < |mem|
    requires last.Some? ==> last.value < cont
    decreases avail
  {
    match NextLF(mem, cont, avail)
    case None => false
    case Some(el) =>
      var avail1 := avail - (el + 1 - cont);
      if last.Some? && EmptyBetween(mem, last.value, el) then true
      else if avail1 == 0 && mem[el + 1] == LF then true
      else ScanSecond(mem, el, avail1)
  }

  function ScanSecond(mem: Bytes, el: nat, avail: nat): bool
    requires el + 1 + avail < |mem|
    decreases avail
  {
    match NextLF(mem, el + 1, avail)
    case None => false
    case Some(bl) =>
      if EmptyBetween(mem, el, bl) then true
      else if avail <= bl + 1 - el then false
      else Scan(mem, bl + 1, avail - (bl + 1 - el), Some(bl))
  }

  lemma ScanUnfold(mem: Bytes, cont: nat, avail: nat, last: Option<nat>)
    requires cont + avail < |mem|
    requires last.Some? ==> last.value < cont
    ensures Scan(mem, cont, avail, last) ==
      match NextLF(mem, cont, avail)
      case None => false
      case Some(el) =>
        var avail1 := avail - (el + 1 - cont);
        (last.Some? && EmptyBetween(mem, last.value, el)) || (avail1 == 0 && mem[el + 1] == LF)
        || ScanSecond(mem, el, avail1)
  {}

  lemma ScanSecondUnfold(mem: Bytes, el: nat, avail: nat)
    requires el + 1 + avail < |mem|
    ensures ScanSecond(mem, el, avail) ==
      match NextLF(mem, el + 1, avail)
      case None => false
      case Some(bl) =>
        EmptyBetween(mem, el, bl)
        || (avail > bl + 1 - el && Scan(mem, bl + 1, avail - (bl + 1 - el), Some(bl)))
  {}

  /** Only the bytes matter, not where they lie. */
  ghost predicate Inside(mem: Bytes, big: Bytes, pos: nat) {
    pos + |mem| <= |big| && forall i :: 0 <= i < |mem| ==> mem[i] == big[pos + i]
  }

  lemma NextLFShift(mem: Bytes, big: Bytes, pos: nat, lo: nat, n: nat)
    requires Inside(mem, big, pos) && lo + n <= |mem|
    ensures NextLF(big, pos + lo, n) ==
      match NextLF(mem, lo, n) case None => None case Some(i) => Some(pos + i)
    decreases n
  {
    if n != 0 && mem[lo] != LF {
      NextLFShift(mem, big, pos, lo + 1, n - 1);
    }
  }

  lemma {:induction false} ScanShift(mem: Bytes, big: Bytes, pos: nat, cont: nat, avail: nat, last: Option<nat>)
    requires Inside(mem, big, pos) && cont + avail < |mem|
    requires last.Some? ==> last.value < cont
    ensures Scan(mem, cont, avail, last) ==
      Scan(big, pos + cont, avail, match last case None => None case Some(i) => Some(pos + i))
    decreases avail
  {
    hide NextLF, Scan, ScanSecond, EmptyBetween;
    NextLFShift(mem, big, pos, cont, avail);
    ScanUnfold(mem, cont, avail, last);
    ScanUnfold(big, pos + cont, avail, match last case None => None case Some(i) => Some(pos + i));
    match NextLF(mem, cont, avail)
    case None =>
    case Some(el) =>
      SecondShift(mem, big, pos, el, avail - (el + 1 - cont));
      if last.Some? {
        EmptyShift(mem, big, pos, last.value, el);
      }
  }

  lemma {:induction false} SecondShift(mem: Bytes, big: Bytes, pos: nat, el: nat, avail: nat)
    requires Inside(mem, big, pos) && el + 1 + avail < |mem|
    ensures ScanSecond(mem, el, avail) == ScanSecond(big, pos + el, avail)
    decreases avail
  {
    hide NextLF, Scan, ScanSecond, EmptyBetween;
    NextLFShift(mem, big, pos, el + 1, avail);
    ScanSecondUnfold(mem, el, avail);
    ScanSecondUnfold(big, pos + el, avail);
    match NextLF(mem, el + 1, avail)
    case None =>
    case Some(bl) =>
      EmptyShift(mem, big, pos, el, bl);
      if avail > bl + 1 - el {
        ScanShift(mem, big, pos, bl + 1, avail - (bl + 1 - el), Some(bl));
      }
  }

  lemma EmptyShift(mem: Bytes, big: Bytes, pos: nat, lo: nat, hi: nat)
    requires Inside(mem, big, pos) && lo < hi < |mem|
    ensures EmptyBetween(mem, lo, hi) <==> EmptyBetween(big, pos + lo, pos + hi)
  {}

  /** `beyond` is the byte in memory right behind the window. */
  function ReceivedHead(window: Bytes, beyond: Byte): bool {
    Scan(window + [beyond], 0, |window|, None)
  }

  /** The window ends with its first line feed, and memory happens to hold another one behind it. */
  predicate Stray(window: Bytes, beyond: Byte) {
    window != [] && IndexOf(window, LF) == |window| - 1 && beyond == LF
  }

  /** The line feeds among the first `n4 + 1` bytes of a head are those at the four given places. */
  ghost predicate LineFeedsAt(w: Bytes, n1: nat, n2: nat, n3: nat, n4: nat) {
    && 0 < n1 && n1 + 2 < n2 && n2 + 2 < n3 < n4
    && forall i :: 0 <= i < |w| && i <= n4 ==> (w[i] == LF <==> i == n1 || i == n2 || i == n3 || i == n4)
  }

  lemma RestDetectedExactly(w: Bytes, beyond: Byte, n1: nat, n2: nat, n3: nat)
    requires LineFeedsAt(w, n1, n2, n3, n3 + 1)
    requires n1 < |w|
    ensures ScanSecond(w + [beyond], n1, |w| - n1 - 1) <==> |w| > n3 + 1
  {
    var mem := w + [beyond];
    hide NextLF, Scan, ScanSecond;
    ScanSecondUnfold(mem, n1, |w| - n1 - 1);
    if |w| <= n2 {
      NextLFNone(mem, n1 + 1, |w| - n1 - 1);
    } else {
      NextLFIs(mem, n1 + 1, |w| - n1 - 1, n2);
      if |w| > n2 + 2 {
        SecondPair(mem, |w| - n2 - 2, n2, n3);
      }
    }
  }

  /** LF heads are recognised as soon as they are complete and never earlier, except for a stray line feed. */
  lemma DetectedExactly(w: Bytes, beyond: Byte, n1: nat, n2: nat, n3: nat)
    requires LineFeedsAt(w, n1, n2, n3, n3 + 1)
    ensures ReceivedHead(w, beyond) <==> |w| > n3 + 1 || Stray(w, beyond)
  {
    var mem := w + [beyond];
    StrayMeans(w, beyond, n1);
    hide NextLF, Scan, ScanSecond, Stray;
    ScanUnfold(mem, 0, |w|, None);
    if |w| <= n1 {
      NextLFNone(mem, 0, |w|);
    } else {
      NextLFIs(mem, 0, |w|, n1);
      RestDetectedExactly(w, beyond, n1, n2, n3);
    }
  }

  lemma SecondPair(mem: Bytes, avail: nat, n2: nat, n3: nat)
    requires 0 < avail && n2 + 1 + avail < |mem| - 1 && n2 + 2 < n3
    requires forall i :: n2 < i < |mem| - 1 && i <= n3 + 1 ==> (mem[i] == LF <==> i == n3 || i == n3 + 1)
    requires avail == |mem| - 1 - n2 - 2
    ensures Scan(mem, n2 + 1, avail, Some(n2)) <==> |mem| - 1 > n3 + 1
  {
    if avail < n3 - n2 {
      NextLFNone(mem, n2 + 1, avail);
    } else {
      NextLFIs(mem, n2 + 1, avail, n3);
      if avail > n3 - n2 {
        NextLFIs(mem, n3 + 1, avail - (n3 - n2), n3 + 1);
      }
    }
  }

  lemma StrayMeans(w: Bytes, beyond: Byte, n1: nat)
    requires forall i :: 0 <= i < |w| && i <= n1 ==> (w[i] == LF <==> i == n1)
    ensures Stray(w, beyond) <==> |w| == n1 + 1 && beyond == LF
  {
    if n1 < |w| {
      IndexOfIs(w, LF, n1);
    } else {
      IndexOfIs(w, LF, |w|);
    }
  }

  lemma RestDetectedLateWithCR(w: Bytes, beyond: Byte, n1: nat, n2: nat, n3: nat)
    requires LineFeedsAt(w, n1, n2, n3, n3 + 2)
    requires n3 + 1 < |w| ==> w[n3 + 1] == CR
    requires n1 < |w|
    ensures ScanSecond(w + [beyond], n1, |w| - n1 - 1) <==> |w| > n3 + 3
  {
    var mem := w + [beyond];
    hide NextLF, Scan, ScanSecond;
    ScanSecondUnfold(mem, n1, |w| - n1 - 1);
    if |w| <= n2 {
      NextLFNone(mem, n1 + 1, |w| - n1 - 1);
    } else {
      NextLFIs(mem, n1 + 1, |w| - n1 - 1, n2);
      if |w| > n2 + 2 {
        SecondPairWithCR(mem, |w| - n2 - 2, n2, n3);
      }
    }
  }

  /** CR LF heads are recognised one byte late: only when something follows the complete head. */
  lemma DetectedLateWithCR(w: Bytes, beyond: Byte, n1: nat, n2: nat, n3: nat)
    requires LineFeedsAt(w, n1, n2, n3, n3 + 2)
    requires n3 + 1 < |w| ==> w[n3 + 1] == CR
    ensures ReceivedHead(w, beyond) <==> |w| > n3 + 3 || Stray(w, beyond)
  {
    var mem := w + [beyond];
    StrayMeans(w, beyond, n1);
    hide NextLF, Scan, ScanSecond, Stray;
    ScanUnfold(mem, 0, |w|, None);
    if |w| <= n1 {
      NextLFNone(mem, 0, |w|);
    } else {
      NextLFIs(mem, 0, |w|, n1);
      RestDetectedLateWithCR(w, beyond, n1, n2, n3);
    }
  }

  lemma SecondPairWithCR(mem: Bytes, avail: nat, n2: nat, n3: nat)
    requires 0 < avail && n2 + 1 + avail < |mem| - 1 && n2 + 2 < n3
    requires forall i :: n2 < i < |mem| - 1 && i <= n3 + 2 ==> (mem[i] == LF <==> i == n3 || i == n3 + 2)
    requires n3 + 1 < |mem| - 1 ==> mem[n3 + 1] == CR
    requires avail == |mem| - 1 - n2 - 2
    ensures Scan(mem, n2 + 1, avail, Some(n2)) <==> |mem| - 1 > n3 + 3
  {
    if avail < n3 - n2 {
      NextLFNone(mem, n2 + 1, avail);
    } else {
      NextLFIs(mem, n2 + 1, avail, n3);
      var rest := avail - (n3 - n2);
      if rest <= 1 {
        NextLFNone(mem, n3 + 1, rest);
      } else {
        NextLFIs(mem, n3 + 1, rest, n3 + 2);
      }
    }
  }

  // ----- what is taken for a head, for any bytes -----

  /** The places of all line feeds among the first `n` bytes, in order. */
  ghost predicate LineFeeds(mem: Bytes, n: nat, ps: seq<nat>) {
    && n <= |mem| && (forall i :: 0 <= i < |ps| ==> ps[i] < n && mem[ps[i]] == LF)
    && (forall i, j :: 0 <= i < j < |ps| ==> ps[i] < ps[j])
    && forall p: nat :: p < n && mem[p] == LF ==> p in ps
  }

  /** An empty line between two line feeds. The later they come, the more bytes at the end of the window are overlooked: one for
      every pair of line feeds before. */
  ghost predicate EmptyLineAt(mem: Bytes, n: nat, ps: seq<nat>, j: nat)
    requires LineFeeds(mem, n, ps)
  {
    j + 1 < |ps| && ps[j + 1] < n - (j + 1) / 2 && EmptyBetween(mem, ps[j], ps[j + 1])
  }

  /** The first line feed of a pair is the last byte not overlooked, and a line feed follows it in memory. */
  ghost predicate StrayEdge(mem: Bytes, n: nat, ps: seq<nat>, i: nat)
    requires LineFeeds(mem, n, ps) && n < |mem|
  {
    2 * i < |ps| && ps[2 * i] == n - i - 1 && mem[ps[2 * i] + 1] == LF
  }

  ghost predicate SeenFrom(mem: Bytes, n: nat, ps: seq<nat>, k: nat)
    requires LineFeeds(mem, n, ps) && n < |mem|
  {
    (exists j: nat :: 2 * k - 1 <= j && EmptyLineAt(mem, n, ps, j)) || exists i: nat :: k <= i && StrayEdge(mem, n, ps, i)
  }

  lemma NextIs(mem: Bytes, n: nat, ps: seq<nat>, i: nat, lo: nat, end: nat)
    requires LineFeeds(mem, n, ps) && i <= |ps| && lo == (if i == 0 then 0 else ps[i - 1] + 1) && lo <= end <= n
    ensures NextLF(mem, lo, end - lo) == if i < |ps| && ps[i] < end then Some(ps[i]) else None
  {
    forall p: nat | lo <= p < end && (i < |ps| ==> p < ps[i]) ensures mem[p] != LF {
      forall j | 0 <= j < |ps| ensures ps[j] != p {
        if j < i {
          assert ps[j] <= ps[i - 1];
        } else {
          assert ps[i] <= ps[j];
        }
      }
    }
    if i < |ps| && ps[i] < end {
      assert i > 0 ==> ps[i - 1] < ps[i];
      NextLFIs(mem, lo, end - lo, ps[i]);
    } else {
      NextLFNone(mem, lo, end - lo);
    }
  }

  lemma NothingSeen(mem: Bytes, n: nat, ps: seq<nat>, k: nat)
    requires LineFeeds(mem, n, ps) && n < |mem| && (2 * k < |ps| ==> ps[2 * k] >= n - k)
    ensures !SeenFrom(mem, n, ps, k)
  {
    forall j: nat | 2 * k - 1 <= j ensures !EmptyLineAt(mem, n, ps, j) {
      assert j + 1 < |ps| ==> ps[2 * k] <= ps[j + 1];
    }
    forall i: nat | k <= i ensures !StrayEdge(mem, n, ps, i) {
      assert 2 * i < |ps| ==> ps[2 * k] <= ps[2 * i];
    }
  }

  lemma SeenLater(mem: Bytes, n: nat, ps: seq<nat>, k: nat)
    requires LineFeeds(mem, n, ps) && n < |mem|
    requires (k > 0 ==> !EmptyLineAt(mem, n, ps, 2 * k - 1)) && !EmptyLineAt(mem, n, ps, 2 * k) && !StrayEdge(mem, n, ps, k)
    ensures SeenFrom(mem, n, ps, k) <==> SeenFrom(mem, n, ps, k + 1)
  {
    hide LineFeeds, EmptyLineAt, StrayEdge;
    forall j: nat | 2 * k - 1 <= j && EmptyLineAt(mem, n, ps, j) ensures 2 * (k + 1) - 1 <= j {
      assert j != 2 * k - 1 && j != 2 * k;
    }
    forall i: nat | k <= i && StrayEdge(mem, n, ps, i) ensures k + 1 <= i {
      assert i != k;
    }
  }

  lemma {:induction false} ScanFrom(mem: Bytes, n: nat, ps: seq<nat>, k: nat)
    requires LineFeeds(mem, n, ps) && n < |mem| && 2 * k <= |ps|
    requires (if k == 0 then 0 else ps[2 * k - 1] + 1) <= n - k
    ensures var cont := if k == 0 then 0 else ps[2 * k - 1] + 1;
      Scan(mem, cont, n - k - cont, if k == 0 then None else Some(ps[2 * k - 1])) <==> SeenFrom(mem, n, ps, k)
    decreases |ps| - 2 * k
  {
    hide *;
    var cont := if k == 0 then 0 else ps[2 * k - 1] + 1;
    if k > 0 {
      Places(mem, n, ps, 2 * k - 1);
    }
    ScanUnfold(mem, cont, n - k - cont, if k == 0 then None else Some(ps[2 * k - 1]));
    NextIs(mem, n, ps, 2 * k, cont, n - k);
    if 2 * k == |ps| || ps[2 * k] >= n - k {
      NothingSeen(mem, n, ps, k);
    } else {
      Places(mem, n, ps, 2 * k);
      EmptyBefore(mem, n, ps, k);
      EdgeIs(mem, n, ps, k);
      if k > 0 && EmptyLineAt(mem, n, ps, 2 * k - 1) {
        SeenHere(mem, n, ps, k, 2 * k - 1);
      } else if StrayEdge(mem, n, ps, k) {
        StrayHere(mem, n, ps, k);
      } else {
        ScanFromSecond(mem, n, ps, k);
      }
    }
  }

  /** Whether the line in front of pair `k` is empty. */
  lemma EmptyBefore(mem: Bytes, n: nat, ps: seq<nat>, k: nat)
    requires LineFeeds(mem, n, ps) && 2 * k < |ps| && ps[2 * k] < n - k
    ensures k > 0 ==> (EmptyLineAt(mem, n, ps, 2 * k - 1) <==> EmptyBetween(mem, ps[2 * k - 1], ps[2 * k]))
  {}

  lemma EdgeIs(mem: Bytes, n: nat, ps: seq<nat>, k: nat)
    requires LineFeeds(mem, n, ps) && n < |mem| && 2 * k < |ps|
    ensures StrayEdge(mem, n, ps, k) <==> ps[2 * k] == n - k - 1 && mem[ps[2 * k] + 1] == LF
  {}

  lemma SeenHere(mem: Bytes, n: nat, ps: seq<nat>, k: nat, j: nat)
    requires LineFeeds(mem, n, ps) && n < |mem| && 2 * k - 1 <= j && EmptyLineAt(mem, n, ps, j)
    ensures SeenFrom(mem, n, ps, k)
  {}

  lemma StrayHere(mem: Bytes, n: nat, ps: seq<nat>, k: nat)
    requires LineFeeds(mem, n, ps) && n < |mem| && StrayEdge(mem, n, ps, k)
    ensures SeenFrom(mem, n, ps, k)
  {}

  lemma NothingBehind(mem: Bytes, n: nat, ps: seq<nat>, k: nat)
    requires LineFeeds(mem, n, ps) && n < |mem| && (2 * k + 1 < |ps| ==> ps[2 * k + 1] + 1 >= n - k - 1)
    ensures !SeenFrom(mem, n, ps, k + 1)
  {
    assert 2 * k + 2 < |ps| ==> ps[2 * k + 1] < ps[2 * k + 2];
    NothingSeen(mem, n, ps, k + 1);
  }

  lemma Places(mem: Bytes, n: nat, ps: seq<nat>, i: nat)
    requires LineFeeds(mem, n, ps) && i < |ps|
    ensures ps[i] < n <= |mem| && (i + 1 < |ps| ==> ps[i] < ps[i + 1] < n)
  {}

  /** Whether the line between the two line feeds of pair `k` is empty. */
  lemma EmptyPair(mem: Bytes, n: nat, ps: seq<nat>, k: nat)
    requires LineFeeds(mem, n, ps) && 2 * k + 1 < |ps|
    ensures EmptyLineAt(mem, n, ps, 2 * k) <==> ps[2 * k + 1] < n - k && EmptyBetween(mem, ps[2 * k], ps[2 * k + 1])
  {}

  lemma {:induction false} ScanFromSecond(mem: Bytes, n: nat, ps: seq<nat>, k: nat)
    requires LineFeeds(mem, n, ps) && n < |mem| && 2 * k < |ps| && ps[2 * k] < n - k
    requires (k > 0 ==> !EmptyLineAt(mem, n, ps, 2 * k - 1)) && !StrayEdge(mem, n, ps, k)
    ensures ScanSecond(mem, ps[2 * k], n - k - ps[2 * k] - 1) <==> SeenFrom(mem, n, ps, k)
    decreases |ps| - 2 * k, 0
  {
    hide *;
    Places(mem, n, ps, 2 * k);
    var el := ps[2 * k];
    ScanSecondUnfold(mem, el, n - k - el - 1);
    NextIs(mem, n, ps, 2 * k + 1, el + 1, n - k);
    if 2 * k + 1 == |ps| {
      assert !EmptyLineAt(mem, n, ps, 2 * k) by { NoPair(mem, n, ps, k); }
      SeenLater(mem, n, ps, k);
      NothingBehind(mem, n, ps, k);
    } else {
      EmptyPair(mem, n, ps, k);
      if EmptyLineAt(mem, n, ps, 2 * k) {
        SeenHere(mem, n, ps, k, 2 * k);
      } else {
        SeenLater(mem, n, ps, k);
        if ps[2 * k + 1] + 1 < n - k - 1 {
          ScanFrom(mem, n, ps, k + 1);
        } else {
          NothingBehind(mem, n, ps, k);
        }
      }
    }
  }

  lemma NoPair(mem: Bytes, n: nat, ps: seq<nat>, k: nat)
    requires LineFeeds(mem, n, ps) && 2 * k + 1 == |ps|
    ensures !EmptyLineAt(mem, n, ps, 2 * k)
  {}

  /** Whatever the window holds, with its line feeds at `ps`: it is taken for the beginning of a message if and only if there is an empty
      line, of LF or CR LF, short of the bytes overlooked, or a first line feed of a pair at their edge with another one behind it in
      memory. */
  lemma DetectedMeaning(w: Bytes, beyond: Byte, ps: seq<nat>)
    requires LineFeeds(w + [beyond], |w|, ps)
    ensures var mem := w + [beyond];
      ReceivedHead(w, beyond) <==>
      (exists j: nat :: EmptyLineAt(mem, |w|, ps, j)) || exists i: nat :: StrayEdge(mem, |w|, ps, i)
  {
    ScanFrom(w + [beyond], |w|, ps, 0);
  }
}
