/** The two plans of hashtable_expand (src/hashtable.c): moving every entry to a new table, and
    moving entries within a table that was enlarged in place. */
module Rehash {
  import opened Chains
  import opened Seqs

  /** The bucket every entry of a table of size `n` belongs to. */
  ghost function ByHash<K, V>(all: set<Entry<K, V>>, n: nat): map<Entry<K, V>, nat>
    requires 0 < n
  {
    map x | x in all :: x.h % n
  }

  /** Every entry lies in the bucket its hash selects. */
  ghost predicate Indexed<K, V>(chains: seq<seq<Entry<K, V>>>, all: set<Entry<K, V>>, n: nat) {
    && 0 < n == |chains|
    && (forall b, x :: 0 <= b < n && x in chains[b] ==> x in all && x.h % n == b)
    && forall x :: x in all ==> x in chains[x.h % n]
  }

  lemma IndexedSize<K, V>(chains: seq<seq<Entry<K, V>>>, all: set<Entry<K, V>>, n: nat)
    requires Indexed(chains, all, n)
    ensures 0 < n == |chains|
  {}

  lemma SpreadIsIndexed<K, V>(chains: seq<seq<Entry<K, V>>>, all: set<Entry<K, V>>, n: nat, home: map<Entry<K, V>, nat>)
    requires 0 < n == |chains| && Spread(chains, all, home) && forall x :: x in all ==> x in home && home[x] == x.h % n
    ensures Indexed(chains, all, n)
  {}

  lemma SpreadByHash<K, V>(chains: seq<seq<Entry<K, V>>>, all: set<Entry<K, V>>, n: nat, more: set<Entry<K, V>>)
    requires 0 < n == |chains| && all <= more && Spread(chains, all, ByHash(more, n))
    ensures Indexed(chains, all, n)
  {
    SpreadIsIndexed(chains, all, n, ByHash(more, n));
  }

  lemma IndexedIsSpread<K, V>(chains: seq<seq<Entry<K, V>>>, all: set<Entry<K, V>>, n: nat)
    requires Indexed(chains, all, n)
    ensures Spread(chains, all, ByHash(all, n))
  {
    assert forall x :: x in all ==> x in ByHash(all, n) && ByHash(all, n)[x] == x.h % n < n;
  }

  lemma IndexedAt<K, V>(chains: seq<seq<Entry<K, V>>>, all: set<Entry<K, V>>, n: nat, b: nat, e: Entry<K, V>)
    requires Indexed(chains, all, n) && b < n && e in chains[b]
    ensures e in all
  {}

  // ----- plan A: a fresh table -----

  /** Between two moves: the entries of `left` still hang in the old table, the others in the new one, where they belong. */
  ghost predicate Midway<K, V>(heads: seq<Entry?<K, V>>, heads': seq<Entry?<K, V>>, all: set<Entry<K, V>>,
                               from: seq<seq<Entry<K, V>>>, left: set<Entry<K, V>>, home: map<Entry<K, V>, nat>,
                               to: seq<seq<Entry<K, V>>>)
    reads all
  {
    && left <= all && 0 < |heads'|
    && Wired(heads, from, left) && Spread(from, left, home)
    && Wired(heads', to, all - left) && Spread(to, all - left, ByHash(all, |heads'|))
  }

  /** The first entry of old bucket `i` moves to the front of its new bucket. */
  method MoveOver<K, V>(table: array<Entry?<K, V>>, newtable: array<Entry?<K, V>>, i: nat, ghost all: set<Entry<K, V>>,
                        ghost from: seq<seq<Entry<K, V>>>, ghost left: set<Entry<K, V>>, ghost home: map<Entry<K, V>, nat>,
                        ghost to: seq<seq<Entry<K, V>>>)
    returns (ghost from': seq<seq<Entry<K, V>>>, ghost left': set<Entry<K, V>>, ghost to': seq<seq<Entry<K, V>>>)
    requires table != newtable && i < table.Length == |from| && table[i] != null
    requires Midway(table[..], newtable[..], all, from, left, home, to)
    modifies table, newtable, left`next
    ensures Midway(table[..], newtable[..], all, from', left', home, to') && left' <= left
    ensures from[i] != [] && from' == from[i := Without(from[i], 0)]
    ensures Total(from') + Total(to') == Total(from) + Total(to)
  {
    hide Wired, Spread, Total, ByHash, Linked, Row, Without, Midway;
    MidwayParts(table[..], newtable[..], all, from, left, home, to, i);
    var e: Entry<K, V> := table[i];
    var index := e.h % newtable.Length;
    left' := left - {e};
    from' := Unlink(table, i, null, e, 0, from, left, home);
    to' := PushFront(newtable, index, e, to, all - left, ByHash(all, newtable.Length));
    MidwayMade(table[..], newtable[..], all, from', left, home, to', e);
  }

  lemma MidwayParts<K, V>(heads: seq<Entry?<K, V>>, heads': seq<Entry?<K, V>>, all: set<Entry<K, V>>,
                          from: seq<seq<Entry<K, V>>>, left: set<Entry<K, V>>, home: map<Entry<K, V>, nat>,
                          to: seq<seq<Entry<K, V>>>, i: nat)
    requires Midway(heads, heads', all, from, left, home, to) && i < |heads| && heads[i] != null
    ensures Wired(heads, from, left) && Spread(from, left, home)
    ensures Wired(heads', to, all - left) && Spread(to, all - left, ByHash(all, |heads'|))
    ensures i < |from| && from[i] != [] && heads[i] == from[i][0] && from[i][0] in left && from[i][0] !in all - left
    ensures left <= all && 0 < |heads'| && from[i][0].h % |heads'| < |to| == |heads'|
  {
    HeadOf(heads, from, left, i);
  }

  lemma MidwayMade<K, V>(heads: seq<Entry?<K, V>>, heads': seq<Entry?<K, V>>, all: set<Entry<K, V>>,
                         from: seq<seq<Entry<K, V>>>, left: set<Entry<K, V>>, home: map<Entry<K, V>, nat>,
                         to: seq<seq<Entry<K, V>>>, e: Entry<K, V>)
    requires 0 < |heads'| && left <= all && e in left
    requires Wired(heads, from, left - {e}) && Spread(from, left - {e}, home)
    requires Wired(heads', to, all - left + {e})
    requires Spread(to, all - left + {e}, ByHash(all, |heads'|)[e := e.h % |heads'|])
    ensures Midway(heads, heads', all, from, left - {e}, home, to)
  {
    ByHashAt(all, |heads'|, e);
    SetStep(all, left, e);
  }

  /** One old bucket, emptied from the front. */
  method EmptyBucket<K, V>(table: array<Entry?<K, V>>, newtable: array<Entry?<K, V>>, i: nat, ghost all: set<Entry<K, V>>,
                           ghost from: seq<seq<Entry<K, V>>>, ghost left: set<Entry<K, V>>, ghost home: map<Entry<K, V>, nat>,
                           ghost to: seq<seq<Entry<K, V>>>)
    returns (ghost from': seq<seq<Entry<K, V>>>, ghost left': set<Entry<K, V>>, ghost to': seq<seq<Entry<K, V>>>)
    requires table != newtable && i < table.Length == |from|
    requires Midway(table[..], newtable[..], all, from, left, home, to)
    modifies table, newtable, left`next
    ensures Midway(table[..], newtable[..], all, from', left', home, to') && left' <= left
    ensures from' == from[i := []]
    ensures Total(from') + Total(to') == Total(from) + Total(to)
  {
    from', left', to' := from, left, to;
    hide Midway, Total, Without;
    while table[i] != null
      invariant left' <= left && |from'| == |from| && from' == from[i := from'[i]]
      invariant Midway(table[..], newtable[..], all, from', left', home, to')
      invariant Total(from') + Total(to') == Total(from) + Total(to)
      decreases |from'[i]|
    {
      ghost var before := from'[i];
      from', left', to' := MoveOver(table, newtable, i, all, from', left', home, to');
      WithoutFirst(before);
    }
    NoneLeft(table[..], newtable[..], all, from', left', home, to', i);
  }

  lemma NoneLeft<K, V>(heads: seq<Entry?<K, V>>, heads': seq<Entry?<K, V>>, all: set<Entry<K, V>>,
                       from: seq<seq<Entry<K, V>>>, left: set<Entry<K, V>>, home: map<Entry<K, V>, nat>,
                       to: seq<seq<Entry<K, V>>>, i: nat)
    requires Midway(heads, heads', all, from, left, home, to) && i < |from| == |heads| && heads[i] == null
    ensures from[i] == []
  {}

  lemma HeadOf<K, V>(heads: seq<Entry?<K, V>>, chains: seq<seq<Entry<K, V>>>, all: set<Entry<K, V>>, i: nat)
    requires Wired(heads, chains, all) && i < |chains| && i < |heads| && heads[i] != null
    ensures chains[i] != [] && heads[i] == chains[i][0] && chains[i][0] in all
  {
    assert chains[i] != [] ==> chains[i][0] in chains[i];
  }

  lemma ByHashAt<K, V>(all: set<Entry<K, V>>, n: nat, e: Entry<K, V>)
    requires 0 < n && e in all
    ensures ByHash(all, n)[e := e.h % n] == ByHash(all, n) && e.h % n < n
  {}

  lemma SetStep<T>(all: set<T>, left: set<T>, e: T)
    requires e in left && left <= all
    ensures all - (left - {e}) == all - left + {e}
  {}

  lemma WithoutFirst<T>(s: seq<T>)
    requires s != []
    ensures |Without(s, 0)| < |s|
  {}

  /** Plan A. The new table ends up with the same entries, each in the bucket for the new size. */
  method MoveAll<K, V>(table: array<Entry?<K, V>>, newtable: array<Entry?<K, V>>,
                       ghost chains: seq<seq<Entry<K, V>>>, ghost all: set<Entry<K, V>>)
    returns (ghost chains': seq<seq<Entry<K, V>>>)
    requires table != newtable && 0 < newtable.Length && forall i :: 0 <= i < newtable.Length ==> newtable[i] == null
    requires Wired(table[..], chains, all) && Indexed(chains, all, table.Length)
    modifies table, newtable, all`next
    ensures Wired(newtable[..], chains', all) && Indexed(chains', all, newtable.Length)
    ensures Total(chains') == Total(chains)
  {
    hide Midway, Total, ByHash, Spread, Wired, Indexed;
    IndexedSize(chains, all, table.Length);
    ghost var from, left, home := chains, all, ByHash(all, table.Length);
    chains' := MidwayStarts(table[..], newtable[..], all, chains);
    for i := 0 to table.Length
      invariant left <= all && |from| == |chains| == table.Length && forall b :: 0 <= b < i ==> from[b] == []
      invariant Midway(table[..], newtable[..], all, from, left, home, chains')
      invariant Total(from) + Total(chains') == Total(chains)
    {
      from, left, chains' := EmptyBucket(table, newtable, i, all, from, left, home, chains');
    }
    MidwayEnds(table[..], newtable[..], all, from, left, home, chains');
  }

  lemma MidwayStarts<K, V>(heads: seq<Entry?<K, V>>, heads': seq<Entry?<K, V>>, all: set<Entry<K, V>>, chains: seq<seq<Entry<K, V>>>)
    returns (to: seq<seq<Entry<K, V>>>)
    requires 0 < |heads'| && forall i :: 0 <= i < |heads'| ==> heads'[i] == null
    requires Wired(heads, chains, all) && Indexed(chains, all, |heads|)
    ensures Midway(heads, heads', all, chains, all, ByHash(all, |heads|), to) && Total(to) == 0
  {
    to := seq(|heads'|, _ => []);
    IndexedIsSpread(chains, all, |heads|);
    NothingYet(heads', to, all);
    assert all - all == {};
  }

  lemma MidwayEnds<K, V>(heads: seq<Entry?<K, V>>, heads': seq<Entry?<K, V>>, all: set<Entry<K, V>>,
                         from: seq<seq<Entry<K, V>>>, left: set<Entry<K, V>>, home: map<Entry<K, V>, nat>,
                         to: seq<seq<Entry<K, V>>>)
    requires Midway(heads, heads', all, from, left, home, to) && forall b :: 0 <= b < |from| ==> from[b] == []
    ensures Wired(heads', to, all) && Indexed(to, all, |heads'|) && Total(from) == 0
  {
    AllGone(from, left, home);
    assert all - left == all;
    SpreadByHash(to, all, |heads'|, all);
  }

  lemma NothingYet<K, V>(heads: seq<Entry?<K, V>>, chains: seq<seq<Entry<K, V>>>, all: set<Entry<K, V>>)
    requires 0 < |heads| == |chains|
    requires forall b :: 0 <= b < |chains| ==> heads[b] == null && chains[b] == []
    ensures Wired(heads, chains, {}) && Spread(chains, {}, ByHash(all, |chains|)) && Total(chains) == 0
  {
    TotalEmpty(chains);
  }

  lemma TotalEmpty<T>(chains: seq<seq<T>>)
    requires forall b :: 0 <= b < |chains| ==> chains[b] == []
    ensures Total(chains) == 0
  {}

  lemma AllGone<K, V>(chains: seq<seq<Entry<K, V>>>, all: set<Entry<K, V>>, home: map<Entry<K, V>, nat>)
    requires Spread(chains, all, home) && forall b :: 0 <= b < |chains| ==> chains[b] == []
    ensures all == {} && Total(chains) == 0
  {
    TotalEmpty(chains);
    assert forall x :: x in all ==> x in chains[home[x]];
  }

  // ----- plan B: the same table, enlarged -----

  /** An entry that is not yet where it belongs in a table of `size` buckets lies ahead of the scan, which
      stands at position `p` of bucket `i` and ends before bucket `n`. */
  ghost predicate Ahead<K, V>(chains: seq<seq<Entry<K, V>>>, all: set<Entry<K, V>>, home: map<Entry<K, V>, nat>,
                              size: nat, i: nat, p: nat, n: nat) {
    && 0 < size && (i < |chains| ==> p <= |chains[i]|)
    && forall x :: x in all && x in home && home[x] != x.h % size ==>
         i <= home[x] < n && (home[x] == i ==> i < |chains| && x in chains[i][p..])
  }

  ghost predicate InPlace<K, V>(heads: seq<Entry?<K, V>>, chains: seq<seq<Entry<K, V>>>, all: set<Entry<K, V>>,
                                home: map<Entry<K, V>, nat>, i: nat, p: nat, n: nat)
    reads all
  {
    Wired(heads, chains, all) && Spread(chains, all, home) && Ahead(chains, all, home, |heads|, i, p, n)
  }

  /** Where the scan stands: at the entry at position `p`, coming from the one before. */
  ghost predicate At<K, V>(chains: seq<seq<Entry<K, V>>>, i: nat, p: nat, prev: Entry?<K, V>, e: Entry?<K, V>) {
    && i < |chains| && p <= |chains[i]|
    && prev == (if p == 0 then null else chains[i][p - 1])
    && e == (if p < |chains[i]| then chains[i][p] else null)
  }

  lemma AheadKept<K, V>(chains: seq<seq<Entry<K, V>>>, all: set<Entry<K, V>>, home: map<Entry<K, V>, nat>,
                        size: nat, i: nat, p: nat, n: nat, index: nat)
    requires Ahead(chains, all, home, size, i, p, n)
    requires i < |chains| == size && p < |chains[i]| && index == chains[i][p].h % size && index != i
    ensures var e := chains[i][p];
      var chains' := chains[i := Without(chains[i], p)]; var chains'' := chains'[index := [e] + chains'[index]];
      Ahead(chains'', all, home[e := index], size, i, p, n) && chains''[i] == Without(chains[i], p)
  {
    var e, s, r := chains[i][p], chains[i], Without(chains[i], p);
    forall x | x in s[p..] && x != e ensures x in r[p..] {
      var j :| p <= j < |s| && s[j] == x;
      assert r[p..][j - 1 - p] == x;
    }
  }

  lemma NextThere<K, V>(heads: seq<Entry?<K, V>>, chains: seq<seq<Entry<K, V>>>, all: set<Entry<K, V>>, i: nat, p: nat)
    requires Wired(heads, chains, all) && i < |chains| && p <= |chains[i]|
    ensures |heads| == |chains|
    ensures p == 0 ==> heads[i] == (if p < |chains[i]| then chains[i][p] else null)
    ensures p > 0 ==> chains[i][p - 1].next == (if p < |chains[i]| then chains[i][p] else null)
  {
    assert Linked(heads[i], chains[i]);
    if p > 0 {
      NextInRow(chains[i], p - 1);
    }
  }

  lemma EntryIn<K, V>(chains: seq<seq<Entry<K, V>>>, all: set<Entry<K, V>>, home: map<Entry<K, V>, nat>, i: nat, p: nat)
    requires Spread(chains, all, home) && i < |chains| && p < |chains[i]|
    ensures chains[i][p] in all
  {
    assert chains[i][p] in chains[i];
  }

  /** An entry that belongs elsewhere moves to the front of its bucket. */
  method MoveAway<K, V>(t: array<Entry?<K, V>>, i: nat, prev: Entry?<K, V>, e: Entry<K, V>, ghost p: nat, ghost n: nat,
                        ghost chains: seq<seq<Entry<K, V>>>, ghost all: set<Entry<K, V>>, ghost home: map<Entry<K, V>, nat>)
    returns (ghost chains': seq<seq<Entry<K, V>>>, ghost home': map<Entry<K, V>, nat>)
    requires InPlace(t[..], chains, all, home, i, p, n) && At(chains, i, p, prev, e) && |chains| == t.Length
    requires 0 < t.Length && e.h % t.Length != i
    modifies t, all`next
    ensures InPlace(t[..], chains', all, home', i, p, n) && |chains'| == |chains|
    ensures chains'[i] == Without(chains[i], p) && Total(chains') == Total(chains)
  {
    var index := e.h % t.Length;
    EntryIn(chains, all, home, i, p);
    if p > 0 {
      EntryIn(chains, all, home, i, p - 1);
    }
    AheadKept(chains, all, home, t.Length, i, p, n, index);
    assert all - {e} + {e} == all;
    hide Wired, Spread, Total, Without, Linked, Row, Ahead;
    ghost var mid := Unlink(t, i, prev, e, p, chains, all, home);
    chains' := PushFront(t, index, e, mid, all - {e}, home);
    home' := home[e := index];
  }

  /** One bucket: `pE` walks along it, past the entries that may stay. */
  method SiftBucket<K, V>(t: array<Entry?<K, V>>, i: nat, ghost n: nat,
                          ghost chains: seq<seq<Entry<K, V>>>, ghost all: set<Entry<K, V>>, ghost home: map<Entry<K, V>, nat>)
    returns (ghost chains': seq<seq<Entry<K, V>>>, ghost home': map<Entry<K, V>, nat>)
    requires InPlace(t[..], chains, all, home, i, 0, n) && i < |chains| == t.Length
    modifies t, all`next
    ensures InPlace(t[..], chains', all, home', i + 1, 0, n) && |chains'| == |chains| && Total(chains') == Total(chains)
  {
    chains', home' := chains, home;
    hide InPlace, Without, Total;
    Standing(t[..], chains, all, home, i, 0, n);
    var prev: Entry?<K, V>, e := null, t[i];
    ghost var p := 0;
    while e != null
      invariant InPlace(t[..], chains', all, home', i, p, n) && |chains'| == |chains|
      invariant At(chains', i, p, prev, e) && Total(chains') == Total(chains)
      decreases |chains'[i]| - p
    {
      var index := e.h % t.Length;
      if index == i {
        Stays(t[..], chains', all, home', i, p, n);
        prev := e;
        p := p + 1;
      } else {
        ghost var s := chains'[i];
        chains', home' := MoveAway(t, i, prev, e, p, n, chains', all, home');
        WithoutAt(s, p);
      }
      Standing(t[..], chains', all, home', i, p, n);
      e := if prev == null then t[i] else prev.next;
    }
    BucketDone(t[..], chains', all, home', i, p, n);
  }

  lemma Standing<K, V>(heads: seq<Entry?<K, V>>, chains: seq<seq<Entry<K, V>>>, all: set<Entry<K, V>>,
                       home: map<Entry<K, V>, nat>, i: nat, p: nat, n: nat)
    requires InPlace(heads, chains, all, home, i, p, n) && i < |chains|
    ensures |heads| == |chains| && p <= |chains[i]|
    ensures p == 0 ==> heads[i] == (if p < |chains[i]| then chains[i][p] else null)
    ensures p > 0 ==> chains[i][p - 1].next == (if p < |chains[i]| then chains[i][p] else null)
  {
    NextThere(heads, chains, all, i, p);
  }

  lemma WithoutAt<T>(s: seq<T>, p: nat)
    requires p < |s|
    ensures |Without(s, p)| == |s| - 1 && (p > 0 ==> Without(s, p)[p - 1] == s[p - 1])
  {}

  lemma Stays<K, V>(heads: seq<Entry?<K, V>>, chains: seq<seq<Entry<K, V>>>, all: set<Entry<K, V>>,
                    home: map<Entry<K, V>, nat>, i: nat, p: nat, n: nat)
    requires InPlace(heads, chains, all, home, i, p, n) && i < |chains| && p < |chains[i]| && chains[i][p].h % |heads| == i
    ensures InPlace(heads, chains, all, home, i, p + 1, n)
  {
    var s := chains[i];
    forall x | x in s[p..] && x != s[p] ensures x in s[p + 1..] {
      var j :| p <= j < |s| && s[j] == x;
      assert s[p + 1..][j - p - 1] == x;
    }
    assert s[p] in chains[i];
  }

  lemma BucketDone<K, V>(heads: seq<Entry?<K, V>>, chains: seq<seq<Entry<K, V>>>, all: set<Entry<K, V>>,
                         home: map<Entry<K, V>, nat>, i: nat, p: nat, n: nat)
    requires InPlace(heads, chains, all, home, i, p, n) && i < |chains| && p == |chains[i]|
    ensures InPlace(heads, chains, all, home, i + 1, 0, n)
  {
    assert chains[i][p..] == [];
    assert i + 1 < |chains| ==> chains[i + 1][0..] == chains[i + 1];
  }

  /** Plan B. `t` is the enlarged table: its first `n` buckets hold the old chains, the others are empty. Entries are moved into
      buckets that the scan has yet to reach as well as into others; afterwards each is in the bucket for the new size. */
  method SiftAll<K, V>(t: array<Entry?<K, V>>, n: nat, ghost chains: seq<seq<Entry<K, V>>>, ghost all: set<Entry<K, V>>)
    returns (ghost chains': seq<seq<Entry<K, V>>>)
    requires 0 < n <= t.Length == |chains| && Wired(t[..], chains, all)
    requires Indexed(chains[..n], all, n) && forall b :: n <= b < |chains| ==> chains[b] == []
    modifies t, all`next
    ensures Wired(t[..], chains', all) && Indexed(chains', all, t.Length) && Total(chains') == Total(chains)
  {
    ghost var home := ByHash(all, n);
    chains' := chains;
    SiftStarts(t[..], chains, all, n);
    hide InPlace, Total, ByHash, Indexed, Wired;
    for i := 0 to n
      invariant InPlace(t[..], chains', all, home, i, 0, n) && |chains'| == t.Length && Total(chains') == Total(chains)
    {
      chains', home := SiftBucket(t, i, n, chains', all, home);
    }
    SiftEnds(t[..], chains', all, home, n);
  }

  lemma SiftStarts<K, V>(heads: seq<Entry?<K, V>>, chains: seq<seq<Entry<K, V>>>, all: set<Entry<K, V>>, n: nat)
    requires 0 < n <= |chains| == |heads| && Wired(heads, chains, all)
    requires Indexed(chains[..n], all, n) && forall b :: n <= b < |chains| ==> chains[b] == []
    ensures InPlace(heads, chains, all, ByHash(all, n), 0, 0, n)
  {
    IndexedIsSpread(chains[..n], all, n);
    assert forall x :: x in all ==> ByHash(all, n)[x] == x.h % n < n;
    assert chains[0][0..] == chains[0];
    assert forall b :: 0 <= b < n ==> chains[..n][b] == chains[b];
  }

  lemma SiftEnds<K, V>(heads: seq<Entry?<K, V>>, chains: seq<seq<Entry<K, V>>>, all: set<Entry<K, V>>,
                       home: map<Entry<K, V>, nat>, n: nat)
    requires InPlace(heads, chains, all, home, n, 0, n)
    ensures Wired(heads, chains, all) && Indexed(chains, all, |heads|)
  {
    SpreadIsIndexed(chains, all, |heads|, home);
  }

  // ----- what either plan amounts to -----

  lemma ChainsNeverRepeat<K, V>(heads: seq<Entry?<K, V>>, chains: seq<seq<Entry<K, V>>>, all: set<Entry<K, V>>, b: nat)
    requires Wired(heads, chains, all) && b < |chains|
    ensures Distinct(chains[b])
  {
    assert Linked(heads[b], chains[b]);
    forall i, j | 0 <= i < j < |chains[b]| ensures chains[b][i] != chains[b][j] {
      RowIsAcyclic(chains[b], i, j);
    }
  }

  /** Two ways of filing the same entries under the same size agree bucket by bucket, up to the order in a bucket. */
  lemma PlansAgree<K, V>(chains: seq<seq<Entry<K, V>>>, chains': seq<seq<Entry<K, V>>>, all: set<Entry<K, V>>, n: nat, b: nat)
    requires Indexed(chains, all, n) && Indexed(chains', all, n) && b < n
    requires Distinct(chains[b]) && Distinct(chains'[b])
    ensures multiset(chains[b]) == multiset(chains'[b])
  {
    forall x ensures multiset(chains[b])[x] == multiset(chains'[b])[x] {
      CountOnce(chains[b], x);
      CountOnce(chains'[b], x);
      assert x in chains[b] ==> x in all && x in chains'[x.h % n];
      assert x in chains'[b] ==> x in all && x in chains[x.h % n];
    }
  }
}
