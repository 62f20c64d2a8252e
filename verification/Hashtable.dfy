/** The chained hash table that grows through a list of primes (src/hashtable.c). */
module Hashtable {
  import opened Chains
  import opened Rehash
  import Wire

  const PRIME_TABLE_LENGTH: nat := 26

  /** The list of sizes. */
  function Prime(i: nat): (p: nat)
    requires i < PRIME_TABLE_LENGTH
    ensures 0 < p
  {
    [53, 97, 193, 389,
     769, 1543, 3079, 6151,
     12289, 24593, 49157, 98317,
     196613, 393241, 786433, 1572869,
     3145739, 6291469, 12582917, 25165843,
     50331653, 100663319, 201326611, 402653189,
     805306457, 1610612741][i]
  }

  /** ceil(size * 0.65), without rounding. */
  function Limit(size: nat): nat { (13 * size + 19) / 20 }

  /** A count is within the limit as long as there are fewer entries before the last one than 13 for 20 buckets. */
  lemma LimitMeaning(size: nat, count: nat)
    ensures count <= Limit(size) <==> 20 * (count - 1) < 13 * size
  {}

  lemma PrimesIncrease(i: nat, j: nat)
    requires i < j < PRIME_TABLE_LENGTH
    ensures 0 < Prime(i) && Prime(i) + 40 < Prime(j)
    decreases j - i
  {
    PrimeBelowNext(i);
    if i + 1 < j {
      hide Prime;
      PrimesIncrease(i + 1, j);
    }
  }

  lemma PrimeBelowNext(i: nat)
    requires i + 1 < PRIME_TABLE_LENGTH
    ensures 0 < Prime(i) && Prime(i) + 40 < Prime(i + 1)
  {}

  /** The sizes double, give or take two hundred, from 53 to 1610612741. */
  lemma SizesDouble(i: nat)
    requires i < PRIME_TABLE_LENGTH
    ensures i == 0 ==> Prime(i) == 53
    ensures i + 1 < PRIME_TABLE_LENGTH ==> 2 * Prime(i) - 200 <= Prime(i + 1) <= 2 * Prime(i) + 200
    ensures i == PRIME_TABLE_LENGTH - 1 ==> Prime(i) == 1610612741
  {}

  /** No size has a small prime divisor, so the first ones are prime. */
  lemma NoSmallDivisor(i: nat)
    requires i < PRIME_TABLE_LENGTH
    ensures Prime(i) % 2 != 0 && Prime(i) % 3 != 0 && Prime(i) % 5 != 0 && Prime(i) % 7 != 0
    ensures Prime(i) % 11 != 0 && Prime(i) % 13 != 0 && Prime(i) % 17 != 0 && Prime(i) % 19 != 0
  {}

  /** `at` tells the one entry of each key. */
  ghost predicate Keyed<K, V>(all: set<Entry<K, V>>, at: map<K, Entry<K, V>>, hashfn: K -> nat) {
    && (forall x :: x in all ==> x.k in at && at[x.k] == x && x.h == hashfn(x.k))
    && (forall k :: k in at ==> at[k] in all && at[k].k == k)
  }

  ghost function Contents<K, V>(at: map<K, Entry<K, V>>): map<K, V> {
    map k | k in at :: at[k].v
  }

  /** A key is in the table exactly when an entry with that key lies in the key's bucket, and that entry is then the only one. */
  lemma FoundInChain<K, V>(chains: seq<seq<Entry<K, V>>>, all: set<Entry<K, V>>, at: map<K, Entry<K, V>>, hashfn: K -> nat,
                           n: nat, k: K)
    requires Indexed(chains, all, n) && Keyed(all, at, hashfn)
    ensures k in at ==> at[k] in chains[hashfn(k) % n]
    ensures forall x :: x in chains[hashfn(k) % n] && x.k == k ==> k in at && x == at[k]
  {
    if k in at {
      assert at[k].h == hashfn(k);
    }
  }

  lemma ContentsWithout<K, V>(at: map<K, Entry<K, V>>, k: K)
    ensures Contents(at - {k}) == Contents(at) - {k}
    ensures k in Contents(at) <==> k in at
    ensures if k in at then Contents(at)[k] == at[k].v else Contents(at) - {k} == Contents(at)
  {}

  lemma ContentsWith<K, V>(at: map<K, Entry<K, V>>, e: Entry<K, V>)
    ensures Contents(at[e.k := e]) == Contents(at)[e.k := e.v]
  {}

  lemma KeyRemoved<K, V>(all: set<Entry<K, V>>, at: map<K, Entry<K, V>>, hashfn: K -> nat, e: Entry<K, V>)
    requires Keyed(all, at, hashfn) && e in all
    ensures Keyed(all - {e}, at - {e.k}, hashfn) && |at - {e.k}| == |at| - 1
  {
    assert (at - {e.k}).Keys == at.Keys - {e.k};
    assert |at.Keys - {e.k}| == |at.Keys| - 1;
  }

  lemma KeyAdded<K, V>(all: set<Entry<K, V>>, at: map<K, Entry<K, V>>, hashfn: K -> nat, e: Entry<K, V>)
    requires Keyed(all, at, hashfn) && e.k !in at && e.h == hashfn(e.k)
    ensures e !in all && Keyed(all + {e}, at[e.k := e], hashfn) && |at[e.k := e]| == |at| + 1
  {}

  /** Keys are told apart by `==`; `hashfn` is the hash of the key after the mixing in `hash`. */
  class Hashtable<K(==), V> {
    const hashfn: K -> nat
    var table: array<Entry?<K, V>>
    var tablelength: nat
    var entrycount: nat
    var loadlimit: nat
    var primeindex: nat
    ghost var chains: seq<seq<Entry<K, V>>>
    ghost var all: set<Entry<K, V>>
    ghost var at: map<K, Entry<K, V>>

    /** The chains, whatever `entrycount` says. */
    ghost predicate Shape()
      reads this, table, all
    {
      && Sized()
      && Wired(table[..], chains, all) && Indexed(chains, all, tablelength)
      && Keyed(all, at, hashfn) && Total(chains) == |at|
    }

    ghost predicate Sized()
      reads this
    {
      && primeindex < PRIME_TABLE_LENGTH && tablelength == Prime(primeindex) == table.Length
      && loadlimit == Limit(tablelength) && 0 < |chains| == tablelength
    }

    ghost predicate Valid()
      reads this, table, all
    {
      Shape() && entrycount == |at|
    }

    constructor Make(hashfn: K -> nat, pindex: nat)
      requires pindex < PRIME_TABLE_LENGTH
      ensures Valid() && at == map[] && this.hashfn == hashfn && primeindex == pindex && fresh(table) && all == {}
    {
      this.hashfn := hashfn;
      var size := Prime(pindex);
      table := new Entry?<K, V>[size](_ => null);
      tablelength, primeindex, entrycount, loadlimit := size, pindex, 0, Limit(size);
      chains, all, at := seq(size, _ => []), {}, map[];
      new;
      TotalEmpty(chains);
    }

    /** The bucket of a key: its chain, and what lies there under the key. */
    lemma Bucket(k: K)
      requires Shape()
      ensures var b := hashfn(k) % tablelength;
        && Linked(table[b], chains[b]) && (k in at ==> at[k] in chains[b] && at[k].k == k)
        && forall x :: x in chains[b] && x.k == k ==> k in at && x == at[k] && x.h == hashfn(k)
    {
      FoundInChain(chains, all, at, hashfn, tablelength, k);
      assert Linked(table[..][hashfn(k) % tablelength], chains[hashfn(k) % tablelength]);
    }

    /** hashtable_search. */
    method Search(k: K) returns (v: Wire.Option<V>)
      requires Valid()
      ensures v == if k in Contents(at) then Wire.Some(Contents(at)[k]) else Wire.None
    {
      hide Wired, Indexed, Keyed, Prime, Limit, Total;
      var hashvalue := hashfn(k);
      var index := hashvalue % tablelength;
      var e := table[index];
      ghost var s, i := chains[index], 0;
      Bucket(k);
      while e != null
        invariant i <= |s| && e == (if i < |s| then s[i] else null)
        invariant forall j :: 0 <= j < i ==> s[j].k != k
        decreases |s| - i
      {
        assert e in s;
        if hashvalue == e.h && k == e.k {
          return Wire.Some(e.v);
        }
        NextInRow(s, i);
        e := e.next;
        i := i + 1;
      }
      v := Wire.None;
    }
  
    /** The walk along a chain with the entry before it in hand, as hashtable_remove and hashtable_iterator_search make it. */
    method Find(k: K) returns (index: nat, prev: Entry?<K, V>, e: Entry?<K, V>, ghost p: nat)
      requires Shape()
      ensures index == hashfn(k) % tablelength && (e != null <==> k in at)
      ensures e != null ==>
        e == at[k] && e.k == k && p < |chains[index]| && e == chains[index][p] && prev == (if p == 0 then null else chains[index][p - 1])
    {
      hide Wired, Indexed, Keyed, Prime, Limit, Total;
      var hashvalue := hashfn(k);
      index := hashvalue % tablelength;
      prev, e := null, table[index];
      ghost var s := chains[index];
      p := 0;
      Bucket(k);
      while e != null
        invariant p <= |s| && e == (if p < |s| then s[p] else null) && prev == (if p == 0 then null else s[p - 1])
        invariant forall j :: 0 <= j < p ==> s[j].k != k
        decreases |s| - p
      {
        assert e in s;
        if hashvalue == e.h && k == e.k {
          return;
        }
        NextInRow(s, p);
        prev := e;
        e := e.next;
        p := p + 1;
      }
    }

    /** hashtable_remove. */
    method Remove(k: K) returns (v: Wire.Option<V>)
      requires Valid()
      modifies this`entrycount, this`chains, this`all, this`at, table, all`next
      ensures Valid() && table == old(table) && all <= old(all) && entrycount <= old(entrycount)
      ensures v == if k in old(Contents(at)) then Wire.Some(old(Contents(at))[k]) else Wire.None
      ensures Contents(at) == old(Contents(at)) - {k}
    {
      hide Wired, Indexed, Keyed, Prime, Limit, Total;
      var index, prev, e;
      ghost var p;
      index, prev, e, p := Find(k);
      ContentsWithout(at, k);
      hide Contents;
      v := Wire.None;
      if e != null {
        v := Wire.Some(e.v);
        PrevInAll(index, p);
        TakeOut(index, prev, e, p);
      }
    }

    lemma PrevInAll(b: nat, p: nat)
      requires Shape() && b < |chains| && p < |chains[b]|
      ensures p > 0 ==> chains[b][p - 1] in all
      ensures chains[b][p].k in at && at[chains[b][p].k] == chains[b][p]
    {
      assert chains[b][p] in chains[b];
      assert p > 0 ==> chains[b][p - 1] in chains[b];
    }

    /** Unlinks the entry at position `p` of bucket `b` and counts it off. */
    method TakeOut(b: nat, prev: Entry?<K, V>, e: Entry<K, V>, ghost p: nat)
      requires Valid() && b < |chains| && p < |chains[b]|
      requires e == chains[b][p] && prev == (if p == 0 then null else chains[b][p - 1])
      modifies this`entrycount, this`chains, this`all, this`at, table, (if prev == null then {} else {prev})`next
      ensures Valid() && table == old(table) && chains == old(chains)[b := Without(old(chains)[b], p)]
      ensures e in old(all) && all == old(all) - {e} && at == old(at) - {e.k} && entrycount == old(entrycount) - 1
      ensures e.next == old(e.next)
    {
      hide Wired, Keyed, Total, Spread, ByHash, Prime, Limit, Indexed, Without;
      IndexedIsSpread(chains, all, tablelength);
      IndexedAt(chains, all, tablelength, b, e);
      KeyRemoved(all, at, hashfn, e);
      ghost var rest, at', n, home := all - {e}, at - {e.k}, tablelength, ByHash(all, tablelength);
      ghost var chains' := Unlink(table, b, prev, e, p, chains, all, home);
      SpreadByHash(chains', rest, n, all);
      CountOff(chains', rest, at');
    }

    /** The count, and a record of the chains, after an entry has gone. */
    method CountOff(ghost chains': seq<seq<Entry<K, V>>>, ghost all': set<Entry<K, V>>, ghost at': map<K, Entry<K, V>>)
      requires Sized() && |chains'| == tablelength && entrycount == |at'| + 1
      requires Wired(table[..], chains', all') && Indexed(chains', all', tablelength)
      requires Keyed(all', at', hashfn) && Total(chains') == |at'|
      modifies this`entrycount, this`chains, this`all, this`at
      ensures Valid() && chains == chains' && all == all' && at == at' && entrycount == old(entrycount) - 1
    {
      hide Wired, Indexed, Keyed, Total, Prime, Limit;
      entrycount := entrycount - 1;
      chains, all, at := chains', all', at';
    }

    /** hashtable_expand: the same entries in a table of the next size, by either plan; without memory, or at the last size, nothing
        changes. */
    method Expand(room: Memory) returns (ok: bool)
      requires Shape()
      modifies this`table, this`tablelength, this`loadlimit, this`primeindex, this`chains, table, all`next
      ensures Shape() && (table == old(table) || fresh(table))
      ensures ok == (old(primeindex) + 1 < PRIME_TABLE_LENGTH && room != NoMemory)
      ensures primeindex == old(primeindex) + if ok then 1 else 0
    {
      hide Wired, Indexed, Keyed, Prime, Limit, Total;
      ok := primeindex + 1 < PRIME_TABLE_LENGTH && room != NoMemory;
      if ok {
        var newsize := Prime(primeindex + 1);
        PrimesIncrease(primeindex, primeindex + 1);
        var newtable;
        ghost var chains';
        newtable, chains' := NewTable(room, table, newsize, chains, all);
        Adopt(newtable, chains');
      }
    }

    /** The new table takes the place of the old one. */
    method Adopt(newtable: array<Entry?<K, V>>, ghost chains': seq<seq<Entry<K, V>>>)
      requires primeindex + 1 < PRIME_TABLE_LENGTH && newtable.Length == Prime(primeindex + 1)
      requires Wired(newtable[..], chains', all) && Indexed(chains', all, newtable.Length)
      requires Keyed(all, at, hashfn) && Total(chains') == |at|
      modifies this`table, this`tablelength, this`loadlimit, this`primeindex, this`chains
      ensures Shape() && table == newtable && primeindex == old(primeindex) + 1
    {
      hide Wired, Indexed, Keyed, Prime, Limit, Total;
      IndexedSize(chains', all, newtable.Length);
      primeindex, table, chains := primeindex + 1, newtable, chains';
      tablelength := newtable.Length;
      loadlimit := Limit(tablelength);
    }

    /** A new entry at the front of its bucket. */
    method PutIn(k: K, v: V)
      requires Shape() && k !in at
      modifies this`chains, this`all, this`at, table
      ensures Shape() && Contents(at) == old(Contents(at))[k := v] && |at| == |old(at)| + 1
      ensures fresh(all - old(all))
    {
      hide Wired, Keyed, Total, Spread, ByHash, Prime, Limit, Indexed, Contents;
      var e := new Entry<K, V>(k, v, hashfn(k));
      var index := hashfn(k) % tablelength;
      KeyAdded(all, at, hashfn, e);
      ContentsWith(at, e);
      IndexedIsSpread(chains, all, tablelength);
      ghost var chains' := PushFront(table, index, e, chains, all, ByHash(all, tablelength));
      SpreadAdded(chains', all, tablelength, e);
      Settle(chains', all + {e}, at[k := e]);
    }

    /** While memory lasts the last entry has come to a table with fewer than 13 entries for 20 buckets, until the last size is
        reached. */
    ghost predicate WithinLimit()
      reads this
    {
      20 * (entrycount - 1) < 13 * tablelength || primeindex == PRIME_TABLE_LENGTH - 1
    }

    /** hashtable_insert. A full table is first expanded; the result of that is ignored. `room` and `memory` say what
        realloc and malloc can deliver. */
    method Insert(k: K, v: V, room: Memory, memory: bool) returns (ok: bool)
      requires Valid() && k !in at
      modifies this`table, this`tablelength, this`loadlimit, this`primeindex, this`entrycount, this`chains, this`all, this`at, table, all`next
      ensures Valid() && (table == old(table) || fresh(table)) && fresh(all - old(all))
      ensures ok == memory
      ensures Contents(at) == if ok then old(Contents(at))[k := v] else old(Contents(at))
      ensures room != NoMemory && old(WithinLimit()) ==> WithinLimit()
      ensures primeindex == old(primeindex)
        + if 20 * old(entrycount) >= 13 * old(tablelength) && old(primeindex) + 1 < PRIME_TABLE_LENGTH && room != NoMemory then 1 else 0
    {
      hide Wired, Indexed, Keyed, Prime, Limit, Total, Contents;
      LimitMeaning(tablelength, entrycount + 1);
      LimitMeaning(tablelength, entrycount);
      entrycount := entrycount + 1;
      if entrycount > loadlimit {
        var expanded := Expand(room);
        LimitGrows(old(primeindex), primeindex);
        LimitMeaning(tablelength, entrycount);
        LimitMeaning(tablelength, entrycount - 1);
      }
      if memory {
        PutIn(k, v);
      } else {
        entrycount := entrycount - 1;
      }
      ok := memory;
    }

    /** Records the new state of the chains. */
    ghost method Settle(chains': seq<seq<Entry<K, V>>>, all': set<Entry<K, V>>, at': map<K, Entry<K, V>>)
      requires Sized() && |chains'| == tablelength
      requires Wired(table[..], chains', all') && Indexed(chains', all', tablelength)
      requires Keyed(all', at', hashfn) && Total(chains') == |at'|
      modifies this`chains, this`all, this`at
      ensures Shape() && chains == chains' && all == all' && at == at'
    {
      hide Wired, Indexed, Keyed, Total, Prime, Limit;
      chains, all, at := chains', all', at';
    }
  }

  /** create_hashtable: the smallest listed size above `minsize`, for every `minsize` up to 2^30. */
  method Create<K(==), V>(minsize: nat, hashfn: K -> nat, memory: bool) returns (h: Hashtable?<K, V>)
    ensures h == null <==> minsize > 0x4000_0000 || !memory
    ensures h != null ==>
      && fresh(h) && h.Valid() && h.at == map[] && h.hashfn == hashfn
      && Prime(h.primeindex) > minsize && forall j :: 0 <= j < h.primeindex ==> Prime(j) <= minsize
  {
    if minsize > 0x4000_0000 {
      return null;
    }
    var pindex := 0;
    assert Prime(PRIME_TABLE_LENGTH - 1) > minsize;
    hide Prime;
    while pindex < PRIME_TABLE_LENGTH && Prime(pindex) <= minsize
      invariant pindex <= PRIME_TABLE_LENGTH
      invariant forall j :: 0 <= j < pindex ==> Prime(j) <= minsize
    {
      pindex := pindex + 1;
    }
    if !memory {
      return null;
    }
    h := new Hashtable<K, V>.Make(hashfn, pindex);
  }

  /** What memory can deliver when the table is full: a second table, an enlargement of the first, or neither. */
  datatype Memory = FreshTable | EnlargedTable | NoMemory

  /** The larger table of either plan. */
  method NewTable<K, V>(room: Memory, table: array<Entry?<K, V>>, newsize: nat,
                        ghost chains: seq<seq<Entry<K, V>>>, ghost all: set<Entry<K, V>>)
    returns (newtable: array<Entry?<K, V>>, ghost chains': seq<seq<Entry<K, V>>>)
    requires room != NoMemory && 0 < table.Length < newsize
    requires Wired(table[..], chains, all) && Indexed(chains, all, table.Length)
    modifies table, all`next
    ensures fresh(newtable) && newtable.Length == newsize
    ensures Wired(newtable[..], chains', all) && Indexed(chains', all, newsize) && Total(chains') == Total(chains)
  {
    newtable := new Entry?<K, V>[newsize](_ => null);
    if room == FreshTable {
      hide Wired, Indexed, Total;
      chains' := MoveAll(table, newtable, chains, all);
    } else {
      forall i | 0 <= i < table.Length {
        newtable[i] := table[i];
      }
      ghost var longer := chains + seq(newsize - |chains|, _ => []);
      assert newtable[..table.Length] == table[..];
      Longer(table[..], newtable[..], chains, all, longer);
      hide Wired, Indexed, Total;
      chains' := SiftAll(newtable, table.Length, longer, all);
    }
  }

  lemma Longer<K, V>(heads: seq<Entry?<K, V>>, heads': seq<Entry?<K, V>>, chains: seq<seq<Entry<K, V>>>,
                     all: set<Entry<K, V>>, longer: seq<seq<Entry<K, V>>>)
    requires Wired(heads, chains, all) && |heads| <= |heads'| == |longer| && heads'[..|heads|] == heads
    requires chains <= longer && forall b :: |chains| <= b < |longer| ==> longer[b] == [] && heads'[b] == null
    ensures Wired(heads', longer, all) && longer[..|heads|] == chains && Total(longer) == Total(chains)
  {
    assert forall b :: 0 <= b < |chains| ==> heads'[b] == heads[b] && longer[b] == chains[b];
    assert longer == chains + longer[|chains|..];
    TotalAppend(chains, longer[|chains|..]);
    TotalEmpty(longer[|chains|..]);
  }

  lemma TotalAppend<T>(a: seq<seq<T>>, b: seq<seq<T>>)
    ensures Total(a + b) == Total(a) + Total(b)
  {
    if a == [] {
      assert a + b == b;
    } else {
      assert (a + b)[1..] == a[1..] + b;
      TotalAppend(a[1..], b);
    }
  }

  lemma SpreadAdded<K, V>(chains: seq<seq<Entry<K, V>>>, all: set<Entry<K, V>>, n: nat, e: Entry<K, V>)
    requires 0 < n == |chains| && Spread(chains, all + {e}, ByHash(all, n)[e := e.h % n])
    ensures Indexed(chains, all + {e}, n)
  {
    SpreadIsIndexed(chains, all + {e}, n, ByHash(all, n)[e := e.h % n]);
  }

  lemma LimitGrows(i: nat, j: nat)
    requires i <= j < PRIME_TABLE_LENGTH
    ensures Limit(Prime(i)) <= Limit(Prime(j))
    ensures i < j ==> Limit(Prime(i)) < Limit(Prime(j))
  {
    if i < j {
      PrimesIncrease(i, j);
    }
  }
}
