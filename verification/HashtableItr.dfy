/** Walking through a hash table while taking entries out of it (src/hashtable_itr.c). */
module HashtableItr {
  import opened Chains
  import opened Rehash
  import opened Hashtable
  import opened Seqs

  /** All entries from bucket `i` on. */
  ghost function From<T>(chains: seq<seq<T>>, i: nat): set<T>
    decreases |chains| - i
  {
    if i < |chains| then Elements(chains[i]) + From(chains, i + 1) else {}
  }

  /** The entries from position `p` of bucket `i` on: what a walk standing there has yet to see. */
  ghost function Rest<T>(chains: seq<seq<T>>, i: nat, p: nat): set<T> {
    if i < |chains| && p <= |chains[i]| then Elements(chains[i][p..]) + From(chains, i + 1) else {}
  }

  lemma {:induction false} FromIsAll<K, V>(chains: seq<seq<Entry<K, V>>>, all: set<Entry<K, V>>, n: nat, i: nat)
    requires Indexed(chains, all, n)
    ensures From(chains, i) == set x | x in all && x.h % n >= i
    decreases n - i
  {
    if i < n {
      FromIsAll(chains, all, n, i + 1);
      forall x | x in all && x.h % n == i ensures x in chains[i] {}
    }
  }

  /** Buckets that are empty can be skipped. */
  lemma SkipEmpty<T>(chains: seq<seq<T>>, i: nat)
    requires i < |chains| && chains[i] == []
    ensures From(chains, i) == From(chains, i + 1)
  {}

  lemma RestAtHead<T>(chains: seq<seq<T>>, i: nat)
    requires i < |chains|
    ensures Rest(chains, i, 0) == From(chains, i)
  {
    assert chains[i][0..] == chains[i];
  }

  lemma RestStep<T>(chains: seq<seq<T>>, i: nat, p: nat)
    requires i < |chains| && p < |chains[i]|
    ensures Rest(chains, i, p) == {chains[i][p]} + Rest(chains, i, p + 1)
    ensures p + 1 == |chains[i]| ==> Rest(chains, i, p + 1) == From(chains, i + 1)
  {
    assert chains[i][p..] == [chains[i][p]] + chains[i][p + 1..];
  }

  lemma {:induction false} FromElsewhere<T>(chains: seq<seq<T>>, b: nat, s: seq<T>, i: nat)
    requires b < |chains| && b < i
    ensures From(chains[b := s], i) == From(chains, i)
    decreases |chains| - i
  {
    if i < |chains| {
      FromElsewhere(chains, b, s, i + 1);
    }
  }

  /** What has been passed is not ahead. */
  lemma PassedIsGone<K, V>(heads: seq<Entry?<K, V>>, chains: seq<seq<Entry<K, V>>>, all: set<Entry<K, V>>, n: nat, i: nat, p: nat)
    requires Wired(heads, chains, all) && Indexed(chains, all, n) && i < n && p < |chains[i]|
    ensures chains[i][p] in all && chains[i][p] !in Rest(chains, i, p + 1)
  {
    var e := chains[i][p];
    assert e in chains[i];
    assert Linked(heads[i], chains[i]);
    Alone(chains[i], p);
    FromIsAll(chains, all, n, i + 1);
  }

  /** A walk that stands where an entry was taken out has the same entries to go. */
  lemma RestWithout<T>(chains: seq<seq<T>>, i: nat, p: nat)
    requires i < |chains| && p < |chains[i]|
    ensures Rest(chains[i := Without(chains[i], p)], i, p) == Rest(chains, i, p + 1)
  {
    var chains' := chains[i := Without(chains[i], p)];
    FromElsewhere(chains, i, Without(chains[i], p), i + 1);
    assert chains'[i][p..] == chains[i][p + 1..];
  }

  /** The head of the first bucket from `i` on that is not empty, or the end. */
  ghost predicate Found<K, V>(chains: seq<seq<Entry<K, V>>>, i: nat, e: Entry?<K, V>, index: nat) {
    if e == null then index == |chains| && From(chains, i) == {}
    else
      index < |chains| && chains[index] != [] && e == chains[index][0] && Rest(chains, index, 0) == From(chains, i)
  }

  /** A position between two entries: `parent` comes before it and `next` after it. */
  ghost predicate Opened<K, V>(chains: seq<seq<Entry<K, V>>>, i: nat, p: nat, next: Entry?<K, V>, parent: Entry?<K, V>) {
    && i < |chains| && p <= |chains[i]|
    && next == (if p < |chains[i]| then chains[i][p] else null)
    && parent == (if p == 0 then null else chains[i][p - 1])
  }

  lemma OpenedIs<K, V>(chains: seq<seq<Entry<K, V>>>, i: nat, p: nat, next: Entry?<K, V>, parent: Entry?<K, V>)
    requires i < |chains| && p < |chains[i]|
    requires next == (if p + 1 < |chains[i]| then chains[i][p + 1] else null)
    requires parent == (if p == 0 then null else chains[i][p - 1])
    ensures var chains' := chains[i := Without(chains[i], p)];
      Opened(chains', i, p, next, parent) && Rest(chains', i, p) == Rest(chains, i, p + 1)
  {
    RestWithout(chains, i, p);
  }

  /** The place after a move from `e0` to the entry at position `p` of bucket `i`, or on to the next bucket when there is none. */
  ghost predicate Landed<K, V>(chains: seq<seq<Entry<K, V>>>, i: nat, p: nat, e0: Entry<K, V>,
                               e: Entry?<K, V>, parent: Entry?<K, V>, index: nat, pos: nat) {
    i < |chains| && p <= |chains[i]| &&
    if p < |chains[i]| then e == chains[i][p] && parent == e0 && index == i && pos == p
    else parent == null && pos == 0 && Found(chains, i + 1, e, index)
  }

  /** The fields describe a position: `parent` is null exactly when `e` heads its chain. */
  ghost predicate Position<K, V>(chains: seq<seq<Entry<K, V>>>, e: Entry?<K, V>, parent: Entry?<K, V>, index: nat, pos: nat) {
    if e == null then parent == null && index == |chains|
    else
      index < |chains| && pos < |chains[index]| && e == chains[index][pos]
      && parent == (if pos == 0 then null else chains[index][pos - 1])
  }

  ghost function Going<K, V>(chains: seq<seq<Entry<K, V>>>, e: Entry?<K, V>, index: nat, pos: nat): set<Entry<K, V>> {
    if e == null then {} else Rest(chains, index, pos)
  }

  lemma LandedHere<K, V>(chains: seq<seq<Entry<K, V>>>, i: nat, p: nat, e0: Entry<K, V>)
    requires i < |chains| && p < |chains[i]|
    ensures Landed(chains, i, p, e0, chains[i][p], e0, i, p)
  {}

  lemma LandedBeyond<K, V>(chains: seq<seq<Entry<K, V>>>, i: nat, p: nat, e0: Entry<K, V>, e: Entry?<K, V>, index: nat)
    requires i < |chains| && p == |chains[i]| && Found(chains, i + 1, e, index)
    ensures Landed(chains, i, p, e0, e, null, index, 0)
  {}

  /** Landing after an entry that stays: it becomes the parent. */
  lemma LandedNext<K, V>(chains: seq<seq<Entry<K, V>>>, i: nat, p: nat, e: Entry?<K, V>, parent: Entry?<K, V>, index: nat, pos: nat)
    requires i < |chains| && p < |chains[i]| && Landed(chains, i, p + 1, chains[i][p], e, parent, index, pos)
    ensures Position(chains, e, parent, index, pos) && Going(chains, e, index, pos) == Rest(chains, i, p + 1)
  {
    if p + 1 == |chains[i]| {
      RestAtEnd(chains, i, p + 1);
    }
  }

  /** Landing after an entry that was taken out: its parent becomes the parent of the next one. */
  lemma LandedOut<K, V>(chains: seq<seq<Entry<K, V>>>, i: nat, p: nat, e0: Entry<K, V>, parent0: Entry?<K, V>,
                        e: Entry?<K, V>, parent: Entry?<K, V>, index: nat, pos: nat)
    requires Landed(chains, i, p, e0, e, parent, index, pos)
    requires parent0 == (if p == 0 then null else chains[i][p - 1])
    ensures Position(chains, e, if parent == e0 then parent0 else parent, index, pos)
    ensures Going(chains, e, index, pos) == Rest(chains, i, p)
  {
    if p == |chains[i]| {
      RestAtEnd(chains, i, p);
    }
  }

  class Itr<K(==), V> {
    const h: Hashtable<K, V>
    var e: Entry?<K, V>
    var parent: Entry?<K, V>
    var index: nat
    ghost var pos: nat

    ghost predicate Valid()
      reads this, h, h.table, h.all
    {
      h.Valid() && Position(h.chains, e, parent, index, pos)
    }

    /** The entry the iterator stands at and all that follow. */
    ghost function ToGo(): set<Entry<K, V>>
      reads this, h
    {
      Going(h.chains, e, index, pos)
    }

    constructor (h: Hashtable<K, V>)
      ensures this.h == h && e == null && parent == null && index == h.tablelength && pos == 0
    {
      this.h := h;
      e, parent, index, pos := null, null, h.tablelength, 0;
    }

    /** The search for the next bucket that is not empty. */
    method FindBucket(from: nat)
      requires h.Valid() && from <= h.tablelength && pos == 0
      modifies this`e, this`index
      ensures Found(h.chains, from, e, index)
    {
      var i := from;
      ghost var chains := h.chains;
      hide Hashtable.Valid, From, Rest;
      HeadsAre(h);
      while i < h.tablelength && h.table[i] == null
        invariant from <= i <= h.tablelength && From(chains, from) == From(chains, i)
      {
        SkipEmpty(chains, i);
        i := i + 1;
      }
      FromEnd(chains);
      if i < h.tablelength {
        RestAtHead(chains, i);
        e, index := h.table[i], i;
      } else {
        e, index := null, h.tablelength;
      }
    }

    /** The moves of hashtable_iterator_advance, from an entry whose successor lies at position `p` of its bucket. */
    method MoveOn(ghost p: nat) returns (more: bool)
      requires h.Valid() && e != null && index < |h.chains| && p <= |h.chains[index]|
      requires e.next == (if p < |h.chains[index]| then h.chains[index][p] else null)
      modifies this`e, this`parent, this`index, this`pos
      ensures more <==> e != null
      ensures Landed(h.chains, old(index), p, old(e), e, parent, index, pos)
    {
      ghost var e0, i := e, index;
      hide Hashtable.Valid, Landed;
      HeadsAre(h);
      var next := e.next;
      if next != null {
        LandedHere(h.chains, i, p, e0);
        parent, e, pos := e, next, p;
      } else {
        parent, pos := null, 0;
        FindBucket(index + 1);
        LandedBeyond(h.chains, i, p, e0, e, index);
      }
      more := e != null;
    }

    /** hashtable_iterator_advance: one entry less to go. */
    method Advance() returns (more: bool)
      requires Valid()
      modifies this`e, this`parent, this`index, this`pos
      ensures Valid() && (more <==> e != null)
      ensures old(e) == null ==> e == null
      ensures old(e) != null ==> old(e) !in ToGo() && old(ToGo()) == {old(e)} + ToGo()
    {
      if e == null {
        return false;
      }
      hide Hashtable.Valid, Rest, Landed;
      StandsAt(h, index, pos);
      ghost var i, p := index, pos;
      more := MoveOn(pos + 1);
      LandedNext(h.chains, i, p, e, parent, index, pos);
    }

    /** The entry leaves the table; its link still leads to the one behind it, and its parent is now that one's. */
    method TakeCurrent()
      requires Valid() && e != null
      modifies h`entrycount, h`chains, h`all, h`at, h.table, h.all`next
      ensures h.Valid() && h.table == old(h.table)
      ensures e in old(h.all) && h.all == old(h.all) - {e} && h.at == old(h.at) - {e.k}
      ensures Opened(h.chains, index, pos, e.next, parent)
      ensures e !in Rest(h.chains, index, pos) && old(ToGo()) == {e} + Rest(h.chains, index, pos)
    {
      hide Hashtable.Valid, Rest, Without, Opened;
      StandsAt(h, index, pos);
      OpenedIs(h.chains, index, pos, e.next, parent);
      h.TakeOut(index, parent, e, pos);
    }

    /** hashtable_iterator_search: stands at the entry with the key, or stays where it is. */
    method SearchFor(k: K) returns (found: bool)
      requires Valid()
      modifies this`e, this`parent, this`index, this`pos
      ensures Valid() && (found <==> k in h.at)
      ensures if found then e == h.at[k] else e == old(e) && index == old(index) && pos == old(pos)
    {
      hide Hashtable.Valid, Hashtable.Shape;
      FoundInside(h, k);
      var i, prev, x;
      ghost var p;
      i, prev, x, p := h.Find(k);
      found := x != null;
      if found {
        e, parent, index, pos := x, prev, i, p;
      }
    }

    /** hashtable_iterator_remove: the entry leaves the table and the walk stands at the next one. */
    method Remove() returns (more: bool)
      requires Valid() && e != null
      modifies this`e, this`parent, this`index, this`pos, h`entrycount, h`chains, h`all, h`at, h.table, h.all`next
      ensures Valid() && (more <==> e != null) && h.table == old(h.table)
      ensures old(e) in old(h.all) && h.all == old(h.all) - {old(e)} && h.at == old(h.at) - {old(e).k}
      ensures old(e) !in ToGo() && old(ToGo()) == {old(e)} + ToGo()
    {
      ghost var p, i := pos, index;
      hide Hashtable.Valid, Rest, Landed;
      var rememberE, rememberParent := e, parent;
      TakeCurrent();
      more := MoveOn(pos);
      LandedOut(h.chains, i, p, rememberE, rememberParent, e, parent, index, pos);
      hide Position, Going;
      if parent == rememberE {
        parent := rememberParent;
      }
    }
  }

  /** A walk that removes what `drop` says and advances otherwise, from a fresh iterator to the end: every key is visited exactly once,
      with its value, and the table ends up with exactly those that were not to be removed. */
  method Sweep<K, V>(h: Hashtable<K, V>, drop: (K, V) -> bool) returns (visited: seq<Entry<K, V>>)
    requires h.Valid()
    modifies h`entrycount, h`chains, h`all, h`at, h.table, h.all`next
    ensures h.Valid() && h.table == old(h.table)
    ensures Elements(visited) == old(h.all) && Distinct(visited)
    ensures VisitsEachKey(visited, old(Contents(h.at)))
    ensures Contents(h.at) == map k | k in old(Contents(h.at)) && !drop(k, old(Contents(h.at))[k]) :: old(Contents(h.at))[k]
  {
    hide Hashtable.Valid, Elements, Rest, From, Position, Going, VisitsEachKey, Contents, Remaining;
    var itr := HashtableIterator(h);
    visited := [];
    ghost var all, at := h.all, h.at;
    SweepStarts(all);
    KeyedByValid(h);
    NoneRemoved(all, drop);
    while itr.e != null
      invariant itr.h == h && itr.Valid() && fresh(itr) && h.table == old(h.table)
      invariant Swept(all, visited, itr.ToGo()) && h.all == Remaining(all, visited, drop) <= all == old(h.all)
      decreases |itr.ToGo()|
    {
      var e: Entry<K, V> := itr.e;
      ghost var before := itr.ToGo();
      var more;
      if drop(e.k, e.v) {
        more := itr.Remove();
      } else {
        more := itr.Advance();
      }
      SweepStep(all, visited, before, e, itr.ToGo());
      RemainingStep(all, visited, drop, e);
      visited := visited + [e];
    }
    SweepEnds(all, visited, itr.ToGo()) by { NothingToGo(itr); }
    KeyedByValid(h);
    SweptKeys(all, at, h.hashfn, visited);
    ContentsRemaining(all, at, h.hashfn, visited, drop, h.all, h.at);
  }

  /** What is left when those visited that were to be removed are gone. */
  ghost function Remaining<K, V>(all: set<Entry<K, V>>, visited: seq<Entry<K, V>>, drop: (K, V) -> bool): set<Entry<K, V>> {
    set x | x in all && !(x in visited && drop(x.k, x.v))
  }

  lemma NoneRemoved<K, V>(all: set<Entry<K, V>>, drop: (K, V) -> bool)
    ensures Remaining(all, [], drop) == all
  {}

  lemma RemainingStep<K, V>(all: set<Entry<K, V>>, visited: seq<Entry<K, V>>, drop: (K, V) -> bool, e: Entry<K, V>)
    ensures Remaining(all, visited + [e], drop) ==
      if drop(e.k, e.v) then Remaining(all, visited, drop) - {e} else Remaining(all, visited, drop)
    ensures Remaining(all, visited + [e], drop) <= all
  {}

  /** Each key is visited exactly once, with its value. */
  ghost predicate VisitsEachKey<K, V>(visited: seq<Entry<K, V>>, contents: map<K, V>) {
    && (forall i :: 0 <= i < |visited| ==> visited[i].k in contents && contents[visited[i].k] == visited[i].v)
    && (forall k :: k in contents ==> exists i :: 0 <= i < |visited| && visited[i].k == k)
    && (forall i, j :: 0 <= i < j < |visited| ==> visited[i].k != visited[j].k)
  }

  lemma KeyedByValid<K, V>(h: Hashtable<K, V>)
    requires h.Valid()
    ensures Keyed(h.all, h.at, h.hashfn)
  {}

  lemma SweptKeys<K, V>(all: set<Entry<K, V>>, at: map<K, Entry<K, V>>, hashfn: K -> nat, visited: seq<Entry<K, V>>)
    requires Keyed(all, at, hashfn) && Elements(visited) == all && Distinct(visited)
    ensures VisitsEachKey(visited, Contents(at))
  {
    assert forall i :: 0 <= i < |visited| ==> visited[i] in Elements(visited);
    forall k | k in at ensures exists i :: 0 <= i < |visited| && visited[i].k == k {
      assert at[k] in Elements(visited);
      var i :| 0 <= i < |visited| && visited[i] == at[k];
    }
  }

  lemma ContentsRemaining<K, V>(all: set<Entry<K, V>>, at: map<K, Entry<K, V>>, hashfn: K -> nat, visited: seq<Entry<K, V>>,
                                drop: (K, V) -> bool, all': set<Entry<K, V>>, at': map<K, Entry<K, V>>)
    requires Keyed(all, at, hashfn) && Keyed(all', at', hashfn)
    requires Elements(visited) == all && all' == Remaining(all, visited, drop)
    ensures Contents(at') == map k | k in Contents(at) && !drop(k, Contents(at)[k]) :: Contents(at)[k]
  {
    assert forall x :: x in all ==> x in visited;
    assert forall k :: k in at' <==> k in at && !drop(k, at[k].v);
    assert forall k :: k in at' ==> at'[k] == at[k];
  }

  /** What has been visited and what is still to go make up the whole, without overlap. */
  ghost predicate Swept<T>(all: set<T>, visited: seq<T>, rest: set<T>) {
    && Elements(visited) + rest == all && Elements(visited) !! rest
    && Distinct(visited)
  }

  lemma SweepStarts<T>(all: set<T>)
    ensures Swept(all, [], all)
  {}

  lemma SweepStep<T>(all: set<T>, visited: seq<T>, before: set<T>, e: T, after: set<T>)
    requires Swept(all, visited, before) && before == {e} + after && e !in after
    ensures Swept(all, visited + [e], after) && |after| < |before| && e in all
  {
    assert Elements(visited + [e]) == Elements(visited) + {e};
    assert forall i :: 0 <= i < |visited| ==> visited[i] in Elements(visited);
    assert before - {e} == after;
  }

  lemma SweepEnds<T>(all: set<T>, visited: seq<T>, rest: set<T>)
    requires Swept(all, visited, rest) && rest == {}
    ensures Elements(visited) == all && Distinct(visited)
  {}

  lemma NothingToGo<K, V>(itr: Itr<K, V>)
    requires itr.e == null
    ensures itr.ToGo() == {}
  {}

  /** hashtable_iterator: everything is still to go. */
  method HashtableIterator<K, V>(h: Hashtable<K, V>) returns (itr: Itr<K, V>)
    requires h.Valid()
    ensures fresh(itr) && itr.h == h && itr.Valid() && itr.ToGo() == h.all
  {
    hide Hashtable.Valid, From, Rest;
    EmptyCount(h);
    AllAhead(h);
    itr := new Itr<K, V>(h);
    if h.entrycount != 0 {
      itr.FindBucket(0);
    }
  }

  /** What lies at an entry's position: it and the rest. */
  lemma StandsAt<K, V>(h: Hashtable<K, V>, i: nat, p: nat)
    requires h.Valid() && i < |h.chains| && p < |h.chains[i]|
    ensures h.chains[i][p] in h.all && h.chains[i][p] !in Rest(h.chains, i, p + 1)
    ensures p > 0 ==> h.chains[i][p - 1] in h.all
    ensures Rest(h.chains, i, p) == {h.chains[i][p]} + Rest(h.chains, i, p + 1)
    ensures h.chains[i][p].next == (if p + 1 < |h.chains[i]| then h.chains[i][p + 1] else null)
  {
    PassedIsGone(h.table[..], h.chains, h.all, h.tablelength, i, p);
    RestStep(h.chains, i, p);
    assert p > 0 ==> h.chains[i][p - 1] in h.chains[i];
    assert Linked(h.table[..][i], h.chains[i]);
    NextInRow(h.chains[i], p);
  }

  lemma RestAtEnd<T>(chains: seq<seq<T>>, i: nat, p: nat)
    requires i < |chains| && p == |chains[i]|
    ensures Rest(chains, i, p) == From(chains, i + 1)
  {}

  lemma AllAhead<K, V>(h: Hashtable<K, V>)
    requires h.Valid()
    ensures From(h.chains, 0) == h.all && |h.chains| == h.tablelength
  {
    FromIsAll(h.chains, h.all, h.tablelength, 0);
  }

  lemma FromEnd<T>(chains: seq<seq<T>>)
    ensures From(chains, |chains|) == {}
  {}

  lemma FoundInside<K, V>(h: Hashtable<K, V>, k: K)
    requires h.Valid()
    ensures h.Shape() && h.tablelength > 0 && h.hashfn(k) % h.tablelength < |h.chains|
  {}

  lemma HeadsAre<K, V>(h: Hashtable<K, V>)
    requires h.Valid()
    ensures |h.chains| == h.tablelength == h.table.Length
    ensures forall i :: 0 <= i < |h.chains| ==> h.table[i] == (if h.chains[i] == [] then null else h.chains[i][0])
  {
    forall i | 0 <= i < |h.chains| ensures h.table[i] == (if h.chains[i] == [] then null else h.chains[i][0]) {
      assert Linked(h.table[..][i], h.chains[i]);
    }
  }

  lemma EmptyCount<K, V>(h: Hashtable<K, V>)
    requires h.Valid()
    ensures h.entrycount == 0 ==> h.all == {}
  {
    if h.entrycount == 0 {
      assert h.at.Keys == {};
      assert forall x :: x !in h.all;
    }
  }
}
