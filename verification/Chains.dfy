/** Hash chains: singly linked entries hanging off an array of heads, and the two pointer operations
    everything in src/hashtable.c and src/hashtable_itr.c is made of. */
module Chains {

  /** Key, value and hash are set when the entry is made and never change. */
  class Entry<K, V> {
    const k: K
    const v: V
    const h: nat
    var next: Entry?<K, V>

    constructor (k: K, v: V, h: nat)
      ensures this.k == k && this.v == v && this.h == h && next == null
    {
      this.k, this.v, this.h, next := k, v, h, null;
    }
  }

  /** The entries of `s`, linked in this order; the last one points to `rest`. */
  ghost predicate Row<K, V>(s: seq<Entry<K, V>>, rest: Entry?<K, V>)
    reads s
  {
    && (forall i {:trigger s[i].next} :: 0 <= i < |s| - 1 ==> s[i].next == s[i + 1])
    && (s != [] ==> s[|s| - 1].next == rest)
  }

  /** A null-terminated chain that starts at `head`. */
  ghost predicate Linked<K, V>(head: Entry?<K, V>, s: seq<Entry<K, V>>)
    reads s
  {
    head == (if s == [] then null else s[0]) && Row(s, null)
  }

  /** Null-terminated means acyclic. */
  lemma {:induction false} RowIsAcyclic<K, V>(s: seq<Entry<K, V>>, i: nat, j: nat)
    requires Row(s, null) && i < j < |s|
    ensures s[i] != s[j]
    decreases |s| - j
  {
    assert s[i].next == s[i + 1];
    if j + 1 < |s| {
      assert s[j].next == s[j + 1];
      RowIsAcyclic(s, i + 1, j + 1);
    }
  }

  function Without<T>(s: seq<T>, p: nat): seq<T>
    requires p < |s|
  {
    s[..p] + s[p + 1..]
  }

  /** All chains hang where they should: `heads[b]` starts `chains[b]`. */
  ghost predicate Wired<K, V>(heads: seq<Entry?<K, V>>, chains: seq<seq<Entry<K, V>>>, all: set<Entry<K, V>>)
    reads all
  {
    && |heads| == |chains|
    && (forall b, x :: 0 <= b < |chains| && x in chains[b] ==> x in all)
    && forall b :: 0 <= b < |chains| ==> Linked(heads[b], chains[b])
  }

  /** The chains hold exactly the entries of `all`, each in one chain only: `home` tells which. */
  ghost predicate Spread<K, V>(chains: seq<seq<Entry<K, V>>>, all: set<Entry<K, V>>, home: map<Entry<K, V>, nat>) {
    && (forall b, x :: 0 <= b < |chains| && x in chains[b] ==> x in all && x in home && home[x] == b)
    && (forall x :: x in all ==> x in home && home[x] < |chains| && x in chains[home[x]])
  }

  function Total<T>(chains: seq<seq<T>>): nat {
    if chains == [] then 0 else |chains[0]| + Total(chains[1..])
  }

  lemma {:induction false} TotalUpdate<T>(chains: seq<seq<T>>, b: nat, s: seq<T>)
    requires b < |chains|
    ensures Total(chains[b := s]) == Total(chains) - |chains[b]| + |s|
    decreases |chains|
  {
    if b == 0 {
      assert chains[b := s][1..] == chains[1..];
    } else {
      TotalUpdate(chains[1..], b - 1, s);
      assert chains[b := s][1..] == chains[1..][b - 1 := s];
    }
  }

  lemma SpreadRemove<K, V>(chains: seq<seq<Entry<K, V>>>, all: set<Entry<K, V>>, home: map<Entry<K, V>, nat>, b: nat, p: nat)
    requires b < |chains| && p < |chains[b]| && Spread(chains, all, home)
    requires forall i :: 0 <= i < |chains[b]| && i != p ==> chains[b][i] != chains[b][p]
    ensures Spread(chains[b := Without(chains[b], p)], all - {chains[b][p]}, home)
  {
    var s, r, e := chains[b], Without(chains[b], p), chains[b][p];
    assert forall i :: 0 <= i < |s| && i != p ==> s[i] == r[if i < p then i else i - 1];
    assert forall x :: x in s && x != e ==> x in r;
    assert e !in r;
    assert e in chains[b] && home[e] == b;
    forall c | 0 <= c < |chains| && c != b ensures e !in chains[c] {}
  }

  lemma SpreadAdd<K, V>(chains: seq<seq<Entry<K, V>>>, all: set<Entry<K, V>>, home: map<Entry<K, V>, nat>, c: nat, e: Entry<K, V>)
    requires c < |chains| && e !in all && Spread(chains, all, home)
    ensures Spread(chains[c := [e] + chains[c]], all + {e}, home[e := c])
  {
    var chains' := chains[c := [e] + chains[c]];
    assert forall b, x :: 0 <= b < |chains| && x in chains[b] ==> x in chains'[b] && x != e;
    assert e in chains'[c];
  }

  /** The pointer write `*pE = e->next`, by the chains. */
  method Bypass<K, V>(t: array<Entry?<K, V>>, b: nat, prev: Entry?<K, V>, e: Entry<K, V>, ghost p: nat,
                      ghost chains: seq<seq<Entry<K, V>>>, ghost all: set<Entry<K, V>>, ghost home: map<Entry<K, V>, nat>)
    requires b < |chains| && p < |chains[b]| && e == chains[b][p] && prev == (if p == 0 then null else chains[b][p - 1])
    requires Wired(t[..], chains, all) && Spread(chains, all, home)
    modifies t, (if prev == null then {} else {prev})`next
    ensures Wired(t[..], chains[b := Without(chains[b], p)], all)
    ensures forall i :: 0 <= i < |chains[b]| && i != p ==> chains[b][i] != e
    ensures e.next == old(e.next)
  {
    ghost var s := chains[b];
    ghost var heads := t[..];
    assert Linked(heads[b], s);
    Alone(s, p);
    if p > 0 {
      Alone(s, p - 1);
    }
    if prev != null {
      var before: Entry<K, V> := prev;
      assert before in chains[b] && home[before] == b;
      forall c | 0 <= c < |chains| && c != b ensures before !in chains[c] {}
    }
    if prev == null {
      t[b] := e.next;
    } else {
      prev.next := e.next;
    }
    RowCut(s, p);
    ghost var chains' := chains[b := Without(s, p)];
    forall c | 0 <= c < |chains| ensures Linked(t[..][c], chains'[c]) {
      if c != b {
        assert old(Linked(heads[c], chains[c]));
      }
    }
  }

  /** Takes the entry at position `p` out of its chain. `prev` is the entry before it, or null at the head. */
  method Unlink<K, V>(t: array<Entry?<K, V>>, b: nat, prev: Entry?<K, V>, e: Entry<K, V>, ghost p: nat,
                      ghost chains: seq<seq<Entry<K, V>>>, ghost all: set<Entry<K, V>>, ghost home: map<Entry<K, V>, nat>)
    returns (ghost chains': seq<seq<Entry<K, V>>>)
    requires b < |chains| && p < |chains[b]| && e == chains[b][p] && prev == (if p == 0 then null else chains[b][p - 1])
    requires Wired(t[..], chains, all) && Spread(chains, all, home)
    modifies t, (if prev == null then {} else {prev})`next
    ensures chains' == chains[b := Without(chains[b], p)] && Total(chains') == Total(chains) - 1
    ensures Wired(t[..], chains', all - {e}) && Spread(chains', all - {e}, home)
    ensures e.next == old(e.next)
  {
    chains' := chains[b := Without(chains[b], p)];
    Bypass(t, b, prev, e, p, chains, all, home);
    SpreadRemove(chains, all, home, b, p);
    TotalUpdate(chains, b, Without(chains[b], p));
    hide Linked, Total;
  }

  /** `e->next = t[c]; t[c] = e`: puts an entry that is in no chain in front of one. */
  method PushFront<K, V>(t: array<Entry?<K, V>>, c: nat, e: Entry<K, V>,
                         ghost chains: seq<seq<Entry<K, V>>>, ghost all: set<Entry<K, V>>, ghost home: map<Entry<K, V>, nat>)
    returns (ghost chains': seq<seq<Entry<K, V>>>)
    requires c < |chains| && Wired(t[..], chains, all) && Spread(chains, all, home) && e !in all
    modifies t, e`next
    ensures chains' == chains[c := [e] + chains[c]] && Total(chains') == Total(chains) + 1
    ensures Wired(t[..], chains', all + {e}) && Spread(chains', all + {e}, home[e := c])
  {
    ghost var heads := t[..];
    ghost var s := chains[c];
    chains' := chains[c := [e] + s];
    assert Linked(heads[c], s);
    SpreadAdd(chains, all, home, c, e);
    TotalUpdate(chains, c, [e] + s);
    hide Spread, Total;
    e.next := t[c];
    t[c] := e;
    RowCons(e, s);
    forall b | 0 <= b < |chains| ensures Linked(t[..][b], chains'[b]) {
      if b != c {
        assert old(Linked(heads[b], chains[b]));
      }
    }
  }

  lemma RowCons<K, V>(e: Entry<K, V>, s: seq<Entry<K, V>>)
    requires Row(s, null) && e.next == (if s == [] then null else s[0])
    ensures Row([e] + s, null)
  {
    var t := [e] + s;
    forall i {:trigger t[i].next} | 0 <= i < |t| - 1 ensures t[i].next == t[i + 1] {
      if i > 0 {
        assert s[i - 1].next == s[i];
      }
    }
  }

  lemma Alone<K, V>(s: seq<Entry<K, V>>, p: nat)
    requires Row(s, null) && p < |s|
    ensures forall i :: 0 <= i < |s| && i != p ==> s[i] != s[p]
  {
    forall i | 0 <= i < |s| && i != p ensures s[i] != s[p] {
      if i < p {
        RowIsAcyclic(s, i, p);
      } else {
        RowIsAcyclic(s, p, i);
      }
    }
  }

  /** A row with the entry at `p` bypassed. */
  lemma RowCut<K, V>(s: seq<Entry<K, V>>, p: nat)
    requires p < |s|
    requires forall i {:trigger s[i].next} :: 0 <= i < |s| - 1 && i + 1 != p ==> s[i].next == s[i + 1]
    requires p + 1 < |s| ==> s[|s| - 1].next == null
    requires p > 0 ==> s[p - 1].next == (if p + 1 < |s| then s[p + 1] else null)
    ensures Row(Without(s, p), null)
  {
    var r := Without(s, p);
    forall i {:trigger r[i].next} | 0 <= i < |r| - 1 ensures r[i].next == r[i + 1] {
      if i + 1 < p {
        assert s[i].next == s[i + 1];
      } else if i >= p {
        assert s[i + 1].next == s[i + 2];
      }
    }
  }

  lemma NextInRow<K, V>(s: seq<Entry<K, V>>, i: nat)
    requires Row(s, null) && i < |s|
    ensures s[i].next == (if i + 1 < |s| then s[i + 1] else null)
  {}
}
