/** The hash table against a finite map, over whole runs of its operations (src/hashtable.c). */
module HashtableRuns {
  import opened Hashtable
  import opened Wire

  /** `room` and `memory` say what realloc and malloc can deliver to an insertion. */
  datatype Op<K, V> = Put(k: K, v: V, room: Memory, memory: bool) | Look(k: K) | Take(k: K)

  function Apply<K, V>(m: map<K, V>, op: Op<K, V>): map<K, V> {
    match op
    case Put(k, v, _, memory) => if memory then m[k := v] else m
    case Look(_) => m
    case Take(k) => m - {k}
  }

  /** The value found, for a search and for a removal. */
  function Outcome<K, V>(m: map<K, V>, op: Op<K, V>): Option<V> {
    if !op.Put? && op.k in m then Some(m[op.k]) else None
  }

  function Final<K, V>(m: map<K, V>, ops: seq<Op<K, V>>): map<K, V> {
    if ops == [] then m else Apply(Final(m, ops[..|ops| - 1]), ops[|ops| - 1])
  }

  predicate EnoughMemory<K, V>(op: Op<K, V>) { op.Put? ==> op.room != NoMemory }

  method Perform<K(==), V>(h: Hashtable<K, V>, op: Op<K, V>) returns (found: Option<V>)
    requires h.Valid() && (op.Put? ==> op.k !in Contents(h.at))
    modifies h`table, h`tablelength, h`loadlimit, h`primeindex, h`entrycount, h`chains, h`all, h`at, h.table, h.all`next
    ensures h.Valid() && (h.table == old(h.table) || fresh(h.table)) && fresh(h.all - old(h.all))
    ensures Contents(h.at) == Apply(old(Contents(h.at)), op) && found == Outcome(old(Contents(h.at)), op)
    ensures EnoughMemory(op) && old(h.WithinLimit()) ==> h.WithinLimit()
  {
    hide Hashtable.Valid, Contents;
    found := None;
    match op
    case Put(k, v, room, memory) =>
      ContentsWithout(h.at, k);
      var ok := h.Insert(k, v, room, memory);
    case Look(k) =>
      found := h.Search(k);
    case Take(k) =>
      found := h.Remove(k);
  }

  /** After the first `|found|` operations the table holds `now`; `within` tells whether it keeps to its limit. */
  ghost predicate Replayed<K, V>(m: map<K, V>, ops: seq<Op<K, V>>, found: seq<Option<V>>, now: map<K, V>, limited: bool, within: bool) {
    && |found| <= |ops| && now == Final(m, ops[..|found|])
    && (forall i :: 0 <= i < |found| ==> found[i] == Outcome(Final(m, ops[..i]), ops[i]))
    && ((forall op :: op in ops ==> EnoughMemory(op)) && limited ==> within)
  }

  lemma ReplayedMore<K, V>(m: map<K, V>, ops: seq<Op<K, V>>, found: seq<Option<V>>, now: map<K, V>, limited: bool, within: bool,
                           result: Option<V>, within': bool)
    requires Replayed(m, ops, found, now, limited, within) && |found| < |ops| && result == Outcome(now, ops[|found|])
    requires EnoughMemory(ops[|found|]) && within ==> within'
    ensures Replayed(m, ops, found + [result], Apply(now, ops[|found|]), limited, within')
  {
    hide Apply, Outcome, EnoughMemory;
    assert ops[..|found| + 1][..|found|] == ops[..|found|];
    assert ops[|found|] in ops;
  }

  lemma ReplayedNow<K, V>(m: map<K, V>, ops: seq<Op<K, V>>, found: seq<Option<V>>, now: map<K, V>, limited: bool, within: bool)
    requires Replayed(m, ops, found, now, limited, within)
    ensures |found| <= |ops| && now == Final(m, ops[..|found|])
  {}

  /** Whatever the operations, as long as no key is inserted while it is in the table, and however memory runs short, the table agrees with the map; with memory for its expansions it
      keeps to its load limit until it has reached the last size. */
  method Replay<K(==), V>(h: Hashtable<K, V>, ops: seq<Op<K, V>>) returns (found: seq<Option<V>>)
    requires h.Valid() && forall i :: 0 <= i < |ops| && ops[i].Put? ==> ops[i].k !in Final(Contents(h.at), ops[..i])
    modifies h`table, h`tablelength, h`loadlimit, h`primeindex, h`entrycount, h`chains, h`all, h`at, h.table, h.all`next
    ensures h.Valid() && |found| == |ops|
    ensures Replayed(old(Contents(h.at)), ops, found, Contents(h.at), old(h.WithinLimit()), h.WithinLimit())
  {
    hide Hashtable.Valid, Contents, Hashtable.WithinLimit, Replayed, Outcome, Apply, EnoughMemory, Final;
    found := [];
    ghost var m, limited := Contents(h.at), h.WithinLimit();
    NothingReplayed(m, ops, limited);
    while |found| < |ops|
      invariant |found| <= |ops| && h.Valid() && (h.table == old(h.table) || fresh(h.table)) && fresh(h.all - old(h.all))
      invariant Replayed(m, ops, found, Contents(h.at), limited, h.WithinLimit())
    {
      ghost var now, within := Contents(h.at), h.WithinLimit();
      ReplayedNow(m, ops, found, now, limited, within);
      var result := Perform(h, ops[|found|]);
      ReplayedMore(m, ops, found, now, limited, within, result, h.WithinLimit());
      found := found + [result];
    }
  }

  lemma NothingReplayed<K, V>(m: map<K, V>, ops: seq<Op<K, V>>, limited: bool)
    ensures Replayed(m, ops, [], m, limited, limited)
  {}
}
