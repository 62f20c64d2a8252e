/** The table that hands out sequence numbers (src/rpc_sessionpool.c). */
module SessionPool {
  import opened Wire

  const POOL_CAPACITY: nat := 1000

  /** The first empty slot, or the size of the table. */
  function FirstEmpty<T>(slots: seq<Option<T>>): (i: nat)
    ensures i <= |slots|
    ensures forall j :: 0 <= j < i ==> slots[j].Some?
    ensures i < |slots| ==> slots[i].None?
  {
    if slots == [] || slots[0].None? then 0 else 1 + FirstEmpty(slots[1..])
  }

  lemma FirstEmptyIs<T>(slots: seq<Option<T>>, i: nat)
    requires i <= |slots|
    requires forall j :: 0 <= j < i ==> slots[j].Some?
    requires i < |slots| ==> slots[i].None?
    ensures FirstEmpty(slots) == i
  {}

  /** One insertion: into the first empty slot, or behind a full table, which then doubles. The rest of the new
      half holds whatever memory held (`junk`). */
  ghost predicate Inserted<T>(slots: seq<Option<T>>, item: T, index: nat, slots': seq<Option<T>>) {
    if FirstEmpty(slots) < |slots| then
      index == FirstEmpty(slots) && slots' == slots[index := Some(item)]
    else
      && index == |slots|
      && |slots'| == 2 * |slots|
      && slots'[..index] == slots
      && (index < |slots'| ==> slots'[index] == Some(item))
  }

  /** A null slot is `None`; `size` in the source is `data.Length`. `live` records the numbers given out and not
      yet taken back. Slots may be occupied without being live: those left over in memory when the table grew. */
  class Pool<T> {
    var data: array<Option<T>>
    ghost var live: map<nat, T>

    ghost predicate Valid()
      reads this, data
    {
      && 0 < data.Length
      && forall i :: i in live ==> i < data.Length && data[i] == Some(live[i])
    }

    constructor ()
      ensures Valid() && fresh(data) && data.Length == 1000 && live == map[]
    {
      data := new Option<T>[POOL_CAPACITY](_ => None);
      live := map[];
    }

    /** A number that is not in use now belongs to `item`; every other number keeps its item. */
    method Insert(item: T) returns (index: nat)
      requires Valid()
      modifies this, data
      ensures Valid() && (data == old(data) || fresh(data))
      ensures index !in old(live) && live == old(live)[index := item]
      ensures index <= old(data.Length) && forall j :: 0 <= j < index ==> old(data[..])[j].Some?
      ensures data.Length == if index < old(data.Length) then old(data.Length) else 2 * old(data.Length)
      ensures Inserted(old(data[..]), item, index, data[..])
    {
      index := 0;
      while index < data.Length
        invariant index <= data.Length
        invariant forall j :: 0 <= j < index ==> data[j].Some?
      {
        if data[index].None? {
          FirstEmptyIs(data[..], index);
          data[index] := Some(item);
          live := live[index := item];
          return;
        }
        index := index + 1;
      }
      FirstEmptyIs(data[..], index);
      ghost var before := data[..];
      var bigger := new Option<T>[2 * data.Length];  // realloc: the new half is not cleared
      forall i | 0 <= i < data.Length {
        bigger[i] := data[i];
      }
      data := bigger;
      assert data[..index] == before;
      data[index] := Some(item);
      assert data[..][..index] == before;
      live := live[index := item];
    }

    /** The item in a slot changes in place, as when the request that the slot points to is given its number. */
    method Change(index: nat, item: T)
      requires Valid() && index in live
      modifies this`live, data
      ensures Valid() && live == old(live)[index := item]
      ensures data[..] == old(data[..])[index := Some(item)]
    {
      data[index] := Some(item);
      live := live[index := item];
    }

    /** The assertions on the index are the caller's obligation. */
    method Get(index: int) returns (item: Option<T>)
      requires Valid() && 0 <= index < data.Length
      ensures item == data[index]
      ensures index in live ==> item == Some(live[index])
    {
      item := data[index];
    }

    /** Frees this slot and no other. */
    method Remove(index: int)
      requires Valid() && 0 <= index < data.Length
      modifies this`live, data
      ensures Valid() && live == old(live) - {index}
      ensures data[..] == old(data[..])[index := None]
    {
      if data[index].Some? {
        data[index] := None;
      }
      live := live - {index};
    }
  }

  /** Numbers in use are told apart by their slots: two insertions without a removal in between
      never share a number, whatever junk the tables hold. */
  lemma NumbersDiffer<T>(s0: seq<Option<T>>, a: T, i: nat, s1: seq<Option<T>>, b: T, j: nat, s2: seq<Option<T>>)
    requires s0 != [] && Inserted(s0, a, i, s1) && Inserted(s1, b, j, s2)
    ensures i != j && i < |s2| && j < |s2| && s2[i] == Some(a) && s2[j] == Some(b)
  {
    if FirstEmpty(s1) == |s1| {
      assert s2[..j][i] == s1[i];
    }
  }
}
