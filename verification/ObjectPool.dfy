/** The growing pointer array (src/rpc_array.c) and the free lists of request and response objects that
    are kept in it (src/rpc_request.c, src/rpc_response.c). */
module ObjectPool {
  import opened Seqs
  import opened Wire

  const ARRAY_SIZE: nat := 200

  /** A null pointer is `None`. `size` in the source is `data.Length` here. */
  class RpcArray<T> {
    var data: array<Option<T>>
    var cur: nat

    ghost predicate Valid()
      reads this, data
    {
      0 < data.Length && cur <= data.Length && forall i :: 0 <= i < cur ==> data[i].Some?
    }

    ghost function Contents(): (s: seq<T>)
      reads this, data
      requires Valid()
      ensures |s| == cur && forall i :: 0 <= i < cur ==> data[i] == Some(s[i])
    {
      seq(cur, i requires 0 <= i < cur reads this, data requires Valid() => data[i].value)
    }

    constructor (size: nat)
      requires 0 < size
      ensures Valid() && fresh(data) && data.Length == size && Contents() == []
    {
      data := new Option<T>[size](_ => None);
      cur := 0;
    }

    /** Takes the last element. */
    method Get() returns (item: Option<T>)
      requires Valid()
      modifies this
      ensures Valid() && data == old(data)
      ensures old(Contents()) == [] ==> item == None && Contents() == []
      ensures old(Contents()) != [] ==> item.Some? && Contents() + [item.value] == old(Contents())
    {
      item := None;
      if cur > 0 {
        cur := cur - 1;
        item := data[cur];
      }
    }

    method Index(index: nat) returns (item: Option<T>)
      requires Valid()
      ensures item == if index < |Contents()| then Some(Contents()[index]) else None
    {
      item := None;
      if cur > index {
        item := data[index];
      }
    }

    /** Appends, doubling the array when it is full; `memory` says whether realloc can deliver. */
    method Add(item: T, memory: bool) returns (ok: bool)
      requires Valid()
      modifies this, data
      ensures Valid() && (data == old(data) || fresh(data))
      ensures ok == (old(|Contents()| < data.Length) || memory)
      ensures Contents() == if ok then old(Contents()) + [item] else old(Contents())
    {
      ok := true;
      if cur < data.Length {
        data[cur] := Some(item);
        cur := cur + 1;
      } else if memory {
        var bigger := new Option<T>[data.Length * 2](_ => None);
        forall i | 0 <= i < data.Length {
          bigger[i] := data[i];
        }
        data := bigger;
        data[cur] := Some(item);
        cur := cur + 1;
      } else {
        ok := false;
      }
    }
  }

  /** A free list with a record of the objects that are in use: `live` holds those handed out and not yet
      given back. An object is never on the list and in use at once, nor on the list twice. */
  class FreeList<T(==)> {
    const list: RpcArray<T>
    ghost var live: set<T>

    ghost predicate Valid()
      reads this, list, list.data
    {
      list.Valid() && Distinct(list.Contents()) && Elements(list.Contents()) !! live
    }

    ghost function Free(): set<T>
      reads this, list, list.data
      requires Valid()
    {
      Elements(list.Contents())
    }

    ghost function Repr(): set<object>
      reads this, list
    {
      {this, list, list.data}
    }

    constructor ()
      ensures Valid() && fresh(Repr()) && list.data.Length == 200 && Free() == {} && live == {}
    {
      list := new RpcArray<T>(ARRAY_SIZE);
      live := {};
    }

    method Take() returns (item: Option<T>)
      requires Valid()
      modifies Repr()
      ensures Valid() && list.data == old(list.data)
      ensures item == None ==> Free() == old(Free()) == {} && live == old(live)
      ensures item.Some? ==>
        item.value in old(Free()) && Free() == old(Free()) - {item.value} && live == old(live) + {item.value}
    {
      ghost var before := list.Contents();
      item := list.Get();
      if item.Some? {
        ghost var after := list.Contents();
        assert forall i :: 0 <= i < |after| ==> after[i] == before[i];
        assert before[|after|] == item.value;
        live := live + {item.value};
      }
    }

    /** A new object from malloc enters into use. */
    ghost method Enlist(item: T)
      requires Valid() && item !in Free()
      modifies this
      ensures Valid() && Free() == old(Free()) && live == old(live) + {item}
    {
      live := live + {item};
    }

    /** Gives an object back. It must be in use: giving it back twice is excluded. When the list
        cannot grow the object is released instead. */
    method Give(item: T, memory: bool) returns (kept: bool)
      requires Valid() && item in live
      modifies Repr()
      ensures Valid() && (list.data == old(list.data) || fresh(list.data))
      ensures live == old(live) - {item}
      ensures Free() == old(Free()) + if kept then {item} else {}
      ensures kept == (old(list.cur < list.data.Length) || memory)
    {
      ghost var before := list.Contents();
      live := live - {item};
      kept := list.Add(item, memory);
      if kept {
        assert list.Contents() == before + [item];
        assert forall i :: 0 <= i < |before| ==> before[i] in Elements(before);
        assert Elements(before + [item]) == Elements(before) + {item};
      }
    }
  }
}
