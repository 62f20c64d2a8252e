/** FIFO queues that draw their nodes from one free list, which is refilled a slab at a time
    (src/rpc_queue.c, src/rpc_async_queue.c). */
module ItemQueue {

  const FREE_ITEM_LEN: nat := 32

  class Item<T(0)> {
    var data: T
    var next: Item?<T>

    constructor () {
      next := null;
    }
  }

  /** The nodes of `s`, linked in this order; the last one points to `rest`. */
  ghost predicate Row<T(0)>(s: seq<Item<T>>, rest: Item?<T>)
    reads s
  {
    && (forall i {:trigger s[i].next} :: 0 <= i < |s| - 1 ==> s[i].next == s[i + 1])
    && (s != [] ==> s[|s| - 1].next == rest)
  }

  /** A null-terminated chain that starts at `head`. */
  ghost predicate Linked<T(0)>(head: Item?<T>, s: seq<Item<T>>)
    reads s
  {
    head == (if s == [] then null else s[0]) && Row(s, null)
  }

  /** Ended by null means free of cycles. */
  lemma {:induction false} LinkedIsAcyclic<T(0)>(s: seq<Item<T>>, i: nat, j: nat)
    requires Row(s, null) && i < j < |s|
    ensures s[i] != s[j]
    decreases |s| - j
  {
    assert s[i].next == s[i + 1];
    if j + 1 < |s| {
      assert s[j].next == s[j + 1];
      LinkedIsAcyclic(s, i + 1, j + 1);
    }
  }

  lemma RowAppend<T(0)>(s: seq<Item<T>>, head: Item?<T>, s': seq<Item<T>>)
    requires s != [] && Row(s, head) && Linked(head, s')
    ensures Row(s + s', null) && Linked(s[0], s + s')
  {
    var t := s + s';
    forall i {:trigger t[i].next} | 0 <= i < |t| - 1 ensures t[i].next == t[i + 1] {
      if i >= |s| {
        assert t[i] == s'[i - |s|] && t[i + 1] == s'[i + 1 - |s|];
      } else if i + 1 < |s| {
        assert t[i] == s[i] && t[i + 1] == s[i + 1];
      } else {
        assert t[i] == s[|s| - 1] && t[i + 1] == s'[0];
      }
    }
    assert s' != [] ==> t[|t| - 1] == s'[|s'| - 1];
  }

  /** A slab of 32 nodes: one for the caller, the others linked in a row that ends at `rest`. */
  method NewSlab<T(0)>(rest: Item?<T>) returns (item: Item<T>, first: Item<T>, ghost chain: seq<Item<T>>)
    ensures fresh(item) && item !in chain && forall x :: x in chain ==> fresh(x)
    ensures |chain| == 31 && first == chain[0]
    ensures Row(chain, rest)
  {
    item := new Item<T>();
    first := new Item<T>();
    var cur := first;
    chain := [first];
    for i := 2 to FREE_ITEM_LEN
      invariant |chain| == i - 1 && chain[0] == first && chain[|chain| - 1] == cur
      invariant forall j :: 0 <= j < |chain| - 1 ==> chain[j] != cur
      invariant forall j {:trigger chain[j].next} :: 0 <= j < |chain| - 1 ==> chain[j].next == chain[j + 1]
      invariant fresh(cur) && item !in chain && forall x :: x in chain ==> fresh(x)
    {
      var e := new Item<T>();
      assert e !in chain;
      cur.next := e;
      cur := e;
      chain := chain + [e];
    }
    cur.next := rest;
  }

  class Queue<T(0)> {
    var head: Item?<T>
    var tail: Item?<T>
    ghost var items: seq<Item<T>>

    ghost var contents: seq<T>

    /** `head` starts the chain, `tail` is its last node, and the nodes hold the contents in order. */
    ghost predicate Valid()
      reads this, items
    {
      && Linked(head, items)
      && tail == (if items == [] then null else items[|items| - 1])
      && |contents| == |items|
      && forall i :: 0 <= i < |items| ==> items[i].data == contents[i]
    }

    constructor ()
      ensures Valid() && items == [] && contents == []
    {
      head, tail, items, contents := null, null, [], [];
    }

    ghost function LastNode(): set<Item<T>>
      reads this
    {
      if items == [] then {} else {items[|items| - 1]}
    }

    /** Links a node behind the last one. */
    method Append(item: Item<T>)
      requires Valid() && item !in items && item.next == null
      modifies this, LastNode()`next
      ensures Valid() && items == old(items) + [item]
      ensures contents == old(contents) + [item.data]
    {
      ghost var before := items;
      if tail != null {
        LastIsAlone(before);
        tail.next := item;
      } else {
        head := item;
      }
      tail := item;
      items := items + [item];
      contents := contents + [item.data];
      assert forall i {:trigger items[i].next} :: 0 <= i < |before| - 1 ==> items[i] == before[i] && items[i + 1] == before[i + 1];
      assert before != [] ==> items[|before| - 1] == before[|before| - 1];
    }

    /** Unlinks the first node. */
    method Unlink() returns (item: Item?<T>)
      requires Valid()
      modifies this
      ensures Valid()
      ensures old(items) == [] ==> item == null && items == []
      ensures old(items) != [] ==>
        item == old(items)[0] && items == old(items)[1..] && [item.data] + contents == old(contents)
    {
      item := head;
      if item != null {
        FirstIsAlone(items);
        head := item.next;
        if item.next == null {
          tail := null;
        }
        items := items[1..];
        contents := contents[1..];
      }
    }
  }

  /** Where a node is: on the free list, in a queue, or in the hands of an operation that is under way. */
  datatype Place<T(0)> = Free | Queued(q: Queue<T>) | Hand

  /** Every node is in exactly one place, and is found there: `list` is the free list and `rows` are the queues. */
  ghost predicate Accounted<T(0)>(list: seq<Item<T>>, rows: map<Queue<T>, seq<Item<T>>>, place: map<Item<T>, Place<T>>) {
    && (forall x :: x in list ==> x in place && place[x] == Free)
    && (forall q, x :: q in rows && x in rows[q] ==> x in place && place[x] == Queued(q))
    && (forall x :: x in place && place[x] == Free ==> x in list)
    && (forall x :: x in place && place[x].Queued? ==> place[x].q in rows && x in rows[place[x].q])
  }

  ghost function InHand<T(0)>(place: map<Item<T>, Place<T>>): set<Item<T>> {
    set x | x in place && place[x] == Hand
  }

  lemma AccountSlab<T(0)>(list: seq<Item<T>>, rows: map<Queue<T>, seq<Item<T>>>, place: map<Item<T>, Place<T>>,
                          item: Item<T>, chain: seq<Item<T>>)
    requires Accounted(list, rows, place) && item !in place && item !in chain
    requires forall x :: x in chain ==> x !in place
    ensures var place' := place[item := Hand] + map x | x in chain :: Free;
      Accounted(chain + list, rows, place') && InHand(place') == InHand(place) + {item}
  {}

  lemma AccountNew<T(0)>(list: seq<Item<T>>, rows: map<Queue<T>, seq<Item<T>>>, place: map<Item<T>, Place<T>>, q: Queue<T>)
    requires Accounted(list, rows, place) && q !in rows
    ensures Accounted(list, rows[q := []], place)
  {}

  lemma AccountTake<T(0)>(list: seq<Item<T>>, rows: map<Queue<T>, seq<Item<T>>>, place: map<Item<T>, Place<T>>)
    requires Accounted(list, rows, place) && list != [] && list[0] !in list[1..]
    ensures var place' := place[list[0] := Hand];
      Accounted(list[1..], rows, place') && InHand(place') == InHand(place) + {list[0]}
  {
    assert list == [list[0]] + list[1..];
    forall q, x | q in rows && x in rows[q] ensures x != list[0] {
      assert place[x] != place[list[0]];
    }
  }

  lemma AccountFree<T(0)>(list: seq<Item<T>>, rows: map<Queue<T>, seq<Item<T>>>, place: map<Item<T>, Place<T>>, item: Item<T>)
    requires Accounted(list, rows, place) && item in InHand(place)
    ensures var place' := place[item := Free];
      Accounted([item] + list, rows, place') && InHand(place') == InHand(place) - {item} && place'.Keys == place.Keys
  {}

  lemma AccountPush<T(0)>(list: seq<Item<T>>, rows: map<Queue<T>, seq<Item<T>>>, place: map<Item<T>, Place<T>>,
                          q: Queue<T>, item: Item<T>)
    requires Accounted(list, rows, place) && q in rows && item in InHand(place)
    ensures var place' := place[item := Queued(q)];
      Accounted(list, rows[q := rows[q] + [item]], place') && InHand(place') == InHand(place) - {item}
      && place'.Keys == place.Keys
  {}

  lemma AccountPop<T(0)>(list: seq<Item<T>>, rows: map<Queue<T>, seq<Item<T>>>, place: map<Item<T>, Place<T>>, q: Queue<T>)
    requires Accounted(list, rows, place) && q in rows && rows[q] != [] && rows[q][0] !in rows[q][1..]
    ensures var item := rows[q][0]; var place' := place[item := Hand];
      Accounted(list, rows[q := rows[q][1..]], place') && InHand(place') == InHand(place) + {item}
      && place'.Keys == place.Keys && item !in InHand(place)
  {}

  /** The free list shared by all queues, with the place of every node ever allocated. `rows` are the queues
      and the nodes in them. */
  class Slab<T(0)> {
    var free: Item?<T>
    ghost var list: seq<Item<T>>
    ghost var place: map<Item<T>, Place<T>>
    ghost var rows: map<Queue<T>, seq<Item<T>>>

    ghost predicate Valid()
      reads this, rows.Keys, place.Keys
    {
      && Accounted(list, rows, place)
      && Linked(free, list)
      && forall q :: q in rows ==> q.items == rows[q] && q.Valid()
    }

    constructor ()
      ensures Valid() && rows == map[] && place == map[]
    {
      free, list, place, rows := null, [], map[], map[];
    }

    /** rpc_queue_new and rpc_async_queue_new: one more queue, empty, on the same free list. */
    method NewQueue() returns (q: Queue<T>)
      requires Valid()
      modifies this`rows
      ensures Valid() && fresh(q) && q !in old(rows) && rows == old(rows)[q := []] && q.contents == []
    {
      hide Accounted, Linked;
      q := new Queue<T>();
      assert q !in rows;
      AccountNew(list, rows, place, q);
      rows := rows[q := []];
    }

    /** 32 nodes from malloc: the first for the caller, the others linked in front of the free list. */
    method Refill() returns (item: Item<T>)
      requires Valid()
      modifies this`free, this`list, this`place
      ensures Valid() && fresh(item) && fresh(place.Keys - old(place.Keys)) && old(place.Keys) <= place.Keys
      ensures item !in old(place) && InHand(place) == InHand(old(place)) + {item}
      ensures |list| == |old(list)| + 31
    {
      hide Accounted, InHand, Linked, Row;
      var first;
      ghost var chain;
      item, first, chain := NewSlab(free);
      RowAppend(chain, free, list);
      AccountSlab(list, rows, place, item, chain);
      place := place[item := Hand] + map x | x in chain :: Free;
      free := first;
      list := chain + list;
    }

    /** rpc_queue_item_new. */
    method ItemNew() returns (item: Item<T>)
      requires Valid()
      modifies this`free, this`list, this`place
      ensures Valid() && fresh(place.Keys - old(place.Keys)) && old(place.Keys) <= place.Keys
      ensures InHand(place) == InHand(old(place)) + {item} && item !in InHand(old(place))
      ensures old(list) != [] ==> place.Keys == old(place.Keys)
    {
      if free != null {
        item := free;
        AccountTake(list, rows, place) by { FirstIsAlone(list); }
        free := free.next;
        place := place[item := Hand];
        list := list[1..];
      } else {
        item := Refill();
      }
    }
  
    /** rpc_queue_item_free, as far as the links go. */
    method PutBack(item: Item<T>)
      requires Valid() && item in InHand(place)
      modifies this`free, item`next
      ensures Linked(free, [item] + list)
      ensures forall p :: p in rows ==> p.items == rows[p] && p.Valid()
    {
      NotInRows(list, rows, place, item);
      hide Accounted, InHand;
      if free != null {
        item.next := free;
      } else {
        item.next := null;
      }
      RowCons(item, list);
      free := item;
    }

    /** rpc_queue_item_free. */
    method ItemFree(item: Item<T>)
      requires Valid() && item in InHand(place)
      modifies this`free, this`list, this`place, item`next
      ensures Valid() && place.Keys == old(place.Keys) && InHand(place) == InHand(old(place)) - {item}
      ensures |list| == |old(list)| + 1
    {
      hide Accounted, InHand, Linked, Queue.Valid;
      AccountFree(list, rows, place, item);
      PutBack(item);
      place := place[item := Free];
      list := [item] + list;
    }

    /** Linking a node leaves every other chain alone. */
    method Link(q: Queue<T>, item: Item<T>)
      requires Valid() && q in rows && item in InHand(place) && item.next == null
      modifies q, q.LastNode()`next
      ensures q.items == rows[q] + [item] && q.Valid() && Linked(free, list)
      ensures forall p :: p in rows && p != q ==> p.items == rows[p] && p.Valid()
      ensures q.contents == old(q.contents) + [item.data]
    {
      hide Accounted, InHand;
      NotInRows(list, rows, place, item);
      RowsApart(list, rows, place, q);
      assert forall x :: x in q.LastNode() ==> x in rows[q];
      hide Linked;
      q.Append(item);
    }

    /** The linking step of a push, under the queue's lock. */
    method Enqueue(q: Queue<T>, item: Item<T>)
      requires Valid() && q in rows && item in InHand(place) && item.next == null
      modifies q, q.LastNode()`next, this`rows, this`place
      ensures Valid() && rows == old(rows)[q := old(rows[q]) + [item]] && place.Keys == old(place.Keys)
      ensures InHand(place) == InHand(old(place)) - {item}
      ensures q.contents == old(q.contents) + [item.data]
    {
      hide Accounted, InHand, Linked, Queue.Valid;
      AccountPush(list, rows, place, q, item);
      Link(q, item);
      rows := rows[q := rows[q] + [item]];
      place := place[item := Queued(q)];
    }

    /** Unlinking a node leaves every other chain alone. */
    method UnlinkFrom(q: Queue<T>) returns (item: Item?<T>)
      requires Valid() && q in rows
      modifies q
      ensures q.Valid() && Linked(free, list)
      ensures forall p :: p in rows && p != q ==> p.items == rows[p] && p.Valid()
      ensures rows[q] == [] ==> item == null && q.items == []
      ensures rows[q] != [] ==>
        item == rows[q][0] && q.items == rows[q][1..] && [item.data] + q.contents == old(q.contents)
    {
      hide Accounted, Linked;
      item := q.Unlink();
    }

    /** The unlinking step of a pop, under the queue's lock. */
    method Dequeue(q: Queue<T>) returns (item: Item?<T>)
      requires Valid() && q in rows
      modifies q, this`rows, this`place
      ensures Valid() && place.Keys == old(place.Keys)
      ensures old(rows[q]) == [] ==> item == null && rows == old(rows) && place == old(place) && q.contents == []
      ensures old(rows[q]) != [] ==>
        item == old(rows[q])[0] && rows == old(rows)[q := old(rows[q])[1..]] && item !in InHand(old(place))
        && InHand(place) == InHand(old(place)) + {item} && [item.data] + q.contents == old(q.contents)
    {
      hide Accounted, InHand, Linked, Queue.Valid;
      if q.head == null {
        EmptyWhenNull(q);
        return null;
      }
      PopAccount(list, rows, place, q);
      item := UnlinkFrom(q);
      rows := rows[q := rows[q][1..]];
      place := place[item := Hand];
    }

    /** Fills a node that is in our hands; no chain notices. */
    method Prepare(item: Item<T>, data: T)
      requires Valid() && item in InHand(place)
      modifies item
      ensures Valid() && item.data == data && item.next == null
    {
      NotInRows(list, rows, place, item);
      hide Accounted, InHand, Linked;
      item.data := data;
      item.next := null;
    }

    /** rpc_queue_push and rpc_async_queue_push. */
    method Push(q: Queue<T>, data: T)
      requires Valid() && q in rows
      modifies this, q, place.Keys - InHand(place)
      ensures Valid() && InHand(place) == old(InHand(place)) && fresh(place.Keys - old(place.Keys)) && old(place.Keys) <= place.Keys
      ensures q.contents == old(q.contents) + [data]
      ensures q in rows && rows == old(rows)[q := rows[q]] && |rows[q]| == |old(rows[q])| + 1
    {
      hide Accounted, InHand, Linked, Queue.Valid, Queue.LastNode;
      LastIsPlaced(list, rows, place, q);
      var item := ItemNew();
      InHandIsPlaced(place);
      Prepare(item, data);
      Enqueue(q, item);
    }

    /** rpc_queue_pop, and rpc_async_queue_try_pop: the oldest element, or nothing. The element is read off the node
        after the node has been given back; no other operation comes in between. */
    method Pop(q: Queue<T>) returns (ok: bool, data: T)
      requires Valid() && q in rows
      modifies this, q, place.Keys - InHand(place)
      ensures Valid() && InHand(place) == old(InHand(place)) && place.Keys == old(place.Keys)
      ensures ok == (old(q.contents) != [])
      ensures ok ==> [data] + q.contents == old(q.contents) && |list| == |old(list)| + 1
      ensures !ok ==> q.contents == [] && list == old(list)
      ensures q in rows && rows == old(rows)[q := rows[q]]
    {
      assert old(q.contents) == [] <==> rows[q] == [];
      hide Accounted, Linked, Queue.Valid;
      var item := Dequeue(q);
      ok := item != null;
      if ok {
        ItemFree(item);
        data := item.data;
      } else {
        data := *;
      }
    }

    /** rpc_async_queue_pop: waits until there is an element. `arrivals[k]` is what other threads push
        before the k-th wake-up; a wake-up may find nothing. */
    method WaitPop(q: Queue<T>, arrivals: seq<seq<T>>) returns (data: T, ghost pushed: seq<T>, waits: nat)
      requires Valid() && q in rows
      requires q.contents + Joined(arrivals) != []
      modifies this, q, place.Keys - InHand(place)
      ensures Valid() && InHand(place) == old(InHand(place)) && fresh(place.Keys - old(place.Keys)) && old(place.Keys) <= place.Keys
      ensures Waited(old(q.contents), arrivals, waits, pushed, [data] + q.contents)
      ensures q in rows && rows == old(rows)[q := rows[q]]
    {
      hide Accounted, Linked, InHand, Joined, Queue.Valid, Waited;
      pushed, waits := [], 0;
      WaitedNot(q.contents, arrivals);
      while q.head == null
        invariant Valid() && q in rows && InHand(place) == old(InHand(place)) && rows == old(rows)[q := rows[q]]
        invariant fresh(place.Keys - old(place.Keys)) && old(place.Keys) <= place.Keys
        invariant waits <= |arrivals| && Waited(old(q.contents), arrivals, waits, pushed, q.contents)
        decreases |arrivals| - waits
      {
        EmptyWhenNull(q);
        WaitedMore(old(q.contents), arrivals, waits, pushed);
        PushAll(q, arrivals[waits]);
        pushed := pushed + arrivals[waits];
        waits := waits + 1;
      }
      NonEmpty(q);
      var ok;
      ok, data := Pop(q);
    }

    /** Other threads' pushes during one wait. */
    method PushAll(q: Queue<T>, ds: seq<T>)
      requires Valid() && q in rows
      modifies this, q, place.Keys - InHand(place)
      ensures Valid() && InHand(place) == old(InHand(place)) && fresh(place.Keys - old(place.Keys)) && old(place.Keys) <= place.Keys
      ensures q.contents == old(q.contents) + ds
      ensures q in rows && rows == old(rows)[q := rows[q]]
    {
      hide Accounted, Linked, InHand, Queue.Valid;
      for i := 0 to |ds|
        invariant Valid() && q in rows && InHand(place) == old(InHand(place)) && rows == old(rows)[q := rows[q]]
        invariant fresh(place.Keys - old(place.Keys)) && old(place.Keys) <= place.Keys
        invariant q.contents == old(q.contents) + ds[..i]
      {
        Push(q, ds[i]);
        assert ds[..i + 1] == ds[..i] + [ds[i]];
      }
      assert ds[..|ds|] == ds;
    }
  }

  lemma EmptyWhenNull<T(0)>(q: Queue<T>)
    requires q.Valid() && q.head == null
    ensures q.items == [] && q.contents == []
  {}

  lemma NonEmpty<T(0)>(q: Queue<T>)
    requires q.Valid() && q.head != null
    ensures q.contents != []
  {}

  /** After `waits` wake-ups, all but the last of them idle and none if there was something from the beginning, the queue has got
      just what was pushed meanwhile. */
  ghost predicate Waited<T>(before: seq<T>, arrivals: seq<seq<T>>, waits: nat, pushed: seq<T>, now: seq<T>) {
    && waits <= |arrivals| && pushed == Joined(arrivals[..waits]) && now == before + pushed
    && (waits > 0 ==> before == [] && forall i :: 0 <= i < waits - 1 ==> arrivals[i] == [])
  }

  lemma WaitedNot<T>(before: seq<T>, arrivals: seq<seq<T>>)
    ensures Waited(before, arrivals, 0, [], before)
  {
    assert before + [] == before;
  }

  lemma WaitedMore<T>(before: seq<T>, arrivals: seq<seq<T>>, waits: nat, pushed: seq<T>)
    requires Waited(before, arrivals, waits, pushed, []) && before + Joined(arrivals) != []
    ensures waits < |arrivals| && Waited(before, arrivals, waits + 1, pushed + arrivals[waits], [] + arrivals[waits])
  {
    hide Joined;
    NothingTwice(before, pushed);
    JoinedSoFar(arrivals, waits, before);
    assert pushed + arrivals[waits] == arrivals[waits] && before + arrivals[waits] == arrivals[waits];
  }

  lemma {:induction false} JoinedMore<T>(ss: seq<seq<T>>, k: nat)
    requires k < |ss|
    ensures Joined(ss[..k + 1]) == Joined(ss[..k]) + ss[k]
    decreases k
  {
    if k == 0 {
      assert ss[..1] == [ss[0]] && [ss[0]][1..] == [];
    } else {
      JoinedMore(ss[1..], k - 1);
      assert ss[..k + 1][1..] == ss[1..][..k] && ss[..k][1..] == ss[1..][..k - 1];
    }
  }

  lemma {:induction false} JoinedEmpty<T>(ss: seq<seq<T>>, k: nat)
    requires k <= |ss| && Joined(ss[..k]) == []
    ensures forall i :: 0 <= i < k ==> ss[i] == []
    decreases k
  {
    if k > 0 {
      JoinedMore(ss, k - 1);
      JoinedEmpty(ss, k - 1);
    }
  }

  lemma TakeAll<T>(s: seq<T>, k: nat)
    requires k <= |s|
    ensures k == |s| ==> s[..k] == s
  {}

  lemma NothingTwice<T>(a: seq<T>, b: seq<T>)
    requires a + b == []
    ensures a == [] && b == []
  {
    assert |a + b| == |a| + |b|;
  }

  /** When nothing has come yet, something is still to come. */
  lemma JoinedSoFar<T>(ss: seq<seq<T>>, k: nat, before: seq<T>)
    requires k <= |ss| && before + Joined(ss) != [] && before + Joined(ss[..k]) == []
    ensures k < |ss| && before == [] && Joined(ss[..k + 1]) == Joined(ss[..k]) + ss[k]
    ensures forall i :: 0 <= i < k ==> ss[i] == []
  {
    hide *;
    NothingTwice(before, Joined(ss[..k]));
    JoinedEmpty(ss, k);
    TakeAll(ss, k);
    if k < |ss| {
      JoinedMore(ss, k);
    }
  }

  lemma PopAccount<T(0)>(list: seq<Item<T>>, rows: map<Queue<T>, seq<Item<T>>>, place: map<Item<T>, Place<T>>, q: Queue<T>)
    requires Accounted(list, rows, place) && q in rows && q.Valid() && q.head != null && q.items == rows[q]
    ensures rows[q] != []
    ensures var item := rows[q][0]; var place' := place[item := Hand];
      Accounted(list, rows[q := rows[q][1..]], place') && InHand(place') == InHand(place) + {item}
      && place'.Keys == place.Keys && item !in InHand(place)
  {
    FirstIsAlone(q.items);
    AccountPop(list, rows, place, q);
  }

  lemma LastIsPlaced<T(0)>(list: seq<Item<T>>, rows: map<Queue<T>, seq<Item<T>>>, place: map<Item<T>, Place<T>>, q: Queue<T>)
    requires Accounted(list, rows, place) && q in rows && q.items == rows[q]
    ensures q.LastNode() <= place.Keys - InHand(place)
  {}

  /** A node in nobody's hands but ours is on no chain. */
  lemma NotInRows<T(0)>(list: seq<Item<T>>, rows: map<Queue<T>, seq<Item<T>>>, place: map<Item<T>, Place<T>>, item: Item<T>)
    requires Accounted(list, rows, place) && item in InHand(place)
    ensures item !in list && forall q :: q in rows ==> item !in rows[q]
  {}

  /** The nodes of a queue are on no other chain. */
  lemma RowsApart<T(0)>(list: seq<Item<T>>, rows: map<Queue<T>, seq<Item<T>>>, place: map<Item<T>, Place<T>>, q: Queue<T>)
    requires Accounted(list, rows, place) && q in rows
    ensures forall x :: x in list ==> x !in rows[q]
    ensures forall p, x :: p in rows && p != q && x in rows[p] ==> x !in rows[q]
  {}

  lemma RowCons<T(0)>(item: Item<T>, s: seq<Item<T>>)
    requires Row(s, null) && item.next == (if s == [] then null else s[0])
    ensures Row([item] + s, null)
  {
    var t := [item] + s;
    assert forall i {:trigger t[i].next} :: 0 < i < |t| - 1 ==> t[i].next == s[i - 1].next == s[i] == t[i + 1];
  }

  lemma LastIsAlone<T(0)>(s: seq<Item<T>>)
    requires s != [] && Row(s, null)
    ensures forall i :: 0 <= i < |s| - 1 ==> s[i] != s[|s| - 1]
  {
    forall i | 0 <= i < |s| - 1 ensures s[i] != s[|s| - 1] {
      LinkedIsAcyclic(s, i, |s| - 1);
    }
  }

  lemma FirstIsAlone<T(0)>(s: seq<Item<T>>)
    requires s != [] && Row(s, null)
    ensures s[0] !in s[1..] && Row(s[1..], null)
  {
    var t := s[1..];
    forall i | 0 <= i < |t| ensures t[i] != s[0] {
      LinkedIsAcyclic(s, 0, i + 1);
    }
    assert forall i {:trigger t[i].next} :: 0 <= i < |t| - 1 ==> s[i + 1].next == s[i + 2] && t[i].next == t[i + 1];
  }

  function Joined<T>(ss: seq<seq<T>>): seq<T> {
    if ss == [] then [] else ss[0] + Joined(ss[1..])
  }

  /** At any time every node ever allocated is on the free list, in the hands of an operation, or in exactly one queue. */
  lemma ExactlyOnePlace<T(0)>(list: seq<Item<T>>, rows: map<Queue<T>, seq<Item<T>>>, place: map<Item<T>, Place<T>>, x: Item<T>)
    requires Accounted(list, rows, place) && x in place
    ensures x in list || x in InHand(place) || exists q :: q in rows && x in rows[q]
    ensures x in list ==> x !in InHand(place)
    ensures forall q :: q in rows && x in rows[q] ==> x !in list && x !in InHand(place)
    ensures forall q, p :: q in rows && p in rows && x in rows[q] && x in rows[p] ==> q == p
  {
    match place[x]
    case Free =>
    case Queued(q) => assert q in rows && x in rows[q];
    case Hand =>
  }

  lemma InHandIsPlaced<T(0)>(place: map<Item<T>, Place<T>>)
    ensures InHand(place) <= place.Keys
  {}
}
