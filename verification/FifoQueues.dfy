/**
 The queue behind the FIFO policy: the linked queue as it has to be, and the one in the source, whose
 links run the wrong way, with the exact runs on which that one is right.
 */
module FifoQueues {
  import opened Basics
  import opened Tables

  // ---------------------------------------------------------------------------
  // The repaired queue
  // ---------------------------------------------------------------------------

  class FifoItem {
    const key: string
    var prev: FifoItem?

    constructor (key: string)
      ensures this.key == key && prev == null
    {
      this.key, prev := key, null;
    }
  }

  ghost predicate Spells(items: seq<FifoItem>, keys: seq<string>) {
    |keys| == |items| && forall k :: 0 <= k < |items| ==> keys[k] == items[k].key
  }

  lemma SpellsAfterRemove(items: seq<FifoItem>, keys: seq<string>, k: nat)
    requires Spells(items, keys) && k < |items|
    ensures Spells(RemoveAt(items, k), RemoveAt(keys, k))
  {
  }

  /** `last` is the oldest entry, `head` the newest; `prev` leads from an entry to the next newer one. */
  class FifoQueue {
    var head: FifoItem?
    var last: FifoItem?
    /** The linked entries, oldest first, and their keys. */
    ghost var items: seq<FifoItem>
    ghost var keys: seq<string>
    /** All entries that were ever linked here. */
    ghost var repr: set<FifoItem>

    ghost predicate Valid()
      reads this, repr
    {
      && (forall k :: 0 <= k < |items| ==> items[k] in repr)
      && Spells(items, keys)
      && last == (if items == [] then null else items[0])
      && head == (if items == [] then null else items[|items| - 1])
      && (items != [] ==> items[|items| - 1].prev == null)
      && (forall k :: 0 <= k < |items| - 1 ==> items[k].prev == items[k + 1])
      && (forall j, k :: 0 <= j < k < |items| ==> items[j] != items[k])
    }

    constructor ()
      ensures Valid() && keys == [] && repr == {}
    {
      head, last, items, keys, repr := null, null, [], [], {};
    }

    method Add(key: string)
      requires Valid()
      modifies this, repr
      ensures Valid() && fresh(repr - old(repr))
      ensures keys == old(keys) + [key]
    {
      var item := new FifoItem(key);
      if head != null {
        head.prev := item;
      }
      head := item;
      if last == null {
        last := item;
      }
      items, keys, repr := items + [item], keys + [key], repr + {item};
    }

    method Evict() returns (key: Option<string>)
      requires Valid()
      modifies this
      ensures Valid() && repr == old(repr)
      ensures old(keys) == [] ==> key == None && keys == []
      ensures old(keys) != [] ==> key == Some(old(keys)[0]) && keys == old(keys)[1..]
    {
      if last == null {
        return None;
      }
      key := Some(last.key);
      last := last.prev;
      if last == null {
        head := null;
      }
      items, keys := items[1..], keys[1..];
    }

    /** The first entry with this key and the one before it. */
    method Locate(key: string) returns (before: FifoItem?, at: FifoItem?, ghost k: nat)
      requires Valid()
      ensures k <= |items| && key !in keys[..k]
      ensures at == if k < |items| then items[k] else null
      ensures before == if k > 0 then items[k - 1] else null
      ensures at != null ==> at.key == key
    {
      before, at, k := null, last, 0;
      while at != null && at.key != key
        invariant k <= |items|
        invariant at == if k < |items| then items[k] else null
        invariant before == if k > 0 then items[k - 1] else null
        invariant forall i :: 0 <= i < k ==> items[i].key != key
        decreases |items| - k
      {
        before, at, k := at, at.prev, k + 1;
      }
    }

    method Skip(before: FifoItem?, at: FifoItem, ghost k: nat)
      requires Valid() && k < |items| && at == items[k]
      requires before == if k > 0 then items[k - 1] else null
      modifies this, repr
      ensures Valid() && repr == old(repr) && keys == RemoveAt(old(keys), k)
    {
      ghost var c := items;
      assert at.prev == if k + 1 < |c| then c[k + 1] else null;
      if before == null {
        last := at.prev;
      } else {
        before.prev := at.prev;
      }
      if at.prev == null {
        head := before;
      }
      SpellsAfterRemove(c, keys, k);
      items, keys := RemoveAt(c, k), RemoveAt(keys, k);
      assert forall i :: 0 <= i < |items| ==> items[i] == c[if i < k then i else i + 1];
    }

    /** Takes the first entry with this key out, if there is one. */
    method Remove(key: string)
      requires Valid()
      modifies this, repr
      ensures Valid() && repr == old(repr)
      ensures keys == Without(old(keys), key)
    {
      var before, at, k := Locate(key);
      WithoutAt(keys, key, k);
      if at != null {
        Skip(before, at, k);
      }
    }
  }

  // ---------------------------------------------------------------------------
  // The queue as written
  // ---------------------------------------------------------------------------

  datatype Act = Enqueue | Serve

  /** Entry `i` is the one made by the `i`-th addition; its `prev` is the entry added before it. */
  datatype Cell = Cell(prev: Option<nat>, freed: bool)

  datatype Links = Links(cells: seq<Cell>, head: Option<nat>, last: Option<nat>)

  /** What serving the queue gave: nothing, an entry, or an access to a freed entry. */
  datatype Served = Nothing | Entry(id: nat) | Dangling

  function AddAsWritten(q: Links): Links {
    var id := |q.cells|;
    Links(q.cells + [Cell(q.head, false)], Some(id), if q.last.None? then Some(id) else q.last)
  }

  function ServeAsWritten(q: Links): (Links, Served) {
    if q.last.None? then (q, Nothing)
    else if q.last.value >= |q.cells| || q.cells[q.last.value].freed then (q, Dangling)
    else
      var id := q.last.value;
      (Links(q.cells[id := q.cells[id].(freed := true)], q.head, q.cells[id].prev), Entry(id))
  }

  /** The ideal queue is an interval of entry numbers: `served` are gone, `added` have been made. */
  datatype Ideal = Ideal(added: nat, served: nat, firstServeEmptied: bool)

  function ServeIdeal(i: Ideal): (Ideal, Served) {
    if i.served >= i.added then (i, Nothing)
    else
      (Ideal(i.added, i.served + 1, if i.served == 0 then i.added == 1 else i.firstServeEmptied), Entry(i.served))
  }

  /** Both queues after the acts, and whether they have always served the same. */
  datatype Pair = Pair(links: Links, ideal: Ideal, same: bool)

  function Both(acts: seq<Act>): Pair {
    if acts == [] then Pair(Links([], None, None), Ideal(0, 0, true), true)
    else
      var p := Both(acts[..|acts| - 1]);
      match acts[|acts| - 1]
      case Enqueue => Pair(AddAsWritten(p.links), p.ideal.(added := p.ideal.added + 1), p.same)
      case Serve =>
        var (l, x) := ServeAsWritten(p.links);
        var (i, y) := ServeIdeal(p.ideal);
        Pair(l, i, p.same && x == y)
  }

  /** Serving is safe: nothing served yet, or one entry served and it was alone in the queue. */
  predicate SafeToServe(i: Ideal) {
    i.served == 0 || (i.served == 1 && i.firstServeEmptied)
  }

  predicate ServedSafely(acts: seq<Act>) {
    acts != [] ==>
      var before := acts[..|acts| - 1];
      ServedSafely(before) && (acts[|acts| - 1].Serve? ==> SafeToServe(Both(before).ideal))
  }

  /** What the links look like as long as every serve was safe. */
  ghost predicate Shape(p: Pair) {
    var q, i := p.links, p.ideal;
    && |q.cells| == i.added && i.served <= i.added && i.served <= 2
    && q.head == (if i.added == 0 then None else Some(i.added - 1))
    && (forall k :: 0 <= k < i.added ==> q.cells[k].prev == if k == 0 then None else Some(k - 1))
    && (forall k :: 0 <= k < i.added ==> q.cells[k].freed == (k < i.served))
    && (i.served == 0 ==> q.last == if i.added == 0 then None else Some(0))
    && (i.served == 1 && i.firstServeEmptied ==> q.last == if i.added == 1 then None else Some(1))
    && (i.served == 1 && !i.firstServeEmptied ==> i.added >= 2 && (q.last.None? || q.last.value > 1))
    && (i.served == 2 ==> q.last == Some(0))
  }

  /** The queue as written serves the oldest entry, as it should, exactly on the runs where every
      serve comes first or follows just one, which emptied the queue. After that it serves nothing,
      a newer entry, or a freed one. */
  lemma {:induction false} AsWrittenExactly(acts: seq<Act>)
    ensures Both(acts).same <==> ServedSafely(acts)
    ensures ServedSafely(acts) ==> Shape(Both(acts))
  {
    if acts != [] {
      var before := acts[..|acts| - 1];
      AsWrittenExactly(before);
    }
  }

  /** Three files written in turn, the second and third each pushing one out, as in the second test
      script: the third write should push out file 1 and pushes out file 2, the one just written. */
  lemma AsWrittenEvictsNewest()
    ensures
      var q1 := AddAsWritten(AddAsWritten(Links([], None, None)));
      var (q2, first) := ServeAsWritten(q1);
      var (q3, second) := ServeAsWritten(AddAsWritten(q2));
      first == Entry(0) && second == Entry(2)
  {
  }
}
