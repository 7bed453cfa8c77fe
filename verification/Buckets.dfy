/**
 One bucket of the table in memory: a doubly linked chain of items with a head and a last pointer.
 */
module Buckets {
  import opened Basics
  import opened Files
  import opened Tables

  class Item {
    const key: string
    var file: File
    var next: Item?
    var prev: Item?

    constructor (f: File)
      ensures key == f.key && file == f && next == null && prev == null
    {
      key, file, next, prev := f.key, f, null, null;
    }
  }

  /** The chain read forward: `head` starts it and `next` links it. */
  ghost predicate Forth(head: Item?, c: seq<Item>)
    reads (set x | x in c)`next
  {
    && head == (if c == [] then null else c[0])
    && (c != [] ==> c[|c| - 1].next == null)
    && (forall k :: 0 <= k < |c| - 1 ==> c[k].next == c[k + 1])
  }

  /** The chain read back: `last` ends it and `prev` links it. */
  ghost predicate Back(last: Item?, c: seq<Item>)
    reads (set x | x in c)`prev
  {
    && last == (if c == [] then null else c[|c| - 1])
    && (c != [] ==> c[0].prev == null)
    && (forall k :: 0 <= k < |c| - 1 ==> c[k + 1].prev == c[k])
  }

  ghost predicate DistinctKeys(c: seq<Item>) {
    forall j, k :: 0 <= j < k < |c| ==> c[j].key != c[k].key
  }

  /** The items hold these records. */
  ghost predicate Holds(c: seq<Item>, files: seq<File>)
    reads (set x | x in c)`file
  {
    && |files| == |c|
    && (forall k :: 0 <= k < |c| ==> c[k].file == files[k] && files[k].key == c[k].key)
  }

  lemma HoldsAfterPush(c: seq<Item>, files: seq<File>, item: Item)
    requires DistinctKeys(c) && Holds(c, files) && item.file.key == item.key
    requires forall k :: 0 <= k < |c| ==> c[k].key != item.key
    ensures DistinctKeys([item] + c) && Holds([item] + c, [item.file] + files)
  {
  }

  lemma HoldsAfterRemove(c: seq<Item>, files: seq<File>, at: nat, repr: set<Item>)
    requires at < |c| && DistinctKeys(c) && Holds(c, files)
    requires forall k :: 0 <= k < |c| ==> c[k] in repr
    ensures DistinctKeys(RemoveAt(c, at)) && Holds(RemoveAt(c, at), RemoveAt(files, at))
    ensures forall k :: 0 <= k < |c| - 1 ==> RemoveAt(c, at)[k] in repr
  {
  }

  class Bucket {
    var head: Item?
    var last: Item?
    /** The linked items, newest first, and the records they hold. */
    ghost var chain: seq<Item>
    ghost var files: seq<File>
    /** All items that were ever linked here. */
    ghost var repr: set<Item>

    ghost predicate Valid()
      reads this, repr
    {
      && (forall k :: 0 <= k < |chain| ==> chain[k] in repr)
      && Forth(head, chain)
      && Back(last, chain)
      && DistinctKeys(chain)
      && Holds(chain, files)
    }

    constructor ()
      ensures Valid() && chain == [] && files == [] && repr == {}
    {
      head, last, chain, files, repr := null, null, [], [], {};
    }

    /** The search loop: walks `next` links until the key is found or the chain ends. */
    method Find(key: string) returns (item: Item?, ghost at: nat)
      requires Valid()
      ensures at == Position(files, key)
      ensures item == if at < |chain| then chain[at] else null
      ensures item == null <==> forall f :: f in files ==> f.key != key
      ensures item != null ==> item in chain && item.file.key == key
    {
      item, at := head, 0;
      while item != null
        invariant at <= |chain|
        invariant item == if at < |chain| then chain[at] else null
        invariant forall k :: 0 <= k < at ==> chain[k].key != key
        decreases |chain| - at
      {
        if item.file.key == key {
          return;
        }
        item, at := item.next, at + 1;
      }
    }

    /** Overwrites the record of an item in place. */
    method Store(item: Item, ghost at: nat, f: File)
      requires Valid() && at < |chain| && chain[at] == item && f.key == item.key
      modifies item`file, `files
      ensures Valid() && files == old(files)[at := f]
    {
      item.file := f;
      files := files[at := f];
    }

    /** Links a new item in front. */
    method PushFront(item: Item)
      requires Valid()
      requires item.file.key == item.key
      requires forall k :: 0 <= k < |chain| ==> chain[k].key != item.key
      modifies this, item, repr
      ensures Valid() && chain == [item] + old(chain) && repr == old(repr) + {item}
      ensures files == [old(item.file)] + old(files)
    {
      HoldsAfterPush(chain, files, item);
      LinkFront(item);
      chain, files, repr := [item] + chain, [item.file] + files, repr + {item};
    }

    /** The pointers of an item linked in front. */
    method LinkFront(item: Item)
      requires forall k :: 0 <= k < |chain| ==> chain[k] in repr && chain[k] != item
      requires Forth(head, chain) && Back(last, chain) && DistinctKeys(chain)
      modifies `head, `last, item`next, item`prev, repr`prev
      ensures Forth(head, [item] + chain) && Back(last, [item] + chain)
    {
      item.next := head;
      LinkBack(item);
      head := item;
    }

    /** The half of it that leads back. */
    method LinkBack(item: Item)
      requires forall k :: 0 <= k < |chain| ==> chain[k] in repr && chain[k] != item
      requires head == (if chain == [] then null else chain[0]) && Back(last, chain) && DistinctKeys(chain)
      modifies `last, item`prev, repr`prev
      ensures Back(last, [item] + chain)
    {
      item.prev := null;
      if head != null {
        head.prev := item;
      }
      if last == null {
        last := item;
      }
    }

    /** First half of unlinking: the predecessor skips the item. */
    method SkipForth(item: Item, ghost at: nat)
      requires forall k :: 0 <= k < |chain| ==> chain[k] in repr
      requires Forth(head, chain) && Back(last, chain) && DistinctKeys(chain)
      requires at < |chain| && chain[at] == item
      modifies this`head, repr`next
      ensures Forth(head, RemoveAt(chain, at))
      ensures item.next == if at + 1 < |chain| then chain[at + 1] else null
    {
      assert at > 0 ==> chain[at - 1 + 1].prev == chain[at - 1];
      if item.prev != null {
        item.prev.next := item.next;
      } else {
        head := item.next;
      }
    }

    /** Second half: the successor skips the item. */
    method SkipBack(item: Item, ghost at: nat)
      requires forall k :: 0 <= k < |chain| ==> chain[k] in repr
      requires Back(last, chain) && DistinctKeys(chain)
      requires at < |chain| && chain[at] == item
      requires item.next == if at + 1 < |chain| then chain[at + 1] else null
      modifies this`last, repr`prev
      ensures Back(last, RemoveAt(chain, at))
    {
      assert at > 0 ==> chain[at - 1 + 1].prev == chain[at - 1];
      if item.next != null {
        item.next.prev := item.prev;
      } else {
        last := item.prev;
      }
    }

    method SkipBoth(item: Item, ghost at: nat)
      requires forall k :: 0 <= k < |chain| ==> chain[k] in repr
      requires Forth(head, chain) && Back(last, chain) && DistinctKeys(chain)
      requires at < |chain| && chain[at] == item
      modifies this`head, this`last, repr`next, repr`prev
      ensures Forth(head, RemoveAt(chain, at)) && Back(last, RemoveAt(chain, at))
    {
      SkipForth(item, at);
      SkipBack(item, at);
    }

    /** Chains the neighbours of an item together. */
    method Unlink(item: Item, ghost at: nat)
      requires Valid() && at < |chain| && chain[at] == item
      modifies this, repr
      ensures Valid() && chain == RemoveAt(old(chain), at) && repr == old(repr)
      ensures files == RemoveAt(old(files), at) && item.file == old(item.file)
    {
      HoldsAfterRemove(chain, files, at, repr);
      SkipBoth(item, at);
      chain, files := RemoveAt(chain, at), RemoveAt(files, at);
    }

    /** Detaches the item at the end of the chain. */
    method PopLast() returns (item: Item)
      requires Valid() && chain != []
      modifies this, repr
      ensures item == old(chain[|chain| - 1])
      ensures Valid() && chain == old(chain[..|chain| - 1]) && repr == old(repr)
      ensures files == old(files[..|files| - 1]) && item.file == old(files[|files| - 1])
    {
      ghost var at := |chain| - 1;
      assert at > 0 ==> chain[at - 1 + 1].prev == chain[at - 1];
      item := last;
      last := item.prev;
      if last != null {
        last.next := null;
      } else {
        head := null;
      }
      item.next := null;
      item.prev := null;
      chain, files := chain[..at], files[..at];
    }
  }

  // ---------------------------------------------------------------------------
  // Reading a chain by its pointers
  // ---------------------------------------------------------------------------

  /** The items met following `next` within `nodes`. */
  ghost function Forward(i: Item?, nodes: set<Item>): seq<Item>
    reads nodes
    decreases nodes
  {
    if i == null || i !in nodes then [] else [i] + Forward(i.next, nodes - {i})
  }

  /** The items met following `prev` within `nodes`. */
  ghost function Backward(i: Item?, nodes: set<Item>): seq<Item>
    reads nodes
    decreases nodes
  {
    if i == null || i !in nodes then [] else [i] + Backward(i.prev, nodes - {i})
  }

  ghost function Nodes(s: seq<Item>): set<Item> {
    set x | x in s
  }

  function Reverse<T>(s: seq<T>): seq<T> {
    if s == [] then [] else [s[|s| - 1]] + Reverse(s[..|s| - 1])
  }

  lemma {:induction false} ForwardFrom(b: Bucket, k: nat, nodes: set<Item>)
    requires b.Valid() && k < |b.chain|
    requires nodes == Nodes(b.chain[k..])
    ensures Forward(b.chain[k], nodes) == b.chain[k..]
    decreases |b.chain| - k
  {
    var i := b.chain[k];
    assert b.chain[k..] == [i] + b.chain[k + 1..];
    if k + 1 < |b.chain| {
      assert nodes - {i} == Nodes(b.chain[k + 1..]);
      ForwardFrom(b, k + 1, nodes - {i});
    }
  }

  lemma {:induction false} BackwardFrom(b: Bucket, k: nat, nodes: set<Item>)
    requires b.Valid() && k < |b.chain|
    requires nodes == Nodes(b.chain[..k + 1])
    ensures Backward(b.chain[k], nodes) == Reverse(b.chain[..k + 1])
  {
    var i := b.chain[k];
    assert b.chain[..k + 1][..k] == b.chain[..k];
    if k > 0 {
      assert nodes - {i} == Nodes(b.chain[..k]);
      BackwardFrom(b, k - 1, nodes - {i});
    } else {
      assert b.chain[..1] == [i];
    }
  }

  /** Read forward from `head` and back from `last`, a bucket gives the same items in opposite order. */
  lemma ForwardIsReverseOfBackward(b: Bucket)
    requires b.Valid()
    ensures
      var nodes := Nodes(b.chain);
      Forward(b.head, nodes) == b.chain && Backward(b.last, nodes) == Reverse(Forward(b.head, nodes))
  {
    if b.chain != [] {
      var n := |b.chain| - 1;
      assert b.chain[0..] == b.chain && b.chain[..n + 1] == b.chain;
      ForwardFrom(b, 0, Nodes(b.chain[0..]));
      BackwardFrom(b, n, Nodes(b.chain[..n + 1]));
    }
  }
}
