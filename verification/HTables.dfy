/**
 The storage table in memory: an array of linked buckets, the statistics and the FIFO queue, with the
 operations as they run one after another. `shelf` is the table's meaning; every operation moves it by
 `ShelfStep` and answers what `ShelfStep` answers. `Serve` ties whole runs of the memory to the runs of
 the table in module TableRuns.
 */
module HTables {
  import opened Basics
  import opened Files
  import opened Tables
  import opened Refinement
  import opened TableRuns
  import opened Buckets
  import FifoQueues

  // ---------------------------------------------------------------------------
  // The random source
  // ---------------------------------------------------------------------------

  /** `rand()`: some sequence of draws, read one by one. */
  class Random {
    const draws: nat -> nat
    var used: nat

    constructor (draws: nat -> nat)
      ensures this.draws == draws && used == 0
    {
      this.draws, used := draws, 0;
    }

    method Next() returns (r: nat)
      modifies this
      ensures r == draws(old(used)) && used == old(used) + 1
    {
      r, used := draws(used), used + 1;
    }
  }

  ghost predicate ComesUp(draws: nat -> nat, m: nat, i: nat, from: nat)
    requires m > 0
  {
    exists u: nat :: u >= from && draws(u) % m == i
  }

  /** Every bucket number keeps coming up; nothing else is assumed of the draws. */
  ghost predicate Fair(draws: nat -> nat, m: nat)
    requires m > 0
  {
    forall i: nat, from: nat :: i < m ==> ComesUp(draws, m, i, from)
  }

  /** What is assumed of the draws: nothing under FIFO, which makes none. */
  ghost predicate Draws(cfg: Config, rand: Random) {
    cfg.policy.SegmentedFifo? ==> Fair(rand.draws, cfg.buckets)
  }

  // ---------------------------------------------------------------------------
  // Unfinished eviction runs
  // ---------------------------------------------------------------------------

  /** The draws made so far by an eviction run that is still going on. */
  predicate Draining(cfg: Config, t: Table, picks: seq<nat>)
    decreases |picks|, 0
  {
    picks == [] ||
    (var n := |picks| - 1;
     && Draining(cfg, t, picks[..n])
     && Over(cfg, Drained(cfg, t, picks[..n]).state.stats)
     && HasVictim(cfg, Drained(cfg, t, picks[..n]).state, picks[n]))
  }

  function Drained(cfg: Config, t: Table, picks: seq<nat>): Evicted<Table>
    requires Draining(cfg, t, picks)
    decreases |picks|, 1
  {
    if picks == [] then Evicted(t, [])
    else
      var n := |picks| - 1;
      var before := Drained(cfg, t, picks[..n]);
      var last := EvictOne(cfg, before.state, picks[n]);
      Evicted(last.state, before.files + last.files)
  }

  lemma Regroup<T>(s: seq<T>, rest: seq<T>)
    requires s != []
    ensures s[..|s| - 1] + ([s[|s| - 1]] + rest) == s + rest
  {
  }

  lemma ConcatAssociates<T>(a: seq<T>, b: seq<T>, c: seq<T>)
    ensures a + b + c == a + (b + c)
  {
  }

  lemma {:induction false} DrainThenEvict(cfg: Config, t: Table, picks: seq<nat>, rest: seq<nat>)
    requires Draining(cfg, t, picks)
    requires LegalPicks(cfg, Drained(cfg, t, picks).state, rest)
    ensures LegalPicks(cfg, t, picks + rest)
    ensures
      var d := Drained(cfg, t, picks);
      var e := EvictAll(cfg, d.state, rest);
      EvictAll(cfg, t, picks + rest) == Evicted(e.state, d.files + e.files)
    decreases |picks|
  {
    if picks == [] {
      assert picks + rest == rest;
    } else {
      var n := |picks| - 1;
      var before := Drained(cfg, t, picks[..n]);
      var last := EvictOne(cfg, before.state, picks[n]);
      EvictFirst(cfg, before.state, picks[n], rest);
      DrainThenEvict(cfg, t, picks[..n], [picks[n]] + rest);
      Regroup(picks, rest);
      ConcatAssociates(before.files, last.files, EvictAll(cfg, last.state, rest).files);
    }
  }

  lemma DrainedSnoc(cfg: Config, t: Table, picks: seq<nat>, pick: nat)
    requires Draining(cfg, t, picks)
    requires Over(cfg, Drained(cfg, t, picks).state.stats) && HasVictim(cfg, Drained(cfg, t, picks).state, pick)
    ensures Draining(cfg, t, picks + [pick])
    ensures
      var d := Drained(cfg, t, picks);
      var e := EvictOne(cfg, d.state, pick);
      Drained(cfg, t, picks + [pick]) == Evicted(e.state, d.files + e.files)
  {
    assert (picks + [pick])[..|picks|] == picks;
  }

  lemma DrainedIsEvicted(cfg: Config, t: Table, picks: seq<nat>)
    requires Draining(cfg, t, picks) && !Over(cfg, Drained(cfg, t, picks).state.stats)
    ensures LegalPicks(cfg, t, picks) && EvictAll(cfg, t, picks) == Drained(cfg, t, picks)
  {
    DrainThenEvict(cfg, t, picks, []);
    assert picks + [] == picks;
  }

  // ---------------------------------------------------------------------------
  // The table
  // ---------------------------------------------------------------------------

  method MakeBuckets(n: nat) returns (bs: seq<Bucket>)
    ensures |bs| == n
    ensures forall i :: 0 <= i < n ==>
      fresh(bs[i]) && bs[i].Valid() && bs[i].chain == [] && bs[i].files == [] && bs[i].repr == {}
    ensures forall i, j :: 0 <= i < j < n ==> bs[i] != bs[j]
  {
    bs := [];
    while |bs| < n
      invariant |bs| <= n
      invariant forall i :: 0 <= i < |bs| ==>
        fresh(bs[i]) && bs[i].Valid() && bs[i].chain == [] && bs[i].files == [] && bs[i].repr == {}
      invariant forall i, j :: 0 <= i < j < |bs| ==> bs[i] != bs[j]
    {
      var b := new Bucket();
      bs := bs + [b];
    }
  }

  lemma EmptyAgrees(cfg: Config, t: Table)
    requires |t.chains| == cfg.buckets && forall i :: 0 <= i < cfg.buckets ==> t.chains[i] == []
    requires t.stats == Stats(0, 0, 0, 0, 0, 0) && t.fifo == []
    ensures Agrees(cfg, t, EMPTY_SHELF)
  {
  }

  /** A request that leaves the record it met as it is leaves the table as it is. */
  lemma KeepingStep(cfg: Config, t: Table, op: Op)
    requires |t.chains| == cfg.buckets
    requires
      var cur := Lookup(t.chains[Slot(cfg, op.key)], op.key);
      var d := Decide(op, cur);
      d.next == cur && Account(t.stats, op, cur, d) == t.stats && !(IsWrite(op) && cur.Some?)
    ensures LegalCall(cfg, t, Call(op, []))
    ensures
      var d := Decide(op, Lookup(t.chains[Slot(cfg, op.key)], op.key));
      Step(cfg, t, Call(op, [])) == Outcome(t, Response(d.answer, d.woken, []))
  {
    var s := Slot(cfg, op.key);
    var c := t.chains[s];
    assert Place(c, op.key, Lookup(c, op.key)) == c;
    assert t.chains[s := c] == t.chains;
  }

  /** A request other than a write that changes the record it met. */
  lemma RewritingStep(cfg: Config, t: Table, op: Op)
    requires |t.chains| == cfg.buckets && !IsWrite(op)
    requires
      var c := t.chains[Slot(cfg, op.key)];
      Position(c, op.key) < |c| && Decide(op, Some(c[Position(c, op.key)])).next.Some?
    ensures LegalCall(cfg, t, Call(op, []))
    ensures
      var s := Slot(cfg, op.key);
      var c := t.chains[s];
      var p := Position(c, op.key);
      var d := Decide(op, Some(c[p]));
      Step(cfg, t, Call(op, [])) ==
        Outcome(Table(t.chains[s := c[p := d.next.value]], Account(t.stats, op, Some(c[p]), d), t.fifo),
                Response(d.answer, d.woken, []))
  {
  }

  function StatsWithNew(st: Stats): Stats {
    st.(items := st.items + 1, open := st.open + 1, maxItems := Max(st.maxItems, st.items + 1))
  }

  /** A removal is booked as that of an open file. */
  function StatsWithoutOpen(st: Stats, size: nat): Stats {
    st.(items := st.items - 1, open := st.open - 1, space := st.space - size)
  }

  function QueueWith(cfg: Config, q: seq<string>, key: string): seq<string> {
    if cfg.policy.Fifo? then q + [key] else q
  }

  function QueueWithout(cfg: Config, q: seq<string>, key: string): seq<string> {
    if cfg.policy.Fifo? then Without(q, key) else q
  }

  /** A write that finds its file, up to the evictions. */
  lemma WritingStep(cfg: Config, t: Table, op: Op)
    requires |t.chains| == cfg.buckets && IsWrite(op)
    requires Position(t.chains[Slot(cfg, op.key)], op.key) < |t.chains[Slot(cfg, op.key)]|
    ensures forall picks :: LegalPicks(cfg, Touch(cfg, t, op), picks) ==>
      var e := EvictAll(cfg, Touch(cfg, t, op), picks);
      && LegalCall(cfg, t, Call(op, picks))
      && Step(cfg, t, Call(op, picks)) == Outcome(e.state, Response(Ok, None, e.files))
  {
  }

  function WithData(op: Op, f: File): File
    requires IsWrite(op)
  {
    f.(contents := if op.Replace? then op.data else f.contents + op.data)
  }

  /** What a write does to its record and to the statistics. */
  lemma WritingTouch(cfg: Config, t: Table, op: Op)
    requires |t.chains| == cfg.buckets && IsWrite(op)
    requires Position(t.chains[Slot(cfg, op.key)], op.key) < |t.chains[Slot(cfg, op.key)]|
    ensures
      var s := Slot(cfg, op.key);
      var c := t.chains[s];
      var p := Position(c, op.key);
      var f := WithData(op, c[p]);
      Touch(cfg, t, op) == Table(t.chains[s := c[p := f]], Grow(t.stats, |f.contents| - |c[p].contents|), t.fifo)
  {
  }

  /** A creation that finds no record. */
  lemma InsertingStep(cfg: Config, t: Table, key: string, fd: int, lock: bool)
    requires |t.chains| == cfg.buckets
    requires Position(t.chains[Slot(cfg, key)], key) == |t.chains[Slot(cfg, key)]|
    ensures LegalCall(cfg, t, Call(Create(key, fd, lock), []))
    ensures
      var s := Slot(cfg, key);
      var st := t.stats;
      Step(cfg, t, Call(Create(key, fd, lock), [])) ==
        Outcome(Table(t.chains[s := [Fresh(key, fd, lock)] + t.chains[s]], StatsWithNew(st),
                      QueueWith(cfg, t.fifo, key)),
                Response(Ok, None, []))
  {
  }

  /** A removal that finds a record it may remove. */
  lemma RemovingStep(cfg: Config, t: Table, key: string, fd: int)
    requires |t.chains| == cfg.buckets
    requires
      var c := t.chains[Slot(cfg, key)];
      var p := Position(c, key);
      p < |c| && !(HeldAgainst(c[p], fd) && fd != -1)
    ensures LegalCall(cfg, t, Call(Remove(key, fd), []))
    ensures
      var s := Slot(cfg, key);
      var c := t.chains[s];
      var p := Position(c, key);
      var st := t.stats;
      Step(cfg, t, Call(Remove(key, fd), [])) ==
        Outcome(Table(t.chains[s := RemoveAt(c, p)], StatsWithoutOpen(st, |c[p].contents|),
                      QueueWithout(cfg, t.fifo, key)),
                Response(Ok, None, []))
  {
  }

  /** The shelf that goes with the table after a request. */
  lemma Agreed(cfg: Config, t: Table, s: Shelf, call: Call, t': Table) returns (s': Shelf)
    requires Agrees(cfg, t, s) && LegalCall(cfg, t, call) && t' == Step(cfg, t, call).state
    ensures Agrees(cfg, t', s') && LegalShelfCall(cfg, s, call)
    ensures ShelfStep(cfg, s, call) == Outcome(s', Step(cfg, t, call).response)
  {
    StepAgrees(cfg, t, s, call);
    s' := ShelfStep(cfg, s, call).state;
  }

  /** The statistics after the eviction of `f`. */
  function StatsWithout(st: Stats, f: File): Stats {
    st.(items := st.items - 1, space := st.space - Size(f), open := st.open - Opened(f), evictions := st.evictions + 1)
  }

  lemma SegmentedEviction(cfg: Config, t: Table, pick: nat)
    requires |t.chains| == cfg.buckets && cfg.policy.SegmentedFifo? && pick < cfg.buckets && t.chains[pick] != []
    ensures HasVictim(cfg, t, pick)
    ensures
      var c := t.chains[pick];
      var e := EvictOne(cfg, t, pick);
      e.files == [c[|c| - 1]] && e.state.chains == t.chains[pick := c[..|c| - 1]] && e.state.fifo == t.fifo
  {
    var c := t.chains[pick];
    assert RemoveAt(c, |c| - 1) == c[..|c| - 1];
  }

  lemma FifoEviction(cfg: Config, t: Table)
    requires cfg.policy.Fifo? && HasVictim(cfg, t, 0)
    ensures
      var b := Slot(cfg, t.fifo[0]);
      var p := Position(t.chains[b], t.fifo[0]);
      var e := EvictOne(cfg, t, 0);
      && p < |t.chains[b]| && e.files == [t.chains[b][p]]
      && e.state.chains == t.chains[b := RemoveAt(t.chains[b], p)] && e.state.fifo == t.fifo[1..]
  {
  }

  lemma EvictOneStats(cfg: Config, t: Table, pick: nat, f: File)
    requires HasVictim(cfg, t, pick) && EvictOne(cfg, t, pick).files == [f]
    ensures EvictOne(cfg, t, pick).state.stats == StatsWithout(t.stats, f)
  {
  }

  class HTable {
    const cfg: Config
    const buckets: seq<Bucket>
    var stats: Stats
    /** The eviction queue, which only the FIFO policy uses. */
    const queue: FifoQueues.FifoQueue
    ghost var nodes: set<Item>
    ghost var shelf: Shelf

    /** The buckets are separate, their items are `nodes`, and every item is where its key hashes to. */
    ghost predicate Linked()
      reads `nodes, buckets, nodes
    {
      && |buckets| == cfg.buckets
      && (forall i, j :: 0 <= i < j < |buckets| ==> buckets[i] != buckets[j])
      && (forall i :: 0 <= i < |buckets| ==> buckets[i].repr <= nodes)
      && (forall i, j :: 0 <= i < j < |buckets| ==> buckets[i].repr !! buckets[j].repr)
      && (forall i, k :: 0 <= i < |buckets| && 0 <= k < |buckets[i].files| ==> Slot(cfg, buckets[i].files[k].key) == i)
      && (forall i :: 0 <= i < |buckets| ==> buckets[i].Valid())
    }

    ghost function Chains(): (cs: seq<seq<File>>)
      reads buckets
      ensures |cs| == |buckets|
      ensures forall i :: 0 <= i < |buckets| ==> cs[i] == buckets[i].files
    {
      seq(|buckets|, i requires 0 <= i < |buckets| reads buckets => buckets[i].files)
    }

    /** The table that the memory holds. */
    ghost function View(): Table
      reads `stats, buckets, queue
    {
      Table(Chains(), stats, queue.keys)
    }

    ghost predicate Valid()
      reads this, buckets, nodes, queue, queue.repr
    {
      Linked() && queue.Valid() && Agrees(cfg, View(), shelf)
    }

    constructor (cfg: Config)
      ensures this.cfg == cfg && Valid() && shelf == EMPTY_SHELF
    {
      this.cfg := cfg;
      var bs := MakeBuckets(cfg.buckets);
      buckets := bs;
      queue := new FifoQueues.FifoQueue();
      stats := Stats(0, 0, 0, 0, 0, 0);
      nodes, shelf := {}, EMPTY_SHELF;
      new;
      EmptyAgrees(cfg, View());
    }

    /** A change confined to one bucket, which is valid again and took in only new items, leaves the
        whole table linked. */
    twostate lemma Relinked(s: nat)
      requires old(Linked()) && s < |buckets|
      requires forall i :: 0 <= i < |buckets| && i != s ==> unchanged(buckets[i]) && unchanged(buckets[i].repr)
      requires buckets[s].Valid() && buckets[s].repr <= nodes && old(nodes) <= nodes
      requires forall x :: x in buckets[s].repr ==> x in old(buckets[s].repr) || x !in old(nodes)
      requires forall k :: 0 <= k < |buckets[s].files| ==> Slot(cfg, buckets[s].files[k].key) == s
      ensures Linked()
    {
    }

    /** Booking alone leaves the chains alone. */
    twostate lemma Still()
      requires old(Linked()) && unchanged(`nodes) && unchanged(buckets) && unchanged(nodes)
      ensures Linked() && Chains() == old(Chains())
    {
    }

    /** Work on the chains leaves the queue alone. */
    twostate lemma QueueStill()
      requires old(queue.Valid()) && unchanged(queue) && unchanged(queue.repr)
      ensures queue.Valid()
    {
    }

    // The ways an operation changes a chain.

    method Store(s: nat, item: Item, ghost at: nat, f: File)
      requires Linked() && s < |buckets|
      requires at < |buckets[s].chain| && buckets[s].chain[at] == item && f.key == item.key
      modifies item`file, {buckets[s]}`files
      ensures Linked() && Chains() == old(Chains())[s := old(buckets[s].files)[at := f]]
    {
      ghost var chains := Chains();
      buckets[s].Store(item, at, f);
      Relinked(s);
      assert Chains() == chains[s := buckets[s].files];
    }

    method Insert(s: nat, item: Item)
      requires Linked() && s < |buckets| && Slot(cfg, item.key) == s
      requires item.file.key == item.key && item !in nodes
      requires Position(buckets[s].files, item.key) == |buckets[s].files|
      modifies `nodes, buckets[s], buckets[s].repr, item
      ensures Linked() && nodes == old(nodes) + {item}
      ensures Chains() == old(Chains())[s := [old(item.file)] + old(buckets[s].files)]
    {
      ghost var chains := Chains();
      PushAt(s, item);
      nodes := nodes + {item};
      Relinked(s);
      assert Chains() == chains[s := buckets[s].files];
    }

    /** The work on the one bucket. */
    method PushAt(s: nat, item: Item)
      requires Linked() && s < |buckets| && item.file.key == item.key && item !in nodes
      requires Position(buckets[s].files, item.key) == |buckets[s].files|
      modifies buckets[s], buckets[s].repr, item
      ensures buckets[s].Valid() && buckets[s].repr == old(buckets[s].repr) + {item}
      ensures buckets[s].files == [old(item.file)] + old(buckets[s].files)
      ensures forall i :: 0 <= i < |buckets| && i != s ==> unchanged(buckets[i]) && unchanged(buckets[i].repr)
    {
      buckets[s].PushFront(item);
    }

    method Detach(s: nat, item: Item, ghost at: nat)
      requires Linked() && s < |buckets|
      requires at < |buckets[s].chain| && buckets[s].chain[at] == item
      modifies buckets[s], buckets[s].repr
      ensures Linked() && item.file == old(item.file)
      ensures Chains() == old(Chains())[s := RemoveAt(old(buckets[s].files), at)]
    {
      ghost var chains := Chains();
      buckets[s].Unlink(item, at);
      Relinked(s);
      assert Chains() == chains[s := buckets[s].files];
    }

    method DetachLast(s: nat) returns (item: Item)
      requires Linked() && s < |buckets| && buckets[s].chain != []
      modifies buckets[s], buckets[s].repr
      ensures Linked() && item.file == old(buckets[s].files[|buckets[s].files| - 1])
      ensures Chains() == old(Chains())[s := old(buckets[s].files[..|buckets[s].files| - 1])]
    {
      ghost var chains := Chains();
      item := buckets[s].PopLast();
      Relinked(s);
      assert Chains() == chains[s := buckets[s].files];
    }

    /** Allocates and links the item of a new file. */
    method LinkNew(s: nat, key: string, fd: int, lock: bool)
      requires Linked() && queue.Valid() && s == Slot(cfg, key) && Position(buckets[s].files, key) == |buckets[s].files|
      modifies `nodes, buckets[s], buckets[s].repr
      ensures Linked() && queue.Valid() && fresh(nodes - old(nodes))
      ensures stats == old(stats) && queue.keys == old(queue.keys) && queue.repr == old(queue.repr)
      ensures Chains() == old(Chains())[s := [Fresh(key, fd, lock)] + old(buckets[s].files)]
    {
      var item := new Item(Fresh(key, fd, lock));
      Insert(s, item);
      QueueStill();
    }

    // The operations.

    /** The operation did to the shelf what `call` does, and answered the same. */
    twostate predicate Did(call: Call, r: Response)
      reads this
    {
      LegalShelfCall(cfg, old(shelf), call) && ShelfStep(cfg, old(shelf), call) == Outcome(shelf, r)
    }

    /** Books on the shelf what has just been done to the memory, starting from table `t`. */
    ghost method Commit(t: Table, call: Call)
      requires Linked() && queue.Valid() && Agrees(cfg, t, shelf) && LegalCall(cfg, t, call)
      requires View() == Step(cfg, t, call).state
      modifies `shelf
      ensures Valid() && nodes == old(nodes) && queue.repr == old(queue.repr)
      ensures Did(call, Step(cfg, t, call).response)
    {
      shelf := Agreed(cfg, t, shelf, call, View());
      Still();
      QueueStill();
    }

    /** The search: the bucket of a key and the item with that key in it, if there is one. */
    method Fetch(key: string) returns (s: nat, item: Item?, ghost at: nat)
      requires Linked()
      ensures s == Slot(cfg, key) && at == Position(buckets[s].files, key)
      ensures item == if at < |buckets[s].files| then buckets[s].chain[at] else null
      ensures item != null ==> item in nodes && item.file == buckets[s].files[at] && item.key == key
    {
      s := Slot(cfg, key);
      item, at := buckets[s].Find(key);
    }

    /** Ends an operation that leaves the record it met, if any, as it is. */
    ghost method Refuse(op: Op, s: nat, at: nat)
      requires Valid() && s == Slot(cfg, op.key) && at == Position(buckets[s].files, op.key)
      requires
        var cur := if at < |buckets[s].files| then Some(buckets[s].files[at]) else None;
        var d := Decide(op, cur);
        d.next == cur && Account(stats, op, cur, d) == stats && !(IsWrite(op) && cur.Some?)
      modifies `shelf
      ensures Valid() && nodes == old(nodes) && queue.repr == old(queue.repr)
      ensures
        var d := Decide(op, if at < |buckets[s].files| then Some(buckets[s].files[at]) else None);
        Did(Call(op, []), Response(d.answer, d.woken, []))
    {
      KeepingStep(cfg, View(), op);
      Commit(View(), Call(op, []));
    }

    // The memory work of the operations: a chain first, then the books. `after` is where each must end.

    method Overwrite(s: nat, item: Item, ghost at: nat, f: File, st: Stats, ghost after: Table)
      requires Linked() && s < |buckets|
      requires at < |buckets[s].chain| && buckets[s].chain[at] == item && f.key == item.key
      requires queue.Valid() && after == Table(Chains()[s := buckets[s].files[at := f]], st, queue.keys)
      modifies `stats, item`file, {buckets[s]}`files
      ensures Linked() && queue.Valid() && View() == after
    {
      Store(s, item, at, f);
      SetStats(st);
      QueueStill();
    }

    method SetStats(st: Stats)
      requires Linked()
      modifies `stats
      ensures Linked() && stats == st && Chains() == old(Chains())
    {
      stats := st;
      Still();
    }

    method PutNew(s: nat, key: string, fd: int, lock: bool, ghost after: Table)
      requires Linked() && s == Slot(cfg, key) && Position(buckets[s].files, key) == |buckets[s].files|
      requires after == Table(Chains()[s := [Fresh(key, fd, lock)] + buckets[s].files], StatsWithNew(stats),
                              QueueWith(cfg, queue.keys, key))
      requires queue.Valid()
      modifies `nodes, `stats, buckets[s], buckets[s].repr, queue, queue.repr
      ensures Linked() && fresh(nodes - old(nodes)) && View() == after
      ensures queue.Valid() && fresh(queue.repr - old(queue.repr))
    {
      LinkNew(s, key, fd, lock);
      BookCreation(key, after);
    }

    method BookCreation(key: string, ghost after: Table)
      requires Linked() && queue.Valid()
      requires after == Table(Chains(), StatsWithNew(stats), QueueWith(cfg, queue.keys, key))
      modifies `stats, queue, queue.repr
      ensures Linked() && View() == after
      ensures queue.Valid() && fresh(queue.repr - old(queue.repr))
    {
      CountCreation();
      if cfg.policy.Fifo? {
        Enqueue(key);
      }
    }

    method CountCreation()
      requires Linked() && queue.Valid()
      modifies `stats
      ensures Linked() && queue.Valid() && Chains() == old(Chains()) && stats == StatsWithNew(old(stats))
    {
      stats := stats.(open := stats.open + 1);
      stats := stats.(items := stats.items + 1);
      if stats.items > stats.maxItems {
        stats := stats.(maxItems := stats.items);
      }
      Still();
    }

    method Enqueue(key: string)
      requires Linked() && queue.Valid()
      modifies queue, queue.repr
      ensures Linked() && Chains() == old(Chains())
      ensures queue.Valid() && fresh(queue.repr - old(queue.repr)) && queue.keys == old(queue.keys) + [key]
    {
      queue.Add(key);
      Still();
    }

    method TakeOut(s: nat, key: string, item: Item, ghost at: nat, ghost after: Table)
      requires Linked() && s < |buckets| && at < |buckets[s].files| && buckets[s].chain[at] == item
      requires after == Table(Chains()[s := RemoveAt(buckets[s].files, at)],
                              StatsWithoutOpen(stats, |buckets[s].files[at].contents|),
                              QueueWithout(cfg, queue.keys, key))
      requires queue.Valid()
      modifies `stats, buckets[s], buckets[s].repr, queue, queue.repr
      ensures Linked() && View() == after
      ensures queue.Valid() && queue.repr == old(queue.repr)
    {
      var size := |item.file.contents|;
      Detach(s, item, at);
      QueueStill();
      BookRemoval(key, size, after);
    }

    method BookRemoval(key: string, size: nat, ghost after: Table)
      requires Linked() && queue.Valid()
      requires after == Table(Chains(), StatsWithoutOpen(stats, size), QueueWithout(cfg, queue.keys, key))
      modifies `stats, queue, queue.repr
      ensures Linked() && View() == after
      ensures queue.Valid() && queue.repr == old(queue.repr)
    {
      CountRemoval(size);
      if cfg.policy.Fifo? {
        Dequeue(key);
      }
    }

    method CountRemoval(size: nat)
      requires Linked() && queue.Valid()
      modifies `stats
      ensures Linked() && queue.Valid() && Chains() == old(Chains()) && stats == StatsWithoutOpen(old(stats), size)
    {
      stats := stats.(open := stats.open - 1);
      stats := stats.(items := stats.items - 1);
      stats := stats.(space := stats.space - size);
      Still();
    }

    method Dequeue(key: string)
      requires Linked() && queue.Valid()
      modifies queue, queue.repr
      ensures Linked() && Chains() == old(Chains())
      ensures queue.Valid() && queue.repr == old(queue.repr) && queue.keys == Without(old(queue.keys), key)
    {
      queue.Remove(key);
      Still();
    }

    /** Ends an operation that overwrites the record it met, and books it in the statistics. */
    method Rewrite(ghost op: Op, s: nat, item: Item, ghost at: nat, f: File, st: Stats)
      requires Valid() && s == Slot(cfg, op.key) && at == Position(buckets[s].files, op.key)
      requires at < |buckets[s].files| && buckets[s].chain[at] == item && item.key == op.key
      requires
        var cur := Some(buckets[s].files[at]);
        Decide(op, cur).next == Some(f) && Account(stats, op, cur, Decide(op, cur)) == st && !IsWrite(op)
      modifies `stats, `shelf, item`file, {buckets[s]}`files
      ensures Valid() && nodes == old(nodes) && queue.repr == old(queue.repr)
      ensures
        var d := Decide(op, Some(old(buckets[s].files[at])));
        Did(Call(op, []), Response(d.answer, d.woken, []))
    {
      ghost var t := View();
      RewritingStep(cfg, t, op);
      DecideKeepsKey(op, Some(buckets[s].files[at]));
      Overwrite(s, item, at, f, st, Step(cfg, t, Call(op, [])).state);
      Commit(t, Call(op, []));
    }

    method LockFile(key: string, fd: int) returns (r: Answer)
      requires Valid()
      modifies `stats, `shelf, buckets, nodes
      ensures Valid() && nodes == old(nodes)
      ensures Did(Call(Lock(key, fd), []), Response(r, None, []))
    {
      var s, item, at := Fetch(key);
      ghost var op := Lock(key, fd);
      if item == null {
        r := NotFound;
        Refuse(op, s, at);
      } else if item.file.isLocked {
        r := OkWait;
        Rewrite(op, s, item, at, item.file.(subs := [fd] + item.file.subs), stats);
      } else if item.file.subs != [] {
        r := Aborted;
        Refuse(op, s, at);
      } else {
        r := Ok;
        Rewrite(op, s, item, at, item.file.(isLocked := true, owner := fd), stats);
      }
    }

    /** The new owner of the lock is reported, or none. */
    method UnlockFile(key: string, fd: int) returns (r: Answer, newOwner: Option<int>)
      requires Valid()
      modifies `stats, `shelf, buckets, nodes
      ensures Valid() && nodes == old(nodes)
      ensures Did(Call(Unlock(key, fd), []), Response(r, newOwner, []))
    {
      newOwner := None;
      var s, item, at := Fetch(key);
      ghost var op := Unlock(key, fd);
      if item == null {
        r := NotFound;
        Refuse(op, s, at);
      } else if !item.file.isLocked {
        r := AlreadyUnlocked;
        Refuse(op, s, at);
      } else if item.file.owner != fd {
        r := OkWait;
        Refuse(op, s, at);
      } else {
        r := Ok;
        var f := item.file.(isLocked := false);
        if f.subs != [] {
          newOwner := Some(f.subs[0]);
          f := f.(subs := f.subs[1..], isLocked := true, owner := f.subs[0]);
        }
        Rewrite(op, s, item, at, f, stats);
      }
    }

    method OpenFile(key: string, fd: int, lock: bool) returns (r: Answer)
      requires Valid()
      modifies `stats, `shelf, buckets, nodes
      ensures Valid() && nodes == old(nodes)
      ensures Did(Call(Open(key, fd, lock), []), Response(r, None, []))
    {
      var s, item, at := Fetch(key);
      ghost var op := Open(key, fd, lock);
      if item == null {
        r := NotFound;
        Refuse(op, s, at);
      } else if item.file.isOpen {
        r := AlreadyOpen;
        Refuse(op, s, at);
      } else if item.file.isLocked && item.file.owner != fd {
        r := CantOpen;
        Refuse(op, s, at);
      } else {
        r := Ok;
        Rewrite(op, s, item, at, item.file.(isOpen := true, isLocked := lock, owner := fd),
                stats.(open := stats.open + 1));
      }
    }

    method CloseFile(key: string, fd: int) returns (r: Answer)
      requires Valid()
      modifies `stats, `shelf, buckets, nodes
      ensures Valid() && nodes == old(nodes)
      ensures Did(Call(Close(key, fd), []), Response(r, None, []))
    {
      var s, item, at := Fetch(key);
      ghost var op := Close(key, fd);
      if item == null {
        r := NotFound;
        Refuse(op, s, at);
      } else if !item.file.isOpen {
        r := AlreadyClosed;
        Refuse(op, s, at);
      } else if item.file.isLocked && item.file.owner != fd {
        r := CantClose;
        Refuse(op, s, at);
      } else {
        r := Ok;
        Rewrite(op, s, item, at, item.file.(isOpen := false), stats.(open := stats.open - 1));
      }
    }

    method CreateNew(s: nat, key: string, fd: int, lock: bool)
      requires Valid() && s == Slot(cfg, key) && Lookup(buckets[s].files, key).None?
      modifies this, buckets, nodes, queue, queue.repr
      ensures Valid() && fresh(nodes - old(nodes)) && fresh(queue.repr - old(queue.repr))
      ensures Did(Call(Create(key, fd, lock), []), Response(Ok, None, []))
    {
      ghost var t, call := View(), Call(Create(key, fd, lock), []);
      InsertingStep(cfg, t, key, fd, lock);
      PutNew(s, key, fd, lock, Step(cfg, t, call).state);
      Commit(t, call);
    }

    method CreateFile(key: string, fd: int, lock: bool) returns (r: Answer)
      requires Valid()
      modifies this, buckets, nodes, queue, queue.repr
      ensures Valid() && fresh(nodes - old(nodes)) && fresh(queue.repr - old(queue.repr))
      ensures Did(Call(Create(key, fd, lock), []), Response(r, None, []))
    {
      var s, found, at := Fetch(key);
      ghost var op := Create(key, fd, lock);
      if found != null {
        r := AlreadyCreated;
        Refuse(op, s, at);
      } else {
        r := Ok;
        CreateNew(s, key, fd, lock);
      }
    }

    method RemoveFound(s: nat, key: string, fd: int, item: Item, ghost at: nat)
      requires Valid() && s == Slot(cfg, key) && at == Position(buckets[s].files, key) < |buckets[s].files|
      requires buckets[s].chain[at] == item && !(HeldAgainst(buckets[s].files[at], fd) && fd != -1)
      modifies `stats, `shelf, buckets[s], buckets[s].repr, queue, queue.repr
      ensures Valid() && nodes == old(nodes) && queue.repr == old(queue.repr)
      ensures Did(Call(Remove(key, fd), []), Response(Ok, None, []))
    {
      ghost var t, call := View(), Call(Remove(key, fd), []);
      RemovingStep(cfg, t, key, fd);
      TakeOut(s, key, item, at, Step(cfg, t, call).state);
      Commit(t, call);
    }

    method RemoveFile(key: string, fd: int) returns (r: Answer)
      requires Valid()
      modifies `stats, `shelf, buckets, nodes, queue, queue.repr
      ensures Valid() && nodes == old(nodes) && queue.repr == old(queue.repr)
      ensures Did(Call(Remove(key, fd), []), Response(r, None, []))
    {
      var s, item, at := Fetch(key);
      ghost var op := Remove(key, fd);
      if item == null {
        r := NotFound;
        Refuse(op, s, at);
      } else if item.file.isLocked && item.file.owner != fd && fd != -1 {
        r := Ok;
        Refuse(op, s, at);
      } else {
        r := Ok;
        RemoveFound(s, key, fd, item, at);
      }
    }

    // Eviction.

    /** Draws until a bucket that is not empty comes up. */
    method DrawBucket(rand: Random, ghost full: nat) returns (i: nat)
      requires Linked() && stats.items > 0 && Fair(rand.draws, cfg.buckets)
      requires full < |buckets| && buckets[full].files != []
      modifies rand
      ensures i < |buckets| && buckets[i].files != []
    {
      assert stats.items != 0;
      ghost var until: nat :| until >= rand.used && rand.draws(until) % cfg.buckets == full by {
        assert ComesUp(rand.draws, cfg.buckets, full, rand.used);
      }
      while stats.items > 0
        invariant rand.used <= until
        decreases until - rand.used
      {
        var r := rand.Next();
        i := r % |buckets|;
        if buckets[i].last == null {
          assert buckets[i].head == null;
          continue;
        }
        return;
      }
      assert false;
    }

    /** Takes the oldest key off the queue. */
    method PopOldest() returns (key: string)
      requires Linked() && queue.Valid() && queue.keys != []
      modifies queue
      ensures Linked() && Chains() == old(Chains())
      ensures queue.Valid() && queue.repr == old(queue.repr) && key == old(queue.keys)[0]
      ensures queue.keys == old(queue.keys)[1..]
    {
      var k := queue.Evict();
      key := k.value;
      Still();
    }

    /** Takes the item of a key out of its bucket. */
    method DetachKey(key: string) returns (item: Item, ghost b: nat, ghost at: nat)
      requires Linked() && queue.Valid() && Lookup(Chains()[Slot(cfg, key)], key).Some?
      modifies buckets, nodes
      ensures Linked() && queue.Valid() && b == Slot(cfg, key)
      ensures at == Position(old(Chains())[b], key) < |old(Chains())[b]|
      ensures item.file == old(Chains())[b][at]
      ensures Chains() == old(Chains())[b := RemoveAt(old(Chains())[b], at)]
    {
      var i, found, k := Fetch(key);
      item, b, at := found, i, k;
      Detach(i, item, k);
      QueueStill();
    }

    /** Takes the item of the oldest queued key out of its bucket; `e` is the eviction this makes under FIFO. */
    method DetachOldest() returns (item: Item, ghost e: Evicted<Table>)
      requires Linked() && queue.Valid() && cfg.policy.Fifo? && HasVictim(cfg, View(), 0)
      modifies buckets, nodes, queue
      ensures Linked() && queue.Valid() && queue.repr == old(queue.repr)
      ensures e == EvictOne(cfg, old(View()), 0)
      ensures e.files == [item.file] && e.state.chains == Chains() && e.state.fifo == queue.keys
    {
      FifoEviction(cfg, View());
      e := EvictOne(cfg, View(), 0);
      var key := PopOldest();
      var oldest, b, at := DetachKey(key);
      item := oldest;
    }

    /** Takes the item at the end of a bucket; `e` is the eviction this makes under the segmented policy. */
    method DetachEnd(i: nat) returns (item: Item, ghost e: Evicted<Table>)
      requires Linked() && cfg.policy.SegmentedFifo? && i < |buckets| && buckets[i].files != []
      modifies buckets[i], buckets[i].repr
      ensures HasVictim(cfg, old(View()), i) && e == EvictOne(cfg, old(View()), i)
      ensures Linked() && e.files == [item.file] && e.state.chains == Chains() && e.state.fifo == queue.keys
    {
      SegmentedEviction(cfg, View(), i);
      e := EvictOne(cfg, View(), i);
      item := DetachLast(i);
    }

    /** Takes the item at the end of a bucket drawn at random. */
    method DetachDrawn(rand: Random, ghost full: nat) returns (item: Item, ghost pick: nat, ghost e: Evicted<Table>)
      requires Linked() && cfg.policy.SegmentedFifo? && stats.items > 0 && Fair(rand.draws, cfg.buckets)
      requires full < |buckets| && buckets[full].files != []
      modifies buckets, nodes, rand
      ensures HasVictim(cfg, old(View()), pick) && e == EvictOne(cfg, old(View()), pick)
      ensures Linked() && e.files == [item.file] && e.state.chains == Chains() && e.state.fifo == queue.keys
    {
      var i := DrawBucket(rand, full);
      pick := i;
      item, e := DetachEnd(i);
    }

    /** Takes the next victim out of the chains under either policy. */
    method DetachVictim(rand: Random, ghost s: seq<File>) returns (item: Item, ghost pick: nat, ghost e: Evicted<Table>)
      requires Linked() && queue.Valid() && Refines(cfg, View(), s) && Over(cfg, stats) && Draws(cfg, rand)
      modifies buckets, nodes, queue, rand
      ensures queue.Valid() && queue.repr == old(queue.repr)
      ensures HasVictim(cfg, old(View()), pick) && e == EvictOne(cfg, old(View()), pick)
      ensures Linked() && e.files == [item.file] && e.state.chains == Chains() && e.state.fifo == queue.keys
    {
      OverHasVictim(cfg, View(), s);
      if cfg.policy.SegmentedFifo? {
        VictimRefines(cfg, View(), s, Slot(cfg, s[0].key));
        item, pick, e := DetachDrawn(rand, Slot(cfg, s[0].key));
      } else {
        VictimRefines(cfg, View(), s, 0);
        pick := 0;
        item, e := DetachOldest();
      }
    }

    /** The statistics of one eviction. */
    method BookEviction(f: File, ghost after: Table)
      requires Linked() && queue.Valid() && after == Table(Chains(), StatsWithout(stats, f), queue.keys)
      modifies `stats
      ensures queue.Valid() && queue.repr == old(queue.repr)
      ensures Linked() && View() == after
    {
      if f.isOpen {
        stats := stats.(open := stats.open - 1);
      }
      stats := stats.(items := stats.items - 1);
      stats := stats.(space := stats.space - |f.contents|);
      stats := stats.(evictions := stats.evictions + 1);
      Still();
    }

    /** One turn of the eviction loop. */
    method EvictTurn(rand: Random, ghost s: seq<File>) returns (f: File, ghost pick: nat)
      requires Linked() && queue.Valid() && Refines(cfg, View(), s) && Over(cfg, stats) && Draws(cfg, rand)
      modifies `stats, buckets, nodes, queue, rand
      ensures queue.Valid() && queue.repr == old(queue.repr)
      ensures nodes == old(nodes)
      ensures Linked() && HasVictim(cfg, old(View()), pick) && EvictOne(cfg, old(View()), pick) == Evicted(View(), [f])
    {
      ghost var t := View();
      var item, p, e := DetachVictim(rand, s);
      f, pick := item.file, p;
      EvictOneStats(cfg, t, pick, f);
      BookEviction(f, e.state);
    }

    /** The eviction run from table `t` has got to where the memory is. */
    ghost predicate Underway(t: Table, picks: seq<nat>, evicted: seq<File>)
      reads `stats, buckets, queue
    {
      Draining(cfg, t, picks) && Drained(cfg, t, picks) == Evicted(View(), evicted)
    }

    /** One turn of an eviction run. */
    method EvictNext(rand: Random, ghost s: seq<File>, ghost t: Table, ghost picks: seq<nat>, ghost evicted: seq<File>)
      returns (f: File, ghost pick: nat)
      requires Linked() && queue.Valid() && Refines(cfg, View(), s) && Over(cfg, stats) && Draws(cfg, rand)
      requires Underway(t, picks, evicted)
      modifies `stats, buckets, nodes, queue, rand
      ensures Linked() && queue.Valid() && queue.repr == old(queue.repr) && nodes == old(nodes)
      ensures 0 <= stats.items < old(stats.items)
      ensures ShelfVictim(cfg, s, pick) < |s| && Refines(cfg, View(), RemoveAt(s, ShelfVictim(cfg, s, pick)))
      ensures Underway(t, picks + [pick], evicted + [f])
    {
      ghost var before := View();
      OverHasVictim(cfg, before, s);
      f, pick := EvictTurn(rand, s);
      EvictOneRefines(cfg, before, s, pick);
      DrainedSnoc(cfg, t, picks, pick);
    }

    /** The eviction loop. Every turn lowers the item count, so there are only so many; under the segmented
        policy each ends because every bucket keeps coming up. */
    method EvictFiles(rand: Random, ghost s: seq<File>) returns (evicted: seq<File>, ghost picks: seq<nat>)
      requires Linked() && queue.Valid() && Refines(cfg, View(), s) && Draws(cfg, rand)
      modifies `stats, buckets, nodes, queue, rand
      ensures queue.Valid() && queue.repr == old(queue.repr) && nodes == old(nodes)
      ensures Linked() && LegalPicks(cfg, old(View()), picks)
      ensures EvictAll(cfg, old(View()), picks) == Evicted(View(), evicted)
    {
      evicted, picks := [], [];
      ghost var t, left := View(), s;
      while Over(cfg, stats)
        invariant Linked() && queue.Valid() && queue.repr == old(queue.repr) && nodes == old(nodes)
        invariant Refines(cfg, View(), left) && Underway(t, picks, evicted)
        decreases stats.items
      {
        var f, pick := EvictNext(rand, left, t, picks, evicted);
        left := RemoveAt(left, ShelfVictim(cfg, left, pick));
        evicted, picks := evicted + [f], picks + [pick];
      }
      DrainedIsEvicted(cfg, t, picks);
    }

    // Writing.

    /** A write that found its file: the new contents, the books, then the evictions. */
    method WriteAndEvict(ghost op: Op, s: nat, item: Item, ghost at: nat, f: File, st: Stats, rand: Random)
      returns (evicted: seq<File>, ghost picks: seq<nat>)
      requires Linked() && queue.Valid() && Agrees(cfg, View(), shelf) && Draws(cfg, rand)
      requires s == Slot(cfg, op.key) && at == Position(buckets[s].files, op.key) < |buckets[s].files|
      requires buckets[s].chain[at] == item && f.key == item.key
      requires IsWrite(op) && Touch(cfg, View(), op) == Table(Chains()[s := buckets[s].files[at := f]], st, queue.keys)
      modifies `stats, buckets, nodes, queue, rand
      ensures queue.Valid() && queue.repr == old(queue.repr) && nodes == old(nodes)
      ensures Linked() && LegalCall(cfg, old(View()), Call(op, picks))
      ensures Step(cfg, old(View()), Call(op, picks)) == Outcome(View(), Response(Ok, None, evicted))
    {
      ghost var t := View();
      ghost var touched := Touch(cfg, t, op);
      WritingStep(cfg, t, op);
      TouchRefines(cfg, t, shelf.files, op);
      Overwrite(s, item, at, f, st, touched);
      evicted, picks := EvictFiles(rand, ShelfTouch(shelf.files, op));
    }

    /** Ends a write that found its file. */
    method WriteOver(ghost op: Op, s: nat, item: Item, ghost at: nat, f: File, st: Stats, rand: Random)
      returns (evicted: seq<File>, ghost picks: seq<nat>)
      requires Valid() && Draws(cfg, rand)
      requires s == Slot(cfg, op.key) && at == Position(buckets[s].files, op.key) < |buckets[s].files|
      requires buckets[s].chain[at] == item && item.key == op.key
      requires IsWrite(op) && f == WithData(op, buckets[s].files[at])
      requires st == Grow(stats, |f.contents| - |buckets[s].files[at].contents|)
      modifies `stats, `shelf, buckets, nodes, queue, rand
      ensures nodes == old(nodes) && queue.repr == old(queue.repr)
      ensures Valid() && Did(Call(op, picks), Response(Ok, None, evicted))
    {
      ghost var t := View();
      WritingTouch(cfg, t, op);
      evicted, picks := WriteAndEvict(op, s, item, at, f, st, rand);
      Commit(t, Call(op, picks));
    }

    method ReplaceContents(key: string, data: seq<Byte>, rand: Random)
      returns (r: Answer, evicted: seq<File>, ghost picks: seq<nat>)
      requires Valid() && Draws(cfg, rand)
      modifies `stats, `shelf, buckets, nodes, queue, rand
      ensures Valid() && nodes == old(nodes) && queue.repr == old(queue.repr)
      ensures Did(Call(Replace(key, data), picks), Response(r, None, evicted))
    {
      evicted, picks := [], [];
      var s, item, at := Fetch(key);
      ghost var op := Replace(key, data);
      if item == null {
        r := NotFound;
        Refuse(op, s, at);
      } else {
        r := Ok;
        var f, st := item.file.(contents := data), Grow(stats, |data| - |item.file.contents|);
        evicted, picks := WriteOver(op, s, item, at, f, st, rand);
      }
    }

    method AppendContents(key: string, data: seq<Byte>, rand: Random)
      returns (r: Answer, evicted: seq<File>, ghost picks: seq<nat>)
      requires Valid() && Draws(cfg, rand)
      modifies `stats, `shelf, buckets, nodes, queue, rand
      ensures Valid() && nodes == old(nodes) && queue.repr == old(queue.repr)
      ensures Did(Call(Append(key, data), picks), Response(r, None, evicted))
    {
      evicted, picks := [], [];
      var s, item, at := Fetch(key);
      ghost var op := Append(key, data);
      if item == null {
        r := NotFound;
        Refuse(op, s, at);
      } else {
        r := Ok;
        var f, st := item.file.(contents := item.file.contents + data), Grow(stats, |data|);
        evicted, picks := WriteOver(op, s, item, at, f, st, rand);
      }
    }

    // Whole runs.

    /** Runs one request of any kind. */
    method Handle(op: Op, rand: Random) returns (r: Response, ghost picks: seq<nat>)
      requires Valid() && Draws(cfg, rand)
      modifies this, buckets, nodes, queue, queue.repr, rand
      ensures fresh(queue.repr - old(queue.repr))
      ensures Valid() && fresh(nodes - old(nodes)) && Did(Call(op, picks), r)
    {
      var a, woken, evicted := Ok, None, [];
      picks := [];
      match op {
      case Create(key, fd, lock) => a := CreateFile(key, fd, lock);
      case Open(key, fd, lock) => a := OpenFile(key, fd, lock);
      case Close(key, fd) => a := CloseFile(key, fd);
      case Lock(key, fd) => a := LockFile(key, fd);
      case Unlock(key, fd) => a, woken := UnlockFile(key, fd);
      case Remove(key, fd) => a := RemoveFile(key, fd);
      case Replace(key, data) => a, evicted, picks := ReplaceContents(key, data, rand);
      case Append(key, data) => a, evicted, picks := AppendContents(key, data, rand);
      }
      r := Response(a, woken, evicted);
    }

    /** One more request of a run. */
    method HandleNext(op: Op, rand: Random, ghost calls: seq<Call>, ghost rs: seq<Response>)
      returns (r: Response, ghost call: Call)
      requires Valid() && Draws(cfg, rand) && Ran(cfg, calls, shelf, rs)
      modifies this, buckets, nodes, queue, queue.repr, rand
      ensures Valid() && fresh(nodes - old(nodes)) && fresh(queue.repr - old(queue.repr))
      ensures call.op == op && Ran(cfg, calls + [call], shelf, rs + [r])
    {
      ghost var before := shelf;
      ghost var picks;
      r, picks := Handle(op, rand);
      call := Call(op, picks);
      RanOn(cfg, calls, before, rs, call, Outcome(shelf, r));
    }

    /** Runs any list of requests on a new table. */
    method HandleAll(ops: seq<Op>, rand: Random) returns (rs: seq<Response>, ghost calls: seq<Call>)
      requires Valid() && shelf == EMPTY_SHELF && Draws(cfg, rand)
      modifies this, buckets, nodes, queue, queue.repr, rand
      ensures Valid() && Asks(calls, ops) && Ran(cfg, calls, shelf, rs)
    {
      rs, calls := [], [];
      for n := 0 to |ops|
        invariant Valid() && Asks(calls, ops[..n])
        invariant Ran(cfg, calls, shelf, rs)
        invariant fresh(nodes - old(nodes)) && fresh(queue.repr - old(queue.repr))
      {
        var r, call := HandleNext(ops[n], rand, calls, rs);
        AsksOn(calls, ops, n, call);
        rs, calls := rs + [r], calls + [call];
      }
      assert ops[..|ops|] == ops;
    }

    /** Any list of requests on a new table is a legal run of the table: same answers, same files handed back,
        and at the end the memory is where that run ends. The theorems about `Run` are theorems about it. */
    method Serve(ops: seq<Op>, rand: Random) returns (rs: seq<Response>, ghost calls: seq<Call>)
      requires Valid() && shelf == EMPTY_SHELF && Draws(cfg, rand)
      modifies this, buckets, nodes, queue, queue.repr, rand
      ensures Valid() && Asks(calls, ops) && Ran(cfg, calls, shelf, rs)
      ensures LegalRun(cfg, calls) && Run(cfg, calls) == Trace(View(), rs)
    {
      rs, calls := HandleAll(ops, rand);
      RanIsRun(cfg, calls, View(), shelf, rs);
    }
  }
}
