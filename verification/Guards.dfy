/**
 The storage table under threads. Every operation is cut where it takes and releases guards: one guard
 per bucket and one for the statistics. A run is any interleaving of such steps by any number of
 threads. Creation reads the head of its bucket inside the guard here; module StaleHeads is about the
 read outside it.
 */
module Guards {
  import opened Basics
  import opened Files
  import opened Tables

  /** What a step adds to the item count, the byte count and the open count. */
  datatype Delta = Delta(items: int, bytes: int, open: int)

  const NOTHING := Delta(0, 0, 0)

  datatype Stage = Search | Link

  /** Where a thread is. `Want...` waits for a guard; `In...` holds it. */
  datatype Pc =
    | Idle
    | WantBucket(op: Op, stage: Stage)
    | InBucket(op: Op, stage: Stage)
    | WantStats(delta: Delta, write: bool)
    | InStats(delta: Delta, write: bool)
    | WantEvict
    | Evicting
    | WantVictim(bucket: nat)
    | InVictim(bucket: nat)
    | Booking(delta: Delta)

  /** `miscounted` counts the removals of closed files, which the open count gets wrong. */
  datatype State = State(
    chains: seq<seq<File>>,
    counts: Delta,
    bucketGuards: seq<Option<nat>>,
    statsGuard: Option<nat>,
    threads: seq<Pc>,
    miscounted: int
  )

  /** A thread starts a request, goes on, draws the bucket of its next victim, or takes the victim at an
      index. The segmented policy draws at random and takes the last; FIFO draws and takes the oldest
      queued key. Any draw and any index is allowed, which covers both. */
  datatype Move = Begin(op: Op) | Go | Draw(bucket: nat) | Take(index: nat)

  function Initial(cfg: Config, threads: nat): State {
    State(seq(cfg.buckets, _ => []), NOTHING, seq(cfg.buckets, _ => None), None, seq(threads, _ => Idle), 0)
  }

  function Plus(a: Delta, b: Delta): Delta {
    Delta(a.items + b.items, a.bytes + b.bytes, a.open + b.open)
  }

  /** A count as the code holds it, in an unsigned 64-bit counter: a count below zero is a very large one. */
  function Wrapped(count: int): U64 {
    count % TWO_64
  }

  predicate OverCounts(cfg: Config, c: Delta) {
    Wrapped(c.items) > cfg.maxItems || Wrapped(c.bytes) > cfg.maxSpace
  }

  /** What the statistics section after the bucket section will book, if there is one. */
  function ToBook(op: Op, cur: Option<File>, d: Decision): Option<Delta> {
    match op
    case Open(_, _, _) => if d.answer.Ok? then Some(Delta(0, 0, 1)) else None
    case Close(_, _) => if d.answer.Ok? then Some(Delta(0, 0, -1)) else None
    case Remove(_, _) => if cur.Some? && d.next.None? then Some(Delta(-1, -Size(cur.value), -1)) else None
    case Replace(_, data) => if cur.Some? then Some(Delta(0, |data| - Size(cur.value), 0)) else None
    case Append(_, data) => if cur.Some? then Some(Delta(0, |data|, 0)) else None
    case _ => None
  }

  /** The bucket section of a request: search, decide, change the chain, release. */
  function BucketSection(cfg: Config, s: State, i: nat, op: Op, stage: Stage): State
    requires i < |s.threads| && |s.chains| == |s.bucketGuards| == cfg.buckets
  {
    var b := Slot(cfg, op.key);
    var released := s.(bucketGuards := s.bucketGuards[b := None]);
    if stage.Link? && op.Create? then
      released.(chains := s.chains[b := [Fresh(op.key, op.fd, op.lock)] + s.chains[b]],
                threads := s.threads[i := WantStats(Delta(1, 0, 1), false)])
    else
      var cur := Lookup(s.chains[b], op.key);
      var d := Decide(op, cur);
      if op.Create? then
        released.(threads := s.threads[i := if cur.Some? then Idle else WantBucket(op, Link)])
      else
        var delta := ToBook(op, cur, d);
        released.(chains := s.chains[b := Place(s.chains[b], op.key, d.next)],
                  miscounted := s.miscounted + (if cur.Some? && d.next.None? && !cur.value.isOpen then 1 else 0),
                  threads := s.threads[i := if delta.Some? then WantStats(delta.value, IsWrite(op)) else Idle])
  }

  /** One step of thread `i`, or `None` where it cannot make this move. */
  function Fire(cfg: Config, s: State, i: nat, m: Move): (r: Option<State>)
    requires |s.chains| == |s.bucketGuards| == cfg.buckets
    ensures r.Some? ==> |r.value.chains| == |r.value.bucketGuards| == cfg.buckets && |r.value.threads| == |s.threads|
  {
    if i >= |s.threads| then None
    else
      match s.threads[i]
      case Idle =>
        if m.Begin? then Some(s.(threads := s.threads[i := WantBucket(m.op, Search)])) else None
      case WantBucket(op, stage) =>
        var b := Slot(cfg, op.key);
        if m.Go? && s.bucketGuards[b].None?
        then Some(s.(bucketGuards := s.bucketGuards[b := Some(i)], threads := s.threads[i := InBucket(op, stage)]))
        else None
      case InBucket(op, stage) =>
        if m.Go? then Some(BucketSection(cfg, s, i, op, stage)) else None
      case WantStats(delta, write) =>
        if m.Go? && s.statsGuard.None?
        then Some(s.(statsGuard := Some(i), threads := s.threads[i := InStats(delta, write)]))
        else None
      case InStats(delta, write) =>
        if m.Go?
        then Some(s.(counts := Plus(s.counts, delta), statsGuard := None,
                     threads := s.threads[i := if write then WantEvict else Idle]))
        else None
      case WantEvict =>
        if m.Go? && s.statsGuard.None?
        then Some(s.(statsGuard := Some(i), threads := s.threads[i := Evicting]))
        else None
      case Evicting =>
        if OverCounts(cfg, s.counts) then
          if m.Draw? && m.bucket < cfg.buckets then Some(s.(threads := s.threads[i := WantVictim(m.bucket)])) else None
        else
          if m.Go? then Some(s.(statsGuard := None, threads := s.threads[i := Idle])) else None
      case WantVictim(b) =>
        if m.Go? && b < cfg.buckets && s.bucketGuards[b].None?
        then Some(s.(bucketGuards := s.bucketGuards[b := Some(i)], threads := s.threads[i := InVictim(b)]))
        else None
      case InVictim(b) =>
        if b >= cfg.buckets then None
        else if s.chains[b] == [] then
          if m.Go?
          then Some(s.(bucketGuards := s.bucketGuards[b := None], threads := s.threads[i := Evicting]))
          else None
        else if m.Take? && m.index < |s.chains[b]| then
          var f := s.chains[b][m.index];
          Some(s.(chains := s.chains[b := RemoveAt(s.chains[b], m.index)],
                  bucketGuards := s.bucketGuards[b := None],
                  threads := s.threads[i := Booking(Delta(-1, -Size(f), -Opened(f)))]))
        else None
      case Booking(delta) =>
        if m.Go? then Some(s.(counts := Plus(s.counts, delta), threads := s.threads[i := Evicting])) else None
  }

  /** A scheduled run: which thread makes which move, in order. `None` if some move is impossible. */
  function Schedule(cfg: Config, threads: nat, moves: seq<(nat, Move)>): (r: Option<State>)
    ensures r.Some? ==> |r.value.chains| == |r.value.bucketGuards| == cfg.buckets
  {
    if moves == [] then Some(Initial(cfg, threads))
    else
      var n := |moves| - 1;
      var before := Schedule(cfg, threads, moves[..n]);
      if before.None? then None else Fire(cfg, before.value, moves[n].0, moves[n].1)
  }

  // ---------------------------------------------------------------------------
  // Accounting
  // ---------------------------------------------------------------------------

  /** What a thread has done to the chains and not yet booked. */
  function Pending(pc: Pc): Delta {
    match pc
    case WantStats(delta, _) => delta
    case InStats(delta, _) => delta
    case Booking(delta) => delta
    case _ => NOTHING
  }

  function PendingItems(pc: Pc): int { Pending(pc).items }

  function PendingBytes(pc: Pc): int { Pending(pc).bytes }

  function PendingOpen(pc: Pc): int { Pending(pc).open }

  function ChainItems(c: seq<File>): int { |c| }

  function ChainBytes(c: seq<File>): int { Total(c, Size) }

  function ChainOpen(c: seq<File>): int { Total(c, Opened) }

  /** The counts plus what is on its way to them are the true figures. */
  ghost predicate Accounted(s: State) {
    && s.counts.items + Total(s.threads, PendingItems) == Total(s.chains, ChainItems)
    && s.counts.bytes + Total(s.threads, PendingBytes) == Total(s.chains, ChainBytes)
    && s.counts.open + Total(s.threads, PendingOpen) == Total(s.chains, ChainOpen) - s.miscounted
  }

  /** What a step moves between a thread, the chains and the counts balances. */
  lemma MoveBalances(s: State, s': State, i: nat, b: nat, c: seq<File>)
    requires i < |s.threads| && b < |s.chains| && |s'.threads| == |s.threads|
    requires s'.threads == s.threads[i := s'.threads[i]] && s'.chains == s.chains[b := c]
    requires Accounted(s)
    requires
      var p, p' := Pending(s.threads[i]), Pending(s'.threads[i]);
      && s'.counts.items + p'.items - |c| == s.counts.items + p.items - |s.chains[b]|
      && s'.counts.bytes + p'.bytes - ChainBytes(c) == s.counts.bytes + p.bytes - ChainBytes(s.chains[b])
      && s'.counts.open + p'.open - ChainOpen(c) + s'.miscounted
           == s.counts.open + p.open - ChainOpen(s.chains[b]) + s.miscounted
    ensures Accounted(s')
  {
    var pc := s'.threads[i];
    TotalSet(s.threads, i, pc, PendingItems);
    TotalSet(s.threads, i, pc, PendingBytes);
    TotalSet(s.threads, i, pc, PendingOpen);
    TotalSet(s.chains, b, c, ChainItems);
    TotalSet(s.chains, b, c, ChainBytes);
    TotalSet(s.chains, b, c, ChainOpen);
  }

  lemma PlaceTotal(c: seq<File>, key: string, next: Option<File>, w: File -> int)
    ensures Total(Place(c, key, next), w) == Total(c, w) - WeightOf(Lookup(c, key), w) + WeightOf(next, w)
  {
    var p := Position(c, key);
    if p < |c| {
      TotalRemove(c, p, w);
      if next.Some? {
        TotalSet(c, p, next.value, w);
      }
    } else if next.Some? {
      TotalPrepend(next.value, c, w);
    }
  }

  /** The delta a request carries out of its bucket is exactly what it did there. */
  lemma ToBookExact(op: Op, cur: Option<File>)
    requires !op.Create?
    ensures
      var d := Decide(op, cur);
      var delta := if ToBook(op, cur, d).Some? then ToBook(op, cur, d).value else NOTHING;
      && delta.items == WeightOf(d.next, One) - WeightOf(cur, One)
      && delta.bytes == WeightOf(d.next, Size) - WeightOf(cur, Size)
      && delta.open == WeightOf(d.next, Opened) - WeightOf(cur, Opened)
           - (if cur.Some? && d.next.None? && !cur.value.isOpen then 1 else 0)
  {
  }

  lemma BucketSectionAccounts(cfg: Config, s: State, i: nat, op: Op, stage: Stage)
    requires i < |s.threads| && |s.chains| == |s.bucketGuards| == cfg.buckets
    requires s.threads[i] == InBucket(op, stage) && Accounted(s)
    ensures Accounted(BucketSection(cfg, s, i, op, stage))
  {
    var s' := BucketSection(cfg, s, i, op, stage);
    var b := Slot(cfg, op.key);
    var c := s.chains[b];
    if stage.Link? && op.Create? {
      var f := Fresh(op.key, op.fd, op.lock);
      TotalPrepend(f, c, Size);
      TotalPrepend(f, c, Opened);
      MoveBalances(s, s', i, b, [f] + c);
    } else if op.Create? {
      assert s'.chains == s.chains[b := c];
      MoveBalances(s, s', i, b, c);
    } else {
      var cur := Lookup(c, op.key);
      var next := Decide(op, cur).next;
      PlaceTotal(c, op.key, next, Size);
      PlaceTotal(c, op.key, next, Opened);
      ToBookExact(op, cur);
      NoNewRecord(op, cur);
      MoveBalances(s, s', i, b, Place(c, op.key, next));
    }
  }

  lemma NoNewRecord(op: Op, cur: Option<File>)
    requires !op.Create?
    ensures cur.None? ==> Decide(op, cur).next.None?
  {
  }

  /** Every step of every thread keeps the accounting. */
  lemma FireAccounts(cfg: Config, s: State, i: nat, m: Move)
    requires |s.chains| == |s.bucketGuards| == cfg.buckets
    requires Accounted(s) && Fire(cfg, s, i, m).Some?
    ensures Accounted(Fire(cfg, s, i, m).value)
  {
    var s' := Fire(cfg, s, i, m).value;
    match s.threads[i]
    case InBucket(op, stage) => BucketSectionAccounts(cfg, s, i, op, stage);
    case InVictim(b) =>
      if s.chains[b] != [] {
        TotalRemove(s.chains[b], m.index, Size);
        TotalRemove(s.chains[b], m.index, Opened);
        MoveBalances(s, s', i, b, RemoveAt(s.chains[b], m.index));
      } else {
        assert s'.chains == s.chains[0 := s.chains[0]];
        MoveBalances(s, s', i, 0, s.chains[0]);
      }
    case _ =>
      assert s'.chains == s.chains[0 := s.chains[0]];
      MoveBalances(s, s', i, 0, s.chains[0]);
  }

  lemma {:induction false} TotalOfZeros<T>(s: seq<T>, w: T -> int)
    requires forall i :: 0 <= i < |s| ==> w(s[i]) == 0
    ensures Total(s, w) == 0
  {
    if s != [] {
      TotalOfZeros(s[..|s| - 1], w);
    }
  }

  /** In every interleaving, the statistics plus the not yet applied changes of operations in flight are
      the true number of items, the true number of bytes and, but for removals of closed files, the
      true number of open files. */
  lemma {:induction false} RunAccounts(cfg: Config, threads: nat, moves: seq<(nat, Move)>)
    requires Schedule(cfg, threads, moves).Some?
    ensures Accounted(Schedule(cfg, threads, moves).value)
  {
    if moves == [] {
      var s := Initial(cfg, threads);
      TotalOfZeros(s.threads, PendingItems);
      TotalOfZeros(s.threads, PendingBytes);
      TotalOfZeros(s.threads, PendingOpen);
      TotalOfZeros(s.chains, ChainItems);
      TotalOfZeros(s.chains, ChainBytes);
      TotalOfZeros(s.chains, ChainOpen);
    } else {
      var n := |moves| - 1;
      RunAccounts(cfg, threads, moves[..n]);
      FireAccounts(cfg, Schedule(cfg, threads, moves[..n]).value, moves[n].0, moves[n].1);
    }
  }

  /** Once every thread is idle the statistics are exact. */
  lemma QuietRunIsExact(cfg: Config, threads: nat, moves: seq<(nat, Move)>)
    requires Schedule(cfg, threads, moves).Some?
    requires forall pc :: pc in Schedule(cfg, threads, moves).value.threads ==> pc.Idle?
    ensures
      var s := Schedule(cfg, threads, moves).value;
      s.counts == Delta(Total(s.chains, ChainItems), Total(s.chains, ChainBytes),
                        Total(s.chains, ChainOpen) - s.miscounted)
  {
    var s := Schedule(cfg, threads, moves).value;
    RunAccounts(cfg, threads, moves);
    TotalOfZeros(s.threads, PendingItems);
    TotalOfZeros(s.threads, PendingBytes);
    TotalOfZeros(s.threads, PendingOpen);
  }

  // ---------------------------------------------------------------------------
  // Guards
  // ---------------------------------------------------------------------------

  datatype Guard = BucketGuard(bucket: nat) | StatsGuard

  function Wanted(cfg: Config, pc: Pc): Option<Guard> {
    match pc
    case WantBucket(op, _) => Some(BucketGuard(Slot(cfg, op.key)))
    case WantStats(_, _) => Some(StatsGuard)
    case WantEvict => Some(StatsGuard)
    case WantVictim(b) => Some(BucketGuard(b))
    case _ => None
  }

  predicate Holds(cfg: Config, pc: Pc, g: Guard) {
    match pc
    case InBucket(op, _) => g == BucketGuard(Slot(cfg, op.key))
    case InStats(_, _) => g == StatsGuard
    case Evicting => g == StatsGuard
    case WantVictim(_) => g == StatsGuard
    case InVictim(b) => g == StatsGuard || g == BucketGuard(b)
    case Booking(_) => g == StatsGuard
    case _ => false
  }

  function HolderOf(s: State, g: Guard): Option<nat> {
    match g
    case BucketGuard(b) => if b < |s.bucketGuards| then s.bucketGuards[b] else None
    case StatsGuard => s.statsGuard
  }

  /** A guard is marked as taken by exactly the thread that is in a section holding it, and only
      existing buckets are locked. */
  ghost predicate Guarded(cfg: Config, s: State) {
    && |s.chains| == |s.bucketGuards| == cfg.buckets
    && (forall i, g :: 0 <= i < |s.threads| ==> (HolderOf(s, g) == Some(i) <==> Holds(cfg, s.threads[i], g)))
    && (forall g :: HolderOf(s, g).Some? ==> HolderOf(s, g).value < |s.threads|)
    && (forall i :: 0 <= i < |s.threads| && s.threads[i].WantVictim? ==> s.threads[i].bucket < cfg.buckets)
    && (forall i :: 0 <= i < |s.threads| && s.threads[i].InVictim? ==> s.threads[i].bucket < cfg.buckets)
  }

  /** A step moves a guard only between free and its own thread, and marks it right. */
  lemma FireMovesOwn(cfg: Config, s: State, i: nat, m: Move, g: Guard)
    requires Guarded(cfg, s) && Fire(cfg, s, i, m).Some?
    ensures
      var s' := Fire(cfg, s, i, m).value;
      && s'.threads == s.threads[i := s'.threads[i]]
      && (HolderOf(s', g) == Some(i) <==> Holds(cfg, s'.threads[i], g))
      && (HolderOf(s', g) != HolderOf(s, g) ==>
            && (HolderOf(s, g).None? || HolderOf(s, g) == Some(i))
            && (HolderOf(s', g).None? || HolderOf(s', g) == Some(i)))
  {
    assert HolderOf(s, g) == Some(i) <==> Holds(cfg, s.threads[i], g);
    if s.threads[i].InBucket? {
      assert Fire(cfg, s, i, m).value == BucketSection(cfg, s, i, s.threads[i].op, s.threads[i].stage);
    }
  }

  lemma FireGuarded(cfg: Config, s: State, i: nat, m: Move)
    requires Guarded(cfg, s) && Fire(cfg, s, i, m).Some?
    ensures Guarded(cfg, Fire(cfg, s, i, m).value)
  {
    var s' := Fire(cfg, s, i, m).value;
    FireMovesOwn(cfg, s, i, m, StatsGuard);
    forall j, g | 0 <= j < |s'.threads|
      ensures HolderOf(s', g) == Some(j) <==> Holds(cfg, s'.threads[j], g)
    {
      FireMovesOwn(cfg, s, i, m, g);
      assert HolderOf(s, g) == Some(j) <==> Holds(cfg, s.threads[j], g);
    }
    forall g | HolderOf(s', g).Some?
      ensures HolderOf(s', g).value < |s'.threads|
    {
      FireMovesOwn(cfg, s, i, m, g);
    }
  }

  lemma {:induction false} RunGuarded(cfg: Config, threads: nat, moves: seq<(nat, Move)>)
    requires Schedule(cfg, threads, moves).Some?
    ensures Guarded(cfg, Schedule(cfg, threads, moves).value)
  {
    if moves != [] {
      var n := |moves| - 1;
      RunGuarded(cfg, threads, moves[..n]);
      FireGuarded(cfg, Schedule(cfg, threads, moves[..n]).value, moves[n].0, moves[n].1);
    }
  }

  /** Thread `i` waits for a guard that thread `j` holds. */
  predicate WaitsFor(cfg: Config, s: State, i: nat, j: nat) {
    && i < |s.threads| && j < |s.threads|
    && Wanted(cfg, s.threads[i]).Some?
    && HolderOf(s, Wanted(cfg, s.threads[i]).value) == Some(j)
  }

  /** How far a thread is from running: 0 it runs, 1 it waits for a bucket under the statistics guard,
      2 it waits holding nothing. */
  function Depth(pc: Pc): nat {
    if pc.WantVictim? then 1 else if pc.WantBucket? || pc.WantStats? || pc.WantEvict? then 2 else 0
  }

  lemma WaitingGoesDown(cfg: Config, s: State, i: nat, j: nat)
    requires Guarded(cfg, s) && WaitsFor(cfg, s, i, j)
    ensures Depth(s.threads[j]) < Depth(s.threads[i])
  {
    var g := Wanted(cfg, s.threads[i]).value;
    assert HolderOf(s, g) == Some(j) <==> Holds(cfg, s.threads[j], g);
  }

  lemma {:induction false} WaitingChain(cfg: Config, s: State, chain: seq<nat>)
    requires Guarded(cfg, s) && |chain| > 0
    requires forall k :: 0 <= k < |chain| ==> chain[k] < |s.threads|
    requires forall k :: 0 <= k < |chain| - 1 ==> WaitsFor(cfg, s, chain[k], chain[k + 1])
    ensures Depth(s.threads[chain[|chain| - 1]]) + |chain| - 1 <= Depth(s.threads[chain[0]])
  {
    var n := |chain| - 1;
    if n > 0 {
      WaitingChain(cfg, s, chain[..n]);
      assert WaitsFor(cfg, s, chain[n - 1], chain[n - 1 + 1]);
      WaitingGoesDown(cfg, s, chain[n - 1], chain[n]);
    }
  }

  /** In no interleaving is there a cycle of threads each waiting for a guard the next one holds. */
  lemma NoCycle(cfg: Config, threads: nat, moves: seq<(nat, Move)>, chain: seq<nat>)
    requires Schedule(cfg, threads, moves).Some? && |chain| > 1 && chain[0] == chain[|chain| - 1]
    requires forall k :: 0 <= k < |chain| ==> chain[k] < |Schedule(cfg, threads, moves).value.threads|
    ensures exists k ::
      0 <= k < |chain| - 1 && !WaitsFor(cfg, Schedule(cfg, threads, moves).value, chain[k], chain[k + 1])
  {
    var s := Schedule(cfg, threads, moves).value;
    RunGuarded(cfg, threads, moves);
    if forall k :: 0 <= k < |chain| - 1 ==> WaitsFor(cfg, s, chain[k], chain[k + 1]) {
      WaitingChain(cfg, s, chain);
      assert false;
    }
  }

  /** A thread that runs, or whose guard is free, has a move. */
  lemma HasMove(cfg: Config, s: State, i: nat) returns (m: Move)
    requires Guarded(cfg, s) && i < |s.threads| && !s.threads[i].Idle?
    requires Wanted(cfg, s.threads[i]).Some? ==> HolderOf(s, Wanted(cfg, s.threads[i]).value).None?
    ensures Fire(cfg, s, i, m).Some?
  {
    if s.threads[i].Evicting? && OverCounts(cfg, s.counts) {
      m := Draw(0);
    } else if s.threads[i].InVictim? && s.chains[s.threads[i].bucket] != [] {
      m := Take(|s.chains[s.threads[i].bucket]| - 1);
    } else {
      m := Go;
    }
  }

  /** In every interleaving, as long as some thread has work, some thread has a move. */
  lemma NeverStuck(cfg: Config, threads: nat, moves: seq<(nat, Move)>, i: nat) returns (j: nat, m: Move)
    requires Schedule(cfg, threads, moves).Some?
    requires i < |Schedule(cfg, threads, moves).value.threads| && !Schedule(cfg, threads, moves).value.threads[i].Idle?
    ensures Fire(cfg, Schedule(cfg, threads, moves).value, j, m).Some?
  {
    var s := Schedule(cfg, threads, moves).value;
    RunGuarded(cfg, threads, moves);
    j := i;
    while Wanted(cfg, s.threads[j]).Some? && HolderOf(s, Wanted(cfg, s.threads[j]).value).Some?
      invariant j < |s.threads| && !s.threads[j].Idle?
      decreases Depth(s.threads[j])
    {
      var g := Wanted(cfg, s.threads[j]).value;
      var k := HolderOf(s, g).value;
      WaitingGoesDown(cfg, s, j, k);
      assert HolderOf(s, g) == Some(k) <==> Holds(cfg, s.threads[k], g);
      j := k;
    }
    m := HasMove(cfg, s, j);
  }

  /** A thread that finished its request holds no guard. */
  lemma IdleHoldsNothing(cfg: Config, threads: nat, moves: seq<(nat, Move)>, i: nat, g: Guard)
    requires Schedule(cfg, threads, moves).Some?
    requires i < |Schedule(cfg, threads, moves).value.threads| && Schedule(cfg, threads, moves).value.threads[i].Idle?
    ensures HolderOf(Schedule(cfg, threads, moves).value, g) != Some(i)
  {
    RunGuarded(cfg, threads, moves);
  }
}
