/**
 The lock protocol under threads: what module Locks proves of requests that run one after another, path by
 path over every interleaving in which no path is created twice.
 */
module LockSchedules {
  import opened Basics
  import opened Files
  import opened Tables
  import opened Refinement
  import opened TableRuns
  import opened Locks
  import opened Guards
  import opened GuardGaps

  ghost function RecordIn(cfg: Config, s: State, key: string): Option<File>
    requires |s.chains| == cfg.buckets
  {
    Lookup(s.chains[Slot(cfg, key)], key)
  }

  /** The request that this step decides on the path's record, if it is such a step. A creation decides in
      its second section. */
  function Decides(s: State, i: nat, key: string): Option<Op> {
    if i < |s.threads| && s.threads[i].InBucket? && s.threads[i].op.key == key
       && !(s.threads[i].op.Create? && s.threads[i].stage.Search?)
    then Some(s.threads[i].op)
    else None
  }

  /** The step takes the path's file out as a victim. */
  predicate Victimises(s: State, i: nat, m: Move, key: string) {
    && i < |s.threads| && s.threads[i].InVictim? && m.Take? && s.threads[i].bucket < |s.chains|
    && m.index < |s.chains[s.threads[i].bucket]| && s.chains[s.threads[i].bucket][m.index].key == key
  }

  // ---------------------------------------------------------------------------
  // One step, one path
  // ---------------------------------------------------------------------------

  /** A chain after a bucket section that is not a creation. */
  lemma LookupPlaced(c: seq<File>, op: Op, key: string)
    requires Distinct(c) && !op.Create?
    ensures
      var cur := Lookup(c, op.key);
      Lookup(Place(c, op.key, Decide(op, cur).next), key) ==
        if key == op.key then Decide(op, cur).next else Lookup(c, key)
  {
    var cur := Lookup(c, op.key);
    var next := Decide(op, cur).next;
    DecideKeepsKey(op, cur);
    NoNewRecord(op, cur);
    assert Shelve(c, op.key, next) == Place(c, op.key, next);
    LookupShelved(c, op.key, next, key);
  }

  lemma LookupLinked(c: seq<File>, f: File, key: string)
    ensures Lookup([f] + c, key) == if key == f.key then Some(f) else Lookup(c, key)
  {
    if key != f.key {
      LookupSkips(c, f, key);
    }
  }

  lemma SectionRecord(cfg: Config, s: State, i: nat, op: Op, stage: Stage, key: string)
    requires |s.chains| == |s.bucketGuards| == cfg.buckets && i < |s.threads|
    requires s.threads[i] == InBucket(op, stage) && NoPathTwice(s) && !Relinks(cfg, s, i)
    ensures
      var cur := RecordIn(cfg, s, key);
      var op' := Decides(s, i, key);
      RecordIn(cfg, BucketSection(cfg, s, i, op, stage), key) ==
        if op'.Some? then Decide(op'.value, cur).next else cur
  {
    var c := s.chains[Slot(cfg, op.key)];
    if op.Create? {
      LookupLinked(c, Fresh(op.key, op.fd, op.lock), key);
    } else {
      LookupPlaced(c, op, key);
    }
  }

  /** In a table without repeated paths, a step decides a request on the path's record, evicts it, or leaves
      it alone. */
  lemma StepRecord(cfg: Config, s: State, i: nat, m: Move, key: string)
    requires |s.chains| == |s.bucketGuards| == cfg.buckets && Fire(cfg, s, i, m).Some?
    requires NoPathTwice(s) && Placed(cfg, s) && !Relinks(cfg, s, i)
    ensures
      var cur := RecordIn(cfg, s, key);
      var op := Decides(s, i, key);
      RecordIn(cfg, Fire(cfg, s, i, m).value, key) ==
        if Victimises(s, i, m, key) then None else if op.Some? then Decide(op.value, cur).next else cur
  {
    match s.threads[i]
    case InBucket(op, stage) => SectionRecord(cfg, s, i, op, stage, key);
    case InVictim(b) =>
      if m.Take? {
        LookupRemoved(s.chains[b], m.index, key);
      }
    case _ =>
  }

  // ---------------------------------------------------------------------------
  // Schedules and their beginnings
  // ---------------------------------------------------------------------------

  /** A schedule that can be carried out and in which no path is created twice. */
  ghost predicate Orderly(cfg: Config, threads: nat, moves: seq<(nat, Move)>) {
    Schedule(cfg, threads, moves).Some? && NeverRelinks(cfg, threads, moves)
  }

  ghost function At(cfg: Config, threads: nat, moves: seq<(nat, Move)>): (s: State)
    requires Orderly(cfg, threads, moves)
    ensures |s.chains| == |s.bucketGuards| == cfg.buckets
  {
    Schedule(cfg, threads, moves).value
  }

  /** The last step of an orderly schedule. */
  lemma LastStep(cfg: Config, threads: nat, moves: seq<(nat, Move)>, key: string)
    requires Orderly(cfg, threads, moves) && moves != []
    ensures Orderly(cfg, threads, moves[..|moves| - 1])
    ensures
      var n := |moves| - 1;
      var (i, m) := moves[n];
      var s := At(cfg, threads, moves[..n]);
      var op := Decides(s, i, key);
      RecordIn(cfg, At(cfg, threads, moves), key) ==
        if Victimises(s, i, m, key) then None
        else if op.Some? then Decide(op.value, RecordIn(cfg, s, key)).next
        else RecordIn(cfg, s, key)
  {
    var n := |moves| - 1;
    OnceExactly(cfg, threads, moves[..n]);
    StepRecord(cfg, Schedule(cfg, threads, moves[..n]).value, moves[n].0, moves[n].1, key);
  }

  /** An orderly schedule without its last step. */
  ghost function Init(cfg: Config, threads: nat, moves: seq<(nat, Move)>): (init: seq<(nat, Move)>)
    requires Orderly(cfg, threads, moves) && moves != []
    ensures init == moves[..|moves| - 1] && Orderly(cfg, threads, init)
  {
    moves[..|moves| - 1]
  }

  // ---------------------------------------------------------------------------
  // Holding a lock
  // ---------------------------------------------------------------------------

  /** The step neither lets the lock of `a` on the path go nor evicts the file. */
  ghost predicate Spares(s: State, step: (nat, Move), key: string, a: int) {
    && !Victimises(s, step.0, step.1, key)
    && (Decides(s, step.0, key).Some? ==> !Yields(Decides(s, step.0, key).value, key, a))
  }

  /** From its `n`-th step on, the schedule spares the lock of `a`. */
  ghost predicate SparesFrom(cfg: Config, threads: nat, moves: seq<(nat, Move)>, n: nat, key: string, a: int)
    requires Orderly(cfg, threads, moves)
    decreases |moves|
  {
    |moves| > n ==>
      var init := Init(cfg, threads, moves);
      && SparesFrom(cfg, threads, init, n, key, a)
      && Spares(At(cfg, threads, init), moves[|moves| - 1], key, a)
  }

  lemma {:induction false} BeginningOrderly(cfg: Config, threads: nat, moves: seq<(nat, Move)>, n: nat, key: string)
    requires Orderly(cfg, threads, moves) && n <= |moves|
    ensures Orderly(cfg, threads, moves[..n])
    decreases |moves|
  {
    if n == |moves| {
      assert moves[..n] == moves;
    } else {
      var k := |moves| - 1;
      LastStep(cfg, threads, moves, key);
      BeginningOrderly(cfg, threads, moves[..k], n, key);
      assert moves[..k][..n] == moves[..n];
    }
  }

  /** In every interleaving in which no path is created twice: while a client holds a file's lock, no step of
      any thread moves the lock or removes the file, until the client's own unlock, open or remove, the
      server's removal, or an eviction. */
  lemma {:induction false} HolderKeepsLockUnderThreads(cfg: Config, threads: nat, moves: seq<(nat, Move)>,
                                                       n: nat, key: string, a: int)
    requires Orderly(cfg, threads, moves) && n <= |moves|
    ensures Orderly(cfg, threads, moves[..n])
    ensures
      var before := RecordIn(cfg, At(cfg, threads, moves[..n]), key);
      var after := RecordIn(cfg, At(cfg, threads, moves), key);
      HeldBy(before, a) && SparesFrom(cfg, threads, moves, n, key, a) ==> HeldBy(after, a)
    decreases |moves|
  {
    BeginningOrderly(cfg, threads, moves, n, key);
    if n == |moves| {
      assert moves[..n] == moves;
    } else {
      var k := |moves| - 1;
      LastStep(cfg, threads, moves, key);
      HolderKeepsLockUnderThreads(cfg, threads, moves[..k], n, key, a);
      assert moves[..k][..n] == moves[..n];
      var s := At(cfg, threads, moves[..k]);
      var cur, op := RecordIn(cfg, s, key), Decides(s, moves[k].0, key);
      if HeldBy(cur, a) && Spares(s, moves[k], key, a) && op.Some? {
        HolderDecision(op.value, cur.value, a);
      }
    }
  }

  // ---------------------------------------------------------------------------
  // Unlocked files and waiters
  // ---------------------------------------------------------------------------

  /** The step is a holder's re-opening of the path without the lock flag over waiters. */
  ghost predicate Reopens(cfg: Config, s: State, i: nat, key: string)
    requires |s.chains| == cfg.buckets
  {
    Decides(s, i, key).Some? && ReopensOnWaiters(Decides(s, i, key).value, RecordIn(cfg, s, key))
  }

  /** The path is never unlocked with waiters. */
  ghost predicate AlwaysTidyAt(cfg: Config, threads: nat, moves: seq<(nat, Move)>, key: string)
    requires Orderly(cfg, threads, moves)
    decreases |moves|
  {
    && TidyFile(RecordIn(cfg, At(cfg, threads, moves), key))
    && (moves != [] ==> AlwaysTidyAt(cfg, threads, Init(cfg, threads, moves), key))
  }

  ghost predicate NeverReopensAt(cfg: Config, threads: nat, moves: seq<(nat, Move)>, key: string)
    requires Orderly(cfg, threads, moves)
    decreases |moves|
  {
    moves != [] ==>
      var init := Init(cfg, threads, moves);
      && NeverReopensAt(cfg, threads, init, key)
      && !Reopens(cfg, At(cfg, threads, init), moves[|moves| - 1].0, key)
  }

  /** In every interleaving in which no path is created twice: a path is never unlocked with waiters if and
      only if no holder re-opens it without the lock flag over waiters; and then no request decided on it
      next, by any thread, fails the waiter assertion. */
  lemma {:induction false} TidyExactlyUnderThreads(cfg: Config, threads: nat, moves: seq<(nat, Move)>, key: string)
    requires Orderly(cfg, threads, moves)
    ensures AlwaysTidyAt(cfg, threads, moves, key) <==> NeverReopensAt(cfg, threads, moves, key)
    ensures NeverReopensAt(cfg, threads, moves, key) ==>
      forall op :: Decide(op, RecordIn(cfg, At(cfg, threads, moves), key)).answer != Aborted
    decreases |moves|
  {
    if moves != [] {
      var n := |moves| - 1;
      LastStep(cfg, threads, moves, key);
      TidyExactlyUnderThreads(cfg, threads, moves[..n], key);
      var s := At(cfg, threads, moves[..n]);
      var cur, op := RecordIn(cfg, s, key), Decides(s, moves[n].0, key);
      if TidyFile(cur) && op.Some? {
        StrayWaitersExactly(op.value, cur);
      }
    }
    TidyNeverAborts(RecordIn(cfg, At(cfg, threads, moves), key));
  }

  lemma TidyNeverAborts(f: Option<File>)
    ensures TidyFile(f) ==> forall op :: Decide(op, f).answer != Aborted
  {
    if TidyFile(f) {
      forall op: Op
        ensures Decide(op, f).answer != Aborted
      {
        StrayWaitersExactly(op, f);
      }
    }
  }
}
