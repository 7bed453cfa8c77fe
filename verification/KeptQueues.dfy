/**
 The FIFO policy as written, but for the direction of the links: a removal leaves its key in the eviction
 queue. An eviction takes the key at the front and looks it up; a key without a file stops the process, and
 a key created again since names a newer file. This module says exactly when the files evicted are still
 the right ones, over every run of that table.
 */
module KeptQueues {
  import opened Basics
  import opened Files
  import opened Tables
  import opened Refinement
  import opened TableRuns

  /** `files` are the live files in creation order, `removals` how many have been removed. `crashed` says
      that the process has used a missing file. `right` says that every eviction so far took the oldest
      live file, `good` that the front of the queue was good before each. */
  datatype Kept = Kept(table: Table, files: seq<File>, removals: nat, crashed: bool, right: bool, good: bool)

  /** Index of the last occurrence of a key, or -1. */
  function Last(q: seq<string>, key: string): (i: int)
    ensures -1 <= i < |q| && (i >= 0 ==> q[i] == key)
    ensures forall j :: i < j < |q| ==> q[j] != key
  {
    if q == [] || q[|q| - 1] == key then |q| - 1 else Last(q[..|q| - 1], key)
  }

  /** The key at the front is a live path, and no other live path has its latest entry before the front
      path's latest entry. */
  predicate GoodFront(q: seq<string>, files: seq<File>) {
    && q != [] && Lookup(files, q[0]).Some?
    && forall i :: 0 <= i < |files| && files[i].key != q[0] ==> Last(q, q[0]) < Last(q, files[i].key)
  }

  // ---------------------------------------------------------------------------
  // The table as written
  // ---------------------------------------------------------------------------

  function TouchKept(cfg: Config, t: Table, op: Op): (t': Table)
    requires |t.chains| == cfg.buckets
    ensures |t'.chains| == cfg.buckets
  {
    var cur := Lookup(t.chains[Slot(cfg, op.key)], op.key);
    var created := cur.None? && Decide(op, cur).next.Some?;
    Touch(cfg, t, op).(fifo := if created then t.fifo + [op.key] else t.fifo)
  }

  function AfterTouch(cfg: Config, k: Kept, op: Op): Kept
    requires |k.table.chains| == cfg.buckets
  {
    var cur := Lookup(k.table.chains[Slot(cfg, op.key)], op.key);
    k.(table := TouchKept(cfg, k.table, op),
       files := ShelfTouch(k.files, op),
       removals := k.removals + if cur.Some? && Decide(op, cur).next.None? then 1 else 0)
  }

  /** One turn of the eviction loop. */
  function TakeFront(cfg: Config, k: Kept): Evicted<Kept>
    requires |k.table.chains| == cfg.buckets
  {
    var good := k.good && GoodFront(k.table.fifo, k.files);
    if !HasVictim(cfg, k.table, 0) then Evicted(k.(crashed := true, right := false, good := good), [])
    else
      var e := EvictOne(cfg, k.table, 0);
      var f := e.files[0];
      Evicted(k.(table := e.state,
                 files := Shelve(k.files, f.key, None),
                 right := k.right && k.files != [] && f == k.files[0],
                 good := good),
              [f])
  }

  /** The eviction loop. */
  function TakeAll(cfg: Config, k: Kept): (r: Evicted<Kept>)
    requires |k.table.chains| == cfg.buckets && cfg.policy.Fifo?
    ensures |r.state.table.chains| == cfg.buckets
    decreases |k.table.fifo|
  {
    if !Over(cfg, k.table.stats) then Evicted(k, [])
    else
      var first := TakeFront(cfg, k);
      if first.state.crashed then first
      else
        var rest := TakeAll(cfg, first.state);
        Evicted(rest.state, first.files + rest.files)
  }

  /** One request; none is served after a crash. */
  function StepKept(cfg: Config, k: Kept, op: Op): (r: Outcome<Kept>)
    requires |k.table.chains| == cfg.buckets && cfg.policy.Fifo?
    ensures |r.state.table.chains| == cfg.buckets
  {
    if k.crashed then Outcome(k, Response(Aborted, None, []))
    else
      var d := Decide(op, Lookup(k.table.chains[Slot(cfg, op.key)], op.key));
      var touched := AfterTouch(cfg, k, op);
      if Settles(cfg, k.table, op) then
        var e := TakeAll(cfg, touched);
        Outcome(e.state, Response(d.answer, d.woken, e.files))
      else
        Outcome(touched, Response(d.answer, d.woken, []))
  }

  function RunKept(cfg: Config, ops: seq<Op>): (r: Trace<Kept>)
    requires cfg.policy.Fifo?
    ensures |r.state.table.chains| == cfg.buckets && |r.responses| == |ops|
  {
    if ops == [] then Trace(Kept(EmptyTable(cfg), [], 0, false, true, true), [])
    else
      var n := |ops| - 1;
      var before := RunKept(cfg, ops[..n]);
      var after := StepKept(cfg, before.state, ops[n]);
      Trace(after.state, before.responses + [after.response])
  }

  // ---------------------------------------------------------------------------
  // What every run keeps
  // ---------------------------------------------------------------------------

  /** The same table with the queue as it should be. */
  function Mended(k: Kept): Table {
    k.table.(fifo := Keys(k.files))
  }

  /** Every live path is queued, and the latest entries of the live paths are in creation order. */
  ghost predicate Queued(q: seq<string>, s: seq<File>) {
    && (forall i :: 0 <= i < |s| ==> Last(q, s[i].key) >= 0)
    && (forall i, j :: 0 <= i < j < |s| ==> Last(q, s[i].key) < Last(q, s[j].key))
  }

  ghost predicate Faithful(cfg: Config, k: Kept) {
    && Refines(cfg, Mended(k), k.files) && Queued(k.table.fifo, k.files)
    && |k.table.fifo| == |k.files| + k.removals
    && (k.removals == 0 ==> k.table.fifo == Keys(k.files))
    && (k.right <==> k.good) && (k.crashed ==> !k.right) && (k.removals == 0 ==> k.right)
  }

  lemma LastAdded(q: seq<string>, x: string, key: string)
    ensures Last(q + [x], key) == if x == key then |q| else Last(q, key)
  {
    assert (q + [x])[..|q|] == q;
  }

  lemma LastOfRest(q: seq<string>, key: string)
    requires q != [] && q[0] != key && Last(q, key) >= 0
    ensures Last(q[1..], key) == Last(q, key) - 1
  {
    assert q[1..][Last(q, key) - 1] == key;
  }

  lemma LastOfFront(q: seq<string>)
    requires q != []
    ensures Last(q, q[0]) == 0 <==> q[0] !in q[1..]
  {
    var i := Last(q, q[0]);
    if i > 0 {
      assert q[1..][i - 1] == q[0];
    } else {
      assert forall j :: 0 <= j < |q[1..]| ==> q[1..][j] == q[j + 1];
    }
  }

  lemma QueuedAfterCreate(q: seq<string>, s: seq<File>, f: File)
    requires Queued(q, s) && forall i :: 0 <= i < |s| ==> s[i].key != f.key
    ensures Queued(q + [f.key], s + [f])
  {
    forall i | 0 <= i <= |s|
      ensures Last(q + [f.key], (s + [f])[i].key) == if i == |s| then |q| else Last(q, s[i].key)
    {
      LastAdded(q, f.key, (s + [f])[i].key);
    }
  }

  lemma QueuedAfterRemove(q: seq<string>, s: seq<File>, i: nat)
    requires Queued(q, s) && i < |s|
    ensures Queued(q, RemoveAt(s, i))
  {
    var t := RemoveAt(s, i);
    assert forall j :: 0 <= j < |t| ==> t[j] == s[if j < i then j else j + 1];
  }

  lemma QueuedAfterEvict(q: seq<string>, s: seq<File>, i: nat)
    requires Queued(q, s) && Distinct(s) && i < |s| && q != [] && s[i].key == q[0]
    ensures Queued(q[1..], RemoveAt(s, i))
  {
    QueuedAfterRemove(q, s, i);
    var t := RemoveAt(s, i);
    forall j | 0 <= j < |t|
      ensures Last(q[1..], t[j].key) == Last(q, t[j].key) - 1 >= 0
    {
      assert t[j] == s[if j < i then j else j + 1];
      LastOfRest(q, t[j].key);
    }
  }

  lemma QueuedSameKeys(q: seq<string>, s: seq<File>, t: seq<File>)
    requires Queued(q, s) && Keys(t) == Keys(s)
    ensures Queued(q, t)
  {
    assert |t| == |Keys(t)| == |s|;
    assert forall i :: 0 <= i < |s| ==> t[i].key == Keys(t)[i] == s[i].key;
  }

  /** What a request up to its evictions does to the queue. */
  lemma TouchQueued(q: seq<string>, s: seq<File>, op: Op)
    requires Distinct(s) && Queued(q, s)
    ensures
      var cur := Lookup(s, op.key);
      var next := Decide(op, cur).next;
      Queued(if cur.None? && next.Some? then q + [op.key] else q, ShelfTouch(s, op))
  {
    var cur := Lookup(s, op.key);
    var next := Decide(op, cur).next;
    DecideKeepsKey(op, cur);
    TouchKeys(s, op);
    if cur.None? && next.Some? {
      QueuedAfterCreate(q, s, next.value);
    } else if cur.Some? && next.None? {
      QueuedAfterRemove(q, s, Position(s, op.key));
    } else {
      QueuedSameKeys(q, s, ShelfTouch(s, op));
    }
  }

  lemma TouchMended(cfg: Config, k: Kept, op: Op)
    requires cfg.policy.Fifo? && Refines(cfg, Mended(k), k.files)
    ensures Lookup(k.table.chains[Slot(cfg, op.key)], op.key) == Lookup(k.files, op.key)
    ensures Mended(AfterTouch(cfg, k, op)) == Touch(cfg, Mended(k), op)
    ensures Refines(cfg, Touch(cfg, Mended(k), op), ShelfTouch(k.files, op))
  {
    TouchRefines(cfg, Mended(k), k.files, op);
  }

  /** A request up to its evictions. */
  lemma TouchFaithful(cfg: Config, k: Kept, op: Op)
    requires cfg.policy.Fifo? && Faithful(cfg, k)
    ensures Faithful(cfg, AfterTouch(cfg, k, op))
  {
    var cur := Lookup(k.files, op.key);
    TouchMended(cfg, k, op);
    TouchQueued(k.table.fifo, k.files, op);
    TouchKeys(k.files, op);
    ShelveLength(k.files, op.key, Decide(op, cur).next);
  }

  /** The evictor finds a file exactly when the key at the front is a live path. */
  lemma FindsLivePath(cfg: Config, k: Kept)
    requires cfg.policy.Fifo? && Faithful(cfg, k)
    ensures HasVictim(cfg, k.table, 0) <==> k.table.fifo != [] && Lookup(k.files, k.table.fifo[0]).Some?
    ensures HasVictim(cfg, k.table, 0) ==>
      EvictOne(cfg, k.table, 0).files == [Lookup(k.files, k.table.fifo[0]).value]
  {
    if k.table.fifo != [] {
      NewestFinds(cfg, k.files, k.table.fifo[0]);
    }
  }

  lemma TakenChains(cfg: Config, k: Kept)
    requires cfg.policy.Fifo? && Faithful(cfg, k) && HasVictim(cfg, k.table, 0)
    requires Position(k.files, k.table.fifo[0]) < |k.files|
    ensures forall c :: 0 <= c < cfg.buckets ==>
      EvictOne(cfg, k.table, 0).state.chains[c] == Newest(cfg, RemoveAt(k.files, Position(k.files, k.table.fifo[0])), c)
  {
    var p := Position(k.files, k.table.fifo[0]);
    forall c | 0 <= c < cfg.buckets
      ensures EvictOne(cfg, k.table, 0).state.chains[c] == Newest(cfg, RemoveAt(k.files, p), c)
    {
      NewestRemove(cfg, k.files, p, c);
    }
  }

  /** While a limit is exceeded some file is live, and its path is queued. */
  lemma OverIsQueued(cfg: Config, k: Kept)
    requires Faithful(cfg, k) && Over(cfg, k.table.stats)
    ensures k.files != [] && k.table.fifo != []
  {
    if k.files != [] {
      assert Last(k.table.fifo, k.files[0].key) >= 0;
    }
  }

  /** One eviction takes the oldest live file if and only if the front of the queue is good. */
  lemma TakesOldestExactly(cfg: Config, k: Kept)
    requires cfg.policy.Fifo? && Faithful(cfg, k) && Over(cfg, k.table.stats)
    ensures k.files != []
    ensures (HasVictim(cfg, k.table, 0) && EvictOne(cfg, k.table, 0).files == [k.files[0]]) <==>
      GoodFront(k.table.fifo, k.files)
  {
    OverIsQueued(cfg, k);
    FindsLivePath(cfg, k);
    var q, s := k.table.fifo, k.files;
    var p := Position(s, q[0]);
    if 0 < p < |s| {
      assert s[0].key != q[0] && Last(q, s[0].key) < Last(q, s[p].key);
    }
  }

  /** The two ways to fail, told apart: a dead path at the front, and one that names a newer file. */
  ghost predicate FailsAsSaid(cfg: Config, k: Kept)
    requires k.files != [] && k.table.fifo != []
  {
    var q, s := k.table.fifo, k.files;
    var live := Lookup(s, q[0]).Some?;
    && (HasVictim(cfg, k.table, 0) <==> live)
    && (live && q[0] !in q[1..] ==> EvictOne(cfg, k.table, 0).files == [s[0]])
    && (live ==>
          (EvictOne(cfg, k.table, 0).files != [s[0]] <==>
             q[0] in q[1..] && exists i :: 0 <= i < |s| && Last(q, s[i].key) < Last(q, q[0])))
  }

  lemma FailuresExactly(cfg: Config, k: Kept)
    requires cfg.policy.Fifo? && Faithful(cfg, k) && Over(cfg, k.table.stats)
    ensures k.files != [] && k.table.fifo != [] && FailsAsSaid(cfg, k)
  {
    OverIsQueued(cfg, k);
    FindsLivePath(cfg, k);
    TakesOldestExactly(cfg, k);
    var q, s := k.table.fifo, k.files;
    var p := Position(s, q[0]);
    LastOfFront(q);
    if 0 < p < |s| {
      assert Last(q, s[0].key) < Last(q, s[p].key);
    }
  }

  lemma TakenMended(cfg: Config, k: Kept)
    requires cfg.policy.Fifo? && Faithful(cfg, k) && HasVictim(cfg, k.table, 0)
    ensures
      var k' := TakeFront(cfg, k).state;
      && Position(k.files, k.table.fifo[0]) < |k.files|
      && k'.files == RemoveAt(k.files, Position(k.files, k.table.fifo[0]))
      && k'.table.fifo == k.table.fifo[1..]
      && Refines(cfg, Mended(k'), k'.files)
  {
    TakenFields(cfg, k);
    TakenChains(cfg, k);
    EvictedStats(cfg, k.table);
    var p, k' := Position(k.files, k.table.fifo[0]), TakeFront(cfg, k).state;
    TotalRemove(k.files, p, Size);
    RemoveDistinct(k.files, p);
    RefinesFrom(cfg, Mended(k'), k'.files);
  }

  lemma RemoveDistinct(s: seq<File>, i: nat)
    requires Distinct(s) && i < |s|
    ensures Distinct(RemoveAt(s, i))
  {
    var t := RemoveAt(s, i);
    assert forall j :: 0 <= j < |t| ==> t[j] == s[if j < i then j else j + 1];
  }

  lemma RefinesFrom(cfg: Config, t: Table, s: seq<File>)
    requires cfg.policy.Fifo? && |t.chains| == cfg.buckets && Distinct(s) && t.fifo == Keys(s)
    requires forall b :: 0 <= b < cfg.buckets ==> t.chains[b] == Newest(cfg, s, b)
    requires t.stats.items == |s| && t.stats.space == Total(s, Size)
    ensures Refines(cfg, t, s)
  {
  }

  lemma TakenFields(cfg: Config, k: Kept)
    requires cfg.policy.Fifo? && Faithful(cfg, k) && HasVictim(cfg, k.table, 0)
    ensures
      var k' := TakeFront(cfg, k).state;
      var p := Position(k.files, k.table.fifo[0]);
      && p < |k.files| && k'.files == RemoveAt(k.files, p)
      && k'.table == EvictOne(cfg, k.table, 0).state && k'.table.fifo == k.table.fifo[1..]
      && EvictOne(cfg, k.table, 0).files == [k.files[p]]
  {
    FindsLivePath(cfg, k);
    TakeFrontParts(cfg, k);
  }

  /** One turn of the loop. */
  lemma TakeFrontFaithful(cfg: Config, k: Kept)
    requires cfg.policy.Fifo? && Faithful(cfg, k) && Over(cfg, k.table.stats)
    ensures Faithful(cfg, TakeFront(cfg, k).state)
  {
    TakeFrontFlags(cfg, k);
    if HasVictim(cfg, k.table, 0) {
      TakenMended(cfg, k);
      TakenQueued(k.table.fifo, k.files, k.removals);
    }
  }

  lemma TakeFrontFlags(cfg: Config, k: Kept)
    requires cfg.policy.Fifo? && Faithful(cfg, k) && Over(cfg, k.table.stats)
    ensures TakeFront(cfg, k).state.right <==> TakeFront(cfg, k).state.good
    ensures k.removals == 0 ==> TakeFront(cfg, k).state.right
  {
    TakesOldestExactly(cfg, k);
    if k.removals == 0 {
      LiveQueueIsGood(k.table.fifo, k.files);
    }
  }

  lemma LiveQueueIsGood(q: seq<string>, s: seq<File>)
    requires s != [] && q == Keys(s) && Queued(q, s)
    ensures GoodFront(q, s)
  {
    assert q[0] == s[0].key;
    assert Position(s, q[0]) == 0;
  }

  /** What an eviction does to the queue. */
  lemma TakenQueued(q: seq<string>, s: seq<File>, removals: nat)
    requires q != [] && Position(s, q[0]) < |s| && Distinct(s) && Queued(q, s)
    requires |q| == |s| + removals && (removals == 0 ==> q == Keys(s))
    ensures
      var s' := RemoveAt(s, Position(s, q[0]));
      && Queued(q[1..], s') && |q[1..]| == |s'| + removals && (removals == 0 ==> q[1..] == Keys(s'))
  {
    QueuedAfterEvict(q, s, Position(s, q[0]));
    if removals == 0 {
      FirstKeyGone(s);
    }
  }

  lemma FirstKeyGone(s: seq<File>)
    requires s != [] && Distinct(s)
    ensures Position(s, Keys(s)[0]) == 0 && Keys(RemoveAt(s, 0)) == Keys(s)[1..]
  {
    assert RemoveAt(s, 0) == s[1..];
  }

  lemma {:induction false} TakeAllFaithful(cfg: Config, k: Kept)
    requires cfg.policy.Fifo? && Faithful(cfg, k)
    ensures Faithful(cfg, TakeAll(cfg, k).state)
    decreases |k.table.fifo|
  {
    if Over(cfg, k.table.stats) {
      TakeFrontFaithful(cfg, k);
      var first := TakeFront(cfg, k);
      if !first.state.crashed {
        TakeAllFaithful(cfg, first.state);
      }
    }
  }

  lemma {:induction false} RunFaithful(cfg: Config, ops: seq<Op>)
    requires cfg.policy.Fifo?
    ensures Faithful(cfg, RunKept(cfg, ops).state)
  {
    if ops != [] {
      var n := |ops| - 1;
      RunFaithful(cfg, ops[..n]);
      var k := RunKept(cfg, ops[..n]).state;
      TouchFaithful(cfg, k, ops[n]);
      if !k.crashed && Settles(cfg, k.table, ops[n]) {
        TakeAllFaithful(cfg, AfterTouch(cfg, k, ops[n]));
      }
    }
  }

  /** One turn that takes a file. */
  ghost predicate Turn(cfg: Config, k: Kept, k': Kept) {
    && |k.table.chains| == cfg.buckets && Over(cfg, k.table.stats) && HasVictim(cfg, k.table, 0)
    && k' == TakeFront(cfg, k).state
  }

  /** The states before each turn of an eviction loop, as far as it got. */
  ghost predicate LoopFrom(cfg: Config, k: Kept, ks: seq<Kept>) {
    ks != [] && ks[0] == k && forall j :: 0 <= j < |ks| - 1 ==> Turn(cfg, ks[j], ks[j + 1])
  }

  lemma TurnFaithful(cfg: Config, k: Kept, k': Kept)
    requires cfg.policy.Fifo? && Faithful(cfg, k) && Turn(cfg, k, k')
    ensures Faithful(cfg, k')
  {
    TakeFrontFaithful(cfg, k);
  }

  lemma LoopFaithful(cfg: Config, k: Kept, ks: seq<Kept>)
    requires cfg.policy.Fifo? && Faithful(cfg, k) && LoopFrom(cfg, k, ks)
    ensures Faithful(cfg, ks[|ks| - 1])
  {
    for j := 0 to |ks| - 1
      invariant Faithful(cfg, ks[j])
    {
      TurnFaithful(cfg, ks[j], ks[j + 1]);
    }
  }

  /** At every eviction of every run: the process stops exactly when the path at the front is dead; it takes
      the wrong file exactly when that path is live, was created again (it is queued once more) and another
      live path was created before that; a live path that is queued once is taken rightly. */
  lemma EveryEviction(cfg: Config, ops: seq<Op>, op: Op, ks: seq<Kept>)
    requires cfg.policy.Fifo? && ks != []
    ensures
      var before, k := RunKept(cfg, ops).state, ks[|ks| - 1];
      (!before.crashed && Settles(cfg, before.table, op) && LoopFrom(cfg, AfterTouch(cfg, before, op), ks)
        && Over(cfg, k.table.stats)) ==> k.files != [] && k.table.fifo != [] && FailsAsSaid(cfg, k)
  {
    RunFaithful(cfg, ops);
    var before := RunKept(cfg, ops).state;
    TouchFaithful(cfg, before, op);
    if LoopFrom(cfg, AfterTouch(cfg, before, op), ks) {
      LoopFails(cfg, AfterTouch(cfg, before, op), ks);
    }
  }

  lemma LoopFails(cfg: Config, start: Kept, ks: seq<Kept>)
    requires cfg.policy.Fifo? && Faithful(cfg, start) && LoopFrom(cfg, start, ks)
    ensures
      var k := ks[|ks| - 1];
      Over(cfg, k.table.stats) ==> k.files != [] && k.table.fifo != [] && FailsAsSaid(cfg, k)
  {
    LoopFaithful(cfg, start, ks);
    var k := ks[|ks| - 1];
    if Over(cfg, k.table.stats) {
      FailuresExactly(cfg, k);
    }
  }

  /** Over every run of the table whose removals leave their keys queued: every eviction takes the oldest
      live file, and none stops the process, if and only if the front of the queue was good before each;
      and the queue is the live paths in creation order if and only if no file was ever removed, one entry
      being too many for each removal; until then every eviction is right. */
  lemma KeptRunExactly(cfg: Config, ops: seq<Op>)
    requires cfg.policy.Fifo?
    ensures
      var k := RunKept(cfg, ops).state;
      && (k.right <==> k.good)
      && |k.table.fifo| == |k.files| + k.removals
      && (k.table.fifo == Keys(k.files) <==> k.removals == 0)
      && (k.removals == 0 ==> k.right)
  {
    RunFaithful(cfg, ops);
  }

  lemma {:induction false} TakeAllKeepsRemovals(cfg: Config, k: Kept)
    requires cfg.policy.Fifo? && |k.table.chains| == cfg.buckets
    ensures TakeAll(cfg, k).state.removals == k.removals
    decreases |k.table.fifo|
  {
    if Over(cfg, k.table.stats) && !TakeFront(cfg, k).state.crashed {
      TakeAllKeepsRemovals(cfg, TakeFront(cfg, k).state);
    }
  }

  lemma {:induction false} NothingRemoved(cfg: Config, ops: seq<Op>)
    requires cfg.policy.Fifo? && forall op :: op in ops ==> !op.Remove?
    ensures RunKept(cfg, ops).state.removals == 0
  {
    if ops != [] {
      var n := |ops| - 1;
      NothingRemoved(cfg, ops[..n]);
      StepKeepsRemovals(cfg, RunKept(cfg, ops[..n]).state, ops[n]);
    }
  }

  lemma StepKeepsRemovals(cfg: Config, k: Kept, op: Op)
    requires cfg.policy.Fifo? && |k.table.chains| == cfg.buckets && !op.Remove?
    ensures StepKept(cfg, k, op).state.removals == k.removals
  {
    TakeAllKeepsRemovals(cfg, AfterTouch(cfg, k, op));
  }

  /** A caller that never asks for a removal gets the right evictions. */
  lemma RightWithoutRemovals(cfg: Config, ops: seq<Op>)
    requires cfg.policy.Fifo? && forall op :: op in ops ==> !op.Remove?
    ensures RunKept(cfg, ops).state.right && !RunKept(cfg, ops).state.crashed
  {
    NothingRemoved(cfg, ops);
    RunFaithful(cfg, ops);
  }

  // ---------------------------------------------------------------------------
  // While it is right it is the table it should be
  // ---------------------------------------------------------------------------

  /** A turn that takes the oldest file is a turn of the mended table. */
  lemma RightTurn(cfg: Config, k: Kept)
    requires cfg.policy.Fifo? && Faithful(cfg, k) && Over(cfg, k.table.stats) && TakeFront(cfg, k).state.right
    ensures HasVictim(cfg, Mended(k), 0) && k.right
    ensures EvictOne(cfg, Mended(k), 0) == Evicted(Mended(TakeFront(cfg, k).state), TakeFront(cfg, k).files)
  {
    VictimRefines(cfg, Mended(k), k.files, 0);
    TakeFrontParts(cfg, k);
    RightChains(cfg, k);
    SameStats(cfg, k.table, Mended(k));
  }

  lemma TakeFrontParts(cfg: Config, k: Kept)
    requires |k.table.chains| == cfg.buckets
    ensures TakeFront(cfg, k).state.right ==> HasVictim(cfg, k.table, 0) && k.right && k.files != []
    ensures HasVictim(cfg, k.table, 0) ==>
      var k', e := TakeFront(cfg, k).state, EvictOne(cfg, k.table, 0);
      && k'.table == e.state && TakeFront(cfg, k).files == e.files
      && k'.files == Shelve(k.files, e.files[0].key, None)
      && (k'.right ==> e.files[0] == k.files[0])
  {
  }

  lemma SameStats(cfg: Config, t: Table, t': Table)
    requires HasVictim(cfg, t, 0) && HasVictim(cfg, t', 0) && t.stats == t'.stats
    requires EvictOne(cfg, t, 0).files == EvictOne(cfg, t', 0).files
    ensures EvictOne(cfg, t, 0).state.stats == EvictOne(cfg, t', 0).state.stats
  {
    EvictedStats(cfg, t);
    EvictedStats(cfg, t');
  }

  lemma EvictedStats(cfg: Config, t: Table)
    requires HasVictim(cfg, t, 0)
    ensures
      var e := EvictOne(cfg, t, 0);
      var f := e.files[0];
      e.files == [f] && e.state.stats == t.stats.(items := t.stats.items - 1,
                                                  space := t.stats.space - Size(f),
                                                  open := t.stats.open - Opened(f),
                                                  evictions := t.stats.evictions + 1)
  {
  }

  /** The chains and the queue after such a turn, and the file it took. */
  lemma RightChains(cfg: Config, k: Kept)
    requires cfg.policy.Fifo? && Faithful(cfg, k) && HasVictim(cfg, k.table, 0) && TakeFront(cfg, k).state.right
    requires HasVictim(cfg, Mended(k), 0)
    ensures
      var k' := TakeFront(cfg, k).state;
      var e := EvictOne(cfg, Mended(k), 0);
      && e.state.chains == k'.table.chains && e.state.fifo == Keys(k'.files)
      && e.files == EvictOne(cfg, k.table, 0).files
  {
    FindsLivePath(cfg, k);
    EvictOneRefines(cfg, Mended(k), k.files, 0);
    TakenMended(cfg, k);
    PositionOf(k.files, 0);
    var s' := RemoveAt(k.files, 0);
    assert TakeFront(cfg, k).state.files == s';
    SameChains(cfg, EvictOne(cfg, Mended(k), 0).state, Mended(TakeFront(cfg, k).state), s');
  }

  lemma SameChains(cfg: Config, t: Table, t': Table, s: seq<File>)
    requires Refines(cfg, t, s) && Refines(cfg, t', s)
    ensures t.chains == t'.chains && t.fifo == t'.fifo
  {
    assert forall b :: 0 <= b < cfg.buckets ==> t.chains[b] == t'.chains[b];
  }

  lemma {:induction false} StaysWrong(cfg: Config, k: Kept)
    requires cfg.policy.Fifo? && |k.table.chains| == cfg.buckets && !k.right
    ensures !TakeAll(cfg, k).state.right
    decreases |k.table.fifo|
  {
    if Over(cfg, k.table.stats) && !TakeFront(cfg, k).state.crashed {
      StaysWrong(cfg, TakeFront(cfg, k).state);
    }
  }

  lemma {:induction false} RightLoop(cfg: Config, k: Kept) returns (picks: seq<nat>)
    requires cfg.policy.Fifo? && Faithful(cfg, k) && TakeAll(cfg, k).state.right
    ensures LegalPicks(cfg, Mended(k), picks)
    ensures EvictAll(cfg, Mended(k), picks) == Evicted(Mended(TakeAll(cfg, k).state), TakeAll(cfg, k).files)
    decreases |k.table.fifo|
  {
    picks := [];
    if Over(cfg, k.table.stats) {
      var first := TakeFront(cfg, k);
      TakeFrontFaithful(cfg, k);
      if !first.state.crashed && !first.state.right {
        StaysWrong(cfg, first.state);
      }
      RightTurn(cfg, k);
      var rest := RightLoop(cfg, first.state);
      EvictFirst(cfg, Mended(k), 0, rest);
      picks := [0] + rest;
    }
  }

  lemma RightStep(cfg: Config, k: Kept, op: Op) returns (call: Call)
    requires cfg.policy.Fifo? && Faithful(cfg, k) && StepKept(cfg, k, op).state.right
    ensures k.right && call.op == op && LegalCall(cfg, Mended(k), call)
    ensures
      var r := StepKept(cfg, k, op);
      Step(cfg, Mended(k), call) == Outcome(Mended(r.state), r.response)
  {
    var touched := AfterTouch(cfg, k, op);
    TouchMended(cfg, k, op);
    TouchFaithful(cfg, k, op);
    var picks := [];
    if Settles(cfg, k.table, op) {
      if !touched.right {
        StaysWrong(cfg, touched);
      }
      picks := RightLoop(cfg, touched);
    }
    call := Call(op, picks);
  }

  /** As long as every front was good, the run is one of the table whose removals do take their keys out,
      with the same answers and the same files evicted. */
  lemma {:induction false} GoodRunIsIntended(cfg: Config, ops: seq<Op>) returns (calls: seq<Call>)
    requires cfg.policy.Fifo?
    ensures RunKept(cfg, ops).state.good ==>
      Asks(calls, ops) && RanTable(cfg, calls, Mended(RunKept(cfg, ops).state), RunKept(cfg, ops).responses)
  {
    calls := [];
    if ops != [] && RunKept(cfg, ops).state.good {
      var n := |ops| - 1;
      var call := LastIsIntended(cfg, ops);
      calls := GoodRunIsIntended(cfg, ops[..n]);
      var before, after := RunKept(cfg, ops[..n]), RunKept(cfg, ops);
      RanTableOn(cfg, calls, Mended(before.state), before.responses, call,
                 Outcome(Mended(after.state), after.responses[n]));
      AsksOn(calls, ops, n, call);
      assert ops[..n + 1] == ops && before.responses + [after.responses[n]] == after.responses;
      calls := calls + [call];
    }
  }

  lemma LastIsIntended(cfg: Config, ops: seq<Op>) returns (call: Call)
    requires cfg.policy.Fifo? && RunKept(cfg, ops).state.good && ops != []
    ensures
      var n := |ops| - 1;
      var before, after := RunKept(cfg, ops[..n]), RunKept(cfg, ops);
      && before.state.good && after.responses[..n] == before.responses
      && call.op == ops[n] && LegalCall(cfg, Mended(before.state), call)
      && Step(cfg, Mended(before.state), call) == Outcome(Mended(after.state), after.responses[n])
  {
    var n := |ops| - 1;
    RunFaithful(cfg, ops);
    RunFaithful(cfg, ops[..n]);
    call := RightStep(cfg, RunKept(cfg, ops[..n]).state, ops[n]);
  }

  // ---------------------------------------------------------------------------
  // Both failures happen
  // ---------------------------------------------------------------------------

  lemma RunKeptOn(cfg: Config, ops: seq<Op>, op: Op)
    requires cfg.policy.Fifo?
    ensures RunKept(cfg, ops + [op]).state == StepKept(cfg, RunKept(cfg, ops).state, op).state
  {
    assert (ops + [op])[..|ops|] == ops;
  }

  /** What the examples need to know of a state of a table with one bucket. */
  ghost predicate Looks(k: Kept, chain: seq<File>, files: seq<File>, fifo: seq<string>) {
    && k.table.chains == [chain] && k.files == files && k.table.fifo == fifo && !k.crashed
    && k.table.stats.items == |chain| && k.table.stats.space == 0
  }

  lemma CreateLooks(cfg: Config, ops: seq<Op>, key: string, chain: seq<File>, files: seq<File>, fifo: seq<string>)
    requires cfg.policy.Fifo? && cfg.buckets == 1 && Looks(RunKept(cfg, ops).state, chain, files, fifo)
    requires Lookup(chain, key).None? && Lookup(files, key).None?
    ensures Looks(RunKept(cfg, ops + [Create(key, 3, false)]).state,
                  [Fresh(key, 3, false)] + chain, files + [Fresh(key, 3, false)], fifo + [key])
  {
    RunKeptOn(cfg, ops, Create(key, 3, false));
  }

  lemma RemoveLooks(cfg: Config, k: Kept)
    requires cfg.policy.Fifo? && cfg.buckets == 1
    requires Looks(k, [Fresh("a", 3, false)], [Fresh("a", 3, false)], ["a"])
    ensures Looks(StepKept(cfg, k, Remove("a", 3)).state, [], [], ["a"])
  {
    var a := Fresh("a", 3, false);
    assert Position([a], "a") == 0;
    assert Place([a], "a", None) == [] && Shelve([a], "a", None) == [];
  }

  lemma CreateFirst(cfg: Config) returns (ops: seq<Op>)
    requires cfg.policy.Fifo? && cfg.buckets == 1
    ensures Looks(RunKept(cfg, ops).state, [Fresh("a", 3, false)], [Fresh("a", 3, false)], ["a"])
  {
    var a := Fresh("a", 3, false);
    ops := NothingYet(cfg);
    CreateLooks(cfg, ops, "a", [], [], []);
    ops := ops + [Create("a", 3, false)];
    assert [a] + [] == [a] == [] + [a] && [] + ["a"] == ["a"];
  }

  lemma NothingYet(cfg: Config) returns (ops: seq<Op>)
    requires cfg.policy.Fifo? && cfg.buckets == 1
    ensures Looks(RunKept(cfg, ops).state, [], [], [])
  {
    ops := [];
    assert EmptyTable(cfg).chains == [[]];
  }

  lemma CreateAndRemove(cfg: Config) returns (ops: seq<Op>)
    requires cfg.policy.Fifo? && cfg.buckets == 1
    ensures Looks(RunKept(cfg, ops).state, [], [], ["a"])
  {
    ops := CreateFirst(cfg);
    RemoveLooks(cfg, RunKept(cfg, ops).state);
    RunKeptOn(cfg, ops, Remove("a", 3));
    ops := ops + [Remove("a", 3)];
  }

  /** Create a, remove a, create b, create `key`. */
  lemma RemovedFirst(cfg: Config, key: string) returns (ops: seq<Op>)
    requires cfg.policy.Fifo? && cfg.buckets == 1 && key != "b"
    ensures Looks(RunKept(cfg, ops).state, [Fresh(key, 3, false), Fresh("b", 3, false)],
                  [Fresh("b", 3, false), Fresh(key, 3, false)], ["a", "b", key])
  {
    var b, f := Fresh("b", 3, false), Fresh(key, 3, false);
    ops := CreateAndRemove(cfg);
    CreateLooks(cfg, ops, "b", [], [], ["a"]);
    ops := ops + [Create("b", 3, false)];
    assert [b] + [] == [b] == [] + [b] && ["a"] + ["b"] == ["a", "b"];
    CreateLooks(cfg, ops, key, [b], [b], ["a", "b"]);
    ops := ops + [Create(key, 3, false)];
    assert [f] + [b] == [f, b] && [b] + [f] == [b, f] && ["a", "b"] + [key] == ["a", "b", key];
  }

  /** What the eviction loop does next in such a state. */
  lemma WriteTouches(cfg: Config, k: Kept, chain: seq<File>, files: seq<File>, fifo: seq<string>)
    requires cfg.policy.Fifo? && cfg.buckets == 1 && Looks(k, chain, files, fifo)
    requires Lookup(chain, "b") == Lookup(files, "b") == Some(Fresh("b", 3, false))
    ensures Settles(cfg, k.table, Replace("b", []))
    ensures Looks(AfterTouch(cfg, k, Replace("b", [])), chain, files, fifo)
    ensures StepKept(cfg, k, Replace("b", [])).state == TakeAll(cfg, AfterTouch(cfg, k, Replace("b", []))).state
  {
    var p, q := Position(chain, "b"), Position(files, "b");
    assert chain[p := chain[p]] == chain && files[q := files[q]] == files;
  }

  /** A dead path at the front: with room for one file, create a, remove a, create b, create c and write b
      stops the process. */
  lemma DeadFrontCrashes(cfg: Config) returns (ops: seq<Op>)
    requires cfg.policy.Fifo? && cfg.buckets == 1 && cfg.maxItems == 1
    ensures RunKept(cfg, ops).state.crashed
  {
    var b, c := Fresh("b", 3, false), Fresh("c", 3, false);
    ops := RemovedFirst(cfg, "c");
    RunKeptOn(cfg, ops, Replace("b", []));
    assert Position([c, b], "b") == 1 && Position([b, c], "b") == 0;
    WriteTouches(cfg, RunKept(cfg, ops).state, [c, b], [b, c], ["a", "b", "c"]);
    assert Position([c, b], "a") == 2;
    ops := ops + [Replace("b", [])];
  }

  /** A path created again at the front: with room for one file, create a, remove a, create b, create a and
      write b evicts a, the newer file. */
  lemma RecreatedFrontMisleads(cfg: Config) returns (ops: seq<Op>)
    requires cfg.policy.Fifo? && cfg.buckets == 1 && cfg.maxItems == 1
    ensures
      var k := AfterTouch(cfg, RunKept(cfg, ops).state, Replace("b", []));
      var after := RunKept(cfg, ops + [Replace("b", [])]).state;
      && k.files == [Fresh("b", 3, false), Fresh("a", 3, false)] && TakeAll(cfg, k).files == [Fresh("a", 3, false)]
      && !after.right && !after.crashed
  {
    var a, b := Fresh("a", 3, false), Fresh("b", 3, false);
    ops := RemovedFirst(cfg, "a");
    RunKeptOn(cfg, ops, Replace("b", []));
    assert Position([a, b], "b") == 1 && Position([b, a], "b") == 0;
    WriteTouches(cfg, RunKept(cfg, ops).state, [a, b], [b, a], ["a", "b", "a"]);
    var k := AfterTouch(cfg, RunKept(cfg, ops).state, Replace("b", []));
    assert Position([a, b], "a") == 0;
    var first := TakeFront(cfg, k);
    assert first.files == [a] && first.state.table.stats.items == 1 && first.state.table.stats.space == 0;
    assert first.files + [] == [a];
  }
}
