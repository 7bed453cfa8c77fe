/**
 What the guards do not give: a path can be created twice, and the evictor's assertion that the table is
 not empty can fail. Each comes with the exact condition over all schedules.
 */
module GuardGaps {
  import opened Basics
  import opened Files
  import opened Tables
  import opened Refinement
  import opened Guards

  // ---------------------------------------------------------------------------
  // Building schedules
  // ---------------------------------------------------------------------------

  /** One more step of a schedule. */
  lemma Extend(cfg: Config, threads: nat, moves: seq<(nat, Move)>, i: nat, m: Move) returns (more: seq<(nat, Move)>)
    requires Schedule(cfg, threads, moves).Some? && Fire(cfg, Schedule(cfg, threads, moves).value, i, m).Some?
    ensures Schedule(cfg, threads, more) == Fire(cfg, Schedule(cfg, threads, moves).value, i, m)
  {
    more := moves + [(i, m)];
    assert more[..|moves|] == moves;
  }

  /** A thread's search for a path that is absent, from idle to waiting to link. */
  lemma SearchAbsent(cfg: Config, threads: nat, moves: seq<(nat, Move)>, i: nat, op: Op)
    returns (more: seq<(nat, Move)>)
    requires Schedule(cfg, threads, moves).Some? && op.Create?
    requires
      var s := Schedule(cfg, threads, moves).value;
      var b := Slot(cfg, op.key);
      && i < |s.threads| && s.threads[i].Idle?
      && s.bucketGuards[b].None? && Lookup(s.chains[b], op.key).None?
    ensures
      var s := Schedule(cfg, threads, moves).value;
      Schedule(cfg, threads, more) == Some(s.(threads := s.threads[i := WantBucket(op, Link)]))
  {
    var s := Schedule(cfg, threads, moves).value;
    var b := Slot(cfg, op.key);
    more := Extend(cfg, threads, moves, i, Begin(op));
    more := Extend(cfg, threads, more, i, Go);
    more := Extend(cfg, threads, more, i, Go);
    assert s.bucketGuards[b := Some(i)][b := None] == s.bucketGuards;
    assert s.threads[i := WantBucket(op, Search)][i := InBucket(op, Search)][i := WantBucket(op, Link)]
        == s.threads[i := WantBucket(op, Link)];
  }

  /** A thread that waits to link does link, whatever has been linked meanwhile. */
  lemma LinkRegardless(cfg: Config, threads: nat, moves: seq<(nat, Move)>, i: nat, op: Op)
    returns (more: seq<(nat, Move)>)
    requires Schedule(cfg, threads, moves).Some? && op.Create?
    requires
      var s := Schedule(cfg, threads, moves).value;
      i < |s.threads| && s.threads[i] == WantBucket(op, Link) && s.bucketGuards[Slot(cfg, op.key)].None?
    ensures
      var s := Schedule(cfg, threads, moves).value;
      var b := Slot(cfg, op.key);
      Schedule(cfg, threads, more) ==
        Some(s.(chains := s.chains[b := [Fresh(op.key, op.fd, op.lock)] + s.chains[b]],
                threads := s.threads[i := WantStats(Delta(1, 0, 1), false)]))
  {
    var s := Schedule(cfg, threads, moves).value;
    var b := Slot(cfg, op.key);
    more := Extend(cfg, threads, moves, i, Go);
    more := Extend(cfg, threads, more, i, Go);
    assert s.bucketGuards[b := Some(i)][b := None] == s.bucketGuards;
    assert s.threads[i := InBucket(op, Link)][i := WantStats(Delta(1, 0, 1), false)]
        == s.threads[i := WantStats(Delta(1, 0, 1), false)];
  }

  /** The bucket section of a request that is not a creation, from idle to what comes after it. */
  lemma RunSection(cfg: Config, threads: nat, moves: seq<(nat, Move)>, i: nat, op: Op) returns (more: seq<(nat, Move)>)
    requires Schedule(cfg, threads, moves).Some? && !op.Create?
    requires
      var s := Schedule(cfg, threads, moves).value;
      i < |s.threads| && s.threads[i].Idle? && s.bucketGuards[Slot(cfg, op.key)].None?
    ensures
      var s := Schedule(cfg, threads, moves).value;
      Schedule(cfg, threads, more) == Some(BucketSection(cfg, s, i, op, Search))
  {
    var s := Schedule(cfg, threads, moves).value;
    var b := Slot(cfg, op.key);
    more := Extend(cfg, threads, moves, i, Begin(op));
    more := Extend(cfg, threads, more, i, Go);
    more := Extend(cfg, threads, more, i, Go);
    assert s.bucketGuards[b := Some(i)][b := None] == s.bucketGuards == s.bucketGuards[b := None];
    var pc := BucketSection(cfg, s, i, op, Search).threads[i];
    assert s.threads[i := WantBucket(op, Search)][i := InBucket(op, Search)][i := pc] == s.threads[i := pc];
  }

  /** The statistics section, from waiting for the guard to after it. */
  lemma RunBooking(cfg: Config, threads: nat, moves: seq<(nat, Move)>, i: nat) returns (more: seq<(nat, Move)>)
    requires Schedule(cfg, threads, moves).Some?
    requires
      var s := Schedule(cfg, threads, moves).value;
      i < |s.threads| && s.threads[i].WantStats? && s.statsGuard.None?
    ensures
      var s := Schedule(cfg, threads, moves).value;
      var pc := s.threads[i];
      Schedule(cfg, threads, more) ==
        Some(s.(counts := Plus(s.counts, pc.delta), threads := s.threads[i := if pc.write then WantEvict else Idle]))
  {
    var s := Schedule(cfg, threads, moves).value;
    var pc := s.threads[i];
    more := Extend(cfg, threads, moves, i, Go);
    more := Extend(cfg, threads, more, i, Go);
    var next := if pc.write then WantEvict else Idle;
    assert s.threads[i := InStats(pc.delta, pc.write)][i := next] == s.threads[i := next];
  }

  // ---------------------------------------------------------------------------
  // A path that occurs twice
  // ---------------------------------------------------------------------------

  ghost predicate NoPathTwice(s: State) {
    forall b :: 0 <= b < |s.chains| ==> Distinct(s.chains[b])
  }

  /** Every file is in the chain its path hashes to, so that a path that occurs twice does so in one chain. */
  ghost predicate Placed(cfg: Config, s: State) {
    forall b, k :: 0 <= b < |s.chains| && 0 <= k < |s.chains[b]| ==> Slot(cfg, s.chains[b][k].key) == b
  }

  /** The second section of a creation, with its path in the chain by now. */
  predicate Relinks(cfg: Config, s: State, i: nat)
    requires |s.chains| == cfg.buckets
  {
    && i < |s.threads| && s.threads[i].InBucket? && s.threads[i].stage.Link? && s.threads[i].op.Create?
    && Lookup(s.chains[Slot(cfg, s.threads[i].op.key)], s.threads[i].op.key).Some?
  }

  lemma PlaceDistinct(c: seq<File>, key: string, next: Option<File>, b: nat, cfg: Config)
    requires Distinct(c) && (next.Some? ==> next.value.key == key && Lookup(c, key).Some?)
    requires forall k :: 0 <= k < |c| ==> Slot(cfg, c[k].key) == b
    ensures Distinct(Place(c, key, next))
    ensures forall k :: 0 <= k < |Place(c, key, next)| ==> Slot(cfg, Place(c, key, next)[k].key) == b
  {
  }

  /** What a bucket section does to its chain. */
  lemma SectionOnce(cfg: Config, s: State, i: nat, op: Op, stage: Stage)
    requires |s.chains| == |s.bucketGuards| == cfg.buckets && i < |s.threads|
    requires s.threads[i] == InBucket(op, stage) && NoPathTwice(s) && Placed(cfg, s)
    ensures Placed(cfg, BucketSection(cfg, s, i, op, stage))
    ensures NoPathTwice(BucketSection(cfg, s, i, op, stage)) <==> !Relinks(cfg, s, i)
  {
    var b := Slot(cfg, op.key);
    var c := s.chains[b];
    var s' := BucketSection(cfg, s, i, op, stage);
    assert forall k :: 0 <= k < |s'.chains| && k != b ==> s'.chains[k] == s.chains[k];
    if stage.Link? && op.Create? {
      var f := Fresh(op.key, op.fd, op.lock);
      assert s'.chains[b] == [f] + c;
      LinkOnce(c, f);
    } else if !op.Create? {
      var cur := Lookup(c, op.key);
      DecideKeepsKey(op, cur);
      NoNewRecord(op, cur);
      PlaceDistinct(c, op.key, Decide(op, cur).next, b, cfg);
    }
  }

  lemma LinkOnce(c: seq<File>, f: File)
    requires Distinct(c)
    ensures Distinct([f] + c) <==> Lookup(c, f.key).None?
  {
    var p := Position(c, f.key);
    if p < |c| {
      assert ([f] + c)[0].key == ([f] + c)[p + 1].key;
    }
  }

  /** One step: from a table without repeated paths, a path gets repeated exactly by such a link. */
  lemma FireOnce(cfg: Config, s: State, i: nat, m: Move)
    requires |s.chains| == |s.bucketGuards| == cfg.buckets && Fire(cfg, s, i, m).Some?
    requires NoPathTwice(s) && Placed(cfg, s)
    ensures Placed(cfg, Fire(cfg, s, i, m).value)
    ensures NoPathTwice(Fire(cfg, s, i, m).value) <==> !Relinks(cfg, s, i)
  {
    var s' := Fire(cfg, s, i, m).value;
    match s.threads[i]
    case InBucket(op, stage) => SectionOnce(cfg, s, i, op, stage);
    case InVictim(b) =>
      assert forall k :: 0 <= k < |s'.chains| && k != b ==> s'.chains[k] == s.chains[k];
    case _ => assert s'.chains == s.chains;
  }

  /** No prefix of the schedule leaves a path in the table twice. */
  ghost predicate AlwaysOnce(cfg: Config, threads: nat, moves: seq<(nat, Move)>)
    requires Schedule(cfg, threads, moves).Some?
    decreases |moves|
  {
    && NoPathTwice(Schedule(cfg, threads, moves).value)
    && (moves != [] ==> AlwaysOnce(cfg, threads, moves[..|moves| - 1]))
  }

  /** No creation of the schedule links a path that is in its chain by then. */
  predicate NeverRelinks(cfg: Config, threads: nat, moves: seq<(nat, Move)>)
    requires Schedule(cfg, threads, moves).Some?
    decreases |moves|
  {
    moves != [] ==>
      var n := |moves| - 1;
      && NeverRelinks(cfg, threads, moves[..n])
      && !Relinks(cfg, Schedule(cfg, threads, moves[..n]).value, moves[n].0)
  }

  /** In every interleaving, no path ever occurs twice if and only if no creation links a path that
      another one has linked since its search. */
  lemma {:induction false} OnceExactly(cfg: Config, threads: nat, moves: seq<(nat, Move)>)
    requires Schedule(cfg, threads, moves).Some?
    ensures AlwaysOnce(cfg, threads, moves) <==> NeverRelinks(cfg, threads, moves)
    ensures NeverRelinks(cfg, threads, moves) ==> Placed(cfg, Schedule(cfg, threads, moves).value)
    decreases |moves|
  {
    if moves != [] {
      var n := |moves| - 1;
      OnceExactly(cfg, threads, moves[..n]);
      if NeverRelinks(cfg, threads, moves[..n]) {
        FireOnce(cfg, Schedule(cfg, threads, moves[..n]).value, moves[n].0, moves[n].1);
      }
    }
  }

  /** A creation that is about to link has its path absent. */
  ghost predicate LinksAbsent(cfg: Config, s: State, pc: Pc)
    requires |s.chains| == cfg.buckets
  {
    (pc.WantBucket? || pc.InBucket?) && pc.stage.Link? && pc.op.Create? ==>
      Lookup(s.chains[Slot(cfg, pc.op.key)], pc.op.key).None?
  }

  /** With a single thread no path ever occurs twice: what its search did not find is not there when it links. */
  lemma {:induction false} OneThreadOnce(cfg: Config, moves: seq<(nat, Move)>)
    requires Schedule(cfg, 1, moves).Some?
    ensures |Schedule(cfg, 1, moves).value.threads| == 1
    ensures LinksAbsent(cfg, Schedule(cfg, 1, moves).value, Schedule(cfg, 1, moves).value.threads[0])
    ensures NeverRelinks(cfg, 1, moves) && AlwaysOnce(cfg, 1, moves)
    decreases |moves|
  {
    if moves != [] {
      OneThreadOnce(cfg, moves[..|moves| - 1]);
    }
    OnceExactly(cfg, 1, moves);
  }

  /** Because creation searches in one section and links in another, two threads can create the same
      path: a path can occur twice even with the head read inside the guard. */
  lemma CreatedTwice(cfg: Config, key: string, a: int, b: int) returns (moves: seq<(nat, Move)>)
    ensures Schedule(cfg, 2, moves).Some?
    ensures Schedule(cfg, 2, moves).value.chains[Slot(cfg, key)] == [Fresh(key, b, false), Fresh(key, a, false)]
  {
    moves := SearchAbsent(cfg, 2, [], 0, Create(key, a, false));
    moves := SearchAbsent(cfg, 2, moves, 1, Create(key, b, false));
    moves := LinkRegardless(cfg, 2, moves, 0, Create(key, a, false));
    moves := LinkRegardless(cfg, 2, moves, 1, Create(key, b, false));
  }

  // ---------------------------------------------------------------------------
  // The byte limit
  // ---------------------------------------------------------------------------

  /** The thread has booked a write and not finished evicting. */
  predicate EvictionDue(pc: Pc) {
    pc.WantEvict? || pc.Evicting? || pc.WantVictim? || pc.InVictim? || pc.Booking?
  }

  /** Only writes are on their way to add bytes. */
  predicate Lowers(pc: Pc) {
    match pc
    case WantStats(delta, write) => write || delta.bytes <= 0
    case InStats(delta, write) => write || delta.bytes <= 0
    case Booking(delta) => delta.bytes <= 0
    case _ => true
  }

  /** The counts are within the byte limit, or some thread is about to see to it. */
  ghost predicate Minded(cfg: Config, s: State) {
    && (forall i :: 0 <= i < |s.threads| ==> Lowers(s.threads[i]))
    && (s.counts.bytes <= cfg.maxSpace || exists i :: 0 <= i < |s.threads| && EvictionDue(s.threads[i]))
  }

  /** No prefix of the schedule counts more bytes than 64 bits hold. */
  ghost predicate AlwaysFits(cfg: Config, threads: nat, moves: seq<(nat, Move)>)
    requires Schedule(cfg, threads, moves).Some?
    decreases |moves|
  {
    && Schedule(cfg, threads, moves).value.counts.bytes < TWO_64
    && (moves != [] ==> AlwaysFits(cfg, threads, moves[..|moves| - 1]))
  }

  lemma FireLowers(cfg: Config, s: State, i: nat, m: Move)
    requires |s.chains| == |s.bucketGuards| == cfg.buckets && Fire(cfg, s, i, m).Some?
    requires forall j :: 0 <= j < |s.threads| ==> Lowers(s.threads[j])
    ensures forall j :: 0 <= j < |s.threads| ==> Lowers(Fire(cfg, s, i, m).value.threads[j])
    ensures forall j :: 0 <= j < |s.threads| && j != i ==> Fire(cfg, s, i, m).value.threads[j] == s.threads[j]
  {
    var s' := Fire(cfg, s, i, m).value;
    forall j | 0 <= j < |s.threads|
      ensures Lowers(s'.threads[j]) && (j != i ==> s'.threads[j] == s.threads[j])
    {
      if j != i {
        assert s'.threads[j] == s.threads[j];
      }
    }
  }

  /** A thread stops minding the limit only when it is met. */
  lemma LeavesWithin(cfg: Config, s: State, i: nat, m: Move)
    requires |s.chains| == |s.bucketGuards| == cfg.buckets && Fire(cfg, s, i, m).Some?
    requires s.counts.bytes < TWO_64 && Lowers(s.threads[i])
    ensures
      var s' := Fire(cfg, s, i, m).value;
      || EvictionDue(s'.threads[i])
      || (EvictionDue(s.threads[i]) && s'.counts.bytes <= cfg.maxSpace)
      || (!EvictionDue(s.threads[i]) && s'.counts.bytes <= s.counts.bytes)
  {
  }

  lemma FireMinded(cfg: Config, s: State, i: nat, m: Move)
    requires |s.chains| == |s.bucketGuards| == cfg.buckets && Fire(cfg, s, i, m).Some?
    requires Minded(cfg, s) && s.counts.bytes < TWO_64
    ensures Minded(cfg, Fire(cfg, s, i, m).value)
  {
    var s' := Fire(cfg, s, i, m).value;
    FireLowers(cfg, s, i, m);
    LeavesWithin(cfg, s, i, m);
    if s'.counts.bytes > cfg.maxSpace && !EvictionDue(s'.threads[i]) {
      var j :| 0 <= j < |s.threads| && EvictionDue(s.threads[j]);
      assert j != i && EvictionDue(s'.threads[j]);
    }
  }

  lemma {:induction false} RunMinded(cfg: Config, threads: nat, moves: seq<(nat, Move)>)
    requires Schedule(cfg, threads, moves).Some? && AlwaysFits(cfg, threads, moves)
    ensures Minded(cfg, Schedule(cfg, threads, moves).value)
    decreases |moves|
  {
    if moves != [] {
      var n := |moves| - 1;
      RunMinded(cfg, threads, moves[..n]);
      FireMinded(cfg, Schedule(cfg, threads, moves[..n]).value, moves[n].0, moves[n].1);
    }
  }

  /** In every interleaving, once every thread is idle the files stored are together within the byte limit,
      whatever was written in between. */
  lemma QuietRunIsWithin(cfg: Config, threads: nat, moves: seq<(nat, Move)>)
    requires Schedule(cfg, threads, moves).Some? && AlwaysFits(cfg, threads, moves)
    requires forall pc :: pc in Schedule(cfg, threads, moves).value.threads ==> pc.Idle?
    ensures Total(Schedule(cfg, threads, moves).value.chains, ChainBytes) <= cfg.maxSpace
  {
    RunMinded(cfg, threads, moves);
    QuietRunIsExact(cfg, threads, moves);
    var s := Schedule(cfg, threads, moves).value;
    forall i | 0 <= i < |s.threads|
      ensures !EvictionDue(s.threads[i])
    {
      assert s.threads[i] in s.threads;
    }
  }

  // ---------------------------------------------------------------------------
  // The evictor's assertion
  // ---------------------------------------------------------------------------

  /** No thread has more than one file on its way to the counts. */
  ghost predicate OneAtMost(s: State) {
    forall i :: 0 <= i < |s.threads| ==> -1 <= PendingItems(s.threads[i]) <= 1
  }

  lemma {:induction false} RunOneAtMost(cfg: Config, threads: nat, moves: seq<(nat, Move)>)
    requires Schedule(cfg, threads, moves).Some?
    ensures OneAtMost(Schedule(cfg, threads, moves).value) && |Schedule(cfg, threads, moves).value.threads| == threads
  {
    if moves != [] {
      var n := |moves| - 1;
      RunOneAtMost(cfg, threads, moves[..n]);
      FireOneAtMost(cfg, Schedule(cfg, threads, moves[..n]).value, moves[n].0, moves[n].1);
    }
  }

  lemma FireOneAtMost(cfg: Config, s: State, i: nat, m: Move)
    requires |s.chains| == |s.bucketGuards| == cfg.buckets && Fire(cfg, s, i, m).Some? && OneAtMost(s)
    ensures OneAtMost(Fire(cfg, s, i, m).value)
  {
  }

  lemma {:induction false} PendingFits(threads: seq<Pc>)
    requires forall i :: 0 <= i < |threads| ==> -1 <= PendingItems(threads[i]) <= 1
    ensures -|threads| <= Total(threads, PendingItems) <= |threads|
  {
    if threads != [] {
      PendingFits(threads[..|threads| - 1]);
    }
  }

  /** The files in the chains and the threads together can be counted in 64 bits. */
  ghost predicate Countable(s: State) {
    Total(s.chains, ChainItems) + |s.threads| < TWO_64
  }

  /** In every state of every schedule, and so wherever the evictor asserts it, the item counter is not zero
      if and only if the chains do not hold exactly as many files as the changes in flight account for. */
  lemma ItemsPositiveExactly(cfg: Config, threads: nat, moves: seq<(nat, Move)>)
    requires Schedule(cfg, threads, moves).Some?
    ensures
      var s := Schedule(cfg, threads, moves).value;
      var files, pending := Total(s.chains, ChainItems), Total(s.threads, PendingItems);
      && (Wrapped(s.counts.items) > 0 <==> (files - pending) % TWO_64 != 0)
      && (Countable(s) ==> (Wrapped(s.counts.items) > 0 <==> files != pending))
  {
    var s := Schedule(cfg, threads, moves).value;
    RunAccounts(cfg, threads, moves);
    RunOneAtMost(cfg, threads, moves);
    PendingFits(s.threads);
    NoItemsNoBytes(s.chains);
    SmallWrap(s.counts.items);
  }

  lemma SmallWrap(n: int)
    ensures -TWO_64 < n < TWO_64 ==> (Wrapped(n) == 0 <==> n == 0)
  {
  }

  /** A creation that has linked its file and not booked it. */
  predicate CreationInFlight(pc: Pc) {
    Pending(pc).items > 0
  }

  /** A write that has made its file larger or smaller and not booked it. */
  predicate WriteInFlight(pc: Pc) {
    Pending(pc).items == 0 && Pending(pc).bytes != 0
  }

  lemma {:induction false} PendingWithout(threads: seq<Pc>)
    requires forall pc :: pc in threads ==> !CreationInFlight(pc) && !WriteInFlight(pc)
    ensures Total(threads, PendingItems) <= 0
    ensures Total(threads, PendingItems) == 0 ==> Total(threads, PendingBytes) == 0
  {
    if threads != [] {
      PendingWithout(threads[..|threads| - 1]);
      assert threads[|threads| - 1] in threads;
    }
  }

  lemma {:induction false} NoItemsNoBytes(chains: seq<seq<File>>)
    ensures Total(chains, ChainItems) >= 0
    ensures Total(chains, ChainItems) == 0 ==> Total(chains, ChainBytes) == 0
  {
    if chains != [] {
      NoItemsNoBytes(chains[..|chains| - 1]);
    }
  }

  /** An evictor that finds a limit exceeded while no creation and no write, growing or shrinking, is between
      its bucket and its booking finds a counter that is not zero: then its assertion cannot fail. Removals
      and other evictions do no harm. */
  lemma EmptinessAssertHolds(cfg: Config, threads: nat, moves: seq<(nat, Move)>)
    requires Schedule(cfg, threads, moves).Some? && OverCounts(cfg, Schedule(cfg, threads, moves).value.counts)
    requires Countable(Schedule(cfg, threads, moves).value)
    requires forall pc :: pc in Schedule(cfg, threads, moves).value.threads ==>
               !CreationInFlight(pc) && !WriteInFlight(pc)
    ensures Wrapped(Schedule(cfg, threads, moves).value.counts.items) > 0
  {
    var s := Schedule(cfg, threads, moves).value;
    ItemsPositiveExactly(cfg, threads, moves);
    RunAccounts(cfg, threads, moves);
    PendingWithout(s.threads);
    NoItemsNoBytes(s.chains);
  }

  /** The evictor is about to assert that the counter of items is not zero, and it is. */
  predicate AssertFails(cfg: Config, s: State, i: nat) {
    i < |s.threads| && s.threads[i].Evicting? && OverCounts(cfg, s.counts) && Wrapped(s.counts.items) == 0
  }

  lemma EvictingFails(cfg: Config, s: State, i: nat, bytes: int)
    requires i < |s.threads| && s.threads[i].Evicting? && s.counts == Delta(0, bytes, 0)
    requires Wrapped(bytes) > cfg.maxSpace
    ensures AssertFails(cfg, s, i)
  {
  }

  /** With a creation in flight it can fail: a write to a file whose creation is not booked yet exceeds the
      byte limit while the item count is still zero. */
  lemma EmptinessAssertFails(cfg: Config, key: string, data: seq<Byte>) returns (moves: seq<(nat, Move)>)
    requires Wrapped(|data|) > cfg.maxSpace
    ensures Schedule(cfg, 3, moves).Some? && AssertFails(cfg, Schedule(cfg, 3, moves).value, 1)
    ensures Schedule(cfg, 3, moves).value.threads == [WantStats(Delta(1, 0, 1), false), Evicting, Idle]
  {
    var f, create := Fresh(key, 1, false), WantStats(Delta(1, 0, 1), false);
    var linked := [create, Idle, Idle];
    var written := linked[1 := WantStats(Delta(0, |data|, 0), true)];
    moves := CreateLinked(cfg, key);
    moves := Ask(cfg, moves, key, f, NOTHING, linked, 1, Replace(key, data));
    moves := Book(cfg, moves, key, Some(f.(contents := data)), NOTHING, written, 1);
    var s := OneFile(cfg, key, Some(f.(contents := data)), Delta(0, |data|, 0), written[1 := WantEvict]);
    moves := StartEvicting(cfg, moves, s, 1);
    assert written[1 := WantEvict][1 := Evicting] == [create, Evicting, Idle];
    EvictingFails(cfg, Schedule(cfg, 3, moves).value, 1, |data|);
  }

  /** With a write in flight it can fail too: one write is booked, a second one is not, and a third thread has
      removed the file and booked that. What the byte counter then holds is the difference of the two. */
  lemma EmptinessAssertFailsOnWrite(cfg: Config, key: string, data1: seq<Byte>, data2: seq<Byte>)
    returns (moves: seq<(nat, Move)>)
    requires Wrapped(|data1| - |data2|) > cfg.maxSpace
    ensures Schedule(cfg, 3, moves).Some? && AssertFails(cfg, Schedule(cfg, 3, moves).value, 0)
    ensures Schedule(cfg, 3, moves).value.threads == [Evicting, WantStats(Delta(0, |data2| - |data1|, 0), true), Idle]
  {
    var write := WantStats(Delta(0, |data2| - |data1|, 0), true);
    var threads := [WantEvict, write, Idle];
    moves := RemovedMeanwhile(cfg, key, data1, data2);
    moves := StartEvicting(cfg, moves, OneFile(cfg, key, None, Delta(0, |data1| - |data2|, 0), threads), 0);
    assert threads[0 := Evicting] == [Evicting, write, Idle];
    EvictingFails(cfg, Schedule(cfg, 3, moves).value, 0, |data1| - |data2|);
  }

  lemma RemovedMeanwhile(cfg: Config, key: string, data1: seq<Byte>, data2: seq<Byte>)
    returns (moves: seq<(nat, Move)>)
    ensures
      var write := WantStats(Delta(0, |data2| - |data1|, 0), true);
      Schedule(cfg, 3, moves) ==
        Some(OneFile(cfg, key, None, Delta(0, |data1| - |data2|, 0), [WantEvict, write, Idle]))
  {
    var f := Fresh(key, 1, false).(contents := data2);
    var write := WantStats(Delta(0, |data2| - |data1|, 0), true);
    var writing := [WantEvict, write, Idle];
    var removing := writing[2 := WantStats(Delta(-1, -|data2|, -1), false)];
    moves := WriteUnbooked(cfg, key, data1, data2);
    moves := Ask(cfg, moves, key, f, Delta(1, |data1|, 1), writing, 2, Remove(key, 1));
    moves := Book(cfg, moves, key, None, Delta(1, |data1|, 1), removing, 2);
    assert removing[2 := Idle] == [WantEvict, write, Idle];
  }

  /** A shrinking write: the first one exceeds the limit by more than the one byte that the second leaves. */
  lemma EmptinessAssertFailsOnShrinking(cfg: Config, key: string, data: seq<Byte>) returns (moves: seq<(nat, Move)>)
    requires cfg.maxSpace + 1 < |data| < TWO_64
    ensures Schedule(cfg, 3, moves).Some? && AssertFails(cfg, Schedule(cfg, 3, moves).value, 0)
    ensures forall pc :: pc in Schedule(cfg, 3, moves).value.threads ==> !CreationInFlight(pc) && PendingBytes(pc) <= 0
  {
    moves := EmptinessAssertFailsOnWrite(cfg, key, data, [0]);
  }

  /** A growing write: one byte grows to more, and the counter of bytes wraps around below zero. */
  lemma EmptinessAssertFailsOnGrowing(cfg: Config, key: string, data: seq<Byte>) returns (moves: seq<(nat, Move)>)
    requires 1 < |data| && cfg.maxSpace + |data| <= TWO_64
    ensures Schedule(cfg, 3, moves).Some? && AssertFails(cfg, Schedule(cfg, 3, moves).value, 0)
    ensures forall pc :: pc in Schedule(cfg, 3, moves).value.threads ==> !CreationInFlight(pc) && PendingBytes(pc) >= 0
  {
    moves := EmptinessAssertFailsOnWrite(cfg, key, [0], data);
  }

  lemma StartEvicting(cfg: Config, moves: seq<(nat, Move)>, s: State, i: nat) returns (more: seq<(nat, Move)>)
    requires Schedule(cfg, 3, moves) == Some(s) && i < |s.threads| && s.threads[i].WantEvict? && s.statsGuard.None?
    ensures Schedule(cfg, 3, more) == Some(s.(statsGuard := Some(i), threads := s.threads[i := Evicting]))
  {
    more := Extend(cfg, 3, moves, i, Go);
  }

  /** A file is created and written, both booked; then written again, and that is not booked. */
  lemma WriteUnbooked(cfg: Config, key: string, data1: seq<Byte>, data2: seq<Byte>) returns (moves: seq<(nat, Move)>)
    ensures
      var write := WantStats(Delta(0, |data2| - |data1|, 0), true);
      Schedule(cfg, 3, moves) == Some(OneFile(cfg, key, Some(Fresh(key, 1, false).(contents := data2)),
                                              Delta(1, |data1|, 1), [WantEvict, write, Idle]))
  {
    var f := Fresh(key, 1, false);
    var write := WantStats(Delta(0, |data2| - |data1|, 0), true);
    moves := WriteBooked(cfg, key, data1);
    moves := Ask(cfg, moves, key, f.(contents := data1), Delta(1, |data1|, 1), [WantEvict, Idle, Idle], 1,
                 Replace(key, data2));
    assert [WantEvict, Idle, Idle][1 := write] == [WantEvict, write, Idle];
    assert f.(contents := data1).(contents := data2) == f.(contents := data2);
  }

  lemma WriteBooked(cfg: Config, key: string, data: seq<Byte>) returns (moves: seq<(nat, Move)>)
    ensures Schedule(cfg, 3, moves) ==
      Some(OneFile(cfg, key, Some(Fresh(key, 1, false).(contents := data)), Delta(1, |data|, 1),
                   [WantEvict, Idle, Idle]))
  {
    var f := Fresh(key, 1, false);
    var idle := [Idle, Idle, Idle];
    var growing := idle[0 := WantStats(Delta(0, |data|, 0), true)];
    moves := CreateBooked(cfg, key);
    moves := Ask(cfg, moves, key, f, Delta(1, 0, 1), idle, 0, Replace(key, data));
    moves := Book(cfg, moves, key, Some(f.(contents := data)), Delta(1, 0, 1), growing, 0);
    assert growing[0 := WantEvict] == [WantEvict, Idle, Idle];
  }

  /** A table with one file under `key`, or none, three threads and nothing going on at its guards. */
  function OneFile(cfg: Config, key: string, f: Option<File>, counts: Delta, threads: seq<Pc>): State {
    var none := Initial(cfg, 3);
    State(if f.None? then none.chains else none.chains[Slot(cfg, key) := [f.value]],
          counts, none.bucketGuards, None, threads, 0)
  }

  lemma CreateSearched(cfg: Config, key: string) returns (moves: seq<(nat, Move)>)
    ensures Schedule(cfg, 3, moves) ==
      Some(OneFile(cfg, key, None, NOTHING, [WantBucket(Create(key, 1, false), Link), Idle, Idle]))
  {
    var op := Create(key, 1, false);
    var s0 := Initial(cfg, 3);
    assert s0.threads == [Idle, Idle, Idle];
    moves := SearchAbsent(cfg, 3, [], 0, op);
    assert s0.threads[0 := WantBucket(op, Link)] == [WantBucket(op, Link), Idle, Idle];
  }

  lemma CreateLinked(cfg: Config, key: string) returns (moves: seq<(nat, Move)>)
    ensures Schedule(cfg, 3, moves) ==
      Some(OneFile(cfg, key, Some(Fresh(key, 1, false)), NOTHING, [WantStats(Delta(1, 0, 1), false), Idle, Idle]))
  {
    var op, f, pc := Create(key, 1, false), Fresh(key, 1, false), WantStats(Delta(1, 0, 1), false);
    moves := CreateSearched(cfg, key);
    var s := OneFile(cfg, key, None, NOTHING, [WantBucket(op, Link), Idle, Idle]);
    moves := LinkRegardless(cfg, 3, moves, 0, op);
    assert s.threads[0 := pc] == [pc, Idle, Idle];
    assert s.chains[Slot(cfg, key)] == [] && [f] + [] == [f];
  }

  lemma CreateBooked(cfg: Config, key: string) returns (moves: seq<(nat, Move)>)
    ensures Schedule(cfg, 3, moves) ==
      Some(OneFile(cfg, key, Some(Fresh(key, 1, false)), Delta(1, 0, 1), [Idle, Idle, Idle]))
  {
    var linked := [WantStats(Delta(1, 0, 1), false), Idle, Idle];
    moves := CreateLinked(cfg, key);
    moves := Book(cfg, moves, key, Some(Fresh(key, 1, false)), NOTHING, linked, 0);
    assert linked[0 := Idle] == [Idle, Idle, Idle];
  }

  /** From such a table, the bucket section of a request for the file. */
  lemma Ask(cfg: Config, moves: seq<(nat, Move)>, key: string, f: File, counts: Delta, threads: seq<Pc>, i: nat, op: Op)
    returns (more: seq<(nat, Move)>)
    requires !op.Create? && op.key == key == f.key && f.isOpen && i < |threads| == 3 && threads[i].Idle?
    requires Schedule(cfg, 3, moves) == Some(OneFile(cfg, key, Some(f), counts, threads))
    ensures
      var d := Decide(op, Some(f));
      var delta := ToBook(op, Some(f), d);
      var pc := if delta.Some? then WantStats(delta.value, IsWrite(op)) else Idle;
      Schedule(cfg, 3, more) == Some(OneFile(cfg, key, d.next, counts, threads[i := pc]))
  {
    var s := OneFile(cfg, key, Some(f), counts, threads);
    more := RunSection(cfg, 3, moves, i, op);
    OnlyFile(cfg, s, key, f, i, op);
    var none := Initial(cfg, 3).chains;
    var b := Slot(cfg, key);
    assert none[b := []] == none;
    var c := BucketSection(cfg, s, i, op, Search).chains[b];
    assert s.chains[b := c] == none[b := c];
  }

  /** From such a table, the statistics section of a thread that waits for it. */
  lemma Book(cfg: Config, moves: seq<(nat, Move)>, key: string, f: Option<File>, counts: Delta,
             threads: seq<Pc>, i: nat)
    returns (more: seq<(nat, Move)>)
    requires i < |threads| == 3 && threads[i].WantStats?
    requires Schedule(cfg, 3, moves) == Some(OneFile(cfg, key, f, counts, threads))
    ensures
      var pc := if threads[i].write then WantEvict else Idle;
      Schedule(cfg, 3, more) == Some(OneFile(cfg, key, f, Plus(counts, threads[i].delta), threads[i := pc]))
  {
    more := RunBooking(cfg, 3, moves, i);
  }

  /** A bucket section on a chain with just the file it asks for. */
  lemma OnlyFile(cfg: Config, s: State, key: string, f: File, i: nat, op: Op)
    requires i < |s.threads| && |s.chains| == |s.bucketGuards| == cfg.buckets
    requires !op.Create? && op.key == key == f.key && s.bucketGuards[Slot(cfg, key)].None?
    requires s.chains[Slot(cfg, key)] == [f]
    ensures
      var d := Decide(op, Some(f));
      var delta := ToBook(op, Some(f), d);
      BucketSection(cfg, s, i, op, Search) == s.(
        chains := s.chains[Slot(cfg, key) := if d.next.Some? then [d.next.value] else []],
        miscounted := s.miscounted + (if d.next.None? && !f.isOpen then 1 else 0),
        threads := s.threads[i := if delta.Some? then WantStats(delta.value, IsWrite(op)) else Idle])
  {
    assert Position([f], key) == 0;
    assert s.bucketGuards[Slot(cfg, key) := None] == s.bucketGuards;
    var next := Decide(op, Some(f)).next;
    assert Place([f], key, next) == if next.Some? then [next.value] else [];
  }
}
