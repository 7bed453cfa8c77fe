/**
 Whole runs of the storage table, one request after another: it behaves as a plain map, keeps exact
 books, settles within its limits, and evicts in creation order.
 */
module TableRuns {
  import opened Basics
  import opened Files
  import opened Tables
  import opened Refinement

  datatype Trace<+S> = Trace(state: S, responses: seq<Response>)

  /** The draws recorded with the calls are ones the evictor can make. */
  predicate LegalRun(cfg: Config, calls: seq<Call>)
    decreases |calls|, 0
  {
    calls == [] ||
    (var n := |calls| - 1;
     LegalRun(cfg, calls[..n]) && LegalCall(cfg, Run(cfg, calls[..n]).state, calls[n]))
  }

  function Run(cfg: Config, calls: seq<Call>): (r: Trace<Table>)
    requires LegalRun(cfg, calls)
    ensures |r.state.chains| == cfg.buckets && |r.responses| == |calls|
    decreases |calls|, 1
  {
    if calls == [] then Trace(EmptyTable(cfg), [])
    else
      var n := |calls| - 1;
      var before := Run(cfg, calls[..n]);
      var after := Step(cfg, before.state, calls[n]);
      Trace(after.state, before.responses + [after.response])
  }

  predicate LegalShelfRun(cfg: Config, calls: seq<Call>)
    decreases |calls|, 0
  {
    calls == [] ||
    (var n := |calls| - 1;
     LegalShelfRun(cfg, calls[..n]) && LegalShelfCall(cfg, ShelfRun(cfg, calls[..n]).state, calls[n]))
  }

  function ShelfRun(cfg: Config, calls: seq<Call>): (r: Trace<Shelf>)
    requires LegalShelfRun(cfg, calls)
    ensures |r.responses| == |calls|
    decreases |calls|, 1
  {
    if calls == [] then Trace(EMPTY_SHELF, [])
    else
      var n := |calls| - 1;
      var before := ShelfRun(cfg, calls[..n]);
      var after := ShelfStep(cfg, before.state, calls[n]);
      Trace(after.state, before.responses + [after.response])
  }

  /** The calls are a run of the table that ends at `t` with answers `rs`. */
  ghost predicate RanTable(cfg: Config, calls: seq<Call>, t: Table, rs: seq<Response>) {
    LegalRun(cfg, calls) && Run(cfg, calls) == Trace(t, rs)
  }

  lemma RanTableOn(cfg: Config, calls: seq<Call>, t: Table, rs: seq<Response>, call: Call, after: Outcome<Table>)
    requires RanTable(cfg, calls, t, rs) && |t.chains| == cfg.buckets && LegalCall(cfg, t, call)
    requires Step(cfg, t, call) == after
    ensures RanTable(cfg, calls + [call], after.state, rs + [after.response])
  {
    assert (calls + [call])[..|calls|] == calls;
  }

  /** The calls are those operations, with some draws. */
  ghost predicate Asks(calls: seq<Call>, ops: seq<Op>) {
    |calls| == |ops| && forall i :: 0 <= i < |ops| ==> calls[i].op == ops[i]
  }

  lemma AsksOn(calls: seq<Call>, ops: seq<Op>, n: nat, call: Call)
    requires n < |ops| && Asks(calls, ops[..n]) && call.op == ops[n]
    ensures Asks(calls + [call], ops[..n + 1])
  {
  }

  /** The calls are a run of the shelf that ends at `s` with answers `rs`. */
  ghost predicate Ran(cfg: Config, calls: seq<Call>, s: Shelf, rs: seq<Response>) {
    LegalShelfRun(cfg, calls) && ShelfRun(cfg, calls) == Trace(s, rs)
  }

  lemma RanOn(cfg: Config, calls: seq<Call>, s: Shelf, rs: seq<Response>, call: Call, after: Outcome<Shelf>)
    requires Ran(cfg, calls, s, rs) && LegalShelfCall(cfg, s, call) && ShelfStep(cfg, s, call) == after
    ensures Ran(cfg, calls + [call], after.state, rs + [after.response])
  {
    assert (calls + [call])[..|calls|] == calls;
  }

  /** Over every run the table gives the shelf's answers and evictions, and ends in agreement. */
  lemma {:induction false} RunAgrees(cfg: Config, calls: seq<Call>)
    requires LegalRun(cfg, calls)
    ensures LegalShelfRun(cfg, calls)
    ensures Run(cfg, calls).responses == ShelfRun(cfg, calls).responses
    ensures Agrees(cfg, Run(cfg, calls).state, ShelfRun(cfg, calls).state)
    decreases |calls|
  {
    if calls != [] {
      var n := |calls| - 1;
      RunAgrees(cfg, calls[..n]);
      StepAgrees(cfg, Run(cfg, calls[..n]).state, ShelfRun(cfg, calls[..n]).state, calls[n]);
    }
  }

  /** Every run of the shelf is a run of the table. */
  lemma {:induction false} ShelfRunIsRun(cfg: Config, calls: seq<Call>)
    requires LegalShelfRun(cfg, calls)
    ensures LegalRun(cfg, calls)
    decreases |calls|
  {
    if calls != [] {
      var n := |calls| - 1;
      ShelfRunIsRun(cfg, calls[..n]);
      RunAgrees(cfg, calls[..n]);
      CallLegalOnTable(cfg, Run(cfg, calls[..n]).state, ShelfRun(cfg, calls[..n]).state, calls[n]);
    }
  }

  /** A table that agrees with the end of a run of the shelf is the end of that run of the table. */
  lemma RanIsRun(cfg: Config, calls: seq<Call>, t: Table, s: Shelf, rs: seq<Response>)
    requires Ran(cfg, calls, s, rs) && Agrees(cfg, t, s)
    ensures LegalRun(cfg, calls) && Run(cfg, calls) == Trace(t, rs)
  {
    ShelfRunIsRun(cfg, calls);
    RunAgrees(cfg, calls);
    AgreesWithOne(cfg, t, Run(cfg, calls).state, s);
  }

  // ---------------------------------------------------------------------------
  // A plain map
  // ---------------------------------------------------------------------------

  function Get(m: map<string, File>, key: string): Option<File> {
    if key in m then Some(m[key]) else None
  }

  /** The paths of some files. */
  function PathsOf(files: seq<File>): set<string> {
    set f | f in files :: f.key
  }

  /** A request on a plain map: decide on the path's record, then drop what was evicted. */
  function MapStep(m: map<string, File>, op: Op, evicted: seq<File>): map<string, File> {
    var next := Decide(op, Get(m, op.key)).next;
    var touched := if next.Some? then m[op.key := next.value] else m - {op.key};
    touched - PathsOf(evicted)
  }

  /** The map after the calls, given the files each call was told were evicted. */
  function MapRun(calls: seq<Call>, responses: seq<Response>): map<string, File>
    requires |calls| == |responses|
  {
    if calls == [] then map[]
    else
      var n := |calls| - 1;
      MapStep(MapRun(calls[..n], responses[..n]), calls[n].op, responses[n].evicted)
  }

  /** The shelf and the map hold the same record under every path. */
  ghost predicate SameRecords(s: seq<File>, m: map<string, File>) {
    forall key :: Lookup(s, key) == Get(m, key)
  }

  lemma LookupShelved(s: seq<File>, key: string, next: Option<File>, k: string)
    requires Distinct(s) && (next.Some? ==> next.value.key == key)
    ensures Lookup(Shelve(s, key, next), k) == if k == key then next else Lookup(s, k)
  {
    if k == key {
      LookupShelvedSame(s, key, next);
    } else {
      LookupShelvedOther(s, key, next, k);
    }
  }

  lemma LookupShelvedSame(s: seq<File>, key: string, next: Option<File>)
    requires Distinct(s) && (next.Some? ==> next.value.key == key)
    ensures Lookup(Shelve(s, key, next), key) == next
  {
    if next.Some? {
      ShelveDistinct(s, key, next);
      PositionOf(Shelve(s, key, next), Position(s, key));
    }
  }

  lemma LookupShelvedOther(s: seq<File>, key: string, next: Option<File>, k: string)
    requires Distinct(s) && (next.Some? ==> next.value.key == key) && k != key
    ensures Lookup(Shelve(s, key, next), k) == Lookup(s, k)
  {
    var s' := Shelve(s, key, next);
    ShelveDistinct(s, key, next);
    var p, q := Position(s, key), Position(s, k);
    if q < |s| {
      var q' := if p < q && next.None? then q - 1 else q;
      assert s'[q'] == s[q];
      PositionOf(s', q');
    }
  }

  lemma LookupRemoved(s: seq<File>, i: nat, k: string)
    requires Distinct(s) && i < |s|
    ensures Lookup(RemoveAt(s, i), k) == if k == s[i].key then None else Lookup(s, k)
    ensures Distinct(RemoveAt(s, i))
  {
    PositionOf(s, i);
    assert RemoveAt(s, i) == Shelve(s, s[i].key, None);
    ShelveDistinct(s, s[i].key, None);
    LookupShelved(s, s[i].key, None, k);
  }

  lemma PathsOfMore(f: File, files: seq<File>)
    ensures PathsOf([f] + files) == {f.key} + PathsOf(files)
  {
    assert f in [f] + files;
    forall g | g in files
      ensures g in [f] + files
    {
    }
  }

  lemma {:induction false} LookupEvicted(cfg: Config, s: seq<File>, picks: seq<nat>, k: string)
    requires Distinct(s) && LegalShelfPicks(cfg, s, picks)
    ensures
      var e := ShelfEvictAll(cfg, s, picks);
      Lookup(e.state, k) == if k in PathsOf(e.files) then None else Lookup(s, k)
    decreases |picks|
  {
    if picks != [] {
      var i := ShelfVictim(cfg, s, picks[0]);
      var s1 := RemoveAt(s, i);
      LookupRemoved(s, i, k);
      LookupEvicted(cfg, s1, picks[1..], k);
      PathsOfMore(s[i], ShelfEvictAll(cfg, s1, picks[1..]).files);
    }
  }

  lemma {:induction false} EvictDistinct(cfg: Config, s: seq<File>, picks: seq<nat>)
    requires Distinct(s) && LegalShelfPicks(cfg, s, picks)
    ensures Distinct(ShelfEvictAll(cfg, s, picks).state)
    decreases |picks|
  {
    if picks != [] {
      EvictDistinct(cfg, RemoveAt(s, ShelfVictim(cfg, s, picks[0])), picks[1..]);
    }
  }

  /** One path after a request on the map. */
  lemma MapStepAt(m: map<string, File>, op: Op, evicted: seq<File>, k: string)
    ensures Get(MapStep(m, op, evicted), k) ==
      if k in PathsOf(evicted) then None else if k == op.key then Decide(op, Get(m, k)).next else Get(m, k)
  {
  }

  lemma ShelfStepIsMapStep(cfg: Config, s: Shelf, m: map<string, File>, call: Call)
    requires Distinct(s.files) && SameRecords(s.files, m)
    requires LegalShelfCall(cfg, s, call)
    ensures
      var r := ShelfStep(cfg, s, call);
      && r.response.answer == Decide(call.op, Get(m, call.op.key)).answer
      && SameRecords(r.state.files, MapStep(m, call.op, r.response.evicted))
  {
    var r := ShelfStep(cfg, s, call);
    var cur := Lookup(s.files, call.op.key);
    assert cur == Get(m, call.op.key);
    var next := Decide(call.op, cur).next;
    DecideKeepsKey(call.op, cur);
    ShelveDistinct(s.files, call.op.key, next);
    forall k
      ensures Lookup(r.state.files, k) == Get(MapStep(m, call.op, r.response.evicted), k)
    {
      LookupShelved(s.files, call.op.key, next, k);
      assert Lookup(s.files, k) == Get(m, k);
      if ShelfSettles(s.files, call.op) {
        LookupEvicted(cfg, ShelfTouch(s.files, call.op), call.picks, k);
      }
      MapStepAt(m, call.op, r.response.evicted, k);
    }
  }

  lemma {:induction false} ShelfRunIsMapRun(cfg: Config, calls: seq<Call>)
    requires LegalShelfRun(cfg, calls)
    requires LegalRun(cfg, calls)
    ensures SameRecords(ShelfRun(cfg, calls).state.files, MapRun(calls, ShelfRun(cfg, calls).responses))
    decreases |calls|
  {
    if calls != [] {
      var n := |calls| - 1;
      ShelfRunIsMapRun(cfg, calls[..n]);
      RunAgrees(cfg, calls[..n]);
      var before := ShelfRun(cfg, calls[..n]);
      var responses := ShelfRun(cfg, calls).responses;
      assert responses[..n] == before.responses;
      ShelfStepIsMapStep(cfg, before.state, MapRun(calls[..n], before.responses), calls[n]);
    }
  }

  /** Every key is in the bucket it hashes to, and in no chain twice. */
  ghost predicate WellPlaced(cfg: Config, t: Table) {
    && |t.chains| == cfg.buckets
    && (forall b, f :: 0 <= b < cfg.buckets && f in t.chains[b] ==> cfg.hash(f.key) % cfg.buckets == b)
    && (forall b :: 0 <= b < cfg.buckets ==> Distinct(t.chains[b]))
  }

  /** The storage table is a map: over every run of creations, openings, closings, lockings,
      unlockings, writes, appends, removals and evictions, under either policy, looking any path up
      in its bucket finds exactly the record a plain map would hold, every request is answered from
      that record, and the chains stay well placed. */
  lemma RunIsMap(cfg: Config, calls: seq<Call>)
    requires LegalRun(cfg, calls)
    ensures
      var t := Run(cfg, calls);
      var m := MapRun(calls, t.responses);
      && WellPlaced(cfg, t.state)
      && (forall key :: Lookup(t.state.chains[cfg.hash(key) % cfg.buckets], key) == Get(m, key))
      && (forall call :: LegalCall(cfg, t.state, call) ==>
            Step(cfg, t.state, call).response.answer == Decide(call.op, Get(m, call.op.key)).answer)
  {
    RunAgrees(cfg, calls);
    ShelfRunIsMapRun(cfg, calls);
    var t := Run(cfg, calls).state;
    var s := ShelfRun(cfg, calls).state.files;
    forall key
      ensures Lookup(t.chains[Slot(cfg, key)], key) == Lookup(s, key)
    {
      NewestFinds(cfg, s, key);
    }
    forall b | 0 <= b < cfg.buckets
      ensures Distinct(t.chains[b])
      ensures forall f :: f in t.chains[b] ==> Slot(cfg, f.key) == b
    {
      NewestDistinct(cfg, s, b);
      NewestFrom(cfg, s, b);
    }
  }

  // ---------------------------------------------------------------------------
  // Settling within the limits
  // ---------------------------------------------------------------------------

  /** What an eviction run promises: it stops within both limits, gives back exactly what it took,
      and at every moment before its end a limit was still exceeded. */
  ghost predicate Settled(cfg: Config, before: seq<File>, after: seq<File>, evicted: seq<File>) {
    && !ShelfOver(cfg, after)
    && multiset(after) + multiset(evicted) == multiset(before)
    && (forall k :: 0 <= k < |evicted| ==>
          || |after| + |evicted[k..]| > cfg.maxItems
          || Total(after, Size) + Total(evicted[k..], Size) > cfg.maxSpace)
  }

  lemma MultisetRemove<T>(s: seq<T>, i: nat)
    requires i < |s|
    ensures multiset(RemoveAt(s, i)) + multiset{s[i]} == multiset(s)
  {
    assert s == s[..i] + [s[i]] + s[i + 1..];
  }

  lemma {:induction false} EvictionConserves(cfg: Config, s: seq<File>, picks: seq<nat>)
    requires LegalShelfPicks(cfg, s, picks)
    ensures
      var e := ShelfEvictAll(cfg, s, picks);
      && !ShelfOver(cfg, e.state)
      && multiset(e.state) + multiset(e.files) == multiset(s)
      && |e.state| + |e.files| == |s|
      && Total(e.state, Size) + Total(e.files, Size) == Total(s, Size)
    decreases |picks|
  {
    if picks != [] {
      var i := ShelfVictim(cfg, s, picks[0]);
      EvictionConserves(cfg, RemoveAt(s, i), picks[1..]);
      MultisetRemove(s, i);
      TotalRemove(s, i, Size);
      TotalPrepend(s[i], ShelfEvictAll(cfg, RemoveAt(s, i), picks[1..]).files, Size);
    }
  }

  /** Before its `k`-th eviction the run still found a limit exceeded. */
  lemma {:induction false} EvictionNeeded(cfg: Config, s: seq<File>, picks: seq<nat>, k: nat)
    requires LegalShelfPicks(cfg, s, picks)
    requires k < |ShelfEvictAll(cfg, s, picks).files|
    ensures
      var e := ShelfEvictAll(cfg, s, picks);
      || |e.state| + |e.files[k..]| > cfg.maxItems
      || Total(e.state, Size) + Total(e.files[k..], Size) > cfg.maxSpace
    decreases |picks|
  {
    var i := ShelfVictim(cfg, s, picks[0]);
    var e := ShelfEvictAll(cfg, s, picks);
    if k == 0 {
      EvictionConserves(cfg, s, picks);
      assert e.files[0..] == e.files;
    } else {
      EvictionNeeded(cfg, RemoveAt(s, i), picks[1..], k - 1);
      assert e.files[k..] == ShelfEvictAll(cfg, RemoveAt(s, i), picks[1..]).files[k - 1..];
    }
  }

  lemma EvictionSettles(cfg: Config, s: seq<File>, picks: seq<nat>)
    requires LegalShelfPicks(cfg, s, picks)
    ensures Settled(cfg, s, ShelfEvictAll(cfg, s, picks).state, ShelfEvictAll(cfg, s, picks).files)
  {
    EvictionConserves(cfg, s, picks);
    forall k | 0 <= k < |ShelfEvictAll(cfg, s, picks).files| {
      EvictionNeeded(cfg, s, picks, k);
    }
  }

  /** After any run, a write or append that finds its file ends within both limits; the files it
      reports evicted and the files still stored are together exactly the files present before the
      evictions, contents included; and no shorter eviction run would have been enough. */
  lemma WriteSettles(cfg: Config, calls: seq<Call>, call: Call)
    requires LegalRun(cfg, calls)
    requires LegalCall(cfg, Run(cfg, calls).state, call)
    ensures LegalShelfRun(cfg, calls)
    ensures Settles(cfg, Run(cfg, calls).state, call.op) ==>
      var s := ShelfRun(cfg, calls).state;
      var t := Step(cfg, Run(cfg, calls).state, call);
      && LegalShelfCall(cfg, s, call)
      && Agrees(cfg, t.state, ShelfStep(cfg, s, call).state)
      && Settled(cfg, ShelfTouch(s.files, call.op), ShelfStep(cfg, s, call).state.files, t.response.evicted)
      && t.state.stats.items <= cfg.maxItems
      && t.state.stats.space <= cfg.maxSpace
  {
    RunAgrees(cfg, calls);
    var s := ShelfRun(cfg, calls).state;
    StepAgrees(cfg, Run(cfg, calls).state, s, call);
    TouchRefines(cfg, Run(cfg, calls).state, s.files, call.op);
    if Settles(cfg, Run(cfg, calls).state, call.op) {
      EvictionSettles(cfg, ShelfTouch(s.files, call.op), call.picks);
    }
  }

  /** While a limit is exceeded the table is not empty, so the emptiness assertion and the fatal
      exit of the segmented evictor are out of reach, and some bucket has a victim. */
  lemma OverHasVictim(cfg: Config, t: Table, s: seq<File>)
    requires Refines(cfg, t, s) && Over(cfg, t.stats)
    ensures t.stats.items > 0
    ensures HasVictim(cfg, t, Slot(cfg, s[0].key))
  {
    VictimRefines(cfg, t, s, Slot(cfg, s[0].key));
  }

  /** A first eviction in front of an eviction run. */
  lemma EvictFirst(cfg: Config, t: Table, pick: nat, rest: seq<nat>)
    requires Over(cfg, t.stats) && HasVictim(cfg, t, pick) && LegalPicks(cfg, EvictOne(cfg, t, pick).state, rest)
    ensures LegalPicks(cfg, t, [pick] + rest)
    ensures
      var first := EvictOne(cfg, t, pick);
      var e := EvictAll(cfg, first.state, rest);
      EvictAll(cfg, t, [pick] + rest) == Evicted(e.state, first.files + e.files)
  {
    assert ([pick] + rest)[1..] == rest;
  }

  /** The eviction loop always can end: each turn lowers the item count, and draws that finish the
      run exist from every table that agrees with a shelf. */
  lemma {:induction false} EvictionEnds(cfg: Config, t: Table, s: seq<File>) returns (picks: seq<nat>)
    requires Refines(cfg, t, s)
    ensures LegalPicks(cfg, t, picks)
    ensures |picks| <= |s|
    decreases |s|
  {
    picks := [];
    if Over(cfg, t.stats) {
      OverHasVictim(cfg, t, s);
      var pick := Slot(cfg, s[0].key);
      EvictOneRefines(cfg, t, s, pick);
      var rest := EvictionEnds(cfg, EvictOne(cfg, t, pick).state, RemoveAt(s, ShelfVictim(cfg, s, pick)));
      picks := [pick] + rest;
    }
  }

  /** One turn of an eviction run under FIFO takes the first file. */
  lemma FifoTurn(cfg: Config, s: seq<File>, picks: seq<nat>)
    requires cfg.policy.Fifo? && LegalShelfPicks(cfg, s, picks) && picks != []
    ensures s != [] && ShelfOver(cfg, s) && LegalShelfPicks(cfg, s[1..], picks[1..])
    ensures
      var rest := ShelfEvictAll(cfg, s[1..], picks[1..]);
      ShelfEvictAll(cfg, s, picks) == Evicted(rest.state, [s[0]] + rest.files)
  {
    assert RemoveAt(s, 0) == s[1..];
  }

  lemma SplitTail<T>(s: seq<T>, n: nat)
    requires 0 < n <= |s|
    ensures s[1..][n - 1..] == s[n..] && [s[0]] + s[1..][..n - 1] == s[..n]
  {
  }

  /** Under FIFO an eviction run takes a prefix. */
  lemma {:induction false} FifoEvictsFront(cfg: Config, s: seq<File>, picks: seq<nat>)
    requires cfg.policy.Fifo? && LegalShelfPicks(cfg, s, picks)
    ensures |picks| <= |s| && ShelfEvictAll(cfg, s, picks) == Evicted(s[|picks|..], s[..|picks|])
    decreases |picks|
  {
    if picks == [] {
      assert s[0..] == s && s[..0] == [];
    } else {
      FifoTurn(cfg, s, picks);
      FifoEvictsFront(cfg, s[1..], picks[1..]);
      SplitTail(s, |picks|);
    }
  }

  /** Nothing shorter would do. */
  lemma {:induction false} FifoStillOver(cfg: Config, s: seq<File>, picks: seq<nat>, k: nat)
    requires cfg.policy.Fifo? && LegalShelfPicks(cfg, s, picks) && k < |picks|
    ensures k <= |s| && ShelfOver(cfg, s[k..])
    decreases |picks|
  {
    if k == 0 {
      assert s[0..] == s;
    } else {
      FifoTurn(cfg, s, picks);
      FifoStillOver(cfg, s[1..], picks[1..], k - 1);
      SplitTail(s, k);
    }
  }

  /** Under FIFO an eviction run removes the shortest oldest-first prefix that restores both limits. */
  lemma FifoEvictsPrefix(cfg: Config, s: seq<File>, picks: seq<nat>)
    requires cfg.policy.Fifo? && LegalShelfPicks(cfg, s, picks)
    ensures
      var e := ShelfEvictAll(cfg, s, picks);
      && |picks| <= |s|
      && e.files == s[..|picks|]
      && e.state == s[|picks|..]
      && !ShelfOver(cfg, s[|picks|..])
      && (forall k :: 0 <= k < |picks| ==> ShelfOver(cfg, s[k..]))
  {
    FifoEvictsFront(cfg, s, picks);
    EvictionConserves(cfg, s, picks);
    forall k | 0 <= k < |picks|
      ensures ShelfOver(cfg, s[k..])
    {
      FifoStillOver(cfg, s, picks, k);
    }
  }

  /** Under the FIFO policy, with the queue linked oldest to newest and removals taken out of it, the
      queue is at all times the list of live paths in creation order, and every write evicts the
      shortest oldest-first prefix that restores both limits. */
  lemma FifoRun(cfg: Config, calls: seq<Call>, call: Call)
    requires cfg.policy.Fifo?
    requires LegalRun(cfg, calls)
    requires LegalCall(cfg, Run(cfg, calls).state, call)
    ensures LegalShelfRun(cfg, calls)
    ensures
      var t := Run(cfg, calls).state;
      var s := ShelfRun(cfg, calls).state.files;
      var n := |call.picks|;
      && t.fifo == Keys(s)
      && (Settles(cfg, t, call.op) ==>
            var touched := ShelfTouch(s, call.op);
            && n <= |touched|
            && Step(cfg, t, call).response.evicted == touched[..n]
            && !ShelfOver(cfg, touched[n..])
            && (forall k :: 0 <= k < n ==> ShelfOver(cfg, touched[k..])))
  {
    RunAgrees(cfg, calls);
    var t := Run(cfg, calls).state;
    var s := ShelfRun(cfg, calls).state;
    StepAgrees(cfg, t, s, call);
    TouchRefines(cfg, t, s.files, call.op);
    if Settles(cfg, t, call.op) {
      FifoEvictsPrefix(cfg, ShelfTouch(s.files, call.op), call.picks);
    }
  }

  // ---------------------------------------------------------------------------
  // Creation order
  // ---------------------------------------------------------------------------

  /** When a path was last created, read off the answers given so far: the number of the last
      creation of the path that was answered Ok, or -1. */
  function Born(calls: seq<Call>, responses: seq<Response>, key: string): int
    requires |calls| == |responses|
  {
    if calls == [] then -1
    else
      var n := |calls| - 1;
      if calls[n].op.Create? && calls[n].op.key == key && responses[n].answer.Ok? then n
      else Born(calls[..n], responses[..n], key)
  }

  ghost predicate InBirthOrder(calls: seq<Call>, responses: seq<Response>, s: seq<File>)
    requires |calls| == |responses|
  {
    && (forall i :: 0 <= i < |s| ==> 0 <= Born(calls, responses, s[i].key) < |calls|)
    && (forall i, j :: 0 <= i < j < |s| ==>
          Born(calls, responses, s[i].key) < Born(calls, responses, s[j].key))
  }

  lemma {:induction false} EvictKeepsOrder(cfg: Config, calls: seq<Call>, responses: seq<Response>,
                                           s: seq<File>, picks: seq<nat>)
    requires |calls| == |responses|
    requires InBirthOrder(calls, responses, s) && LegalShelfPicks(cfg, s, picks)
    ensures InBirthOrder(calls, responses, ShelfEvictAll(cfg, s, picks).state)
    decreases |picks|
  {
    if picks != [] {
      var i := ShelfVictim(cfg, s, picks[0]);
      RemovalKeepsOrder(calls, responses, s, i);
      EvictKeepsOrder(cfg, calls, responses, RemoveAt(s, i), picks[1..]);
    }
  }

  lemma RemovalKeepsOrder(calls: seq<Call>, responses: seq<Response>, s: seq<File>, i: nat)
    requires |calls| == |responses| && i < |s| && InBirthOrder(calls, responses, s)
    ensures InBirthOrder(calls, responses, RemoveAt(s, i))
  {
    var t := RemoveAt(s, i);
    assert forall k :: 0 <= k < |t| ==> t[k] == s[if k < i then k else k + 1];
  }

  /** What one request does to the keys, when it removes nothing. */
  lemma TouchKeys(s: seq<File>, op: Op)
    requires Distinct(s)
    ensures
      var cur := Lookup(s, op.key);
      var d := Decide(op, cur);
      && (cur.None? && d.next.Some? ==> Keys(ShelfTouch(s, op)) == Keys(s) + [op.key])
      && (cur.Some? == d.next.Some? ==> Keys(ShelfTouch(s, op)) == Keys(s))
  {
    var cur := Lookup(s, op.key);
    DecideKeepsKey(op, cur);
    var p, t := Position(s, op.key), ShelfTouch(s, op);
    if cur.Some? && Decide(op, cur).next.Some? {
      assert forall i :: 0 <= i < |s| ==> t[i].key == s[i].key;
    }
  }

  /** One request keeps the shelf in birth order. */
  lemma TouchKeepsOrder(calls: seq<Call>, responses: seq<Response>, s: seq<File>)
    requires |calls| == |responses| > 0 && Distinct(s)
    requires
      var n := |calls| - 1;
      && InBirthOrder(calls[..n], responses[..n], s)
      && responses[n].answer == Decide(calls[n].op, Lookup(s, calls[n].op.key)).answer
    ensures InBirthOrder(calls, responses, ShelfTouch(s, calls[|calls| - 1].op))
  {
    var n := |calls| - 1;
    var op := calls[n].op;
    var p := Position(s, op.key);
    var s' := ShelfTouch(s, op);
    DecideKeepsKey(op, Lookup(s, op.key));
    assert forall i :: 0 <= i < |s| ==>
        Born(calls, responses, s[i].key) == Born(calls[..n], responses[..n], s[i].key);
    assert p < |s| && |s'| == |s| ==> forall i :: 0 <= i < |s| ==> s'[i].key == s[i].key;
  }

  lemma {:induction false} ShelfInBirthOrder(cfg: Config, calls: seq<Call>)
    requires LegalRun(cfg, calls) && LegalShelfRun(cfg, calls)
    ensures InBirthOrder(calls, ShelfRun(cfg, calls).responses, ShelfRun(cfg, calls).state.files)
    decreases |calls|
  {
    if calls != [] {
      var n := |calls| - 1;
      ShelfInBirthOrder(cfg, calls[..n]);
      RunAgrees(cfg, calls[..n]);
      var before := ShelfRun(cfg, calls[..n]);
      var responses := ShelfRun(cfg, calls).responses;
      assert responses[..n] == before.responses;
      TouchKeepsOrder(calls, responses, before.state.files);
      if ShelfSettles(before.state.files, calls[n].op) {
        EvictKeepsOrder(cfg, calls, responses, ShelfTouch(before.state.files, calls[n].op), calls[n].picks);
      }
    }
  }

  ghost predicate NewestFirst(calls: seq<Call>, responses: seq<Response>, c: seq<File>)
    requires |calls| == |responses|
  {
    forall i, j :: 0 <= i < j < |c| ==>
      Born(calls, responses, c[i].key) > Born(calls, responses, c[j].key)
  }

  lemma {:induction false} NewestInBirthOrder(cfg: Config, calls: seq<Call>, responses: seq<Response>,
                                              s: seq<File>, b: nat)
    requires |calls| == |responses| && InBirthOrder(calls, responses, s)
    ensures NewestFirst(calls, responses, Newest(cfg, s, b))
  {
    if s != [] {
      var n := |s| - 1;
      var rest := Newest(cfg, s[..n], b);
      NewestInBirthOrder(cfg, calls, responses, s[..n], b);
      NewestFrom(cfg, s[..n], b);
      forall j | 0 <= j < |rest|
        ensures Born(calls, responses, s[n].key) > Born(calls, responses, rest[j].key)
      {
        assert rest[j] in s[..n];
      }
    }
  }

  /** Through any mix of creations, removals and evictions every chain stays newest first. */
  lemma ChainsInBirthOrder(cfg: Config, calls: seq<Call>, b: nat)
    requires LegalRun(cfg, calls) && b < cfg.buckets
    ensures NewestFirst(calls, Run(cfg, calls).responses, Run(cfg, calls).state.chains[b])
  {
    RunAgrees(cfg, calls);
    ShelfInBirthOrder(cfg, calls);
    NewestInBirthOrder(cfg, calls, Run(cfg, calls).responses, ShelfRun(cfg, calls).state.files, b);
  }

  /** One turn of an eviction run under the segmented policy. */
  lemma SegmentedTurn(cfg: Config, s: seq<File>, picks: seq<nat>)
    requires cfg.policy.SegmentedFifo? && LegalShelfPicks(cfg, s, picks) && picks != []
    ensures
      var i := OldestIn(cfg, s, picks[0]);
      && i < |s| && LegalShelfPicks(cfg, RemoveAt(s, i), picks[1..])
      && ShelfEvictAll(cfg, s, picks).files == [s[i]] + ShelfEvictAll(cfg, RemoveAt(s, i), picks[1..]).files
  {
  }

  lemma {:induction false} EvictedPerPick(cfg: Config, s: seq<File>, picks: seq<nat>)
    requires LegalShelfPicks(cfg, s, picks)
    ensures |ShelfEvictAll(cfg, s, picks).files| == |picks|
    decreases |picks|
  {
    if picks != [] {
      EvictedPerPick(cfg, RemoveAt(s, ShelfVictim(cfg, s, picks[0])), picks[1..]);
    }
  }

  /** The `k`-th file of an eviction run is of the bucket drawn, and no file of that bucket that was still
      there is older. */
  ghost predicate OldestDrawn(cfg: Config, calls: seq<Call>, responses: seq<Response>, s: seq<File>,
                              picks: seq<nat>, evicted: seq<File>, k: nat)
    requires |calls| == |responses| && k < |picks| == |evicted|
  {
    && evicted[k] in s && Slot(cfg, evicted[k].key) == picks[k]
    && forall f :: f in s && f !in evicted[..k] && Slot(cfg, f.key) == picks[k] ==>
         Born(calls, responses, evicted[k].key) <= Born(calls, responses, f.key)
  }

  lemma {:induction false} EvictedIsOldest(cfg: Config, calls: seq<Call>, responses: seq<Response>,
                                           s: seq<File>, picks: seq<nat>, k: nat)
    requires |calls| == |responses| && k < |picks| && cfg.policy.SegmentedFifo?
    requires InBirthOrder(calls, responses, s) && LegalShelfPicks(cfg, s, picks)
    ensures |ShelfEvictAll(cfg, s, picks).files| == |picks|
    ensures OldestDrawn(cfg, calls, responses, s, picks, ShelfEvictAll(cfg, s, picks).files, k)
    decreases |picks|
  {
    EvictedPerPick(cfg, s, picks);
    SegmentedTurn(cfg, s, picks);
    var i := OldestIn(cfg, s, picks[0]);
    var s1 := RemoveAt(s, i);
    var rest := ShelfEvictAll(cfg, s1, picks[1..]).files;
    if k == 0 {
      FirstIsOldest(cfg, calls, responses, s, picks, rest);
    } else {
      RemovalKeepsOrder(calls, responses, s, i);
      EvictedIsOldest(cfg, calls, responses, s1, picks[1..], k - 1);
      LaterIsOldest(cfg, calls, responses, s, i, picks, rest, k);
    }
  }

  lemma FirstIsOldest(cfg: Config, calls: seq<Call>, responses: seq<Response>, s: seq<File>, picks: seq<nat>,
                      rest: seq<File>)
    requires |calls| == |responses| && |picks| == |rest| + 1 && InBirthOrder(calls, responses, s)
    requires OldestIn(cfg, s, picks[0]) < |s|
    ensures OldestDrawn(cfg, calls, responses, s, picks, [s[OldestIn(cfg, s, picks[0])]] + rest, 0)
  {
    var i := OldestIn(cfg, s, picks[0]);
    forall f | f in s && Slot(cfg, f.key) == picks[0]
      ensures Born(calls, responses, s[i].key) <= Born(calls, responses, f.key)
    {
      var j :| 0 <= j < |s| && s[j] == f;
    }
  }

  lemma LaterIsOldest(cfg: Config, calls: seq<Call>, responses: seq<Response>, s: seq<File>, i: nat,
                      picks: seq<nat>, rest: seq<File>, k: nat)
    requires |calls| == |responses| && i < |s| && 0 < k < |picks| == |rest| + 1
    requires OldestDrawn(cfg, calls, responses, RemoveAt(s, i), picks[1..], rest, k - 1)
    ensures OldestDrawn(cfg, calls, responses, s, picks, [s[i]] + rest, k)
  {
    var files := [s[i]] + rest;
    assert files[..k] == [s[i]] + rest[..k - 1];
    forall f | f in s && f !in files[..k]
      ensures f in RemoveAt(s, i) && f !in rest[..k - 1]
    {
      assert s[i] in files[..k];
      RemovedOnly(s, i, f);
    }
  }

  lemma RemovedOnly(s: seq<File>, i: nat, f: File)
    requires i < |s| && f in s && f != s[i]
    ensures f in RemoveAt(s, i)
  {
    var j :| 0 <= j < |s| && s[j] == f;
    assert RemoveAt(s, i)[if j < i then j else j - 1] == f;
  }

  /** Whatever buckets the segmented evictor draws: after any run, each file a write or append evicts is
      from the bucket drawn for it, and of the files there at that moment, the ones the write left in that
      bucket less those it evicted before, it is the one created first. */
  lemma EvictsOldestOfBucket(cfg: Config, calls: seq<Call>, call: Call)
    requires LegalRun(cfg, calls) && cfg.policy.SegmentedFifo?
    requires LegalCall(cfg, Run(cfg, calls).state, call)
    ensures LegalShelfRun(cfg, calls)
    ensures
      var t := Run(cfg, calls);
      var evicted := Step(cfg, t.state, call).response.evicted;
      var there := ShelfTouch(ShelfRun(cfg, calls).state.files, call.op);
      && |evicted| == |call.picks|
      && forall k :: 0 <= k < |call.picks| ==> OldestDrawn(cfg, calls, t.responses, there, call.picks, evicted, k)
  {
    RunAgrees(cfg, calls);
    ShelfInBirthOrder(cfg, calls);
    EvictedOnShelf(cfg, Run(cfg, calls).state, ShelfRun(cfg, calls).state, call);
    var s := ShelfRun(cfg, calls).state.files;
    if ShelfSettles(s, call.op) {
      WriteInOrder(calls, Run(cfg, calls).responses, s, call.op);
      AllAreOldest(cfg, calls, Run(cfg, calls).responses, ShelfTouch(s, call.op), call.picks);
    }
  }

  /** What a request evicts, read off the shelf. */
  lemma EvictedOnShelf(cfg: Config, t: Table, s: Shelf, call: Call)
    requires Agrees(cfg, t, s) && LegalCall(cfg, t, call)
    ensures
      var touched, evicted := ShelfTouch(s.files, call.op), Step(cfg, t, call).response.evicted;
      if ShelfSettles(s.files, call.op) then
        LegalShelfPicks(cfg, touched, call.picks) && evicted == ShelfEvictAll(cfg, touched, call.picks).files
      else call.picks == [] && evicted == []
  {
    StepAgrees(cfg, t, s, call);
  }

  /** A write leaves the shelf in birth order. */
  lemma WriteInOrder(calls: seq<Call>, responses: seq<Response>, s: seq<File>, op: Op)
    requires |calls| == |responses| && InBirthOrder(calls, responses, s) && Distinct(s) && ShelfSettles(s, op)
    ensures InBirthOrder(calls, responses, ShelfTouch(s, op))
  {
    TouchKeys(s, op);
    SameKeysInOrder(calls, responses, s, ShelfTouch(s, op));
  }

  lemma AllAreOldest(cfg: Config, calls: seq<Call>, responses: seq<Response>, s: seq<File>, picks: seq<nat>)
    requires |calls| == |responses| && cfg.policy.SegmentedFifo?
    requires InBirthOrder(calls, responses, s) && LegalShelfPicks(cfg, s, picks)
    ensures
      var evicted := ShelfEvictAll(cfg, s, picks).files;
      && |evicted| == |picks|
      && forall k :: 0 <= k < |picks| ==> OldestDrawn(cfg, calls, responses, s, picks, evicted, k)
  {
    EvictedPerPick(cfg, s, picks);
    forall k | 0 <= k < |picks|
      ensures OldestDrawn(cfg, calls, responses, s, picks, ShelfEvictAll(cfg, s, picks).files, k)
    {
      EvictedIsOldest(cfg, calls, responses, s, picks, k);
    }
  }

  lemma SameKeysInOrder(calls: seq<Call>, responses: seq<Response>, s: seq<File>, s': seq<File>)
    requires |calls| == |responses| && InBirthOrder(calls, responses, s) && Keys(s') == Keys(s)
    ensures InBirthOrder(calls, responses, s')
  {
    assert |s'| == |Keys(s')| == |s|;
    assert forall i :: 0 <= i < |s| ==> s'[i].key == Keys(s')[i] == s[i].key;
  }

  // ---------------------------------------------------------------------------
  // The books
  // ---------------------------------------------------------------------------

  /** Number of creations answered Ok. */
  function CreatesGranted(calls: seq<Call>, responses: seq<Response>): nat
    requires |calls| == |responses|
  {
    if calls == [] then 0
    else
      var n := |calls| - 1;
      CreatesGranted(calls[..n], responses[..n])
        + (if calls[n].op.Create? && responses[n].answer.Ok? then 1 else 0)
  }

  function FilesReturned(r: Response): int {
    |r.evicted|
  }

  lemma GrantedMeansNew(op: Op, cur: Option<File>)
    ensures cur.None? && Decide(op, cur).next.Some? <==> op.Create? && Decide(op, cur).answer.Ok?
  {
  }

  lemma StepObserved(cfg: Config, s: Shelf, call: Call)
    requires LegalShelfCall(cfg, s, call)
    ensures
      var r := ShelfStep(cfg, s, call);
      && r.state.ledger.creates == s.ledger.creates + (if call.op.Create? && r.response.answer.Ok? then 1 else 0)
      && r.state.ledger.evictions == s.ledger.evictions + |r.response.evicted|
  {
    GrantedMeansNew(call.op, Lookup(s.files, call.op.key));
  }

  /** The ledger's counts are those of the answers. */
  lemma {:induction false} LedgerIsObserved(cfg: Config, calls: seq<Call>)
    requires LegalShelfRun(cfg, calls)
    ensures
      var r := ShelfRun(cfg, calls);
      && r.state.ledger.creates == CreatesGranted(calls, r.responses)
      && r.state.ledger.evictions == Total(r.responses, FilesReturned)
    decreases |calls|
  {
    if calls != [] {
      var n := |calls| - 1;
      LedgerIsObserved(cfg, calls[..n]);
      var before := ShelfRun(cfg, calls[..n]);
      assert ShelfRun(cfg, calls).responses[..n] == before.responses;
      StepObserved(cfg, before.state, calls[n]);
    }
  }

  lemma StepBounded(cfg: Config, s: Shelf, call: Call)
    requires LegalShelfCall(cfg, s, call) && |s.files| <= cfg.maxItems + s.ledger.unsettled
    ensures |ShelfStep(cfg, s, call).state.files| <= cfg.maxItems + ShelfStep(cfg, s, call).state.ledger.unsettled
  {
    if ShelfSettles(s.files, call.op) {
      EvictionConserves(cfg, ShelfTouch(s.files, call.op), call.picks);
    }
  }

  /** The shelf never outgrows the item limit by more than the creations since the last settled write. */
  lemma {:induction false} ShelfBounded(cfg: Config, calls: seq<Call>)
    requires LegalShelfRun(cfg, calls)
    ensures |ShelfRun(cfg, calls).state.files| <= cfg.maxItems + ShelfRun(cfg, calls).state.ledger.unsettled
    decreases |calls|
  {
    if calls != [] {
      var n := |calls| - 1;
      ShelfBounded(cfg, calls[..n]);
      StepBounded(cfg, ShelfRun(cfg, calls[..n]).state, calls[n]);
    }
  }

  /** Over every run the item count is creations granted less removals less evictions, it never
      exceeds the limit by more than the creations since the last settled write, both historical
      maxima are the true peaks before eviction, and the eviction counter is the number of files
      handed back. The open count is right exactly when no closed file was ever removed. */
  lemma RunKeepsBooks(cfg: Config, calls: seq<Call>)
    requires LegalRun(cfg, calls)
    ensures LegalShelfRun(cfg, calls)
    ensures
      var t := Run(cfg, calls);
      var s := ShelfRun(cfg, calls).state;
      var evictions := Total(t.responses, FilesReturned);
      && t.state.stats.items == |s.files| == CreatesGranted(calls, t.responses) - s.ledger.removals - evictions
      && t.state.stats.items <= cfg.maxItems + s.ledger.unsettled
      && t.state.stats.space == Total(s.files, Size)
      && t.state.stats.maxItems == s.ledger.peakItems
      && t.state.stats.maxSpace == s.ledger.peakSpace
      && t.state.stats.evictions == evictions
      && (t.state.stats.open == Total(s.files, Opened) <==> s.ledger.closedRemovals == 0)
  {
    RunAgrees(cfg, calls);
    LedgerIsObserved(cfg, calls);
    ShelfBounded(cfg, calls);
  }

  /** Removing a closed file does take the open count below zero. */
  lemma ClosedRemovalMiscounts(cfg: Config)
    ensures
      var t1 := Touch(cfg, EmptyTable(cfg), Create("a", 3, false));
      var t2 := Touch(cfg, t1, Close("a", 3));
      var t3 := Touch(cfg, t2, Remove("a", 3));
      t3.stats.items == 0 && t3.stats.open == -1
  {
  }
}
