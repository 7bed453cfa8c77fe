/**
 Each bucket chain is the newest-first part of the shelf that hashes to the bucket, the FIFO queue
 is the list of its keys, and the statistics are its exact totals; every request keeps this.
 */
module Refinement {
  import opened Basics
  import opened Files
  import opened Tables

  ghost predicate Distinct(s: seq<File>) {
    forall i, j :: 0 <= i < j < |s| ==> s[i].key != s[j].key
  }

  /** The files of bucket `b`, newest first. */
  function Newest(cfg: Config, s: seq<File>, b: nat): seq<File> {
    if s == [] then []
    else
      var f, rest := s[|s| - 1], Newest(cfg, s[..|s| - 1], b);
      if Slot(cfg, f.key) == b then [f] + rest else rest
  }

  function Keys(s: seq<File>): (ks: seq<string>)
    ensures |ks| == |s|
    ensures forall i :: 0 <= i < |s| ==> ks[i] == s[i].key
  {
    seq(|s|, i requires 0 <= i < |s| => s[i].key)
  }

  ghost predicate Refines(cfg: Config, t: Table, s: seq<File>) {
    && |t.chains| == cfg.buckets
    && Distinct(s)
    && (forall b :: 0 <= b < cfg.buckets ==> t.chains[b] == Newest(cfg, s, b))
    && t.fifo == (if cfg.policy.Fifo? then Keys(s) else [])
    && t.stats.items == |s|
    && t.stats.space == Total(s, Size)
  }

  /** Every statistic is what the ledger says it should be. The open count is off by one for each
      closed file that was removed. */
  ghost predicate Balanced(stats: Stats, s: Shelf) {
    && stats.open == Total(s.files, Opened) - s.ledger.closedRemovals
    && stats.maxItems == s.ledger.peakItems
    && stats.maxSpace == s.ledger.peakSpace
    && stats.evictions == s.ledger.evictions
    && s.ledger.peakItems >= |s.files|
    && s.ledger.peakSpace >= Total(s.files, Size)
    && |s.files| == s.ledger.creates - s.ledger.removals - s.ledger.evictions
  }

  ghost predicate Agrees(cfg: Config, t: Table, s: Shelf) {
    Refines(cfg, t, s.files) && Balanced(t.stats, s)
  }

  // ---------------------------------------------------------------------------
  // Shelf and chain side by side
  // ---------------------------------------------------------------------------

  lemma {:induction false} PositionOf(s: seq<File>, i: nat)
    requires Distinct(s) && i < |s|
    ensures Position(s, s[i].key) == i
  {
    var p := Position(s, s[i].key);
    assert p <= i;
  }

  /** A path is found at the same record in its chain as on the shelf. */
  lemma {:induction false} NewestFinds(cfg: Config, s: seq<File>, key: string)
    requires Distinct(s)
    ensures Lookup(Newest(cfg, s, Slot(cfg, key)), key) == Lookup(s, key)
  {
    if s != [] {
      var n := |s| - 1;
      var init := s[..n];
      NewestFinds(cfg, init, key);
      var p := Position(init, key);
      if p < n {
        assert init[p] == s[p];
        PositionOf(s, p);
        PositionOf(init, p);
        assert s[n].key != key;
        LookupSkips(Newest(cfg, init, Slot(cfg, key)), s[n], key);
      } else if s[n].key == key {
        PositionOf(s, n);
      } else {
        assert forall i :: 0 <= i < n ==> init[i].key != key && s[i] == init[i];
        assert Position(s, key) == |s|;
        LookupSkips(Newest(cfg, init, Slot(cfg, key)), s[n], key);
      }
    }
  }

  lemma LookupSkips(c: seq<File>, f: File, key: string)
    requires f.key != key
    ensures Lookup([f] + c, key) == Lookup(c, key)
    ensures Position([f] + c, key) == 1 + Position(c, key)
  {
    assert ([f] + c)[1..] == c;
  }

  lemma PlaceSkips(c: seq<File>, f: File, key: string, next: Option<File>)
    requires f.key != key && Lookup(c, key).Some?
    ensures Place([f] + c, key, next) == [f] + Place(c, key, next)
  {
    LookupSkips(c, f, key);
    ChangeSkips(c, f, Position(c, key), next);
  }

  lemma ChangeSkips(c: seq<File>, f: File, p: nat, next: Option<File>)
    requires p < |c|
    ensures RemoveAt([f] + c, 1 + p) == [f] + RemoveAt(c, p)
    ensures next.Some? ==> ([f] + c)[1 + p := next.value] == [f] + c[p := next.value]
  {
  }

  lemma PlaceFirst(c: seq<File>, f: File, next: Option<File>)
    ensures Place([f] + c, f.key, next) == (if next.Some? then [next.value] else []) + c
  {
  }

  lemma {:induction false} NewestSet(cfg: Config, s: seq<File>, i: nat, f: File, b: nat)
    requires Distinct(s) && i < |s| && f.key == s[i].key
    ensures Newest(cfg, s[i := f], b) ==
      if Slot(cfg, f.key) == b then Place(Newest(cfg, s, b), f.key, Some(f)) else Newest(cfg, s, b)
  {
    var n := |s| - 1;
    var init := s[..n];
    var rest := Newest(cfg, init, b);
    if i == n {
      assert s[i := f][..n] == init;
      PlaceFirst(rest, s[n], Some(f));
    } else {
      assert s[i := f][..n] == init[i := f];
      NewestSet(cfg, init, i, f, b);
      NewestHolds(cfg, init, i);
      if Slot(cfg, f.key) == b {
        PlaceSkips(rest, s[n], f.key, Some(f));
      }
    }
  }

  lemma {:induction false} NewestRemove(cfg: Config, s: seq<File>, i: nat, b: nat)
    requires Distinct(s) && i < |s|
    ensures Newest(cfg, RemoveAt(s, i), b) ==
      if Slot(cfg, s[i].key) == b then Place(Newest(cfg, s, b), s[i].key, None) else Newest(cfg, s, b)
  {
    var n := |s| - 1;
    var init := s[..n];
    var rest := Newest(cfg, init, b);
    if i == n {
      assert RemoveAt(s, i) == init;
      PlaceFirst(rest, s[n], None);
    } else {
      RemoveBeforeEnd(s, i);
      NewestAdd(cfg, RemoveAt(init, i), s[n], b);
      NewestRemove(cfg, init, i, b);
      NewestHolds(cfg, init, i);
      if Slot(cfg, s[i].key) == b {
        PlaceSkips(rest, s[n], s[i].key, None);
      }
    }
  }

  lemma RemoveBeforeEnd<T>(s: seq<T>, i: nat)
    requires i < |s| - 1
    ensures RemoveAt(s, i) == RemoveAt(s[..|s| - 1], i) + [s[|s| - 1]]
  {
  }

  lemma NewestHolds(cfg: Config, s: seq<File>, i: nat)
    requires Distinct(s) && i < |s|
    ensures Lookup(Newest(cfg, s, Slot(cfg, s[i].key)), s[i].key) == Some(s[i])
  {
    NewestFinds(cfg, s, s[i].key);
    PositionOf(s, i);
  }

  lemma NewestAdd(cfg: Config, s: seq<File>, f: File, b: nat)
    ensures Newest(cfg, s + [f], b) == (if Slot(cfg, f.key) == b then [f] else []) + Newest(cfg, s, b)
  {
    assert (s + [f])[..|s|] == s;
  }

  /** The end of a chain is the oldest file of its bucket. */
  lemma {:induction false} NewestEnd(cfg: Config, s: seq<File>, b: nat)
    ensures Newest(cfg, s, b) == [] <==> OldestIn(cfg, s, b) == |s|
    ensures Newest(cfg, s, b) != [] ==>
      Newest(cfg, s, b)[|Newest(cfg, s, b)| - 1] == s[OldestIn(cfg, s, b)]
  {
    if s != [] {
      var n := |s| - 1;
      NewestEnd(cfg, s[..n], b);
      OldestInAdd(cfg, s[..n], s[n], b);
      assert s == s[..n] + [s[n]];
    }
  }

  lemma {:induction false} OldestInAdd(cfg: Config, s: seq<File>, f: File, b: nat)
    ensures OldestIn(cfg, s + [f], b) ==
      if OldestIn(cfg, s, b) < |s| || Slot(cfg, f.key) == b then OldestIn(cfg, s, b) else |s| + 1
  {
    if s != [] && Slot(cfg, s[0].key) != b {
      assert (s + [f])[1..] == s[1..] + [f];
      OldestInAdd(cfg, s[1..], f, b);
    }
  }

  /** A chain holds only files of the shelf that hash to it. */
  lemma {:induction false} NewestFrom(cfg: Config, s: seq<File>, b: nat)
    ensures forall f :: f in Newest(cfg, s, b) ==> f in s && Slot(cfg, f.key) == b
  {
    if s != [] {
      NewestFrom(cfg, s[..|s| - 1], b);
    }
  }

  lemma {:induction false} NewestDistinct(cfg: Config, s: seq<File>, b: nat)
    requires Distinct(s)
    ensures Distinct(Newest(cfg, s, b))
  {
    if s != [] {
      NewestDistinct(cfg, s[..|s| - 1], b);
      NewestFrom(cfg, s[..|s| - 1], b);
    }
  }

  // ---------------------------------------------------------------------------
  // The shelf's own laws
  // ---------------------------------------------------------------------------

  lemma ShelveDistinct(s: seq<File>, key: string, next: Option<File>)
    requires Distinct(s) && (next.Some? ==> next.value.key == key)
    ensures Distinct(Shelve(s, key, next))
  {
  }

  lemma DecideKeepsKey(op: Op, cur: Option<File>)
    requires cur.Some? ==> cur.value.key == op.key
    ensures Decide(op, cur).next.Some? ==> Decide(op, cur).next.value.key == op.key
  {
  }

  lemma ShelveTotal(s: seq<File>, key: string, next: Option<File>, w: File -> int)
    ensures Total(Shelve(s, key, next), w) ==
      Total(s, w) - WeightOf(Lookup(s, key), w) + WeightOf(next, w)
  {
    var p := Position(s, key);
    if p < |s| {
      TotalRemove(s, p, w);
      if next.Some? {
        TotalSet(s, p, next.value, w);
      }
    } else if next.Some? {
      TotalAppend(s, next.value, w);
    }
  }

  lemma WithoutKey(s: seq<File>, i: nat)
    requires Distinct(s) && i < |s|
    ensures Without(Keys(s), s[i].key) == Keys(RemoveAt(s, i))
  {
    WithoutAt(Keys(s), s[i].key, i);
    assert Keys(RemoveAt(s, i)) == RemoveAt(Keys(s), i);
  }

  // ---------------------------------------------------------------------------
  // One request
  // ---------------------------------------------------------------------------

  lemma ShelveChains(cfg: Config, s: seq<File>, key: string, next: Option<File>, b: nat)
    requires Distinct(s) && (next.Some? ==> next.value.key == key)
    ensures Newest(cfg, Shelve(s, key, next), b) ==
      if Slot(cfg, key) == b then Place(Newest(cfg, s, b), key, next) else Newest(cfg, s, b)
  {
    var p := Position(s, key);
    NewestFinds(cfg, s, key);
    if p < |s| {
      if next.Some? {
        NewestSet(cfg, s, p, next.value, b);
      } else {
        NewestRemove(cfg, s, p, b);
      }
    } else if next.Some? {
      NewestAdd(cfg, s, next.value, b);
    }
  }

  lemma ShelveQueue(cfg: Config, s: seq<File>, key: string, next: Option<File>)
    requires Distinct(s) && cfg.policy.Fifo? && (next.Some? ==> next.value.key == key)
    ensures QueueAfter(cfg, Keys(s), key, Lookup(s, key), next) == Keys(Shelve(s, key, next))
  {
    var p := Position(s, key);
    if p < |s| && next.None? {
      WithoutKey(s, p);
    } else {
      assert QueueAfter(cfg, Keys(s), key, Lookup(s, key), next) == Keys(Shelve(s, key, next));
    }
  }

  lemma TouchChains(cfg: Config, t: Table, s: seq<File>, op: Op)
    requires Refines(cfg, t, s)
    ensures Lookup(t.chains[Slot(cfg, op.key)], op.key) == Lookup(s, op.key)
    ensures forall b :: 0 <= b < cfg.buckets ==> Touch(cfg, t, op).chains[b] == Newest(cfg, ShelfTouch(s, op), b)
  {
    var next := Decide(op, Lookup(s, op.key)).next;
    NewestFinds(cfg, s, op.key);
    DecideKeepsKey(op, Lookup(s, op.key));
    forall b | 0 <= b < cfg.buckets
      ensures Touch(cfg, t, op).chains[b] == Newest(cfg, ShelfTouch(s, op), b)
    {
      ShelveChains(cfg, s, op.key, next, b);
    }
  }

  lemma AccountExact(s: seq<File>, stats: Stats, op: Op)
    requires stats.items == |s| && stats.space == Total(s, Size)
    ensures
      var cur := Lookup(s, op.key);
      var stats' := Account(stats, op, cur, Decide(op, cur));
      stats'.items == |ShelfTouch(s, op)| && stats'.space == Total(ShelfTouch(s, op), Size)
  {
    AccountItems(s, stats, op);
    AccountSpace(s, stats, op);
  }

  lemma AccountItems(s: seq<File>, stats: Stats, op: Op)
    ensures
      var cur := Lookup(s, op.key);
      Account(stats, op, cur, Decide(op, cur)).items - stats.items == |ShelfTouch(s, op)| - |s|
  {
    ShelveLength(s, op.key, Decide(op, Lookup(s, op.key)).next);
  }

  lemma AccountSpace(s: seq<File>, stats: Stats, op: Op)
    ensures
      var cur := Lookup(s, op.key);
      Account(stats, op, cur, Decide(op, cur)).space - stats.space == Total(ShelfTouch(s, op), Size) - Total(s, Size)
  {
    ShelveTotal(s, op.key, Decide(op, Lookup(s, op.key)).next, Size);
  }

  lemma ShelveLength(s: seq<File>, key: string, next: Option<File>)
    ensures |Shelve(s, key, next)| ==
      |s| - (if Lookup(s, key).Some? then 1 else 0) + (if next.Some? then 1 else 0)
  {
  }

  /** Up to its evictions, a request does to the chains, the queue and the statistics exactly what
      it does to the shelf. */
  lemma TouchRefines(cfg: Config, t: Table, s: seq<File>, op: Op)
    requires Refines(cfg, t, s)
    ensures Lookup(t.chains[Slot(cfg, op.key)], op.key) == Lookup(s, op.key)
    ensures Refines(cfg, Touch(cfg, t, op), ShelfTouch(s, op))
  {
    var next := Decide(op, Lookup(s, op.key)).next;
    DecideKeepsKey(op, Lookup(s, op.key));
    TouchChains(cfg, t, s, op);
    ShelveDistinct(s, op.key, next);
    AccountExact(s, t.stats, op);
    if cfg.policy.Fifo? {
      ShelveQueue(cfg, s, op.key, next);
    }
  }

  /** The victim on the chains is the victim on the shelf. */
  lemma VictimRefines(cfg: Config, t: Table, s: seq<File>, pick: nat)
    requires Refines(cfg, t, s)
    ensures HasVictim(cfg, t, pick) <==>
      ShelfVictim(cfg, s, pick) < |s| && (cfg.policy.SegmentedFifo? ==> pick < cfg.buckets)
    ensures HasVictim(cfg, t, pick) ==>
      var f := s[ShelfVictim(cfg, s, pick)];
      && VictimSlot(cfg, t, pick) == Slot(cfg, f.key)
      && t.chains[Slot(cfg, f.key)][VictimPosition(cfg, t, pick)] == f
  {
    if cfg.policy.Fifo? {
      if s != [] {
        NewestHolds(cfg, s, 0);
      }
    } else {
      NewestEnd(cfg, s, pick);
    }
  }

  /** One eviction takes the same file off the chains as off the shelf. */
  lemma EvictOneRefines(cfg: Config, t: Table, s: seq<File>, pick: nat)
    requires Refines(cfg, t, s)
    requires HasVictim(cfg, t, pick)
    ensures ShelfVictim(cfg, s, pick) < |s|
    ensures EvictOne(cfg, t, pick).files == [s[ShelfVictim(cfg, s, pick)]]
    ensures Refines(cfg, EvictOne(cfg, t, pick).state, RemoveAt(s, ShelfVictim(cfg, s, pick)))
  {
    VictimRefines(cfg, t, s, pick);
    TotalRemove(s, ShelfVictim(cfg, s, pick), Size);
    assert cfg.policy.Fifo? ==> Keys(s)[1..] == Keys(RemoveAt(s, 0));
    EvictOneChains(cfg, t, s, pick);
  }

  lemma EvictOneChains(cfg: Config, t: Table, s: seq<File>, pick: nat)
    requires Refines(cfg, t, s)
    requires HasVictim(cfg, t, pick) && ShelfVictim(cfg, s, pick) < |s|
    requires EvictOne(cfg, t, pick).files == [s[ShelfVictim(cfg, s, pick)]]
    ensures forall c :: 0 <= c < cfg.buckets ==>
      EvictOne(cfg, t, pick).state.chains[c] == Newest(cfg, RemoveAt(s, ShelfVictim(cfg, s, pick)), c)
  {
    var i, b := ShelfVictim(cfg, s, pick), VictimSlot(cfg, t, pick);
    VictimRefines(cfg, t, s, pick);
    NewestDistinct(cfg, s, b);
    PositionOf(t.chains[b], VictimPosition(cfg, t, pick));
    forall c | 0 <= c < cfg.buckets
      ensures EvictOne(cfg, t, pick).state.chains[c] == Newest(cfg, RemoveAt(s, i), c)
    {
      NewestRemove(cfg, s, i, c);
    }
  }

  lemma {:induction false} EvictAllRefines(cfg: Config, t: Table, s: seq<File>, picks: seq<nat>)
    requires Refines(cfg, t, s)
    requires LegalPicks(cfg, t, picks)
    ensures LegalShelfPicks(cfg, s, picks)
    ensures EvictAll(cfg, t, picks).files == ShelfEvictAll(cfg, s, picks).files
    ensures Refines(cfg, EvictAll(cfg, t, picks).state, ShelfEvictAll(cfg, s, picks).state)
    decreases |picks|
  {
    if picks != [] {
      EvictOneRefines(cfg, t, s, picks[0]);
      var i := ShelfVictim(cfg, s, picks[0]);
      EvictAllRefines(cfg, EvictOne(cfg, t, picks[0]).state, RemoveAt(s, i), picks[1..]);
    }
  }

  // ---------------------------------------------------------------------------
  // The ledger
  // ---------------------------------------------------------------------------

  /** What `n` evictions do to the figures that are not fixed by the shelf's files. */
  ghost predicate Drawn(st: Stats, s: seq<File>, st': Stats, s': seq<File>, n: nat) {
    && st'.open - Total(s', Opened) == st.open - Total(s, Opened)
    && st'.maxItems == st.maxItems
    && st'.maxSpace == st.maxSpace
    && st'.evictions == st.evictions + n
    && |s'| == |s| - n
    && Total(s', Size) <= Total(s, Size)
  }

  lemma EvictOneBalance(cfg: Config, t: Table, s: seq<File>, pick: nat)
    requires Refines(cfg, t, s) && HasVictim(cfg, t, pick) && ShelfVictim(cfg, s, pick) < |s|
    requires EvictOne(cfg, t, pick).files == [s[ShelfVictim(cfg, s, pick)]]
    ensures Drawn(t.stats, s, EvictOne(cfg, t, pick).state.stats, RemoveAt(s, ShelfVictim(cfg, s, pick)), 1)
  {
    var i := ShelfVictim(cfg, s, pick);
    TotalRemove(s, i, Opened);
    TotalRemove(s, i, Size);
  }

  lemma {:induction false} EvictAllBalance(cfg: Config, t: Table, s: seq<File>, picks: seq<nat>)
    requires Refines(cfg, t, s)
    requires LegalPicks(cfg, t, picks) && LegalShelfPicks(cfg, s, picks)
    ensures Drawn(t.stats, s, EvictAll(cfg, t, picks).state.stats, ShelfEvictAll(cfg, s, picks).state, |picks|)
    ensures |ShelfEvictAll(cfg, s, picks).files| == |picks|
    decreases |picks|
  {
    if picks != [] {
      EvictOneRefines(cfg, t, s, picks[0]);
      EvictOneBalance(cfg, t, s, picks[0]);
      EvictAllBalance(cfg, EvictOne(cfg, t, picks[0]).state, RemoveAt(s, ShelfVictim(cfg, s, picks[0])), picks[1..]);
    }
  }

  /** The statistics section keeps the open count exact up to closed files that were removed. */
  lemma AccountOpen(s: seq<File>, stats: Stats, op: Op, closedRemovals: int)
    requires stats.open == Total(s, Opened) - closedRemovals
    ensures
      var cur := Lookup(s, op.key);
      var d := Decide(op, cur);
      Account(stats, op, cur, d).open == Total(ShelfTouch(s, op), Opened) - closedRemovals
        - (if cur.Some? && d.next.None? && !cur.value.isOpen then 1 else 0)
  {
    ShelveTotal(s, op.key, Decide(op, Lookup(s, op.key)).next, Opened);
  }

  /** Updating the maxima only in the branches that can raise a figure loses no maximum. */
  lemma AccountPeaks(s: seq<File>, stats: Stats, op: Op)
    requires stats.items == |s| && stats.space == Total(s, Size)
    requires stats.maxItems >= stats.items && stats.maxSpace >= stats.space
    ensures
      var cur := Lookup(s, op.key);
      var stats' := Account(stats, op, cur, Decide(op, cur));
      && stats'.maxItems == Max(stats.maxItems, |ShelfTouch(s, op)|)
      && stats'.maxSpace == Max(stats.maxSpace, Total(ShelfTouch(s, op), Size))
      && stats'.evictions == stats.evictions
  {
    ShelveTotal(s, op.key, Decide(op, Lookup(s, op.key)).next, Size);
  }

  /** Before evictions, the statistics section books exactly what happened. */
  lemma TouchBalance(cfg: Config, t: Table, s: Shelf, op: Op, settles: bool)
    requires Agrees(cfg, t, s)
    ensures
      var cur := Lookup(s.files, op.key);
      var files := ShelfTouch(s.files, op);
      Balanced(Touch(cfg, t, op).stats, Shelf(files, Enter(s.ledger, cur, Decide(op, cur).next, files, settles, 0)))
  {
    NewestFinds(cfg, s.files, op.key);
    AccountOpen(s.files, t.stats, op, s.ledger.closedRemovals);
    AccountPeaks(s.files, t.stats, op);
  }

  /** A table that agrees with a shelf answers every request as the shelf does, evicts the same
      files, and agrees with the shelf again afterwards. */
  lemma StepAgrees(cfg: Config, t: Table, s: Shelf, call: Call)
    requires Agrees(cfg, t, s)
    requires LegalCall(cfg, t, call)
    ensures LegalShelfCall(cfg, s, call)
    ensures Step(cfg, t, call).response == ShelfStep(cfg, s, call).response
    ensures Agrees(cfg, Step(cfg, t, call).state, ShelfStep(cfg, s, call).state)
  {
    var op := call.op;
    TouchRefines(cfg, t, s.files, op);
    TouchBalance(cfg, t, s, op, ShelfSettles(s.files, op));
    if Settles(cfg, t, op) {
      var touched := Touch(cfg, t, op);
      var files := ShelfTouch(s.files, op);
      EvictAllRefines(cfg, touched, files, call.picks);
      EvictAllBalance(cfg, touched, files, call.picks);
    }
  }

  // ---------------------------------------------------------------------------
  // From the shelf to the table
  // ---------------------------------------------------------------------------

  /** Draws that are legal for the shelf are legal for the table. */
  lemma {:induction false} PicksLegalOnTable(cfg: Config, t: Table, s: seq<File>, picks: seq<nat>)
    requires Refines(cfg, t, s) && LegalShelfPicks(cfg, s, picks)
    ensures LegalPicks(cfg, t, picks)
    decreases |picks|
  {
    if picks != [] {
      var i := ShelfVictim(cfg, s, picks[0]);
      VictimRefines(cfg, t, s, picks[0]);
      EvictOneRefines(cfg, t, s, picks[0]);
      PicksLegalOnTable(cfg, EvictOne(cfg, t, picks[0]).state, RemoveAt(s, i), picks[1..]);
    }
  }

  lemma CallLegalOnTable(cfg: Config, t: Table, s: Shelf, call: Call)
    requires Agrees(cfg, t, s) && LegalShelfCall(cfg, s, call)
    ensures LegalCall(cfg, t, call)
  {
    TouchRefines(cfg, t, s.files, call.op);
    if ShelfSettles(s.files, call.op) {
      PicksLegalOnTable(cfg, Touch(cfg, t, call.op), ShelfTouch(s.files, call.op), call.picks);
    }
  }

  /** A shelf agrees with one table only. */
  lemma AgreesWithOne(cfg: Config, t: Table, t': Table, s: Shelf)
    requires Agrees(cfg, t, s) && Agrees(cfg, t', s)
    ensures t == t'
  {
    assert forall b :: 0 <= b < cfg.buckets ==> t.chains[b] == t'.chains[b];
  }
}
