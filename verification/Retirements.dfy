/** How many tombstones one scan gives one part: never three, and two under an exact condition. */
module Retirements {
  import opened Prelude
  import opened Dag
  import opened PruneRules
  import opened PruneScan
  import opened PruneTheorems
  import opened Mortality
  import opened Rescan
  import opened Chains

  /** The tombstones of h. */
  function Deaths(log: Log, h: Hash): nat {
    if |log| == 0 then 0 else Deaths(log[..|log| - 1], h) + if Kills(log[|log| - 1], h) then 1 else 0
  }

  lemma {:induction false} DeathsOfUndead(log: Log, h: Hash)
    ensures Deaths(log, h) == 0 <==> !Tombstoned(log, h)
  {
    if |log| > 0 {
      var front := log[..|log| - 1];
      DeathsOfUndead(front, h);
      if Tombstoned(log, h) && !Kills(log[|log| - 1], h) {
        var i :| 0 <= i < |log| && Kills(log[i], h);
        assert Kills(front[i], h);
      }
      if Tombstoned(front, h) {
        TombstonedExtends(front, log, h);
      }
    }
  }

  /** Only a tombstone adds to the deaths of a part. */
  lemma {:induction false} DeathsWithoutRetirement(a: Log, b: Log, h: Hash)
    requires a <= b && !Retired(a, b, h)
    ensures Deaths(b, h) == Deaths(a, h)
    decreases |b|
  {
    if |a| == |b| {
      assert a == b;
    } else {
      var front := b[..|b| - 1];
      assert !Kills(b[|b| - 1], h);
      if Retired(a, front, h) {
        RetiredExtends(a, a, front, b, h);
      }
      DeathsWithoutRetirement(a, front, h);
    }
  }

  // -------------------------------------------------------------------------
  // Counting a scan's tombstones
  // -------------------------------------------------------------------------

  function TimesListed(cands: seq<Candidate>, h: Hash): nat {
    if |cands| == 0 then 0
    else TimesListed(cands[..|cands| - 1], h) + if cands[|cands| - 1].part == h then 1 else 0
  }

  lemma EntombDeaths(log: Log, rule: RuleId, c: Candidate, cycle: nat, h: Hash)
    ensures Deaths(Entomb(log, rule, c, cycle), h) == Deaths(log, h) + if c.part == h then 1 else 0
  {
    EntombAddsOne(log, rule, c, cycle);
    assert Entomb(log, rule, c, cycle)[..|log|] == log;
  }

  lemma {:induction false} EntombAllDeaths(log: Log, rule: RuleId, cands: seq<Candidate>, cycle: nat, h: Hash)
    ensures Deaths(EntombAll(log, rule, cands, cycle), h) == Deaths(log, h) + TimesListed(cands, h)
    decreases |cands|
  {
    if |cands| > 0 {
      var last := |cands| - 1;
      var before := EntombAll(log, rule, cands[..last], cycle);
      EntombAllDeaths(log, rule, cands[..last], cycle, h);
      EntombDeaths(before, rule, cands[last], cycle, h);
    }
  }

  lemma TimesListedNext(cands: seq<Candidate>, c: Candidate, h: Hash)
    ensures TimesListed(cands + [c], h) == TimesListed(cands, h) + if c.part == h then 1 else 0
  {
    assert (cands + [c])[..|cands|] == cands;
  }

  lemma DistinctAt(log: Log, j: nat, i: nat)
    requires WellFormed(log) && j < |log| && i < |log|
    ensures HashOf(log[j]) == HashOf(log[i]) <==> j == i
  {
  }

  lemma TimesListedNone(rule: RuleId, log: Log, ctx: ScanCtx, cycle: nat, h: Hash)
    ensures TimesListed([], h) == 0 && Collect(rule, log, ctx, cycle, 0) == []
  {
    CollectNone(rule, log, ctx, cycle);
  }

  /** What node j adds to how often node i is listed. */
  lemma TimesListedStep(rule: RuleId, log: Log, ctx: ScanCtx, cycle: nat, j: nat, i: nat)
    requires WellFormed(log) && j < |log| && i < |log| && cycle > Grace(rule)
    ensures TimesListed(Collect(rule, log, ctx, cycle, j + 1), HashOf(log[i])) ==
            TimesListed(Collect(rule, log, ctx, cycle, j), HashOf(log[i])) +
            if j == i && Hit(rule, log, ctx, cycle, i) then 1 else 0
  {
    hide TimesListed, Collect, WellFormed;
    var h, rest := HashOf(log[i]), Collect(rule, log, ctx, cycle, j);
    DistinctAt(log, j, i);
    CollectNext(rule, log, ctx, cycle, j);
    if Verdict(rule, log, ctx, cycle, j).Some? {
      TimesListedNext(rest, Verdict(rule, log, ctx, cycle, j).value, h);
    }
  }

  /** A rule lists each node it hits once, and no other. */
  lemma {:induction false} TimesListedIsHit(rule: RuleId, log: Log, ctx: ScanCtx, cycle: nat, n: nat, i: nat)
    requires WellFormed(log) && n <= |log| && i < |log|
    ensures TimesListed(Collect(rule, log, ctx, cycle, n), HashOf(log[i])) ==
            if i < n && Hit(rule, log, ctx, cycle, i) then 1 else 0
  {
    hide TimesListed, Collect, Verdict, WellFormed;
    TimesListedNone(rule, log, ctx, cycle, HashOf(log[i]));
    if cycle <= Grace(rule) {
      NothingBeforeGrace(rule, log, ctx, cycle, n);
    } else if n > 0 {
      TimesListedIsHit(rule, log, ctx, cycle, n - 1, i);
      TimesListedStep(rule, log, ctx, cycle, n - 1, i);
    }
  }

  /** Rule m, at its turn in the scan, hits node i. */
  ghost predicate HitInTurn(log: Log, cycle: nat, m: nat, i: nat) {
    m < |REGISTRY| && Hit(REGISTRY[m], Stage(log, cycle, m), CtxOf(log), cycle, i)
  }

  /** How many of the first n rules hit node i. */
  ghost function HitsWithin(log: Log, cycle: nat, n: nat, i: nat): nat {
    if n == 0 then 0 else HitsWithin(log, cycle, n - 1, i) + if HitInTurn(log, cycle, n - 1, i) then 1 else 0
  }

  /** What rule n adds to the deaths of node i. */
  lemma StageDeathsNext(log: Log, cycle: nat, n: nat, i: nat)
    requires WellFormed(log) && n < |REGISTRY| && i < |log|
    ensures Deaths(Stage(log, cycle, n + 1), HashOf(log[i])) ==
            Deaths(Stage(log, cycle, n), HashOf(log[i])) + if HitInTurn(log, cycle, n, i) then 1 else 0
  {
    hide Deaths, WellFormed, Hit, EntombAll;
    var before := Stage(log, cycle, n);
    StageAppends(log, cycle, 0, n);
    assert before[i] == log[i];
    EntombAllDeaths(before, REGISTRY[n], Detect(REGISTRY[n], before, CtxOf(log), cycle), cycle, HashOf(log[i]));
    TimesListedIsHit(REGISTRY[n], before, CtxOf(log), cycle, |before|, i);
  }

  /** A scan gives a part one tombstone for every rule that hits it. */
  lemma {:induction false} StageDeaths(log: Log, cycle: nat, n: nat, i: nat)
    requires WellFormed(log) && n <= |REGISTRY| && i < |log|
    ensures Deaths(Stage(log, cycle, n), HashOf(log[i])) == Deaths(log, HashOf(log[i])) + HitsWithin(log, cycle, n, i)
  {
    hide Deaths, WellFormed, HitInTurn;
    if n > 0 {
      StageDeaths(log, cycle, n - 1, i);
      StageDeathsNext(log, cycle, n - 1, i);
    }
  }

  // -------------------------------------------------------------------------
  // Which rules can meet on one part
  // -------------------------------------------------------------------------

  /** Rules A, B, C and E look at different types of node. */
  lemma LocalRulesAreDisjoint(r1: RuleId, r2: RuleId, log: Log, cycle: nat, i: nat)
    requires IsLocal(r1) && IsLocal(r2) && Overdue(r1, log, cycle, i) && Overdue(r2, log, cycle, i)
    ensures r1 == r2
  {
  }

  lemma SeedHit(log: Log, cycle: nat, i: nat)
    requires i < |log|
    ensures HitInTurn(log, cycle, 0, i) <==>
            IsOld(log[i], cycle) && !IsProtected(log[i].kind) && Some(HashOf(log[i])) != Tip(log) &&
            !References(log, HashOf(log[i]))
  {
    assert REGISTRY[0] == OrphanPastGrace && Stage(log, cycle, 0) == log;
  }

  /** A part retired before rule D's turn is a live root by then. */
  lemma UnreachableComesFirst(log: Log, cycle: nat, m: nat, i: nat)
    requires WellFormed(log) && m < 4 && HitInTurn(log, cycle, m, i)
    ensures !HitInTurn(log, cycle, 4, i)
  {
    HitIsInStart(log, cycle, m, i);
    HitIsRetired(log, cycle, m, 4, i);
    UnreachableRetiresExactly(log, cycle, i);
    assert Reaches(log, i, i);
    assert KeepsAlive(log, Stage(log, cycle, 4), cycle, i, i);
  }

  lemma HitsStep(log: Log, cycle: nat, n: nat, i: nat)
    requires n > 0
    ensures HitsWithin(log, cycle, n, i) ==
            HitsWithin(log, cycle, n - 1, i) + if HitInTurn(log, cycle, n - 1, i) then 1 else 0
  {
  }

  lemma HitsOfScan(log: Log, cycle: nat, i: nat)
    ensures HitsWithin(log, cycle, |REGISTRY|, i) ==
            (if HitInTurn(log, cycle, 0, i) then 1 else 0) + (if HitInTurn(log, cycle, 1, i) then 1 else 0) +
            (if HitInTurn(log, cycle, 2, i) then 1 else 0) + (if HitInTurn(log, cycle, 3, i) then 1 else 0) +
            (if HitInTurn(log, cycle, 4, i) then 1 else 0) + (if HitInTurn(log, cycle, 5, i) then 1 else 0)
  {
    HitsStep(log, cycle, 1, i);
    HitsStep(log, cycle, 2, i);
    HitsStep(log, cycle, 3, i);
    HitsStep(log, cycle, 4, i);
    HitsStep(log, cycle, 5, i);
    HitsStep(log, cycle, 6, i);
  }

  /** How many local rules hit node i: one at most. */
  lemma LocalHits(log: Log, cycle: nat, i: nat)
    requires WellFormed(log) && i < |log|
    ensures (if HitInTurn(log, cycle, 1, i) then 1 else 0) + (if HitInTurn(log, cycle, 2, i) then 1 else 0) +
            (if HitInTurn(log, cycle, 3, i) then 1 else 0) + (if HitInTurn(log, cycle, 5, i) then 1 else 0) ==
            if LocallyOverdue(log, cycle, i) && IsPruneEligible(log[i], CtxOf(log)) then 1 else 0
  {
    hide Hit, Overdue, IsPruneEligible, WellFormed;
    LocalHitInScan(log, cycle, 1, i);
    LocalHitInScan(log, cycle, 2, i);
    LocalHitInScan(log, cycle, 3, i);
    LocalHitInScan(log, cycle, 5, i);
    if LocallyOverdue(log, cycle, i) {
      var rule :| IsLocal(rule) && Overdue(rule, log, cycle, i);
      forall r | IsLocal(r) && Overdue(r, log, cycle, i)
        ensures r == rule
      {
        LocalRulesAreDisjoint(r, rule, log, cycle, i);
      }
    }
  }

  /** An old eligible part that the seed rule or rule D retires, and a local rule too. */
  ghost predicate IsRetiredTwice(log: Log, cycle: nat, i: nat)
    requires i < |log|
  {
    && IsOld(log[i], cycle) && IsPruneEligible(log[i], CtxOf(log))
    && if References(log, HashOf(log[i]))
       then Overdue(PlateSuperseded, log, cycle, i) && OnlyDeadDescendants(log, cycle, i)
       else LocallyOverdue(log, cycle, i)
  }

  /**
   One scan gives a part two tombstones exactly when it is childless and overdue under rule A, B, C
   or E, or cut off from every live root and overdue under rule E; and never three.
   */
  lemma {:induction false} RetiredTwiceIff(log: Log, cycle: nat, i: nat)
    requires WellFormed(log) && i < |log|
    ensures Deaths(Scan(log, cycle), HashOf(log[i])) <= Deaths(log, HashOf(log[i])) + 2
    ensures Deaths(Scan(log, cycle), HashOf(log[i])) == Deaths(log, HashOf(log[i])) + 2 <==>
            IsRetiredTwice(log, cycle, i)
  {
    hide Hit, Overdue;
    StageDeaths(log, cycle, |REGISTRY|, i);
    HitsOfScan(log, cycle, i);
    LocalHits(log, cycle, i);
    SeedHit(log, cycle, i);
    UnreachableRetiresExactly(log, cycle, i);
    LocalHitInScan(log, cycle, 5, i);
    if HitInTurn(log, cycle, 0, i) { UnreachableComesFirst(log, cycle, 0, i); }
    if HitInTurn(log, cycle, 1, i) { UnreachableComesFirst(log, cycle, 1, i); }
    if HitInTurn(log, cycle, 2, i) { UnreachableComesFirst(log, cycle, 2, i); }
    if HitInTurn(log, cycle, 3, i) { UnreachableComesFirst(log, cycle, 3, i); }
  }

  /** An axis and another node, both roots, both registered at cycle 0. */
  function ForsakenAxis(): Log {
    [Node([], AxisRegistered("a"), 0, Opaque([0])), Node([], Other("x"), 0, Opaque([1]))]
  }

  /** Two tombstones for one part in one scan: the axis is childless and stale. */
  lemma ForsakenAxisDiesTwice()
    ensures WellFormed(ForsakenAxis()) && Deaths(ForsakenAxis(), HashOf(ForsakenAxis()[0])) == 0
    ensures Deaths(Scan(ForsakenAxis(), 3000), HashOf(ForsakenAxis()[0])) == 2
  {
    hide Scan, IsNextCopy, OnlyDeadDescendants;
    hide Deaths, OutdoneVerdict;
    var log := ForsakenAxis();
    assert log[0].content != log[1].content;
    DeathsOfUndead(log, HashOf(log[0]));
    InCtx(log, HashOf(log[0]));
    assert Overdue(StaleAxis, log, 3000, 0) && IsLocal(StaleAxis);
    RetiredTwiceIff(log, 3000, 0);
  }

  // -------------------------------------------------------------------------
  // Chains
  // -------------------------------------------------------------------------

  ghost predicate OneDeathEach(log: Log) {
    forall h :: Deaths(log, h) <= 1
  }

  /** In a chain no scan retires a part twice, or one that was retired before. */
  lemma ScanKeepsOneDeath(log: Log, cycle: nat)
    requires WellFormed(log) && IsChain(log) && OneDeathEach(log)
    ensures OneDeathEach(Scan(log, cycle))
  {
    StageAppends(log, cycle, 0, |REGISTRY|);
    forall h
      ensures Deaths(Scan(log, cycle), h) <= 1
    {
      if Retired(log, Scan(log, cycle), h) {
        var m, i := RetiredIsHit(log, cycle, |REGISTRY|, h);
        RetiredInChain(log, cycle, i);
      } else {
        DeathsWithoutRetirement(log, Scan(log, cycle), h);
      }
    }
  }

  lemma {:induction false} RetiredInChain(log: Log, cycle: nat, i: nat)
    requires WellFormed(log) && IsChain(log) && i < |log| && Retired(log, Scan(log, cycle), HashOf(log[i]))
    ensures Deaths(log, HashOf(log[i])) == 0 && Deaths(Scan(log, cycle), HashOf(log[i])) <= 1
  {
    ChainScanRetiresExactly(log, cycle, i);
    InCtx(log, HashOf(log[i]));
    DeathsOfUndead(log, HashOf(log[i]));
    ChainSparesReachable(log, cycle, 0, i);
    ChainSparesReachable(log, cycle, 4, i);
    StageDeaths(log, cycle, |REGISTRY|, i);
    HitsOfScan(log, cycle, i);
    LocalHits(log, cycle, i);
  }
}
