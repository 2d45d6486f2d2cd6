/** What prune scans do in a run: when one happens, what it retires, and what its tombstones say. */
module PruneRuns {
  import opened Prelude
  import opened Dag
  import opened PruneRules
  import opened PruneScan
  import opened PruneTheorems
  import opened Mortality
  import opened Rescan
  import opened Chains
  import opened PruneLaws
  import opened Retirements
  import opened Derived
  import opened Server
  import opened Ingest
  import opened Migration
  import opened RunLoop
  import opened Invariants
  import opened Steps
  import opened Runs
  import opened RunTheorems
  import opened RunChains
  import opened PruneCadence

  // -------------------------------------------------------------------------
  // Before the scan
  // -------------------------------------------------------------------------

  /** What a cycle writes before its scan: no axis, failure, plate, raw material or tombstone. */
  predicate IsInert(kind: NodeType) {
    kind.CycleAdvanced? || kind.Sporocarp? || kind.SelfEuthanasiaProposal? || kind.AbsorptionEvent?
  }

  ghost predicate Inert(a: Log, b: Log) {
    a <= b && forall i :: |a| <= i < |b| ==> IsInert(b[i].kind)
  }

  lemma OutdoneIgnoresInert(a: Log, b: Log, q: Query, n: Node, cycle: nat, grace: nat, j: nat)
    requires Inert(a, b)
    ensures Outdone(b, q, n, cycle, grace, j) <==> Outdone(a, q, n, cycle, grace, j)
  {
    assert forall k :: |a| <= k < |b| ==> !Matches(q, b[k]);
    assert forall k :: 0 <= k < |a| ==> a[k] == b[k];
  }

  /** A copy that was there stays the next copy; only a sporocarp can get a first copy from inert nodes. */
  lemma CopiesIgnoreInert(a: Log, b: Log, i: nat, j: nat)
    requires Inert(a, b) && i < |a| && RedundantInScope(a[i].kind)
    ensures IsNextCopy(a, i, j) ==> IsNextCopy(b, i, j)
    ensures IsNextCopy(b, i, j) && !a[i].kind.Sporocarp? ==> IsNextCopy(a, i, j)
  {
    assert forall k :: 0 <= k < |a| ==> a[k] == b[k];
  }

  lemma OverdueIgnoresInert(rule: RuleId, a: Log, b: Log, cycle: nat, i: nat)
    requires Inert(a, b) && i < |a|
    ensures Overdue(rule, a, cycle, i) ==> Overdue(rule, b, cycle, i)
    ensures Overdue(rule, b, cycle, i) && !a[i].kind.Sporocarp? ==> Overdue(rule, a, cycle, i)
  {
    assert forall k :: 0 <= k < |a| ==> a[k] == b[k];
    if cycle > Grace(rule) {
      var n := a[i];
      match rule
      case FailedEvolution =>
        if n.kind.EvolutionSucceeded? {
          forall j: nat
            ensures Outdone(b, FailureOf(n.kind.op), n, cycle, Grace(rule), j) <==>
                    Outdone(a, FailureOf(n.kind.op), n, cycle, Grace(rule), j)
          {
            OutdoneIgnoresInert(a, b, FailureOf(n.kind.op), n, cycle, Grace(rule), j);
          }
        }
      case PlateSuperseded =>
        forall j: nat
          ensures Outdone(b, PlateSuperseding(HashOf(n)), n, cycle, Grace(rule), j) <==>
                  Outdone(a, PlateSuperseding(HashOf(n)), n, cycle, Grace(rule), j)
        {
          OutdoneIgnoresInert(a, b, PlateSuperseding(HashOf(n)), n, cycle, Grace(rule), j);
        }
      case DuplicateContent =>
        if RedundantInScope(n.kind) {
          forall j: nat
            ensures IsNextCopy(a, i, j) ==> IsNextCopy(b, i, j)
            ensures IsNextCopy(b, i, j) && !n.kind.Sporocarp? ==> IsNextCopy(a, i, j)
          {
            CopiesIgnoreInert(a, b, i, j);
          }
        }
      case StaleAxis =>
        assert forall k :: |a| <= k < |b| ==> TouchedAxis(b[k].kind) == None;
      case _ =>
    }
  }

  lemma LocallyOverdueIgnoresInert(a: Log, b: Log, cycle: nat, i: nat)
    requires Inert(a, b) && i < |a|
    ensures LocallyOverdue(a, cycle, i) ==> LocallyOverdue(b, cycle, i)
    ensures LocallyOverdue(b, cycle, i) && !a[i].kind.Sporocarp? ==> LocallyOverdue(a, cycle, i)
  {
    if LocallyOverdue(a, cycle, i) {
      var rule :| IsLocal(rule) && Overdue(rule, a, cycle, i);
      OverdueIgnoresInert(rule, a, b, cycle, i);
    }
    if LocallyOverdue(b, cycle, i) {
      var rule :| IsLocal(rule) && Overdue(rule, b, cycle, i);
      OverdueIgnoresInert(rule, a, b, cycle, i);
    }
  }

  // -------------------------------------------------------------------------
  // The steps that scan
  // -------------------------------------------------------------------------

  /** The step completes a cycle whose number is a multiple of 100. */
  ghost predicate OwesScan(s: Live, c: Command) {
    Advances(s, c) && Step(s, c).facts.cycleCounter % 100 == 0
  }

  lemma FlushedIsInert(s: Live)
    ensures Inert(s.dag, Flushed(s).dag)
  {
  }

  lemma MetabolizedIsInert(s: Live, sps: seq<SporocarpReport>, pending: seq<Hash>, post: nat)
    requires WellFormed(s.dag)
    ensures Inert(s.dag, Absorbed(s.(dag := InsertSporocarps(s.dag, sps)), pending, post).dag)
  {
    SporocarpsAppend(s.dag, sps);
  }

  lemma InertTransitive(a: Log, b: Log, c: Log)
    requires Inert(a, b) && Inert(b, c)
    ensures Inert(a, c)
  {
    assert forall i :: 0 <= i < |b| ==> c[i] == b[i];
  }

  /** A completed cycle from a flushed state: inert nodes, the scan if it is due, then no more tombstones. */
  lemma CycleScans(s: Live, c: Cycle) returns (mid: Log)
    requires Settled(s) && Orderly(s.dag) && c.outcome.Committed?
    ensures Inert(s.dag, mid) && WellFormed(mid) && IsChain(mid)
    ensures var post := s.facts.cycleCounter + 1;
            Chained(if post % 100 == 0 then Scan(mid, post) else mid, Cycled(s, c).dag)
  {
    var post, sps := s.facts.cycleCounter + 1, c.outcome.sporocarps;
    var pending := PendingAbsorption(s.dag, s.facts.lastAbsorbed);
    mid := Absorbed(s.(dag := InsertSporocarps(s.dag, sps)), pending, post).dag;
    MetabolizedIsInert(s, sps, pending, post);
    MetabolizedKeepsOrder(s, sps, post);
    AfterAdvance(s, c);
    AdvancedScans(s, sps);
  }

  lemma AdvancedScans(s: Live, sps: seq<SporocarpReport>)
    ensures var post := s.facts.cycleCounter + 1;
            var mid := Absorbed(s.(dag := InsertSporocarps(s.dag, sps)),
              PendingAbsorption(s.dag, s.facts.lastAbsorbed), post).dag;
            Advanced(s, sps).dag == if post % 100 == 0 then Scan(mid, post) else mid
  {
    hide Scan, Absorbed, InsertSporocarps, PendingAbsorption;
  }

  lemma AfterAdvance(s: Live, c: Cycle)
    requires c.outcome.Committed?
    ensures Chained(Advanced(s, c.outcome.sporocarps).dag, Cycled(s, c).dag)
  {
    hide Advanced, Concluded;
    var advanced := Advanced(s, c.outcome.sporocarps);
    var noted := EmitNotes(advanced, c.during);
    NotesChain(advanced, c.during);
    ConcludedChains(noted, c);
    ChainedTransitive(advanced.dag, noted.dag, Concluded(noted, c).dag);
  }

  lemma AdvancingIsCycle(s: Live, c: Command)
    requires Ready(s) && Advances(s, c)
    ensures Step(s, c) == Cycled(Flushed(s), c.cycle)
    ensures Step(s, c).facts.cycleCounter == Flushed(s).facts.cycleCounter + 1
  {
    FlushedKeeps(s);
    if c.Tick? {
      TickIsSelfDriven(s, c);
    } else {
      FlushedKeepsNodes(s);
    }
    CycledCounter(Flushed(s), c.cycle);
  }

  /** A step that owes a scan runs it, on the log it found and some inert nodes, and adds no other tombstone. */
  lemma OwedScanRuns(s: Live, c: Command) returns (mid: Log)
    requires Ready(s) && Orderly(s.dag) && OwesScan(s, c)
    ensures Inert(s.dag, mid) && WellFormed(mid) && IsChain(mid)
    ensures Chained(Scan(mid, Step(s, c).facts.cycleCounter), Step(s, c).dag)
  {
    hide Step, Cycled, Settled, Flushed, IsChain, OneDeathEach, WellFormed, Scan, Inert, Chained;
    FlushedKeeps(s);
    FlushedKeepsOrder(s);
    FlushedIsInert(s);
    AdvancingIsCycle(s, c);
    mid := CycleScans(Flushed(s), c.cycle);
    InertTransitive(s.dag, Flushed(s).dag, mid);
  }

  lemma InertIsQuiet(a: Log, b: Log, c: Log)
    requires Inert(a, b) && Chained(b, c)
    ensures NoTombstones(a, c)
  {
    assert forall i :: 0 <= i < |b| ==> c[i] == b[i];
  }

  ghost predicate NoTombstones(a: Log, b: Log) {
    a <= b && forall i :: |a| <= i < |b| ==> !b[i].kind.InternalMortality?
  }

  lemma UnscannedCycleIsQuiet(s: Live, c: Command)
    requires Ready(s) && Orderly(s.dag) && Advances(s, c) && !OwesScan(s, c)
    ensures NoTombstones(s.dag, Step(s, c).dag)
  {
    hide Step, Cycled, Settled, Flushed, IsChain, OneDeathEach;
    FlushedKeeps(s);
    FlushedKeepsOrder(s);
    FlushedIsInert(s);
    AdvancingIsCycle(s, c);
    var mid := CycleScans(Flushed(s), c.cycle);
    InertTransitive(s.dag, Flushed(s).dag, mid);
    InertIsQuiet(s.dag, mid, Step(s, c).dag);
  }

  lemma OtherStepIsQuiet(s: Live, c: Command)
    requires Ready(s) && !Advances(s, c)
    ensures NoTombstones(s.dag, Step(s, c).dag)
  {
    hide Settled, Cycled, Flushed;
    var flushed := Flushed(s);
    FlushedKeeps(s);
    FlushedChains(s);
    if c.Tick? {
      TickIsSelfDriven(s, c);
      FailedCycleChains(flushed, c.cycle);
    } else if !c.Reboot? {
      if c.Advance? {
        FlushedKeepsNodes(s);
        FailedCycleChains(flushed, c.cycle);
      } else {
        HandledChains(flushed, c);
      }
      ChainedTransitive(s.dag, flushed.dag, Step(s, c).dag);
    }
  }

  lemma FailedCycleChains(s: Live, c: Cycle)
    ensures Chained(s.dag, s.dag)
    ensures c.outcome.Failed? ==> Chained(s.dag, Cycled(s, c).dag)
  {
    NotesChain(s, c.during);
  }

  /** A step that does not owe a scan writes no tombstone. */
  lemma OnlyOwedScansRetire(s: Live, c: Command)
    requires Reachable(s) && !OwesScan(s, c)
    ensures s.dag <= Step(s, c).dag
    ensures forall i :: |s.dag| <= i < |Step(s, c).dag| ==> !Step(s, c).dag[i].kind.InternalMortality?
  {
    ReachableIsReady(s);
    ReachableIsOrderly(s);
    if Advances(s, c) {
      UnscannedCycleIsQuiet(s, c);
    } else {
      OtherStepIsQuiet(s, c);
    }
  }

  lemma UnchangedDeaths(a: Log, b: Log, h: Hash)
    requires NoTombstones(a, b)
    ensures Tombstoned(b, h) <==> Tombstoned(a, h)
  {
    if Tombstoned(a, h) {
      TombstonedExtends(a, b, h);
    }
    if Tombstoned(b, h) {
      var i :| 0 <= i < |b| && Kills(b[i], h);
      assert b[i] == a[i];
    }
  }

  /** A part below the tip is eligible after inert nodes exactly when it was before, tombstones apart. */
  lemma EligibleIgnoresInert(a: Log, b: Log, i: nat)
    requires WellFormed(b) && Inert(a, b) && i < |a| - 1
    ensures IsPruneEligible(b[i], CtxOf(b)) <==> !IsProtected(a[i].kind) && !Tombstoned(a, HashOf(a[i]))
  {
    assert b[i] == a[i];
    assert HashOf(b[i]) != HashOf(b[|b| - 1]);
    InCtx(b, HashOf(a[i]));
    UnchangedDeaths(a, b, HashOf(a[i]));
  }

  lemma OverdueIsPrunable(log: Log, cycle: nat, i: nat)
    requires LocallyOverdue(log, cycle, i)
    ensures i < |log| && !IsProtected(log[i].kind)
  {
  }

  /** A scan adds to the dead exactly what it retires. */
  lemma TombstonedByScan(log: Log, cycle: nat, h: Hash)
    requires WellFormed(log)
    ensures Tombstoned(Scan(log, cycle), h) <==> Tombstoned(log, h) || Retired(log, Scan(log, cycle), h)
  {
    StageAppends(log, cycle, 0, |REGISTRY|);
    if Tombstoned(log, h) {
      TombstonedExtends(log, Scan(log, cycle), h);
    }
    if Tombstoned(Scan(log, cycle), h) {
      TombstonedSplits(log, Scan(log, cycle), h);
    }
  }

  lemma DeadAfterScan(a: Log, mid: Log, cycle: nat, i: nat)
    requires Inert(a, mid) && WellFormed(mid) && IsChain(mid) && i < |a| - 1
    ensures Tombstoned(Scan(mid, cycle), HashOf(a[i])) <==>
            Tombstoned(a, HashOf(a[i])) || LocallyOverdue(mid, cycle, i)
  {
    assert mid[i] == a[i];
    TombstonedByScan(mid, cycle, HashOf(a[i]));
    UnchangedDeaths(a, mid, HashOf(a[i]));
    ChainScanRetiresExactly(mid, cycle, i);
    EligibleIgnoresInert(a, mid, i);
    if LocallyOverdue(mid, cycle, i) {
      OverdueIsPrunable(mid, cycle, i);
    }
  }

  /**
   Over every run: a part that was not the tip is dead after a step exactly when it was dead before,
   or the step completes a cycle that is a multiple of 100 and the part is due at that cycle. Only
   sporocarps may also die of a copy the same cycle brought.
   */
  lemma StepRetiresExactly(s: Live, c: Command, i: nat)
    requires Reachable(s) && i < |s.dag| - 1
    ensures var t, k := Step(s, c), Step(s, c).facts.cycleCounter;
            && (Tombstoned(s.dag, HashOf(s.dag[i])) || (Advances(s, c) && k % 100 == 0 && IsDue(s.dag, k, i)) ==>
                  Tombstoned(t.dag, HashOf(s.dag[i])))
            && (Tombstoned(t.dag, HashOf(s.dag[i])) && !s.dag[i].kind.Sporocarp? ==>
                  Tombstoned(s.dag, HashOf(s.dag[i])) || (Advances(s, c) && k % 100 == 0 && IsDue(s.dag, k, i)))
  {
    hide Step, LocallyOverdue, IsDue, Tombstoned, Scan;
    ReachableIsReady(s);
    ReachableIsOrderly(s);
    var k := Step(s, c).facts.cycleCounter;
    DueIs(s.dag, k, i);
    if OwesScan(s, c) {
      var mid := OwedScanRuns(s, c);
      DeadAfterScan(s.dag, mid, k, i);
      LocallyOverdueIgnoresInert(s.dag, mid, k, i);
      UnchangedDeaths(Scan(mid, k), Step(s, c).dag, HashOf(s.dag[i]));
    } else {
      OnlyOwedScansRetire(s, c);
      UnchangedDeaths(s.dag, Step(s, c).dag, HashOf(s.dag[i]));
    }
  }

  lemma ScanRetiresDue(log: Log, cycle: nat, i: nat)
    requires WellFormed(log) && IsChain(log) && i < |log|
    ensures Tombstoned(Scan(log, cycle), HashOf(log[i])) <==>
            Tombstoned(log, HashOf(log[i])) || (i < |log| - 1 && IsDue(log, cycle, i))
  {
    hide LocallyOverdue, IsDue, Scan, Tombstoned, WellFormed;
    DueIs(log, cycle, i);
    if i < |log| - 1 {
      InertReflexive(log);
      DeadAfterScan(log, log, cycle, i);
    } else {
      ChainScanRetiresExactly(log, cycle, i);
      TombstonedByScan(log, cycle, HashOf(log[i]));
    }
  }

  lemma InertReflexive(log: Log)
    ensures Inert(log, log)
  {
  }

  /**
   The same for every part, the old tip and what the cycle itself brought included: the scan sees the
   first n nodes of the log the step leaves, n - 1 being its tip, and of those exactly the due ones
   below the tip join the dead.
   */
  lemma StepScans(s: Live, c: Command) returns (n: nat)
    requires Reachable(s) && Advances(s, c) && Step(s, c).facts.cycleCounter % 100 == 0
    ensures var log, k := Step(s, c).dag, Step(s, c).facts.cycleCounter;
            && |s.dag| <= n <= |log| && Inert(s.dag, log[..n])
            && forall i :: 0 <= i < n ==>
                 (Tombstoned(log, HashOf(log[i])) <==>
                  Tombstoned(s.dag, HashOf(log[i])) || (i < n - 1 && IsDue(log[..n], k, i)))
  {
    hide Step, IsDue, Tombstoned, Scan, WellFormed, IsChain;
    ReachableIsReady(s);
    ReachableIsOrderly(s);
    var log, k := Step(s, c).dag, Step(s, c).facts.cycleCounter;
    var mid := OwedScanRuns(s, c);
    ScanGrows(mid, k);
    n := |mid|;
    assert log[..n] == mid;
    forall i | 0 <= i < n
      ensures Tombstoned(log, HashOf(log[i])) <==>
              Tombstoned(s.dag, HashOf(log[i])) || (i < n - 1 && IsDue(mid, k, i))
    {
      ScanRetiresDue(mid, k, i);
      UnchangedDeaths(s.dag, mid, HashOf(mid[i]));
      UnchangedDeaths(Scan(mid, k), log, HashOf(mid[i]));
    }
  }

  lemma ScanGrows(log: Log, cycle: nat)
    requires WellFormed(log)
    ensures log <= Scan(log, cycle)
  {
    StageAppends(log, cycle, 0, |REGISTRY|);
  }

  // -------------------------------------------------------------------------
  // What tombstones say
  // -------------------------------------------------------------------------

  /** The tombstone of a rule: its type, the rule it cites, and its own cycle. */
  predicate Cites(n: Node, rule: RuleId) {
    && n.kind.InternalMortality? && n.content.TombstoneBody? && n.content.emittedAt == n.cycle
    && match rule
       case OrphanPastGrace => n.kind.category == "useless" && n.content.ruleId == "L0.seed.orphan_past_grace"
       case StaleAxis => n.kind.category == "outdated" && n.content.ruleId == "L1.outdated.axis_unrefreshed_past_window"
       case FailedEvolution =>
         n.kind.category == "wrong" && n.content.ruleId == "L1.wrong.superseded_by_failed_evolution"
       case DuplicateContent =>
         n.kind.category == "redundant" && n.content.ruleId == "L1.redundant.duplicate_content_subsumed"
       case Unreachable => n.kind.category == "useless" && n.content.ruleId == "L1.useless.unreachable_from_live_roots"
       case PlateSuperseded =>
         n.kind.category == "wrong" && n.content.ruleId == "L1.wrong.forged_understanding_superseded"
  }

  /**
   What a tombstone says took the place of part i, in the log the scan started from: the next copy of
   a duplicate, the newest failure of an evolution, the newest superseder of a plate; nothing else.
   */
  ghost predicate NamesReplacement(n: Node, rule: RuleId, log: Log, i: nat)
    requires n.content.TombstoneBody? && i < |log|
  {
    match rule
    case DuplicateContent =>
      exists j: nat :: IsNextCopy(log, i, j) && n.content.replacedBy == Some(HashOf(log[j]))
    case FailedEvolution =>
      log[i].kind.EvolutionSucceeded? &&
      exists j: nat :: IsNewest(log, FailureOf(log[i].kind.op), j) && log[i].cycle < log[j].cycle &&
                       n.content.replacedBy == Some(HashOf(log[j]))
    case PlateSuperseded =>
      log[i].kind.ForgedUnderstanding? &&
      exists j: nat :: IsNewest(log, PlateSuperseding(HashOf(log[i])), j) && log[i].cycle < log[j].cycle &&
                       n.content.replacedBy == Some(HashOf(log[j]))
    case _ => n.content.replacedBy == None
  }

  /** Tombstone n was written for part i of the log by the rule. */
  ghost predicate TellsOf(n: Node, rule: RuleId, log: Log, i: nat) {
    && i < |log| && Cites(n, rule) && Kills(n, HashOf(log[i])) && NamesReplacement(n, rule, log, i)
  }

  lemma EntombedSays(log: Log, rule: RuleId, c: Candidate, cycle: nat)
    ensures Says(Entomb(log, rule, c, cycle), |log|, rule, c)
    ensures log <= Entomb(log, rule, c, cycle)
  {
  }

  /** Node t is the tombstone of candidate c, word for word. */
  ghost predicate Says(log: Log, t: nat, rule: RuleId, c: Candidate) {
    && t < |log| && Cites(log[t], rule) && Kills(log[t], c.part) && log[t].content.replacedBy == c.replacedBy
  }

  lemma {:induction false} EntombAllSays(log: Log, rule: RuleId, cands: seq<Candidate>, cycle: nat, k: nat)
    requires k < |cands|
    ensures Says(EntombAll(log, rule, cands, cycle), |log| + k, rule, cands[k])
    decreases |cands|
  {
    hide Entomb;
    var last := |cands| - 1;
    var before := EntombAll(log, rule, cands[..last], cycle);
    EntombAllLength(log, rule, cands[..last], cycle);
    EntombedSays(before, rule, cands[last], cycle);
    if k < last {
      EntombAllSays(log, rule, cands[..last], cycle, k);
    }
  }

  /** Each of a rule's verdicts names the right replacement. */
  lemma VerdictNames(rule: RuleId, log: Log, ctx: ScanCtx, cycle: nat, i: nat, n: Node)
    requires Hit(rule, log, ctx, cycle, i) && Cites(n, rule)
    requires n.content.replacedBy == Verdict(rule, log, ctx, cycle, i).value.replacedBy
    ensures NamesReplacement(n, rule, log, i)
  {
    if rule.FailedEvolution? {
      var j: nat :| Outdone(log, FailureOf(log[i].kind.op), log[i], cycle, Grace(rule), j);
    } else if rule.PlateSuperseded? {
      var j: nat :| Outdone(log, PlateSuperseding(HashOf(log[i])), log[i], cycle, Grace(rule), j);
    }
  }

  /** The replacement is the same whether looked up before the scan or among its earlier tombstones. */
  lemma NamesIgnoreTombstones(n: Node, rule: RuleId, a: Log, b: Log, at: nat, i: nat)
    requires TombstonesAppended(a, b, at) && i < |a| && n.content.TombstoneBody? && NamesReplacement(n, rule, b, i)
    requires rule.DuplicateContent? ==> RedundantInScope(a[i].kind)
    ensures NamesReplacement(n, rule, a, i)
  {
    assert a[i] == b[i];
    match rule
    case DuplicateContent =>
      var j: nat :| IsNextCopy(b, i, j) && n.content.replacedBy == Some(HashOf(b[j]));
      CopiesIgnoreTombstones(a, b, at, i, j);
    case FailedEvolution =>
      var j: nat :| IsNewest(b, FailureOf(a[i].kind.op), j) && a[i].cycle < b[j].cycle &&
                    n.content.replacedBy == Some(HashOf(b[j]));
      NewestIgnoresTombstones(a, b, at, FailureOf(a[i].kind.op), j);
    case PlateSuperseded =>
      var j: nat :| IsNewest(b, PlateSuperseding(HashOf(a[i])), j) && a[i].cycle < b[j].cycle &&
                    n.content.replacedBy == Some(HashOf(b[j]));
      NewestIgnoresTombstones(a, b, at, PlateSuperseding(HashOf(a[i])), j);
    case _ =>
  }

  lemma NewestIgnoresTombstones(a: Log, b: Log, at: nat, q: Query, j: nat)
    requires TombstonesAppended(a, b, at) && IsNewest(b, q, j)
    ensures IsNewest(a, q, j) && a[j] == b[j]
  {
    assert j >= |a| ==> IsScanTombstone(b, j, at);
    assert forall k :: 0 <= k < |a| ==> a[k] == b[k];
  }

  /** Rule m's tombstones, each for a part of the log the scan started from. */
  lemma StageTellsOf(log: Log, cycle: nat, m: nat, t: nat) returns (i: nat)
    requires WellFormed(log) && m < |REGISTRY|
    requires |Stage(log, cycle, m)| <= t < |Stage(log, cycle, m + 1)|
    ensures TellsOf(Stage(log, cycle, m + 1)[t], REGISTRY[m], log, i) && HitInTurn(log, cycle, m, i)
  {
    hide EntombAll, Verdict, Collect, IsNextCopy, IsNewest;
    var before := Stage(log, cycle, m);
    var cands := Detect(REGISTRY[m], before, CtxOf(log), cycle);
    EntombAllLength(before, REGISTRY[m], cands, cycle);
    EntombAllSays(before, REGISTRY[m], cands, cycle, t - |before|);
    i := ListedIsHit(REGISTRY[m], before, CtxOf(log), cycle, |before|, t - |before|);
    HitIsInStart(log, cycle, m, i);
    StageAppends(log, cycle, 0, m);
    VerdictNames(REGISTRY[m], before, CtxOf(log), cycle, i, Stage(log, cycle, m + 1)[t]);
    HitScope(REGISTRY[m], before, CtxOf(log), cycle, i);
    NamesIgnoreTombstones(Stage(log, cycle, m + 1)[t], REGISTRY[m], log, before, cycle, i);
  }

  lemma HitScope(rule: RuleId, log: Log, ctx: ScanCtx, cycle: nat, i: nat)
    requires Hit(rule, log, ctx, cycle, i)
    ensures rule.DuplicateContent? ==> RedundantInScope(log[i].kind)
    ensures Verdict(rule, log, ctx, cycle, i).value.part == HashOf(log[i])
  {
  }

  lemma {:induction false} StagesTellOf(log: Log, cycle: nat, n: nat, t: nat) returns (rule: RuleId, i: nat)
    requires WellFormed(log) && n <= |REGISTRY| && |log| <= t < |Stage(log, cycle, n)|
    ensures TellsOf(Stage(log, cycle, n)[t], rule, log, i) && HitInTurn(log, cycle, IndexOf(rule), i)
  {
    hide TellsOf, HitInTurn, WellFormed, EntombAll, Detect;
    if t < |Stage(log, cycle, n - 1)| {
      StageAppends(log, cycle, n - 1, n);
      rule, i := StagesTellOf(log, cycle, n - 1, t);
    } else {
      rule := REGISTRY[n - 1];
      assert IndexOf(rule) == n - 1;
      i := StageTellsOf(log, cycle, n - 1, t);
    }
  }

  /**
   Every tombstone of a scan cites the rule that retired its victim, and names what took the victim's
   place: the next copy, the newest failure, the newest superseder; nothing under the other rules.
   */
  lemma ScanTellsWhy(log: Log, cycle: nat, t: nat) returns (rule: RuleId, i: nat)
    requires WellFormed(log) && |log| <= t < |Scan(log, cycle)|
    ensures i < |log| && Cites(Scan(log, cycle)[t], rule) && Kills(Scan(log, cycle)[t], HashOf(log[i]))
    ensures NamesReplacement(Scan(log, cycle)[t], rule, log, i) && HitInTurn(log, cycle, IndexOf(rule), i)
  {
    rule, i := StagesTellOf(log, cycle, |REGISTRY|, t);
  }

  /** Tombstone t was written by a scan that started on the first m nodes, for rule A, B, C or E. */
  ghost predicate WrittenFor(log: Log, t: nat, rule: RuleId, m: nat, i: nat) {
    m <= t < |log| && IsLocal(rule) && TellsOf(log[t], rule, log[..m], i)
  }

  ghost predicate IsExplained(log: Log, t: nat) {
    exists rule: RuleId, m: nat, i: nat :: WrittenFor(log, t, rule, m, i)
  }

  ghost predicate AllExplained(log: Log) {
    forall t: nat :: t < |log| && log[t].kind.InternalMortality? ==> IsExplained(log, t)
  }

  lemma ExplainedExtends(a: Log, b: Log, t: nat)
    requires a <= b && t < |a| && IsExplained(a, t)
    ensures IsExplained(b, t)
  {
    hide TellsOf;
    var rule: RuleId, m: nat, i: nat :| WrittenFor(a, t, rule, m, i);
    assert b[..m] == a[..m] && b[t] == a[t];
    assert WrittenFor(b, t, rule, m, i);
  }

  lemma QuietKeepsExplained(a: Log, b: Log)
    requires AllExplained(a) && NoTombstones(a, b)
    ensures AllExplained(b)
  {
    hide IsExplained;
    forall t: nat | t < |b| && b[t].kind.InternalMortality?
      ensures IsExplained(b, t)
    {
      assert b[t] == a[t];
      ExplainedExtends(a, b, t);
    }
  }

  lemma ScanKeepsExplained(log: Log, cycle: nat)
    requires WellFormed(log) && IsChain(log) && AllExplained(log)
    ensures AllExplained(Scan(log, cycle))
  {
    hide IsExplained, TellsOf;
    var after := Scan(log, cycle);
    StageAppends(log, cycle, 0, |REGISTRY|);
    forall t: nat | t < |after| && after[t].kind.InternalMortality?
      ensures IsExplained(after, t)
    {
      if t < |log| {
        assert after[t] == log[t];
        ExplainedExtends(log, after, t);
      } else {
        ScanExplains(log, cycle, t);
      }
    }
  }

  lemma ScanExplains(log: Log, cycle: nat, t: nat)
    requires WellFormed(log) && IsChain(log) && |log| <= t < |Scan(log, cycle)|
    ensures IsExplained(Scan(log, cycle), t)
  {
    hide NamesReplacement;
    var rule, i := ScanTellsWhy(log, cycle, t);
    StageAppends(log, cycle, 0, |REGISTRY|);
    assert Scan(log, cycle)[..|log|] == log;
    if !IsLocal(rule) {
      ChainSparesReachable(log, cycle, IndexOf(rule), i);
    }
    assert WrittenFor(Scan(log, cycle), t, rule, |log|, i);
  }

  lemma StepKeepsExplained(s: Live, c: Command)
    requires Ready(s) && Orderly(s.dag) && AllExplained(s.dag)
    ensures AllExplained(Step(s, c).dag)
  {
    hide AllExplained, Step, Settled, IsChain, OneDeathEach;
    if OwesScan(s, c) {
      var mid := OwedScanRuns(s, c);
      var k := Step(s, c).facts.cycleCounter;
      assert NoTombstones(s.dag, mid);
      QuietKeepsExplained(s.dag, mid);
      ScanKeepsExplained(mid, k);
      QuietKeepsExplained(Scan(mid, k), Step(s, c).dag);
    } else {
      if Advances(s, c) { UnscannedCycleIsQuiet(s, c); } else { OtherStepIsQuiet(s, c); }
      QuietKeepsExplained(s.dag, Step(s, c).dag);
    }
  }

  lemma {:induction false} RunKeepsExplained(s: Live, cs: seq<Command>)
    requires Ready(s) && Orderly(s.dag) && AllExplained(s.dag)
    ensures AllExplained(Run(s, cs).dag)
    decreases |cs|
  {
    hide AllExplained, Settled, IsChain, OneDeathEach;
    if |cs| > 0 {
      RunKeeps(s, cs[..|cs| - 1]);
      RunKeepsOrder(s, cs[..|cs| - 1]);
      RunKeepsExplained(s, cs[..|cs| - 1]);
      StepKeepsExplained(Run(s, cs[..|cs| - 1]), cs[|cs| - 1]);
    }
  }

  /**
   Every tombstone of every reachable log was written for rule A, B, C or E, and names what took its
   victim's place in the log that rule saw.
   */
  lemma EveryTombstoneTellsWhy(s: Live, t: nat) returns (rule: RuleId, m: nat, i: nat)
    requires Reachable(s) && t < |s.dag| && s.dag[t].kind.InternalMortality?
    ensures m <= t && IsLocal(rule) && i < m
    ensures Cites(s.dag[t], rule) && Kills(s.dag[t], HashOf(s.dag[i]))
    ensures NamesReplacement(s.dag[t], rule, s.dag[..m], i)
  {
    var id: Id, time: int, depth: nat, cs: seq<Command> :| !IsZero(id) && s == Run(Born(id, time, depth), cs);
    var born := Born(id, time, depth);
    hide TellsOf, Orderly, Ready;
    BornIsReady(id, time, depth);
    BornIsOrderly(id, time, depth);
    BornIsExplained(id, time, depth);
    RunKeepsExplained(born, cs);
    assert IsExplained(s.dag, t);
    rule, m, i :| WrittenFor(s.dag, t, rule, m, i);
    TellsOfPrefix(s.dag, t, rule, m, i);
  }

  lemma BornIsExplained(id: Id, time: int, depth: nat)
    ensures AllExplained(Born(id, time, depth).dag)
  {
  }

  lemma TellsOfPrefix(log: Log, t: nat, rule: RuleId, m: nat, i: nat)
    requires WrittenFor(log, t, rule, m, i)
    ensures i < m && Cites(log[t], rule) && Kills(log[t], HashOf(log[i])) && NamesReplacement(log[t], rule, log[..m], i)
  {
    assert log[..m][i] == log[i];
  }
}
