/** When a second prune scan at the same cycle emits nothing: an exact condition on the log before the first. */
module Rescan {
  import opened Prelude
  import opened Dag
  import opened PruneRules
  import opened PruneScan
  import opened PruneTheorems
  import opened Mortality

  /** What rules A, B, C and E ask of node i besides eligibility. */
  ghost predicate Overdue(rule: RuleId, log: Log, cycle: nat, i: nat) {
    && i < |log| && cycle > Grace(rule)
    && var n := log[i];
       match rule
       case StaleAxis => n.kind.AxisRegistered? && Untouched(log, n.kind.axis, cycle - Grace(rule))
       case FailedEvolution =>
         n.kind.EvolutionSucceeded? && exists j: nat :: Outdone(log, FailureOf(n.kind.op), n, cycle, Grace(rule), j)
       case PlateSuperseded =>
         n.kind.ForgedUnderstanding? &&
             exists j: nat :: Outdone(log, PlateSuperseding(HashOf(n)), n, cycle, Grace(rule), j)
       case DuplicateContent =>
         RedundantInScope(n.kind) && IsFirstOccurrence(log, i) && n.cycle <= cycle - Grace(rule) &&
         exists j: nat :: IsNextCopy(log, i, j)
       case _ => false
  }

  predicate IsLocal(rule: RuleId) {
    rule.StaleAxis? || rule.FailedEvolution? || rule.PlateSuperseded? || rule.DuplicateContent?
  }

  lemma LocalHit(rule: RuleId, log: Log, ctx: ScanCtx, cycle: nat, i: nat)
    requires IsLocal(rule)
    ensures Hit(rule, log, ctx, cycle, i) <==> Overdue(rule, log, cycle, i) && IsPruneEligible(log[i], ctx)
  {
  }

  lemma OutdoneIgnoresTombstones(a: Log, b: Log, at: nat, q: Query, n: Node, cycle: nat, grace: nat, j: nat)
    requires TombstonesAppended(a, b, at)
    ensures Outdone(b, q, n, cycle, grace, j) <==> Outdone(a, q, n, cycle, grace, j)
  {
    forall k | |a| <= k < |b|
      ensures !Matches(q, b[k])
    {
      assert IsScanTombstone(b, k, at);
    }
    assert forall k :: 0 <= k < |a| ==> a[k] == b[k];
  }

  lemma CopiesIgnoreTombstones(a: Log, b: Log, at: nat, i: nat, j: nat)
    requires TombstonesAppended(a, b, at) && i < |a| && RedundantInScope(a[i].kind)
    ensures IsNextCopy(b, i, j) <==> IsNextCopy(a, i, j)
  {
    forall k | |a| <= k < |b|
      ensures !SameKey(b[k], b[i])
    {
      assert IsScanTombstone(b, k, at);
    }
    assert forall k :: 0 <= k < |a| ==> a[k] == b[k];
  }

  /** Tombstones are neither axes, nor failures, nor plates, nor copies. */
  lemma OverdueIgnoresTombstones(rule: RuleId, a: Log, b: Log, at: nat, cycle: nat, i: nat)
    requires TombstonesAppended(a, b, at)
    ensures Overdue(rule, b, cycle, i) <==> Overdue(rule, a, cycle, i)
  {
    assert forall k :: 0 <= k < |a| ==> a[k] == b[k];
    if i < |a| && cycle > Grace(rule) {
      var n := a[i];
      match rule
      case FailedEvolution =>
        if n.kind.EvolutionSucceeded? {
          forall j: nat
            ensures Outdone(b, FailureOf(n.kind.op), n, cycle, Grace(rule), j) <==>
                    Outdone(a, FailureOf(n.kind.op), n, cycle, Grace(rule), j)
          {
            OutdoneIgnoresTombstones(a, b, at, FailureOf(n.kind.op), n, cycle, Grace(rule), j);
          }
        }
      case PlateSuperseded =>
        forall j: nat
          ensures Outdone(b, PlateSuperseding(HashOf(n)), n, cycle, Grace(rule), j) <==>
                  Outdone(a, PlateSuperseding(HashOf(n)), n, cycle, Grace(rule), j)
        {
          OutdoneIgnoresTombstones(a, b, at, PlateSuperseding(HashOf(n)), n, cycle, Grace(rule), j);
        }
      case DuplicateContent =>
        if RedundantInScope(n.kind) {
          forall j: nat
            ensures IsNextCopy(b, i, j) <==> IsNextCopy(a, i, j)
          {
            CopiesIgnoreTombstones(a, b, at, i, j);
          }
        }
      case StaleAxis =>
        forall k | |a| <= k < |b|
          ensures TouchedAxis(b[k].kind) == None
        {
          assert IsScanTombstone(b, k, at);
        }
      case _ =>
    } else if |a| <= i < |b| {
      assert IsScanTombstone(b, i, at);
    }
  }

  /** What a local rule hits after some tombstones is what was overdue before them, if still eligible. */
  lemma HitIsOverdueBefore(rule: RuleId, a: Log, b: Log, at: nat, ctx: ScanCtx, cycle: nat, i: nat)
    requires IsLocal(rule) && TombstonesAppended(a, b, at)
    ensures Hit(rule, b, ctx, cycle, i) <==> Overdue(rule, a, cycle, i) && IsPruneEligible(a[i], ctx)
  {
    LocalHit(rule, b, ctx, cycle, i);
    OverdueIgnoresTombstones(rule, a, b, at, cycle, i);
    assert forall k :: 0 <= k < |a| ==> a[k] == b[k];
  }

  // -------------------------------------------------------------------------
  // The second scan, rule by rule
  // -------------------------------------------------------------------------

  /** The tip before the scan is protected only by being the tip. */
  ghost predicate TipOverdue(log: Log, cycle: nat) {
    |log| > 0 && (Overdue(StaleAxis, log, cycle, |log| - 1) || Overdue(FailedEvolution, log, cycle, |log| - 1) ||
                  Overdue(PlateSuperseded, log, cycle, |log| - 1))
  }

  lemma RetiredIsTombstoned(log: Log, cycle: nat, m: nat, i: nat)
    requires WellFormed(log) && m < |REGISTRY|
    requires Hit(REGISTRY[m], Stage(log, cycle, m), CtxOf(log), cycle, i)
    ensures i < |log| && Tombstoned(Scan(log, cycle), HashOf(log[i]))
  {
    HitIsInStart(log, cycle, m, i);
    HitIsRetired(log, cycle, m, |REGISTRY|, i);
    StageAppends(log, cycle, 0, |REGISTRY|);
    RetiredIsRoot(log, Scan(log, cycle), cycle, HashOf(log[i]));
  }

  /** A part the second scan finds eligible was eligible in the first, unless it was the tip. */
  lemma EligibleBefore(log: Log, cycle: nat, i: nat)
    requires WellFormed(log) && i < |log| - 1
    requires IsPruneEligible(log[i], CtxOf(Scan(log, cycle)))
    ensures IsPruneEligible(log[i], CtxOf(log))
  {
    StageAppends(log, cycle, 0, |REGISTRY|);
    assert HashOf(log[i]) != HashOf(log[|log| - 1]);
    InCtx(log, HashOf(log[i]));
    InCtx(Scan(log, cycle), HashOf(log[i]));
    if Tombstoned(log, HashOf(log[i])) {
      TombstonedExtends(log, Scan(log, cycle), HashOf(log[i]));
    }
  }

  lemma SeedFindsNothingNew(log: Log, cycle: nat, i: nat)
    requires WellFormed(log) && TombstonesParentVictims(log)
    ensures !Hit(OrphanPastGrace, Scan(log, cycle), CtxOf(Scan(log, cycle)), cycle, i)
  {
    var after := Scan(log, cycle);
    StageAppends(log, cycle, 0, |REGISTRY|);
    ScanKeepsVictimParents(log, cycle, |REGISTRY|);
    NoSilentDeathAfterScan(log, cycle, after, cycle, i);
  }

  /** What a local rule found overdue the first scan has retired, if it was not the tip. */
  lemma OverdueIsRetired(log: Log, cycle: nat, m: nat, i: nat)
    requires WellFormed(log) && m < |REGISTRY| && IsLocal(REGISTRY[m])
    requires i < |log| - 1 && Overdue(REGISTRY[m], log, cycle, i)
    ensures !IsPruneEligible(log[i], CtxOf(Scan(log, cycle)))
  {
    var before := Stage(log, cycle, m);
    if IsPruneEligible(log[i], CtxOf(Scan(log, cycle))) {
      StageAppends(log, cycle, 0, m);
      EligibleBefore(log, cycle, i);
      HitIsOverdueBefore(REGISTRY[m], log, before, cycle, CtxOf(log), cycle, i);
      RetiredIsTombstoned(log, cycle, m, i);
      InCtx(Scan(log, cycle), HashOf(log[i]));
    }
  }

  lemma LocalRulesFindNothingNew(log: Log, cycle: nat, m: nat, i: nat)
    requires WellFormed(log) && m < |REGISTRY| && IsLocal(REGISTRY[m])
    requires Scan(log, cycle) == log || !TipOverdue(log, cycle)
    ensures !Hit(REGISTRY[m], Scan(log, cycle), CtxOf(Scan(log, cycle)), cycle, i)
  {
    var after := Scan(log, cycle);
    StageAppends(log, cycle, 0, |REGISTRY|);
    HitIsOverdueBefore(REGISTRY[m], log, after, cycle, CtxOf(after), cycle, i);
    if i == |log| - 1 {
      TipIsNotOverdue(log, cycle, m);
    } else if Overdue(REGISTRY[m], log, cycle, i) {
      OverdueIsRetired(log, cycle, m, i);
    }
  }

  /** The tip is eligible for no rule while it is the tip, overdue for none unless TipOverdue,
      and never the earlier of two copies. */
  lemma TipIsNotOverdue(log: Log, cycle: nat, m: nat)
    requires |log| > 0 && m < |REGISTRY| && IsLocal(REGISTRY[m])
    requires Scan(log, cycle) == log || !TipOverdue(log, cycle)
    ensures !Overdue(REGISTRY[m], log, cycle, |log| - 1) || !IsPruneEligible(log[|log| - 1], CtxOf(Scan(log, cycle)))
  {
  }

  lemma LiveExtends(a: Log, b: Log, cycle: nat, i: nat)
    requires TombstonesAppended(a, b, cycle) && cycle > ORPHAN_GRACE_CYCLES && i < |a| && Live(a, cycle, i)
    ensures Live(b, cycle, i)
  {
    var r: nat :| r < |a| && IsLiveRoot(a, cycle, HashOf(a[r])) && Reaches(a, r, i);
    ReachesExtends(a, b, r, i);
    assert a[r] == b[r];
    if Tip(a) == Some(HashOf(a[r])) {
      OldTipIsRoot(a, b, cycle);
    } else {
      var j :| 0 <= j < |a| && a[j].cycle > SatSub(cycle, ORPHAN_GRACE_CYCLES) && HashOf(a[r]) in a[j].parents;
      assert b[j] == a[j];
    }
  }

  lemma OldTipIsLive(log: Log, after: Log, cycle: nat)
    requires TombstonesAppended(log, after, cycle) && cycle > ORPHAN_GRACE_CYCLES && |log| > 0
    ensures Live(after, cycle, |log| - 1)
  {
    OldTipIsRoot(log, after, cycle);
    assert after[|log| - 1] == log[|log| - 1];
    assert Reaches(after, |log| - 1, |log| - 1);
  }

  /** A part rule D would retire now it would have retired in the first scan. */
  lemma UnreachableThen(log: Log, before: Log, after: Log, cycle: nat, i: nat)
    requires TombstonesAppended(log, before, cycle) && TombstonesAppended(before, after, cycle)
    requires i < |log| && IsOld(log[i], cycle) && !Live(after, cycle, i) && References(after, HashOf(log[i]))
    ensures References(before, HashOf(log[i])) && !Live(before, cycle, i) && i != |log| - 1
  {
    TombstonesAppendedTransitive(log, before, after, cycle);
    assert log[i] == before[i] == after[i];
    OldTipIsLive(log, after, cycle);
    ReferencedBeforeScan(before, after, cycle, i);
    if Live(before, cycle, i) {
      LiveExtends(before, after, cycle, i);
    }
  }

  lemma UnreachableHit(log: Log, ctx: ScanCtx, cycle: nat, i: nat)
    ensures Hit(Unreachable, log, ctx, cycle, i) <==>
            i < |log| && IsOld(log[i], cycle) && References(log, HashOf(log[i])) && !Live(log, cycle, i) &&
            IsPruneEligible(log[i], ctx)
  {
  }

  lemma UnreachableFindsNothingNew(log: Log, cycle: nat, i: nat)
    requires WellFormed(log)
    ensures !Hit(Unreachable, Scan(log, cycle), CtxOf(Scan(log, cycle)), cycle, i)
  {
    var after := Scan(log, cycle);
    var before := Stage(log, cycle, 4);
    StageAppends(log, cycle, 0, |REGISTRY|);
    StageAppends(log, cycle, 0, 4);
    StageAppends(log, cycle, 4, |REGISTRY|);
    UnreachableHit(after, CtxOf(after), cycle, i);
    UnreachableHit(before, CtxOf(log), cycle, i);
    if i < |log| {
      assert log[i] == before[i] == after[i];
      if IsOld(log[i], cycle) && !Live(after, cycle, i) && References(after, HashOf(log[i])) {
        UnreachableThen(log, before, after, cycle, i);
        if IsPruneEligible(log[i], CtxOf(after)) {
          EligibleBefore(log, cycle, i);
          RetiredIsTombstoned(log, cycle, 4, i);
          InCtx(after, HashOf(log[i]));
        }
      }
    } else if i < |after| {
      assert IsScanTombstone(after, i, cycle);
    }
  }

  lemma NothingNew(log: Log, cycle: nat, m: nat, i: nat)
    requires WellFormed(log) && TombstonesParentVictims(log) && m < |REGISTRY|
    requires Scan(log, cycle) == log || !TipOverdue(log, cycle)
    ensures !Hit(REGISTRY[m], Scan(log, cycle), CtxOf(Scan(log, cycle)), cycle, i)
  {
    if m == 0 {
      SeedFindsNothingNew(log, cycle, i);
    } else if m == 4 {
      UnreachableFindsNothingNew(log, cycle, i);
    } else {
      LocalRulesFindNothingNew(log, cycle, m, i);
    }
  }

  lemma {:induction false} NoHitNoCandidates(rule: RuleId, log: Log, ctx: ScanCtx, cycle: nat, n: nat)
    requires n <= |log| && forall i: nat :: i < n ==> !Hit(rule, log, ctx, cycle, i)
    ensures Collect(rule, log, ctx, cycle, n) == []
  {
    if n > 0 {
      NoHitNoCandidates(rule, log, ctx, cycle, n - 1);
    }
  }

  lemma {:induction false} RescanStays(log: Log, cycle: nat, n: nat)
    requires WellFormed(log) && TombstonesParentVictims(log) && n <= |REGISTRY|
    requires Scan(log, cycle) == log || !TipOverdue(log, cycle)
    ensures Stage(Scan(log, cycle), cycle, n) == Scan(log, cycle)
  {
    if n > 0 {
      RescanStays(log, cycle, n - 1);
      RescanRuleIsSilent(log, cycle, n - 1);
    }
  }

  lemma RescanRuleIsSilent(log: Log, cycle: nat, m: nat)
    requires WellFormed(log) && TombstonesParentVictims(log) && m < |REGISTRY|
    requires Scan(log, cycle) == log || !TipOverdue(log, cycle)
    ensures Detect(REGISTRY[m], Scan(log, cycle), CtxOf(Scan(log, cycle)), cycle) == []
  {
    var after := Scan(log, cycle);
    forall i: nat | i < |after|
      ensures !Hit(REGISTRY[m], after, CtxOf(after), cycle, i)
    {
      NothingNew(log, cycle, m, i);
    }
    NoHitNoCandidates(REGISTRY[m], after, CtxOf(after), cycle, |after|);
  }

  lemma TombstonedSplits(a: Log, b: Log, h: Hash)
    requires a <= b && Tombstoned(b, h)
    ensures Tombstoned(a, h) || Retired(a, b, h)
  {
    var i :| 0 <= i < |b| && Kills(b[i], h);
    if i < |a| {
      assert a[i] == b[i];
    }
  }

  /** The old tip is childless before the scan, so no tombstone can name it, old or new. */
  lemma OldTipIsNotTombstoned(log: Log, cycle: nat)
    requires WellFormed(log) && TombstonesParentVictims(log) && |log| > 0
    ensures !Tombstoned(Scan(log, cycle), HashOf(log[|log| - 1]))
  {
    var after := Scan(log, cycle);
    var h := HashOf(log[|log| - 1]);
    StageAppends(log, cycle, 0, |REGISTRY|);
    TipUnreferenced(log);
    assert !Tombstoned(log, h);
    if Tombstoned(after, h) {
      TombstonedSplits(log, after, h);
      var k, i := RetiredIsHit(log, cycle, |REGISTRY|, h);
    }
  }

  /** After a scan that grew the log, the old tip is protected by nothing but its type. */
  lemma OldTipIsEligible(log: Log, cycle: nat)
    requires WellFormed(log) && TombstonesParentVictims(log) && |log| > 0 && Scan(log, cycle) != log
    requires !IsProtected(log[|log| - 1].kind)
    ensures IsPruneEligible(log[|log| - 1], CtxOf(Scan(log, cycle)))
  {
    var after := Scan(log, cycle);
    StageAppends(log, cycle, 0, |REGISTRY|);
    OldTipIsNotTombstoned(log, cycle);
    InCtx(after, HashOf(log[|log| - 1]));
    assert HashOf(after[|log| - 1]) != HashOf(after[|after| - 1]);
  }

  lemma OverdueIsUnprotected(rule: RuleId, log: Log, cycle: nat, i: nat)
    requires IsLocal(rule) && Overdue(rule, log, cycle, i)
    ensures !IsProtected(log[i].kind)
  {
  }

  /** A tip the first scan skipped as the tip is fair game for the second. */
  lemma OverdueTipIsHit(log: Log, cycle: nat, m: nat)
    requires WellFormed(log) && TombstonesParentVictims(log) && m < |REGISTRY| && IsLocal(REGISTRY[m])
    requires |log| > 0 && Scan(log, cycle) != log && Overdue(REGISTRY[m], log, cycle, |log| - 1)
    requires !REGISTRY[m].DuplicateContent?
    ensures Hit(REGISTRY[m], Stage(Scan(log, cycle), cycle, m), CtxOf(Scan(log, cycle)), cycle, |log| - 1)
  {
    var after := Scan(log, cycle);
    var now := Stage(after, cycle, m);
    var tip := |log| - 1;
    StageAppends(log, cycle, 0, |REGISTRY|);
    StageAppends(after, cycle, 0, m);
    TombstonesAppendedTransitive(log, after, now, cycle);
    HitIsOverdueBefore(REGISTRY[m], log, now, cycle, CtxOf(after), cycle, tip);
    OverdueIsUnprotected(REGISTRY[m], log, cycle, tip);
    OldTipIsEligible(log, cycle);
  }

  lemma HitMakesRescanGrow(after: Log, cycle: nat, m: nat, i: nat)
    requires WellFormed(after) && m < |REGISTRY|
    requires Hit(REGISTRY[m], Stage(after, cycle, m), CtxOf(after), cycle, i)
    ensures Scan(after, cycle) != after
  {
    HitIsRetired(after, cycle, m, |REGISTRY|, i);
  }

  /**
   Rescanning at the same cycle emits nothing exactly when the first scan emitted
   nothing or the tip before it was not itself overdue under rule A, B or E.
   */
  lemma RescanEmitsNothingIff(log: Log, cycle: nat)
    requires WellFormed(log) && TombstonesParentVictims(log)
    ensures Scan(Scan(log, cycle), cycle) == Scan(log, cycle) <==> Scan(log, cycle) == log || !TipOverdue(log, cycle)
  {
    var after := Scan(log, cycle);
    StageAppends(log, cycle, 0, |REGISTRY|);
    if after == log || !TipOverdue(log, cycle) {
      RescanStays(log, cycle, |REGISTRY|);
    } else {
      var m := if Overdue(StaleAxis, log, cycle, |log| - 1) then 1
               else if Overdue(FailedEvolution, log, cycle, |log| - 1) then 2 else 5;
      OverdueTipIsHit(log, cycle, m);
      HitMakesRescanGrow(after, cycle, m, |log| - 1);
    }
  }

  ghost predicate CyclesNonDecreasing(log: Log) {
    forall i, j :: 0 <= i < j < |log| ==> log[i].cycle <= log[j].cycle
  }

  /** With cycles in insertion order only a stale registered axis at the tip can be overdue. */
  lemma OrderedLogRescanEmitsNothing(log: Log, cycle: nat)
    requires WellFormed(log) && TombstonesParentVictims(log) && CyclesNonDecreasing(log)
    requires |log| > 0 ==> !Overdue(StaleAxis, log, cycle, |log| - 1)
    ensures Scan(Scan(log, cycle), cycle) == Scan(log, cycle)
  {
    RescanEmitsNothingIff(log, cycle);
  }

  /** Two axes registered at cycle 0, one after the other, and nothing since. */
  function TwoStaleAxes(): Log {
    var first := Node([], AxisRegistered("a"), 0, Opaque([0]));
    [first, Node([HashOf(first)], AxisRegistered("b"), 0, Opaque([1]))]
  }

  lemma TwoStaleAxesAreOverdue()
    ensures WellFormed(TwoStaleAxes()) && TombstonesParentVictims(TwoStaleAxes()) && CyclesNonDecreasing(TwoStaleAxes())
    ensures Overdue(StaleAxis, TwoStaleAxes(), 3000, 0) && Overdue(StaleAxis, TwoStaleAxes(), 3000, 1)
  {
    var log := TwoStaleAxes();
    assert HasBefore(log, 1, HashOf(log[0]));
    assert log[0].content != log[1].content;
  }

  lemma FirstAxisIsEligible(log: Log)
    requires log == TwoStaleAxes() && WellFormed(log)
    ensures IsPruneEligible(log[0], CtxOf(log))
  {
    InCtx(log, HashOf(log[0]));
    assert HashOf(log[0]) != HashOf(log[1]);
  }

  lemma StaleFirstAxisIsRetired(log: Log)
    requires log == TwoStaleAxes() && WellFormed(log) && Overdue(StaleAxis, log, 3000, 0)
    ensures Scan(log, 3000) != log
  {
    var before := Stage(log, 3000, 1);
    StageAppends(log, 3000, 0, 1);
    FirstAxisIsEligible(log);
    HitIsOverdueBefore(StaleAxis, log, before, 3000, CtxOf(log), 3000, 0);
    HitMakesRescanGrow(log, 3000, 1, 0);
  }

  /** The exception is real: the scan at 3000 spares the second axis as the tip, a rescan retires it. */
  lemma StaleTipIsRescanned()
    ensures Scan(Scan(TwoStaleAxes(), 3000), 3000) != Scan(TwoStaleAxes(), 3000)
  {
    TwoStaleAxesAreOverdue();
    StaleFirstAxisIsRetired(TwoStaleAxes());
    RescanEmitsNothingIff(TwoStaleAxes(), 3000);
  }
}
