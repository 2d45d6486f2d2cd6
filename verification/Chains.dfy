/**
 Scans over chained logs: logs in which every node hangs on the one before it. Every log a
 substrate writes is one (RunChains), since each insertion names the tip as a parent.
 */
module Chains {
  import opened Dag
  import opened PruneRules
  import opened PruneScan
  import opened PruneTheorems
  import opened Mortality
  import opened Rescan

  ghost predicate IsChain(log: Log) {
    forall i :: 0 < i < |log| ==> HashOf(log[i - 1]) in log[i].parents
  }

  lemma {:induction false} ChainReaches(log: Log, j: nat, i: nat)
    requires IsChain(log) && i <= j < |log|
    ensures Reaches(log, j, i)
    decreases j
  {
    if i < j {
      ChainReaches(log, j - 1, i);
    }
  }

  /** In a chain the tip alone is childless, so C55 can find nothing, at any counter. */
  lemma ChainHasNoSilentDeath(log: Log, counter: nat, i: nat)
    requires IsChain(log)
    ensures !IsSilentDeath(log, counter, i)
  {
    if i < |log| - 1 {
      assert HashOf(log[i]) in log[i + 1].parents;
    }
  }

  lemma ScanKeepsChain(log: Log, cycle: nat, n: nat)
    requires WellFormed(log) && IsChain(log) && n <= |REGISTRY|
    ensures WellFormed(Stage(log, cycle, n)) && IsChain(Stage(log, cycle, n))
  {
    var after := Stage(log, cycle, n);
    StageAppends(log, cycle, 0, n);
    forall i | 0 < i < |after|
      ensures HashOf(after[i - 1]) in after[i].parents
    {
      if i < |log| {
        assert after[i] == log[i] && after[i - 1] == log[i - 1];
      } else {
        assert IsScanTombstone(after, i, cycle);
      }
    }
  }

  lemma ChainIsLive(log: Log, cycle: nat, i: nat)
    requires IsChain(log) && i < |log|
    ensures Live(log, cycle, i)
  {
    ChainReaches(log, |log| - 1, i);
    assert IsLiveRoot(log, cycle, HashOf(log[|log| - 1]));
  }

  /** In a chain the seed rule and rule D hit nothing, at any point of a scan. */
  lemma ChainSparesReachable(log: Log, cycle: nat, m: nat, i: nat)
    requires WellFormed(log) && IsChain(log) && m < |REGISTRY| && !IsLocal(REGISTRY[m])
    ensures !Hit(REGISTRY[m], Stage(log, cycle, m), CtxOf(log), cycle, i)
  {
    var now := Stage(log, cycle, m);
    ScanKeepsChain(log, cycle, m);
    assert m == 0 || m == 4;
    if m == 0 {
      assert now == log;
      assert i < |log| - 1 ==> HashOf(log[i]) in log[i + 1].parents;
    } else if i < |now| {
      ChainIsLive(now, cycle, i);
    }
  }

  /** Rule A, B, C or E has something against node i. */
  ghost predicate LocallyOverdue(log: Log, cycle: nat, i: nat) {
    exists rule :: IsLocal(rule) && Overdue(rule, log, cycle, i)
  }

  function IndexOf(rule: RuleId): (m: nat)
    ensures m < |REGISTRY| && REGISTRY[m] == rule
  {
    match rule
    case OrphanPastGrace => 0
    case StaleAxis => 1
    case FailedEvolution => 2
    case DuplicateContent => 3
    case Unreachable => 4
    case PlateSuperseded => 5
  }

  /** A local rule hits, at its turn in the scan, what is overdue and eligible before the scan. */
  lemma LocalHitInScan(log: Log, cycle: nat, m: nat, i: nat)
    requires WellFormed(log) && m < |REGISTRY| && IsLocal(REGISTRY[m])
    ensures Hit(REGISTRY[m], Stage(log, cycle, m), CtxOf(log), cycle, i) <==>
            Overdue(REGISTRY[m], log, cycle, i) && IsPruneEligible(log[i], CtxOf(log))
  {
    StageAppends(log, cycle, 0, m);
    HitIsOverdueBefore(REGISTRY[m], log, Stage(log, cycle, m), cycle, CtxOf(log), cycle, i);
  }

  /** What a scan of a chain retires: exactly what rule A, B, C or E has against an eligible part. */
  lemma ChainScanRetiresExactly(log: Log, cycle: nat, i: nat)
    requires WellFormed(log) && IsChain(log) && i < |log|
    ensures Retired(log, Scan(log, cycle), HashOf(log[i])) <==>
            LocallyOverdue(log, cycle, i) && IsPruneEligible(log[i], CtxOf(log))
  {
    if Retired(log, Scan(log, cycle), HashOf(log[i])) {
      var m, k := RetiredIsHit(log, cycle, |REGISTRY|, HashOf(log[i]));
      assert k == i;
      if !IsLocal(REGISTRY[m]) {
        ChainSparesReachable(log, cycle, m, i);
      }
      LocalHitInScan(log, cycle, m, i);
    }
    if LocallyOverdue(log, cycle, i) && IsPruneEligible(log[i], CtxOf(log)) {
      var rule :| IsLocal(rule) && Overdue(rule, log, cycle, i);
      LocalHitInScan(log, cycle, IndexOf(rule), i);
      StageAppends(log, cycle, 0, IndexOf(rule));
      HitIsRetired(log, cycle, IndexOf(rule), |REGISTRY|, i);
    }
  }
}
