/** What a whole scan guarantees, for every well-formed log and every cycle. */
module PruneTheorems {
  import opened Prelude
  import opened Dag
  import opened PruneRules
  import opened PruneScan

  // -------------------------------------------------------------------------
  // Tombstones as edges
  // -------------------------------------------------------------------------

  lemma {:induction false} ReachesExtends(a: Log, b: Log, j: nat, i: nat)
    requires a <= b && j < |a|
    ensures Reaches(a, j, i) <==> Reaches(b, j, i)
    decreases j
  {
    assert a[j] == b[j];
    if i != j {
      forall k | 0 <= k < j
        ensures HashOf(a[k]) == HashOf(b[k]) && (Reaches(a, k, i) <==> Reaches(b, k, i))
      {
        ReachesExtends(a, b, k, i);
      }
    }
  }

  lemma RetiredIsRoot(a: Log, b: Log, cycle: nat, h: Hash)
    requires TombstonesAppended(a, b, cycle) && Retired(a, b, h) && cycle > ORPHAN_GRACE_CYCLES
    ensures IsLiveRoot(b, cycle, h) && References(b, h) && Tombstoned(b, h)
  {
    var i :| |a| <= i < |b| && Kills(b[i], h);
    assert IsScanTombstone(b, i, cycle);
  }

  lemma OldTipIsRoot(a: Log, b: Log, cycle: nat)
    requires TombstonesAppended(a, b, cycle) && |a| > 0 && cycle > ORPHAN_GRACE_CYCLES
    ensures IsLiveRoot(b, cycle, HashOf(a[|a| - 1]))
    ensures |b| > |a| ==> References(b, HashOf(a[|a| - 1]))
  {
    if |b| > |a| {
      assert IsScanTombstone(b, |a|, cycle);
    } else {
      assert a == b;
    }
  }

  /** An old node a tombstone reaches is reached by the old tip or by a part retired in the scan. */
  lemma {:induction false} TombstoneReachesThrough(a: Log, b: Log, cycle: nat, t: nat, i: nat) returns (d: nat)
    requires WellFormed(b) && TombstonesAppended(a, b, cycle)
    requires |a| <= t < |b| && i < |a| && Reaches(b, t, i)
    ensures d < |a| && Reaches(a, d, i)
    ensures d == |a| - 1 || Retired(a, b, HashOf(a[d]))
    decreases t
  {
    var k: nat :| k < t && HashOf(b[k]) in b[t].parents && Reaches(b, k, i);
    assert IsScanTombstone(b, t, cycle);
    if k >= |a| {
      d := TombstoneReachesThrough(a, b, cycle, k, i);
    } else {
      d := k;
      ReachesExtends(a, b, d, i);
      assert a[d] == b[d];
      if HashOf(b[k]) == HashOf(b[t - 1]) {
        assert k == t - 1;
      } else {
        assert Kills(b[t], HashOf(a[d]));
      }
    }
  }

  lemma ListedIsRetired(log: Log, cycle: nat, m: nat, n: nat, h: Hash)
    requires WellFormed(log) && m < n <= |REGISTRY|
    requires Lists(Detect(REGISTRY[m], Stage(log, cycle, m), CtxOf(log), cycle), h)
    ensures Retired(log, Stage(log, cycle, n), h)
  {
    hide WellFormed, Lists;
    var before := Stage(log, cycle, m);
    var cands := Detect(REGISTRY[m], before, CtxOf(log), cycle);
    ListedIsEntombed(before, REGISTRY[m], cands, cycle, h);
    StageAppends(log, cycle, 0, m);
    StageAppends(log, cycle, m + 1, n);
    RetiredExtends(log, before, Stage(log, cycle, m + 1), Stage(log, cycle, n), h);
  }

  lemma ListedIsEntombed(log: Log, rule: RuleId, cands: seq<Candidate>, cycle: nat, h: Hash)
    requires Lists(cands, h)
    ensures Retired(log, EntombAll(log, rule, cands, cycle), h)
  {
    var k :| 0 <= k < |cands| && cands[k].part == h;
    EntombAllKills(log, rule, cands, cycle);
    assert Kills(EntombAll(log, rule, cands, cycle)[|log| + k], h);
  }

  lemma RetiredExtends(a: Log, b: Log, c: Log, d: Log, h: Hash)
    requires a <= b && c <= d && Retired(b, c, h)
    ensures Retired(a, d, h)
  {
    var i :| |b| <= i < |c| && Kills(c[i], h);
    assert d[i] == c[i];
  }

  lemma HitIsRetired(log: Log, cycle: nat, m: nat, n: nat, i: nat)
    requires WellFormed(log) && m < n <= |REGISTRY|
    requires Hit(REGISTRY[m], Stage(log, cycle, m), CtxOf(log), cycle, i)
    ensures Retired(log, Stage(log, cycle, n), HashOf(Stage(log, cycle, m)[i]))
  {
    StageAppends(log, cycle, 0, m);
    DetectIsExact(REGISTRY[m], Stage(log, cycle, m), CtxOf(log), cycle, i);
    ListedIsRetired(log, cycle, m, n, HashOf(Stage(log, cycle, m)[i]));
  }

  /** Tombstones are protected, so a scan only retires parts that were there before it. */
  lemma HitIsInStart(log: Log, cycle: nat, m: nat, i: nat)
    requires WellFormed(log) && m < |REGISTRY|
    requires Hit(REGISTRY[m], Stage(log, cycle, m), CtxOf(log), cycle, i)
    ensures i < |log| && log[i] == Stage(log, cycle, m)[i]
  {
    var now := Stage(log, cycle, m);
    StageAppends(log, cycle, 0, m);
    assert |log| <= i < |now| ==> IsScanTombstone(now, i, cycle);
  }

  // -------------------------------------------------------------------------
  // Rule D in a full scan
  // -------------------------------------------------------------------------

  predicate IsOld(n: Node, cycle: nat) {
    cycle > ORPHAN_GRACE_CYCLES && n.cycle <= cycle - ORPHAN_GRACE_CYCLES
  }

  /** d keeps its ancestors alive: it is young, or the tip before the scan, or was retired since. */
  ghost predicate KeepsAlive(log: Log, now: Log, cycle: nat, d: nat, i: nat)
    requires d < |log|
  {
    (d != i && !IsOld(log[d], cycle)) || d == |log| - 1 || Retired(log, now, HashOf(log[d]))
  }

  lemma KeptAliveIsLive(log: Log, now: Log, cycle: nat, d: nat, i: nat)
    requires TombstonesAppended(log, now, cycle) && cycle > ORPHAN_GRACE_CYCLES
    requires d < |log| && i < |log| && Reaches(log, d, i) && KeepsAlive(log, now, cycle, d, i)
    ensures Live(now, cycle, i)
  {
    ReachesExtends(log, now, d, i);
    assert now[d] == log[d];
    if d == |log| - 1 {
      OldTipIsRoot(log, now, cycle);
    } else if Retired(log, now, HashOf(log[d])) {
      RetiredIsRoot(log, now, cycle, HashOf(log[d]));
    } else {
      var k: nat :| k < d && HashOf(now[k]) in now[d].parents && Reaches(now, k, i);
      assert IsLiveRoot(now, cycle, HashOf(now[k]));
    }
  }

  lemma LiveIsKeptAlive(log: Log, now: Log, cycle: nat, i: nat) returns (d: nat)
    requires WellFormed(now) && TombstonesAppended(log, now, cycle)
    requires i < |log| && IsOld(log[i], cycle) && Live(now, cycle, i)
    ensures d < |log| && Reaches(log, d, i) && KeepsAlive(log, now, cycle, d, i)
  {
    var j := LiveSource(now, cycle, i);
    if j >= |log| {
      d := TombstoneReachesThrough(log, now, cycle, j, i);
    } else {
      d := j;
      ReachesExtends(log, now, j, i);
      assert now[j] == log[j];
      assert |now| - 1 == j ==> |log| - 1 == j;
    }
  }

  /** What keeps a live node alive: the tip, or a young node with a parent that reaches it. */
  lemma LiveSource(log: Log, cycle: nat, i: nat) returns (j: nat)
    requires WellFormed(log) && i < |log| && Live(log, cycle, i)
    ensures j < |log| && Reaches(log, j, i)
    ensures j == |log| - 1 || (j != i && log[j].cycle > SatSub(cycle, ORPHAN_GRACE_CYCLES))
  {
    var r: nat :| r < |log| && IsLiveRoot(log, cycle, HashOf(log[r])) && Reaches(log, r, i);
    if Tip(log) == Some(HashOf(log[r])) {
      j := r;
    } else {
      j :| 0 <= j < |log| && log[j].cycle > SatSub(cycle, ORPHAN_GRACE_CYCLES) && HashOf(log[r]) in log[j].parents;
      ParentIsReached(log, j, r);
      ReachesTransitive(log, j, r, i);
      ReachesBackwards(log, r, i);
    }
  }

  /** A node only scan tombstones reference is live. */
  lemma ReferencedBeforeScan(log: Log, now: Log, cycle: nat, i: nat)
    requires TombstonesAppended(log, now, cycle) && cycle > ORPHAN_GRACE_CYCLES && i < |log|
    requires References(now, HashOf(now[i]))
    ensures References(log, HashOf(log[i])) || Live(now, cycle, i)
  {
    assert now[i] == log[i];
    var j :| 0 <= j < |now| && HashOf(log[i]) in now[j].parents;
    if j < |log| {
      assert now[j] == log[j];
    } else {
      assert IsScanTombstone(now, j, cycle);
      assert IsLiveRoot(now, cycle, HashOf(now[i])) && Reaches(now, i, i);
    }
  }

  /** Every descendant is old, is not the tip, and was not retired by the seed rule or rules A to C. */
  ghost predicate OnlyDeadDescendants(log: Log, cycle: nat, i: nat) {
    forall d: nat :: d < |log| && Reaches(log, d, i) ==> !KeepsAlive(log, Stage(log, cycle, 4), cycle, d, i)
  }

  /**
   Rule D sees the log after the seed rule and rules A to C have run. What it retires
   is exactly: an old, eligible part referenced before the scan, all of whose
   descendants are old, none of them the tip, and none retired earlier in the scan.
   */
  lemma UnreachableRetiresExactly(log: Log, cycle: nat, i: nat)
    requires WellFormed(log) && i < |log|
    ensures Hit(Unreachable, Stage(log, cycle, 4), CtxOf(log), cycle, i) <==>
            IsOld(log[i], cycle) && IsPruneEligible(log[i], CtxOf(log)) && References(log, HashOf(log[i])) &&
            OnlyDeadDescendants(log, cycle, i)
  {
    hide WellFormed;
    var now := Stage(log, cycle, 4);
    StageAppends(log, cycle, 0, 4);
    assert now[i] == log[i];
    if Hit(Unreachable, now, CtxOf(log), cycle, i) {
      ReferencedBeforeScan(log, now, cycle, i);
      forall d: nat | d < |log| && Reaches(log, d, i)
        ensures KeepsAlive(log, now, cycle, d, i) ==> Live(now, cycle, i)
      {
        if KeepsAlive(log, now, cycle, d, i) {
          KeptAliveIsLive(log, now, cycle, d, i);
        }
      }
    } else if IsOld(log[i], cycle) && IsPruneEligible(log[i], CtxOf(log)) && References(log, HashOf(log[i])) {
      var j :| 0 <= j < |log| && HashOf(log[i]) in log[j].parents;
      assert now[j] == log[j];
      assert References(now, HashOf(now[i]));
      var d := LiveIsKeptAlive(log, now, cycle, i);
    }
  }

  /** The seed rule catches every old unprotected childless node but the tip. */
  lemma SeedRetiresChildless(log: Log, cycle: nat, i: nat, n: nat)
    requires WellFormed(log) && i < |log| - 1 && 0 < n <= |REGISTRY|
    requires IsOld(log[i], cycle) && !IsProtected(log[i].kind) && !References(log, HashOf(log[i]))
    ensures Retired(log, Stage(log, cycle, n), HashOf(log[i]))
  {
    assert Stage(log, cycle, 0) == log;
    assert HashOf(log[i]) != HashOf(log[|log| - 1]);
    assert Hit(REGISTRY[0], log, CtxOf(log), cycle, i);
    HitIsRetired(log, cycle, 0, n, i);
  }

  /** Rule D retires a part only if every childless descendant of it is in the P10 invariant set. */
  lemma UnreachableOnlyAboveProtectedLeaves(log: Log, cycle: nat, i: nat, d: nat)
    requires WellFormed(log) && i < |log| && d < |log|
    requires Hit(Unreachable, Stage(log, cycle, 4), CtxOf(log), cycle, i)
    requires Reaches(log, d, i) && !References(log, HashOf(log[d]))
    ensures IsProtected(log[d].kind)
  {
    UnreachableRetiresExactly(log, cycle, i);
    assert !KeepsAlive(log, Stage(log, cycle, 4), cycle, d, i);
    assert d != i;
    if !IsProtected(log[d].kind) && d < |log| - 1 && IsOld(log[d], cycle) {
      SeedRetiresChildless(log, cycle, d, 4);
    }
  }

  /** In a well-formed log the replacement of a duplicate is simply its second occurrence. */
  lemma NextCopyIsSecondOccurrence(log: Log, i: nat, j: nat)
    requires WellFormed(log) && i < |log|
    ensures IsNextCopy(log, i, j) <==>
            i < j < |log| && SameKey(log[j], log[i]) && forall k :: i < k < j ==> !SameKey(log[k], log[i])
  {
  }
}
