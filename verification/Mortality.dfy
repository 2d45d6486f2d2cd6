/**
 The C55 silent-mortality check (substrate/src/integrity.rs) against prune scans, and
 what one scan leaves for the next.
 */
module Mortality {
  import opened Prelude
  import opened Dag
  import opened PruneRules
  import opened PruneDetectors
  import opened PruneScan
  import opened PruneTheorems

  // -------------------------------------------------------------------------
  // C55
  // -------------------------------------------------------------------------

  /** Node i is past grace, childless, unprotected, not the tip, and has no tombstone. */
  predicate IsSilentDeath(log: Log, counter: nat, i: nat) {
    && i < |log|
    && IsOld(log[i], counter)
    && !log[i].kind.InternalMortality?
    && !IsProtected(log[i].kind)
    && Some(HashOf(log[i])) != Tip(log)
    && !References(log, HashOf(log[i]))
    && !Tombstoned(log, HashOf(log[i]))
  }

  method CheckSilentInternalMortality(log: Log, counter: nat) returns (passed: bool, violations: seq<nat>)
    ensures forall i: nat :: i in violations <==> IsSilentDeath(log, counter, i)
    ensures passed <==> forall i: nat :: !IsSilentDeath(log, counter, i)
  {
    var referenced := CollectReferenced(log);
    var tombstoned := CollectAlreadyTombstoned(log);
    var cutoff := SatSub(counter, ORPHAN_GRACE_CYCLES);
    violations := [];
    if counter > ORPHAN_GRACE_CYCLES {
      for i := 0 to |log|
        invariant forall k: nat :: k in violations <==> k < i && IsSilentDeath(log, counter, k)
      {
        var n := log[i];
        if n.cycle > cutoff { continue; }
        if n.kind.InternalMortality? { continue; }
        if IsProtected(n.kind) { continue; }
        if Some(HashOf(n)) == Tip(log) { continue; }
        if HashOf(n) in referenced { continue; }
        if HashOf(n) in tombstoned { continue; }
        violations := violations + [i];
      }
    }
    passed := |violations| == 0;
    if !passed {
      assert violations[0] in violations;
    }
  }

  /** C55 asks for what the seed rule owes: at one counter it finds the parts a scan would retire and none has. */
  lemma SilentDeathIsOwed(log: Log, counter: nat, i: nat)
    ensures IsSilentDeath(log, counter, i) <==>
            Hit(OrphanPastGrace, log, CtxOf(log), counter, i) && !Tombstoned(log, HashOf(log[i]))
  {
  }

  /** Everything appended to b since a is young at `counter`, and the first of it has a's tip as a parent. */
  ghost predicate YoungAppended(a: Log, b: Log, counter: nat) {
    && a <= b
    && (forall i :: |a| <= i < |b| ==> !IsOld(b[i], counter))
    && (|a| < |b| && |a| > 0 ==> HashOf(a[|a| - 1]) in b[|a|].parents)
  }

  lemma ReferencesExtends(a: Log, b: Log, h: Hash)
    requires a <= b && References(a, h)
    ensures References(b, h)
  {
    var i :| 0 <= i < |a| && h in a[i].parents;
    assert b[i] == a[i];
  }

  lemma TombstonedExtends(a: Log, b: Log, h: Hash)
    requires a <= b && Tombstoned(a, h)
    ensures Tombstoned(b, h)
  {
    var i :| 0 <= i < |a| && Kills(a[i], h);
    assert b[i] == a[i];
  }

  /** The tip before a scan is referenced afterwards, or still the tip. */
  lemma OldTipIsCovered(log: Log, cycle: nat, later: Log, counter: nat)
    requires WellFormed(log) && |log| > 0 && YoungAppended(Scan(log, cycle), later, counter)
    ensures References(later, HashOf(log[|log| - 1])) || Tip(later) == Some(HashOf(log[|log| - 1]))
  {
    var after := Scan(log, cycle);
    StageAppends(log, cycle, 0, |REGISTRY|);
    assert TombstonesAppended(log, after, cycle);
    if |after| > |log| {
      assert IsScanTombstone(after, |log|, cycle);
      ReferencesExtends(after, later, HashOf(log[|log| - 1]));
    } else {
      assert after == log;
      if |later| > |after| {
        assert HashOf(log[|log| - 1]) in later[|after|].parents;
      }
    }
  }

  /**
   After a scan at `cycle`, and after any young tip-parented appends that follow it,
   C55 finds nothing at any counter up to `cycle`, whatever the tip before the scan was.
   */
  lemma NoSilentDeathAfterScan(log: Log, cycle: nat, later: Log, counter: nat, i: nat)
    requires WellFormed(log) && YoungAppended(Scan(log, cycle), later, counter) && counter <= cycle
    ensures !IsSilentDeath(later, counter, i)
  {
    var after := Scan(log, cycle);
    StageAppends(log, cycle, 0, |REGISTRY|);
    if i < |log| {
      assert log[i] == after[i] == later[i];
      if IsOld(log[i], counter) && !IsProtected(log[i].kind) {
        if i == |log| - 1 {
          OldTipIsCovered(log, cycle, later, counter);
        } else if References(log, HashOf(log[i])) {
          ReferencesExtends(log, later, HashOf(log[i]));
        } else {
          SeedRetiresChildless(log, cycle, i, |REGISTRY|);
          RetiredIsRoot(log, after, cycle, HashOf(log[i]));
          TombstonedExtends(after, later, HashOf(log[i]));
        }
      }
    } else if i < |after| {
      assert IsScanTombstone(after, i, cycle);
      assert after[i] == later[i];
    }
  }

  // -------------------------------------------------------------------------
  // Scans and the already dead
  // -------------------------------------------------------------------------

  /** Every tombstone has the part it killed among its parents. */
  ghost predicate TombstonesParentVictims(log: Log) {
    forall i, h :: 0 <= i < |log| && Kills(log[i], h) ==> h in log[i].parents
  }

  lemma ScanKeepsVictimParents(log: Log, cycle: nat, n: nat)
    requires WellFormed(log) && TombstonesParentVictims(log) && n <= |REGISTRY|
    ensures TombstonesParentVictims(Stage(log, cycle, n))
  {
    var after := Stage(log, cycle, n);
    StageAppends(log, cycle, 0, n);
    forall i, h | 0 <= i < |after| && Kills(after[i], h)
      ensures h in after[i].parents
    {
      if i < |log| {
        assert after[i] == log[i];
      } else {
        assert IsScanTombstone(after, i, cycle);
      }
    }
  }

  lemma EntombedIsListed(log: Log, rule: RuleId, cands: seq<Candidate>, cycle: nat, h: Hash) returns (k: nat)
    requires Retired(log, EntombAll(log, rule, cands, cycle), h)
    ensures k < |cands| && cands[k].part == h
  {
    var all := EntombAll(log, rule, cands, cycle);
    EntombAllKills(log, rule, cands, cycle);
    var t: nat :| |log| <= t < |all| && Kills(all[t], h);
    k := t - |log|;
    assert Kills(all[|log| + k], cands[k].part);
  }

  /** h was retired by the first n - 1 rules or by rule n. */
  lemma RetiredSplits(log: Log, cycle: nat, n: nat, h: Hash)
    requires WellFormed(log) && 0 < n <= |REGISTRY| && Retired(log, Stage(log, cycle, n), h)
    ensures Retired(log, Stage(log, cycle, n - 1), h) || Retired(Stage(log, cycle, n - 1), Stage(log, cycle, n), h)
  {
    var before, after := Stage(log, cycle, n - 1), Stage(log, cycle, n);
    StageAppends(log, cycle, 0, n - 1);
    StageAppends(log, cycle, n - 1, n);
    var t :| |log| <= t < |after| && Kills(after[t], h);
    if t < |before| {
      assert after[t] == before[t];
    }
  }

  /** Whatever a scan retires is a hit of one of its rules. */
  lemma {:induction false} RetiredIsHit(log: Log, cycle: nat, n: nat, h: Hash) returns (m: nat, i: nat)
    requires WellFormed(log) && n <= |REGISTRY| && Retired(log, Stage(log, cycle, n), h)
    ensures m < n && Hit(REGISTRY[m], Stage(log, cycle, m), CtxOf(log), cycle, i)
    ensures i < |log| && HashOf(log[i]) == h && log[i] == Stage(log, cycle, m)[i]
    decreases n
  {
    RetiredSplits(log, cycle, n, h);
    if Retired(log, Stage(log, cycle, n - 1), h) {
      m, i := RetiredIsHit(log, cycle, n - 1, h);
    } else {
      m := n - 1;
      var before := Stage(log, cycle, m);
      var cands := Detect(REGISTRY[m], before, CtxOf(log), cycle);
      var k := EntombedIsListed(before, REGISTRY[m], cands, cycle, h);
      i := ListedIsHit(REGISTRY[m], before, CtxOf(log), cycle, |before|, k);
      HitIsInStart(log, cycle, m, i);
    }
  }

  /**
   No scan retires a part that had a tombstone before it. The seed rule never looks:
   it holds there because every tombstone references its victim.
   */
  lemma ScanSparesTheDead(log: Log, cycle: nat, h: Hash)
    requires WellFormed(log) && TombstonesParentVictims(log)
    requires Retired(log, Scan(log, cycle), h)
    ensures !Tombstoned(log, h)
  {
    hide WellFormed;
    var m, i := RetiredIsHit(log, cycle, |REGISTRY|, h);
    InCtx(log, h);
    if m == 0 {
      assert Stage(log, cycle, 0) == log;
      assert !References(log, h);
    } else {
      assert IsPruneEligible(log[i], CtxOf(log));
    }
  }
}
