/** The cultivation-succession state and the successor chain (substrate/src/cultivation.rs). */
module Cultivation {
  import opened Prelude
  import opened Dag
  import opened Derived

  datatype CultivationState = Normal | Legacy | Orphaned | Archived | Recovered

  predicate IsCultivationFamily(kind: NodeType) {
    kind.BetRetired? || kind.CultivationRecovered? || kind.CultivationOrphaned? || kind.SuccessionCompleted?
  }

  // -------------------------------------------------------------------------
  // The derived state
  // -------------------------------------------------------------------------

  predicate IsRetired(log: Log) {
    exists i :: 0 <= i < |log| && log[i].kind.BetRetired?
  }

  /** i is the last cultivation-family node. */
  ghost predicate IsLatestFamily(log: Log, i: nat) {
    && i < |log| && IsCultivationFamily(log[i].kind)
    && forall j :: i < j < |log| ==> !IsCultivationFamily(log[j].kind)
  }

  function StateAfter(kind: NodeType): CultivationState
    requires IsCultivationFamily(kind)
  {
    match kind
    case BetRetired(_) => Archived
    case CultivationRecovered(_) => Recovered
    case CultivationOrphaned(_) => Orphaned
    case SuccessionCompleted(_) => Normal
  }

  /** Archived once any seal landed; otherwise what the latest family event says, Normal if there is none. */
  ghost function CultivationOf(log: Log): (r: CultivationState)
    ensures IsRetired(log) <==> r == Archived
    ensures forall i: nat :: !IsRetired(log) && IsLatestFamily(log, i) ==> r == StateAfter(log[i].kind)
  {
    if IsRetired(log) then Archived
    else if exists i: nat :: IsLatestFamily(log, i) then
      var i: nat :| IsLatestFamily(log, i);
      assert log[i].kind.BetRetired? ==> IsRetired(log);
      StateAfter(log[i].kind)
    else Normal
  }

  /** Nodes outside the family change nothing, so a cache refreshed on family events only stays exact. */
  lemma OutsidersKeepCultivation(a: Log, b: Log)
    requires a <= b && forall i :: |a| <= i < |b| ==> !IsCultivationFamily(b[i].kind)
    ensures CultivationOf(b) == CultivationOf(a)
  {
    assert forall i :: 0 <= i < |a| ==> a[i] == b[i];
    assert forall i: nat :: IsLatestFamily(a, i) <==> IsLatestFamily(b, i);
  }

  /** Once archived, always archived. */
  lemma ArchivedAbsorbs(a: Log, b: Log)
    requires a <= b && CultivationOf(a) == Archived
    ensures CultivationOf(b) == Archived
  {
    var i :| 0 <= i < |a| && a[i].kind.BetRetired?;
    assert b[i] == a[i];
  }

  /** The walk: the last transition wins, and a seal ends it. */
  method CurrentCultivationState(log: Log) returns (current: CultivationState)
    ensures current == CultivationOf(log)
  {
    current := Normal;
    var archived := false;
    for i := 0 to |log|
      invariant current == CultivationOf(log[..i])
      invariant archived <==> current == Archived
    {
      var kind := log[i].kind;
      FamilyStep(log, i);
      if kind.BetRetired? {
        current := Archived;
        archived := true;
      } else if archived {
        continue;
      } else if kind.CultivationRecovered? {
        current := Recovered;
      } else if kind.CultivationOrphaned? {
        current := Orphaned;
      } else if kind.SuccessionCompleted? {
        current := Normal;
      }
    }
    assert log[..|log|] == log;
  }

  lemma FamilyStep(log: Log, i: nat)
    requires i < |log|
    ensures CultivationOf(log[..i + 1]) ==
            if log[i].kind.BetRetired? || CultivationOf(log[..i]) == Archived then Archived
            else if IsCultivationFamily(log[i].kind) then StateAfter(log[i].kind)
            else CultivationOf(log[..i])
  {
    var a, b := log[..i], log[..i + 1];
    if log[i].kind.BetRetired? {
      assert b[i].kind.BetRetired?;
    } else if CultivationOf(a) == Archived {
      ArchivedAbsorbs(a, b);
    } else if IsCultivationFamily(log[i].kind) {
      assert IsLatestFamily(b, i);
      assert forall j :: 0 <= j < i ==> a[j] == b[j];
    } else {
      OutsidersKeepCultivation(a, b);
    }
  }

  predicate IsSealed(log: Log) {
    exists i :: 0 <= i < |log| && log[i].kind.BetRetired?
  }

  /** A recovery that neither an orphaning nor a completed succession follows. */
  predicate EndsRecovered(log: Log) {
    exists i :: 0 <= i < |log| && log[i].kind.CultivationRecovered? &&
                forall j :: i < j < |log| ==> !log[j].kind.CultivationOrphaned? && !log[j].kind.SuccessionCompleted?
  }

  /** An orphaning that neither a recovery nor a completed succession follows. */
  predicate EndsOrphaned(log: Log) {
    exists i :: 0 <= i < |log| && log[i].kind.CultivationOrphaned? &&
                forall j :: i < j < |log| ==> !log[j].kind.CultivationRecovered? && !log[j].kind.SuccessionCompleted?
  }

  /** The four states, by the events alone: sealed for good, recovered, orphaned, and else normal. */
  lemma CultivationIs(log: Log)
    ensures CultivationOf(log) == Archived <==> IsSealed(log)
    ensures CultivationOf(log) == Recovered <==> !IsSealed(log) && EndsRecovered(log)
    ensures CultivationOf(log) == Orphaned <==> !IsSealed(log) && EndsOrphaned(log)
    ensures CultivationOf(log) == Normal <==> !IsSealed(log) && !EndsRecovered(log) && !EndsOrphaned(log)
  {
    if exists i :: 0 <= i < |log| && IsCultivationFamily(log[i].kind) {
      var latest := LatestFamily(log, |log|);
      assert IsLatestFamily(log, latest);
    }
  }

  lemma {:induction false} LatestFamily(log: Log, n: nat) returns (i: nat)
    requires n <= |log| && exists k :: 0 <= k < n && IsCultivationFamily(log[k].kind)
    ensures i < n && IsCultivationFamily(log[i].kind)
    ensures forall k :: i < k < n ==> !IsCultivationFamily(log[k].kind)
  {
    i := n - 1;
    if !IsCultivationFamily(log[n - 1].kind) {
      i := LatestFamily(log, n - 1);
    }
  }

  // -------------------------------------------------------------------------
  // The successor chain
  // -------------------------------------------------------------------------

  /** The entry is valid at time t: half-open, open-ended without an end. */
  predicate ValidAt(e: SuccessorEntry, t: int) {
    e.validFrom <= t && (e.validUntil.Some? ==> t < e.validUntil.value)
  }

  predicate IsInterval(e: SuccessorEntry) {
    e.validUntil.Some? ==> e.validFrom < e.validUntil.value
  }

  /** Starts increase strictly, no two entries are ever valid together, and only the last may be open. */
  ghost predicate WellSpaced(chain: seq<SuccessorEntry>) {
    && (forall i :: 0 <= i < |chain| ==> IsInterval(chain[i]))
    && (forall i, j :: 0 <= i < j < |chain| ==> chain[i].validFrom < chain[j].validFrom)
    && (forall i, j, t :: 0 <= i < j < |chain| ==> !(ValidAt(chain[i], t) && ValidAt(chain[j], t)))
    && (forall i :: 0 <= i < |chain| - 1 ==> chain[i].validUntil.Some?)
  }

  datatype ChainError = NotMonotone | Overlap | HeadIsOpen | EmptyInterval

  /** The checks of handle_update_successor_chain, against the last entry only. */
  function CheckEntry(chain: seq<SuccessorEntry>, e: SuccessorEntry): Result<(), ChainError> {
    if |chain| > 0 && e.validFrom <= chain[|chain| - 1].validFrom then Err(NotMonotone)
    else if |chain| > 0 && chain[|chain| - 1].validUntil.Some? && chain[|chain| - 1].validUntil.value > e.validFrom then
        Err(Overlap)
    else if |chain| > 0 && chain[|chain| - 1].validUntil.None? then Err(HeadIsOpen)
    else if e.validUntil.Some? && e.validUntil.value <= e.validFrom then Err(EmptyInterval)
    else Ok(())
  }

  lemma EarlierEndsBefore(chain: seq<SuccessorEntry>, i: nat)
    requires WellSpaced(chain) && i < |chain| - 1
    ensures chain[i].validUntil.value <= chain[|chain| - 1].validFrom
  {
    var last := chain[|chain| - 1];
    assert !(ValidAt(chain[i], last.validFrom) && ValidAt(last, last.validFrom));
  }

  /** Checking against the last entry alone decides whether the whole chain stays well spaced. */
  lemma CheckEntryIsExact(chain: seq<SuccessorEntry>, e: SuccessorEntry)
    requires WellSpaced(chain)
    ensures CheckEntry(chain, e).Ok? <==> WellSpaced(chain + [e])
  {
    var longer := chain + [e];
    if CheckEntry(chain, e).Ok? {
      forall i | 0 <= i < |chain|
        ensures chain[i].validUntil.Some? && chain[i].validUntil.value <= e.validFrom &&
          chain[i].validFrom < e.validFrom
      {
        if i < |chain| - 1 {
          EarlierEndsBefore(chain, i);
        }
      }
    } else if WellSpaced(longer) && |chain| > 0 {
      EarlierEndsBefore(longer, |chain| - 1);
    }
  }
}
