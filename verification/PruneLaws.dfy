/** The four local rules in plain words, by the nodes of the log and the number of cycles alone. */
module PruneLaws {
  import opened Prelude
  import opened Dag
  import opened PruneRules
  import opened PruneScan
  import opened PruneTheorems
  import opened Mortality
  import opened Rescan
  import opened Chains

  /** The event concerns the axis. */
  predicate Touches(n: Node, axis: string) {
    n.kind == AxisRegistered(axis) || n.kind == AxisPerturbed(axis) || n.kind == AxisReset(axis)
  }

  /** The plate declares that it supersedes h. */
  predicate Replaces(n: Node, h: Hash) {
    n.kind.ForgedUnderstanding? && n.content.PlateBody? && n.content.supersedes.Some? && h in n.content.supersedes.value
  }

  /** Nothing that touches the axis is younger than 2000 cycles. */
  ghost predicate IsStale(log: Log, axis: string, cycle: nat) {
    cycle > 2000 && forall j :: 0 <= j < |log| && Touches(log[j], axis) ==> log[j].cycle + 2000 <= cycle
  }

  /** The operation failed after this success, and every failure of it is more than 1000 cycles old. */
  ghost predicate HasFailedSince(log: Log, op: string, success: nat, cycle: nat) {
    && (exists j :: 0 <= j < |log| && log[j].kind == EvolutionFailed(op) && log[j].cycle > success)
    && (forall j :: 0 <= j < |log| && log[j].kind == EvolutionFailed(op) ==> log[j].cycle + 1000 < cycle)
  }

  /** A later plate replaces this one, and every plate that does is more than 1000 cycles old. */
  ghost predicate IsReplaced(log: Log, n: Node, cycle: nat) {
    && (exists j :: 0 <= j < |log| && Replaces(log[j], HashOf(n)) && log[j].cycle > n.cycle)
    && (forall j :: 0 <= j < |log| && Replaces(log[j], HashOf(n)) ==> log[j].cycle + 1000 < cycle)
  }

  /** The first of several nodes alike in type and content, and at least 1000 cycles old. */
  ghost predicate IsCopied(log: Log, i: nat, cycle: nat)
    requires i < |log|
  {
    && cycle > 1000 && log[i].cycle + 1000 <= cycle
    && (forall j :: 0 <= j < i ==> log[j].kind != log[i].kind || log[j].content != log[i].content)
    && (exists j :: i < j < |log| && log[j].kind == log[i].kind && log[j].content == log[i].content)
  }

  /** What a prune scan at `cycle` has against node i, by the kind of node it is. */
  ghost predicate IsDue(log: Log, cycle: nat, i: nat) {
    i < |log| &&
    match log[i].kind
    case AxisRegistered(axis) => IsStale(log, axis, cycle)
    case EvolutionSucceeded(op) => HasFailedSince(log, op, log[i].cycle, cycle)
    case ForgedUnderstanding(_) => IsReplaced(log, log[i], cycle)
    case RawMaterial(_) => IsCopied(log, i, cycle)
    case Sporocarp(_) => IsCopied(log, i, cycle)
    case _ => false
  }

  /** Of some matching nodes one is the newest. */
  lemma {:induction false} SomeIsNewest(log: Log, q: Query, n: nat) returns (j: nat)
    requires n <= |log| && exists k :: 0 <= k < n && Matches(q, log[k])
    ensures IsNewest(log[..n], q, j)
  {
    if exists k :: 0 <= k < n - 1 && Matches(q, log[k]) {
      j := SomeIsNewest(log, q, n - 1);
      if Matches(q, log[n - 1]) && log[n - 1].cycle >= log[j].cycle {
        j := n - 1;
      }
    } else {
      j := n - 1;
    }
  }

  /** Outdone by the newest match: outdone by some match, and every match is past its grace. */
  lemma OutdoneIs(log: Log, q: Query, n: Node, cycle: nat, grace: nat)
    ensures (exists j: nat :: Outdone(log, q, n, cycle, grace, j)) <==>
            && (exists j :: 0 <= j < |log| && Matches(q, log[j]) && log[j].cycle > n.cycle)
            && (forall j :: 0 <= j < |log| && Matches(q, log[j]) ==> log[j].cycle + grace < cycle)
  {
    if exists j :: 0 <= j < |log| && Matches(q, log[j]) {
      assert log[..|log|] == log;
      var newest := SomeIsNewest(log, q, |log|);
      if (exists j :: 0 <= j < |log| && Matches(q, log[j]) && log[j].cycle > n.cycle) &&
          forall j :: 0 <= j < |log| && Matches(q, log[j]) ==> log[j].cycle + grace < cycle {
        assert Outdone(log, q, n, cycle, grace, newest);
      }
    }
  }

  lemma StaleAxisIs(log: Log, cycle: nat, i: nat)
    ensures Overdue(StaleAxis, log, cycle, i) <==>
            i < |log| && log[i].kind.AxisRegistered? && IsStale(log, log[i].kind.axis, cycle)
  {
    if i < |log| && log[i].kind.AxisRegistered? && cycle > 2000 {
      var axis := log[i].kind.axis;
      forall j | 0 <= j < |log|
        ensures TouchedAxis(log[j].kind) == Some(axis) <==> Touches(log[j], axis)
      {
      }
    }
  }

  lemma FailedEvolutionIs(log: Log, cycle: nat, i: nat)
    ensures Overdue(FailedEvolution, log, cycle, i) <==>
            i < |log| && log[i].kind.EvolutionSucceeded? &&
            HasFailedSince(log, log[i].kind.op, log[i].cycle, cycle)
  {
    if i < |log| && log[i].kind.EvolutionSucceeded? {
      var q := FailureOf(log[i].kind.op);
      OutdoneIs(log, q, log[i], cycle, 1000);
      assert forall j :: 0 <= j < |log| ==> (Matches(q, log[j]) <==> log[j].kind == EvolutionFailed(log[i].kind.op));
    }
  }

  lemma PlateSupersededIs(log: Log, cycle: nat, i: nat)
    ensures Overdue(PlateSuperseded, log, cycle, i) <==>
            i < |log| && log[i].kind.ForgedUnderstanding? && IsReplaced(log, log[i], cycle)
  {
    if i < |log| && log[i].kind.ForgedUnderstanding? {
      var q := PlateSuperseding(HashOf(log[i]));
      OutdoneIs(log, q, log[i], cycle, 1000);
      assert forall j :: 0 <= j < |log| ==> (Matches(q, log[j]) <==> Replaces(log[j], HashOf(log[i])));
    }
  }

  lemma SomeCopyIsNext(log: Log, i: nat, j: nat) returns (next: nat)
    requires WellFormed(log) && i < j < |log| && SameKey(log[j], log[i])
    ensures IsNextCopy(log, i, next)
    decreases j
  {
    if k :| i < k < j && SameKey(log[k], log[i]) {
      next := SomeCopyIsNext(log, i, k);
    } else {
      next := j;
    }
  }

  lemma DuplicateContentIs(log: Log, cycle: nat, i: nat)
    requires WellFormed(log)
    ensures Overdue(DuplicateContent, log, cycle, i) <==>
            i < |log| && (log[i].kind.RawMaterial? || log[i].kind.Sporocarp?) && IsCopied(log, i, cycle)
  {
    if i < |log| && IsCopied(log, i, cycle) {
      var j :| i < j < |log| && log[j].kind == log[i].kind && log[j].content == log[i].content;
      var next := SomeCopyIsNext(log, i, j);
    }
  }

  /** The rules, spelled out. */
  lemma DueIs(log: Log, cycle: nat, i: nat)
    requires WellFormed(log)
    ensures LocallyOverdue(log, cycle, i) <==> IsDue(log, cycle, i)
  {
    hide Overdue, IsStale, HasFailedSince, IsReplaced, IsCopied;
    StaleAxisIs(log, cycle, i);
    FailedEvolutionIs(log, cycle, i);
    PlateSupersededIs(log, cycle, i);
    DuplicateContentIs(log, cycle, i);
    if LocallyOverdue(log, cycle, i) {
      var rule :| IsLocal(rule) && Overdue(rule, log, cycle, i);
    }
  }

  /** The kinds that carry a substrate's identity and succession; the last stands for the other types in the set. */
  predicate IsIdentity(kind: NodeType) {
    || kind.GenesisEvent? || kind.InternalMortality? || kind.SuccessorChainUpdated? || kind.SuccessionCompleted?
    || kind.CultivationOrphaned? || kind.CultivationRecovered? || kind.BetRetired? || kind.Protected?
  }

  /** No scan of any log retires one of them, at any cycle. */
  lemma IdentityNeverDies(log: Log, cycle: nat, i: nat)
    requires WellFormed(log) && i < |log| && IsIdentity(log[i].kind)
    ensures !Retired(log, Scan(log, cycle), HashOf(log[i]))
  {
    if Retired(log, Scan(log, cycle), HashOf(log[i])) {
      var m, k := RetiredIsHit(log, cycle, |REGISTRY|, HashOf(log[i]));
    }
  }

  /** Nor anything younger than 1000 cycles, by whichever rule. */
  lemma YoungNeverDies(log: Log, cycle: nat, i: nat)
    requires WellFormed(log) && i < |log| && log[i].cycle + 1000 > cycle
    ensures !Retired(log, Scan(log, cycle), HashOf(log[i]))
  {
    if Retired(log, Scan(log, cycle), HashOf(log[i])) {
      var m, k := RetiredIsHit(log, cycle, |REGISTRY|, HashOf(log[i]));
      StageAppends(log, cycle, 0, m);
      HitIsOld(REGISTRY[m], Stage(log, cycle, m), CtxOf(log), cycle, k);
    }
  }

  lemma HitIsOld(rule: RuleId, log: Log, ctx: ScanCtx, cycle: nat, i: nat)
    requires Hit(rule, log, ctx, cycle, i)
    ensures log[i].cycle + 1000 <= cycle
  {
    match rule
    case StaleAxis => assert TouchedAxis(log[i].kind) == Some(log[i].kind.axis);
    case FailedEvolution =>
      var j: nat :| Outdone(log, FailureOf(log[i].kind.op), log[i], cycle, Grace(rule), j);
    case PlateSuperseded =>
      var j: nat :| Outdone(log, PlateSuperseding(HashOf(log[i])), log[i], cycle, Grace(rule), j);
    case _ =>
  }

  /** Anything else that nothing refers to is retired by the first scan 1000 cycles on, unless it is the tip. */
  lemma ForgottenDies(log: Log, cycle: nat, i: nat)
    requires WellFormed(log) && i < |log| - 1 && cycle > 1000 && log[i].cycle + 1000 <= cycle
    requires !IsIdentity(log[i].kind) && forall j :: 0 <= j < |log| ==> HashOf(log[i]) !in log[j].parents
    ensures Retired(log, Scan(log, cycle), HashOf(log[i]))
  {
    SeedRetiresChildless(log, cycle, i, |REGISTRY|);
  }
}
