/**
 What each internal-mortality rule means (substrate/src/prune.rs), stated over the
 log without maps, stacks or passes. The detectors in PruneDetectors compute these.
 */
module PruneRules {
  import opened Prelude
  import opened Dag

  const ORPHAN_GRACE_CYCLES: nat := 1000
  const STALE_AXIS_GRACE_CYCLES: nat := 2000
  const ERRONEOUS_GRACE_CYCLES: nat := 1000
  const PLATE_SUPERSEDED_GRACE_CYCLES: nat := 1000
  const REDUNDANT_GRACE_CYCLES: nat := 1000

  datatype RuleId = OrphanPastGrace | StaleAxis | FailedEvolution | DuplicateContent | Unreachable | PlateSuperseded

  /** Registration order is scan order; the seed rule comes first. */
  const REGISTRY: seq<RuleId> :=
      [OrphanPastGrace, StaleAxis, FailedEvolution, DuplicateContent, Unreachable, PlateSuperseded]

  datatype Candidate = Candidate(part: Hash, replacedBy: Option<Hash>)

  /** Fixed once per scan, before any rule runs. */
  datatype ScanCtx = ScanCtx(alreadyTombstoned: set<Hash>, tip: Option<Hash>)

  /** The P10 invariant set. */
  predicate IsProtected(kind: NodeType) {
    kind.GenesisEvent? || kind.InternalMortality? || kind.SuccessorChainUpdated? || kind.SuccessionCompleted? ||
    kind.CultivationOrphaned? || kind.CultivationRecovered? || kind.BetRetired? || kind.Protected?
  }

  predicate IsPruneEligible(n: Node, ctx: ScanCtx) {
    !IsProtected(n.kind) && Some(HashOf(n)) != ctx.tip && HashOf(n) !in ctx.alreadyTombstoned
  }

  /** n is a tombstone naming h as the part it killed. */
  predicate Kills(n: Node, h: Hash) {
    n.kind.InternalMortality? && n.content.TombstoneBody? && n.content.killed == Some(h)
  }

  predicate Tombstoned(log: Log, h: Hash) {
    exists i :: 0 <= i < |log| && Kills(log[i], h)
  }

  // -------------------------------------------------------------------------
  // Rule A: axes
  // -------------------------------------------------------------------------

  function TouchedAxis(kind: NodeType): Option<string> {
    match kind
    case AxisRegistered(a) => Some(a)
    case AxisPerturbed(a) => Some(a)
    case AxisReset(a) => Some(a)
    case _ => None
  }

  /** No registration, perturbation or reset of the axis after the cutoff. */
  ghost predicate Untouched(log: Log, axis: string, cutoff: nat) {
    forall j :: 0 <= j < |log| && TouchedAxis(log[j].kind) == Some(axis) ==> log[j].cycle <= cutoff
  }

  // -------------------------------------------------------------------------
  // Rules B and E: the newest node that contradicts or replaces a part
  // -------------------------------------------------------------------------

  datatype Query = FailureOf(op: string) | PlateSuperseding(target: Hash)

  predicate Matches(q: Query, n: Node) {
    match q
    case FailureOf(op) => n.kind == EvolutionFailed(op)
    case PlateSuperseding(h) =>
      n.kind.ForgedUnderstanding? && n.content.PlateBody? && n.content.supersedes.Some? &&
          h in n.content.supersedes.value
  }

  /** j is the match with the greatest cycle, the last inserted among equals. */
  ghost predicate IsNewest(log: Log, q: Query, j: nat) {
    && j < |log| && Matches(q, log[j])
    && (forall k :: 0 <= k < |log| && Matches(q, log[k]) ==>
          log[k].cycle < log[j].cycle || (log[k].cycle == log[j].cycle && k <= j))
  }

  /** The part n is outdone by node j, and j itself is past its grace window. */
  ghost predicate Outdone(log: Log, q: Query, n: Node, cycle: nat, grace: nat, j: nat) {
    IsNewest(log, q, j) && n.cycle < log[j].cycle && log[j].cycle + grace < cycle
  }

  ghost function OutdoneVerdict(log: Log, q: Query, n: Node, cycle: nat, grace: nat): (r: Option<Candidate>)
    ensures r.Some? <==> exists j: nat :: Outdone(log, q, n, cycle, grace, j)
    ensures r.Some? ==> r.value.part == HashOf(n)
    ensures forall j: nat :: Outdone(log, q, n, cycle, grace, j) ==>
      r == Some(Candidate(HashOf(n), Some(HashOf(log[j]))))
  {
    if exists j: nat :: Outdone(log, q, n, cycle, grace, j) then
      var j: nat :| Outdone(log, q, n, cycle, grace, j);
      Some(Candidate(HashOf(n), Some(HashOf(log[j]))))
    else None
  }

  // -------------------------------------------------------------------------
  // Rule C: duplicates
  // -------------------------------------------------------------------------

  predicate RedundantInScope(kind: NodeType) {
    kind.RawMaterial? || kind.Sporocarp?
  }

  predicate SameKey(a: Node, b: Node) {
    a.kind == b.kind && a.content == b.content
  }

  ghost predicate IsFirstOccurrence(log: Log, i: nat)
    requires i < |log|
  {
    forall j :: 0 <= j < i ==> !SameKey(log[j], log[i])
  }

  /** j is the first later node identical to i in type and content. */
  ghost predicate IsNextCopy(log: Log, i: nat, j: nat) {
    && i < j < |log| && SameKey(log[j], log[i]) && HashOf(log[j]) != HashOf(log[i])
    && (forall k :: i < k < j && SameKey(log[k], log[i]) ==> HashOf(log[k]) == HashOf(log[i]))
  }

  // -------------------------------------------------------------------------
  // Rule D: reachability from live roots
  // -------------------------------------------------------------------------

  /** The tip, or a parent of a node younger than the grace window. */
  predicate IsLiveRoot(log: Log, cycle: nat, h: Hash) {
    Tip(log) == Some(h) ||
        exists i :: 0 <= i < |log| && log[i].cycle > SatSub(cycle, ORPHAN_GRACE_CYCLES) && h in log[i].parents
  }

  /** Node i is a live root or an ancestor of one. */
  ghost predicate Live(log: Log, cycle: nat, i: nat)
    requires i < |log|
  {
    exists r :: 0 <= r < |log| && IsLiveRoot(log, cycle, HashOf(log[r])) && Reaches(log, r, i)
  }

  // -------------------------------------------------------------------------
  // Verdicts
  // -------------------------------------------------------------------------

  function Grace(rule: RuleId): nat {
    match rule
    case OrphanPastGrace => ORPHAN_GRACE_CYCLES
    case StaleAxis => STALE_AXIS_GRACE_CYCLES
    case FailedEvolution => ERRONEOUS_GRACE_CYCLES
    case DuplicateContent => REDUNDANT_GRACE_CYCLES
    case Unreachable => ORPHAN_GRACE_CYCLES
    case PlateSuperseded => PLATE_SUPERSEDED_GRACE_CYCLES
  }

  /** What a rule says of node i in a scan at `cycle`. */
  ghost function Verdict(rule: RuleId, log: Log, ctx: ScanCtx, cycle: nat, i: nat): (r: Option<Candidate>)
    requires i < |log| && cycle > Grace(rule)
    ensures r.Some? ==> r.value.part == HashOf(log[i]) && !IsProtected(log[i].kind) && Some(HashOf(log[i])) != ctx.tip
  {
    var n := log[i];
    var cutoff := cycle - Grace(rule);
    match rule
    case OrphanPastGrace =>
      if n.cycle <= cutoff && !IsProtected(n.kind) && Some(HashOf(n)) != ctx.tip && !References(log, HashOf(n))
      then Some(Candidate(HashOf(n), None)) else None
    case StaleAxis =>
      if n.kind.AxisRegistered? && Untouched(log, n.kind.axis, cutoff) && IsPruneEligible(n, ctx)
      then Some(Candidate(HashOf(n), None)) else None
    case FailedEvolution =>
      if n.kind.EvolutionSucceeded? && IsPruneEligible(n, ctx)
      then OutdoneVerdict(log, FailureOf(n.kind.op), n, cycle, Grace(rule)) else None
    case DuplicateContent =>
      if RedundantInScope(n.kind) && IsFirstOccurrence(log, i) && n.cycle <= cutoff && IsPruneEligible(n, ctx) &&
         exists j: nat :: IsNextCopy(log, i, j)
      then var j: nat :| IsNextCopy(log, i, j); Some(Candidate(HashOf(n), Some(HashOf(log[j]))))
      else None
    case Unreachable =>
      if n.cycle <= cutoff && References(log, HashOf(n)) && !Live(log, cycle, i) && IsPruneEligible(n, ctx)
      then Some(Candidate(HashOf(n), None)) else None
    case PlateSuperseded =>
      if n.kind.ForgedUnderstanding? && IsPruneEligible(n, ctx)
      then OutdoneVerdict(log, PlateSuperseding(HashOf(n)), n, cycle, Grace(rule)) else None
  }

  ghost predicate Hit(rule: RuleId, log: Log, ctx: ScanCtx, cycle: nat, i: nat) {
    i < |log| && cycle > Grace(rule) && Verdict(rule, log, ctx, cycle, i).Some?
  }

  /** The candidates among the first n nodes, in insertion order. */
  ghost function Collect(rule: RuleId, log: Log, ctx: ScanCtx, cycle: nat, n: nat): seq<Candidate>
    requires n <= |log|
  {
    if n == 0 then []
    else
      var rest := Collect(rule, log, ctx, cycle, n - 1);
      if Hit(rule, log, ctx, cycle, n - 1) then rest + [Verdict(rule, log, ctx, cycle, n - 1).value] else rest
  }

  /** Everything the rule retires, in emission order. */
  ghost function Detect(rule: RuleId, log: Log, ctx: ScanCtx, cycle: nat): seq<Candidate> {
    Collect(rule, log, ctx, cycle, |log|)
  }

  ghost predicate IsVerdictOn(c: Candidate, rule: RuleId, log: Log, ctx: ScanCtx, cycle: nat, i: nat) {
    Hit(rule, log, ctx, cycle, i) && c == Verdict(rule, log, ctx, cycle, i).value
  }

  lemma CollectNone(rule: RuleId, log: Log, ctx: ScanCtx, cycle: nat)
    ensures Collect(rule, log, ctx, cycle, 0) == []
  {
  }

  /** What one more node adds to the list. */
  lemma CollectNext(rule: RuleId, log: Log, ctx: ScanCtx, cycle: nat, i: nat)
    requires i < |log| && cycle > Grace(rule)
    ensures Collect(rule, log, ctx, cycle, i + 1) ==
            match Verdict(rule, log, ctx, cycle, i)
            case Some(c) => Collect(rule, log, ctx, cycle, i) + [c]
            case None => Collect(rule, log, ctx, cycle, i)
  {
    hide Verdict;
  }

  /** Whatever a rule lists is its verdict on some node. */
  lemma {:induction false} ListedIsHit(rule: RuleId, log: Log, ctx: ScanCtx, cycle: nat, n: nat, k: nat)
      returns (i: nat)
    requires n <= |log| && k < |Collect(rule, log, ctx, cycle, n)|
    ensures i < n && IsVerdictOn(Collect(rule, log, ctx, cycle, n)[k], rule, log, ctx, cycle, i)
  {
    if k < |Collect(rule, log, ctx, cycle, n - 1)| {
      i := ListedIsHit(rule, log, ctx, cycle, n - 1, k);
    } else {
      i := n - 1;
    }
  }

  /** Whatever a rule hits is listed. */
  lemma {:induction false} HitIsListed(rule: RuleId, log: Log, ctx: ScanCtx, cycle: nat, n: nat, i: nat)
      returns (k: nat)
    requires i < n <= |log| && Hit(rule, log, ctx, cycle, i)
    ensures k < |Collect(rule, log, ctx, cycle, n)|
    ensures Collect(rule, log, ctx, cycle, n)[k] == Verdict(rule, log, ctx, cycle, i).value
  {
    hide Verdict;
    var rest := Collect(rule, log, ctx, cycle, n - 1);
    if i == n - 1 {
      k := |rest|;
      assert Collect(rule, log, ctx, cycle, n) == rest + [Verdict(rule, log, ctx, cycle, n - 1).value];
    } else {
      k := HitIsListed(rule, log, ctx, cycle, n - 1, i);
      assert rest <= Collect(rule, log, ctx, cycle, n);
    }
  }

  /** Inside the grace window of the whole substrate a rule lists nothing. */
  lemma {:induction false} NothingBeforeGrace(rule: RuleId, log: Log, ctx: ScanCtx, cycle: nat, n: nat)
    requires n <= |log| && cycle <= Grace(rule)
    ensures Collect(rule, log, ctx, cycle, n) == []
  {
    if n > 0 {
      NothingBeforeGrace(rule, log, ctx, cycle, n - 1);
    }
  }

  ghost predicate Lists(cands: seq<Candidate>, h: Hash) {
    exists k :: 0 <= k < |cands| && cands[k].part == h
  }

  /** A rule retires exactly the nodes it hits, and in a well-formed log each of them once. */
  lemma DetectIsExact(rule: RuleId, log: Log, ctx: ScanCtx, cycle: nat, i: nat)
    requires WellFormed(log) && i < |log|
    ensures Lists(Detect(rule, log, ctx, cycle), HashOf(log[i])) <==> Hit(rule, log, ctx, cycle, i)
  {
    var cands := Detect(rule, log, ctx, cycle);
    if Lists(cands, HashOf(log[i])) {
      var k :| 0 <= k < |cands| && cands[k].part == HashOf(log[i]);
      var j := ListedIsHit(rule, log, ctx, cycle, |log|, k);
      assert HashOf(log[j]) == HashOf(log[i]);
      assert i == j;
    }
    if Hit(rule, log, ctx, cycle, i) {
      var k := HitIsListed(rule, log, ctx, cycle, |log|, i);
    }
  }

  lemma {:induction false} ListedOnce(rule: RuleId, log: Log, ctx: ScanCtx, cycle: nat, n: nat, k: nat, m: nat)
    requires WellFormed(log) && n <= |log| && k < m < |Collect(rule, log, ctx, cycle, n)|
    ensures Collect(rule, log, ctx, cycle, n)[k].part != Collect(rule, log, ctx, cycle, n)[m].part
  {
    hide Verdict;
    if m < |Collect(rule, log, ctx, cycle, n - 1)| {
      ListedOnce(rule, log, ctx, cycle, n - 1, k, m);
    } else {
      var i := ListedIsHit(rule, log, ctx, cycle, n - 1, k);
      assert HashOf(log[i]) != HashOf(log[n - 1]);
    }
  }
}
