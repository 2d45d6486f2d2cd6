/** One prune scan (substrate/src/prune.rs): six rules in order, each hit appending a tombstone the next rules see. */
module PruneScan {
  import opened Prelude
  import opened Dag
  import opened PruneRules
  import opened PruneDetectors
  import opened PruneDuplicates
  import opened Server

  function Category(rule: RuleId): string {
    match rule
    case OrphanPastGrace => "useless"
    case StaleAxis => "outdated"
    case FailedEvolution => "wrong"
    case DuplicateContent => "redundant"
    case Unreachable => "useless"
    case PlateSuperseded => "wrong"
  }

  function RuleName(rule: RuleId): string {
    match rule
    case OrphanPastGrace => "L0.seed.orphan_past_grace"
    case StaleAxis => "L1.outdated.axis_unrefreshed_past_window"
    case FailedEvolution => "L1.wrong.superseded_by_failed_evolution"
    case DuplicateContent => "L1.redundant.duplicate_content_subsumed"
    case Unreachable => "L1.useless.unreachable_from_live_roots"
    case PlateSuperseded => "L1.wrong.forged_understanding_superseded"
  }

  // -------------------------------------------------------------------------
  // The scan as a function of the log
  // -------------------------------------------------------------------------

  ghost function CtxOf(log: Log): ScanCtx {
    ScanCtx(set i | 0 <= i < |log| && log[i].kind.InternalMortality? && log[i].content.TombstoneBody? &&
                    log[i].content.killed.Some? :: log[i].content.killed.value,
            Tip(log))
  }

  function Entomb(log: Log, rule: RuleId, c: Candidate, cycle: nat): Log {
    Append(log, [c.part], InternalMortality(Category(rule)), cycle,
           TombstoneBody(RuleName(rule), Some(c.part), c.replacedBy, cycle))
  }

  function EntombAll(log: Log, rule: RuleId, cands: seq<Candidate>, cycle: nat): Log
    decreases |cands|
  {
    if |cands| == 0 then log
    else Entomb(EntombAll(log, rule, cands[..|cands| - 1], cycle), rule, cands[|cands| - 1], cycle)
  }

  /** The log after the first n rules of a scan that started from `log`. */
  ghost function Stage(log: Log, cycle: nat, n: nat): Log
    requires n <= |REGISTRY|
  {
    if n == 0 then log
    else
      var before := Stage(log, cycle, n - 1);
      EntombAll(before, REGISTRY[n - 1], Detect(REGISTRY[n - 1], before, CtxOf(log), cycle), cycle)
  }

  ghost function Scan(log: Log, cycle: nat): Log {
    Stage(log, cycle, |REGISTRY|)
  }

  // -------------------------------------------------------------------------
  // What a scan appends
  // -------------------------------------------------------------------------

  /** Node i is a tombstone: its parents are the node before it and the part it kills, nothing else. */
  ghost predicate IsScanTombstone(log: Log, i: nat, cycle: nat) {
    && i < |log|
    && log[i].kind.InternalMortality? && log[i].cycle == cycle
    && log[i].content.TombstoneBody? && log[i].content.killed.Some?
    && log[i].content.killed.value in log[i].parents
    && (i > 0 ==> HashOf(log[i - 1]) in log[i].parents)
    && (forall p :: p in log[i].parents ==> p == log[i].content.killed.value || (i > 0 && p == HashOf(log[i - 1])))
  }

  ghost predicate TombstonesAppended(a: Log, b: Log, cycle: nat) {
    a <= b && forall i :: |a| <= i < |b| ==> IsScanTombstone(b, i, cycle)
  }

  /** h was tombstoned after `a` and no later than `b`. */
  ghost predicate Retired(a: Log, b: Log, h: Hash) {
    exists i :: |a| <= i < |b| && Kills(b[i], h)
  }

  lemma EntombAppends(log: Log, rule: RuleId, c: Candidate, cycle: nat)
    requires WellFormed(log) && Has(log, c.part)
    ensures WellFormed(Entomb(log, rule, c, cycle))
    ensures TombstonesAppended(log, Entomb(log, rule, c, cycle), cycle)
    ensures |Entomb(log, rule, c, cycle)| == |log| + 1 && Kills(Entomb(log, rule, c, cycle)[|log|], c.part)
  {
    TipParentedInsertAppends(log, [c.part], InternalMortality(Category(rule)), cycle,
                             TombstoneBody(RuleName(rule), Some(c.part), c.replacedBy, cycle));
  }

  lemma TombstonesAppendedTransitive(a: Log, b: Log, c: Log, cycle: nat)
    requires TombstonesAppended(a, b, cycle) && TombstonesAppended(b, c, cycle)
    ensures TombstonesAppended(a, c, cycle)
  {
    forall i | |a| <= i < |c|
      ensures IsScanTombstone(c, i, cycle)
    {
      if i < |b| {
        assert IsScanTombstone(b, i, cycle);
      }
    }
  }

  lemma EntombExtends(start: Log, log: Log, rule: RuleId, c: Candidate, cycle: nat)
    requires WellFormed(log) && TombstonesAppended(start, log, cycle) && Has(start, c.part)
    ensures WellFormed(Entomb(log, rule, c, cycle))
    ensures TombstonesAppended(start, Entomb(log, rule, c, cycle), cycle)
  {
    PrefixHas(start, log, c.part);
    EntombAppends(log, rule, c, cycle);
    TombstonesAppendedTransitive(start, log, Entomb(log, rule, c, cycle), cycle);
  }

  lemma {:induction false} EntombAllAppends(log: Log, rule: RuleId, cands: seq<Candidate>, cycle: nat)
    requires WellFormed(log)
    requires forall k :: 0 <= k < |cands| ==> Has(log, cands[k].part)
    ensures WellFormed(EntombAll(log, rule, cands, cycle))
    ensures TombstonesAppended(log, EntombAll(log, rule, cands, cycle), cycle)
    decreases |cands|
  {
    if |cands| > 0 {
      var last := |cands| - 1;
      EntombAllAppends(log, rule, cands[..last], cycle);
      EntombExtends(log, EntombAll(log, rule, cands[..last], cycle), rule, cands[last], cycle);
    }
  }

  /** One tombstone per candidate, in order. */
  lemma EntombAllKills(log: Log, rule: RuleId, cands: seq<Candidate>, cycle: nat)
    ensures |EntombAll(log, rule, cands, cycle)| == |log| + |cands|
    ensures forall k :: 0 <= k < |cands| ==> Kills(EntombAll(log, rule, cands, cycle)[|log| + k], cands[k].part)
  {
    EntombAllLength(log, rule, cands, cycle);
    forall k: nat | k < |cands|
      ensures Kills(EntombAll(log, rule, cands, cycle)[|log| + k], cands[k].part)
    {
      EntombKillsAt(log, rule, cands, cycle, k);
    }
  }

  lemma {:induction false} EntombAllLength(log: Log, rule: RuleId, cands: seq<Candidate>, cycle: nat)
    ensures |EntombAll(log, rule, cands, cycle)| == |log| + |cands|
    decreases |cands|
  {
    if |cands| > 0 {
      EntombAllLength(log, rule, cands[..|cands| - 1], cycle);
    }
  }

  lemma {:induction false} EntombKillsAt(log: Log, rule: RuleId, cands: seq<Candidate>, cycle: nat, k: nat)
    requires k < |cands| && |EntombAll(log, rule, cands, cycle)| == |log| + |cands|
    ensures Kills(EntombAll(log, rule, cands, cycle)[|log| + k], cands[k].part)
    decreases |cands|
  {
    hide Entomb, Kills;
    var last := |cands| - 1;
    EntombAllLength(log, rule, cands[..last], cycle);
    EntombAddsOne(EntombAll(log, rule, cands[..last], cycle), rule, cands[last], cycle);
    if k < last {
      EntombKillsAt(log, rule, cands[..last], cycle, k);
    }
  }

  lemma EntombAddsOne(log: Log, rule: RuleId, c: Candidate, cycle: nat)
    ensures log <= Entomb(log, rule, c, cycle) && |Entomb(log, rule, c, cycle)| == |log| + 1
    ensures Kills(Entomb(log, rule, c, cycle)[|log|], c.part)
  {
  }

  lemma CandidatesAreInLog(rule: RuleId, log: Log, ctx: ScanCtx, cycle: nat)
    ensures forall k :: 0 <= k < |Detect(rule, log, ctx, cycle)| ==> Has(log, Detect(rule, log, ctx, cycle)[k].part)
  {
    forall k | 0 <= k < |Detect(rule, log, ctx, cycle)|
      ensures Has(log, Detect(rule, log, ctx, cycle)[k].part)
    {
      var i := ListedIsHit(rule, log, ctx, cycle, |log|, k);
      assert HashOf(log[i]) == Detect(rule, log, ctx, cycle)[k].part;
    }
  }

  lemma {:induction false} StageAppends(log: Log, cycle: nat, m: nat, n: nat)
    requires WellFormed(log) && m <= n <= |REGISTRY|
    ensures WellFormed(Stage(log, cycle, n))
    ensures TombstonesAppended(Stage(log, cycle, m), Stage(log, cycle, n), cycle)
    decreases n
  {
    if n > 0 {
      if m < n {
        StageAppends(log, cycle, m, n - 1);
      } else {
        StageAppends(log, cycle, 0, n - 1);
      }
      var before := Stage(log, cycle, n - 1);
      var cands := Detect(REGISTRY[n - 1], before, CtxOf(log), cycle);
      CandidatesAreInLog(REGISTRY[n - 1], before, CtxOf(log), cycle);
      EntombAllAppends(before, REGISTRY[n - 1], cands, cycle);
      if m < n {
        TombstonesAppendedTransitive(Stage(log, cycle, m), before, Stage(log, cycle, n), cycle);
      }
    }
  }

  // -------------------------------------------------------------------------
  // The scan itself
  // -------------------------------------------------------------------------

  /** Inserting a tombstone fails exactly when its victim is not in the log. */
  lemma TombstoneInserts(log: Log, part: Hash, kind: NodeType, cycle: nat, content: Content)
    requires WellFormed(log)
    ensures InsertNode(log, WithTip(log, [part]), kind, cycle, content) ==
            if Has(log, part) then Ok(Append(log, [part], kind, cycle, content)) else Err(ParentNotFound)
  {
    if Has(log, part) {
      TipParentedInsertAppends(log, [part], kind, cycle, content);
    } else {
      assert part in WithTip(log, [part]);
    }
  }

  /** The only way to declare an internal death: a tombstone parented by the tip and by the dead part. */
  method EmitInternalMortalityEvent(state: ServerState, rule: RuleId, part: Hash, replacedBy: Option<Hash>, cycle: nat)
    returns (r: Result<Hash, InsertError>)
    requires WellFormed(state.dag)
    modifies state`dag
    ensures r.Ok? <==> Has(old(state.dag), part)
    ensures r.Ok? ==> state.dag == Entomb(old(state.dag), rule, Candidate(part, replacedBy), cycle)
    ensures r.Ok? ==> Tip(state.dag) == Some(r.value)
    ensures r.Err? ==> state.dag == old(state.dag)
  {
    var content := TombstoneBody(RuleName(rule), Some(part), replacedBy, cycle);
    var parents := match Tip(state.dag) case Some(t) => [t] case None => [];
    if part !in parents {
      parents := parents + [part];
    }
    WithTipOne(state.dag, part);
    TombstoneInserts(state.dag, part, InternalMortality(Category(rule)), cycle, content);
    var inserted :- InsertNode(state.dag, parents, InternalMortality(Category(rule)), cycle, content);
    state.dag := inserted;
    r := Ok(Digest(parents, content));
  }

  datatype ScanReport = ScanReport(rulesRun: seq<RuleId>, tombstonesEmitted: seq<Hash>, atCycle: nat)

  method RunRule(rule: RuleId, log: Log, ctx: ScanCtx, cycle: nat) returns (candidates: seq<Candidate>)
    requires WellFormed(log)
    ensures candidates == Detect(rule, log, ctx, cycle)
  {
    match rule
    case OrphanPastGrace => candidates := DetectOrphanPastGrace(log, ctx, cycle);
    case StaleAxis => candidates := DetectStaleAxisPastWindow(log, ctx, cycle);
    case FailedEvolution => candidates := DetectSupersededByFailedEvolution(log, ctx, cycle);
    case DuplicateContent => candidates := DetectDuplicateContentSubsumed(log, ctx, cycle);
    case Unreachable => candidates := DetectUnreachableFromLiveRoots(log, ctx, cycle);
    case PlateSuperseded => candidates := DetectForgedUnderstandingSuperseded(log, ctx, cycle);
  }

  /** The hashes of the nodes of b beyond a. */
  ghost predicate ReportsSuffix(a: Log, b: Log, emitted: seq<Hash>) {
    |a| + |emitted| == |b| && forall k :: 0 <= k < |emitted| ==> emitted[k] == HashOf(b[|a| + k])
  }

  lemma ReportsNext(start: Log, log: Log, rule: RuleId, c: Candidate, cycle: nat, emitted: seq<Hash>, h: Hash)
    requires ReportsSuffix(start, log, emitted) && Tip(Entomb(log, rule, c, cycle)) == Some(h) && start <= log
    ensures ReportsSuffix(start, Entomb(log, rule, c, cycle), emitted + [h])
  {
    EntombAddsOne(log, rule, c, cycle);
  }

  lemma EntombNone(log: Log, rule: RuleId, cycle: nat)
    ensures EntombAll(log, rule, [], cycle) == log && ReportsSuffix(log, log, [])
  {
  }

  /** Every candidate is in the log, so no insertion of the scan can fail. */
  method EmitAll(state: ServerState, rule: RuleId, candidates: seq<Candidate>, cycle: nat) returns (emitted: seq<Hash>)
    requires WellFormed(state.dag)
    requires forall k :: 0 <= k < |candidates| ==> Has(state.dag, candidates[k].part)
    modifies state`dag
    ensures state.dag == EntombAll(old(state.dag), rule, candidates, cycle)
    ensures ReportsSuffix(old(state.dag), state.dag, emitted)
  {
    hide EntombAll, Entomb, ReportsSuffix, WellFormed, Has;
    EntombNone(state.dag, rule, cycle);
    emitted := [];
    for k := 0 to |candidates|
      invariant state.dag == EntombAll(old(state.dag), rule, candidates[..k], cycle)
      invariant ReportsSuffix(old(state.dag), state.dag, emitted) && old(state.dag) <= state.dag
    {
      ghost var before := state.dag;
      EmitReady(old(state.dag), rule, candidates, k, cycle);
      var tombstone := EmitInternalMortalityEvent(state, rule, candidates[k].part, candidates[k].replacedBy, cycle);
      ReportsNext(old(state.dag), before, rule, candidates[k], cycle, emitted, tombstone.value);
      emitted := emitted + [tombstone.value];
    }
    assert candidates[..|candidates|] == candidates;
  }

  lemma EmitReady(log: Log, rule: RuleId, candidates: seq<Candidate>, k: nat, cycle: nat)
    requires WellFormed(log) && k < |candidates|
    requires forall m :: 0 <= m < |candidates| ==> Has(log, candidates[m].part)
    ensures WellFormed(EntombAll(log, rule, candidates[..k], cycle))
    ensures Has(EntombAll(log, rule, candidates[..k], cycle), candidates[k].part)
    ensures log <= EntombAll(log, rule, candidates[..k + 1], cycle)
    ensures EntombAll(log, rule, candidates[..k + 1], cycle) ==
            Entomb(EntombAll(log, rule, candidates[..k], cycle), rule, candidates[k], cycle)
  {
    var before := EntombAll(log, rule, candidates[..k], cycle);
    EntombAllAppends(log, rule, candidates[..k], cycle);
    assert candidates[..k + 1][..k] == candidates[..k];
    PrefixHas(log, before, candidates[k].part);
    EntombAddsOne(before, rule, candidates[k], cycle);
  }

  lemma ReportsJoin(a: Log, b: Log, c: Log, first: seq<Hash>, second: seq<Hash>)
    requires ReportsSuffix(a, b, first) && ReportsSuffix(b, c, second) && b <= c
    ensures ReportsSuffix(a, c, first + second)
  {
  }

  method RunOneRule(state: ServerState, rule: RuleId, ctx: ScanCtx, cycle: nat) returns (tombstones: seq<Hash>)
    requires WellFormed(state.dag)
    modifies state`dag
    ensures state.dag == EntombAll(old(state.dag), rule, Detect(rule, old(state.dag), ctx, cycle), cycle)
    ensures ReportsSuffix(old(state.dag), state.dag, tombstones) && old(state.dag) <= state.dag
  {
    var candidates := RunRule(rule, state.dag, ctx, cycle);
    CandidatesAreInLog(rule, state.dag, ctx, cycle);
    EntombAllAppends(state.dag, rule, candidates, cycle);
    tombstones := EmitAll(state, rule, candidates, cycle);
  }

  method RunPruneScan(state: ServerState, cycle: nat) returns (report: ScanReport)
    requires WellFormed(state.dag)
    modifies state`dag
    ensures state.dag == Scan(old(state.dag), cycle)
    ensures report.rulesRun == REGISTRY && report.atCycle == cycle
    ensures ReportsSuffix(old(state.dag), state.dag, report.tombstonesEmitted)
  {
    hide EntombAll, Detect;
    ghost var start := state.dag;
    var dead := CollectAlreadyTombstoned(state.dag);
    var ctx := ScanCtx(dead, Tip(state.dag));
    CtxIsExact(start, ctx);
    report := ScanReport([], [], cycle);
    for n := 0 to |REGISTRY|
      invariant state.dag == Stage(start, cycle, n)
      invariant report.rulesRun == REGISTRY[..n] && report.atCycle == cycle
      invariant ReportsSuffix(start, state.dag, report.tombstonesEmitted)
    {
      StageAppends(start, cycle, 0, n);
      ghost var before := state.dag;
      var tombstones := RunOneRule(state, REGISTRY[n], ctx, cycle);
      ReportsJoin(start, before, state.dag, report.tombstonesEmitted, tombstones);
      report := ScanReport(report.rulesRun + [REGISTRY[n]], report.tombstonesEmitted + tombstones, cycle);
    }
  }

  lemma CtxIsExact(log: Log, ctx: ScanCtx)
    requires forall h :: h in ctx.alreadyTombstoned <==> Tombstoned(log, h)
    requires ctx.tip == Tip(log)
    ensures ctx == CtxOf(log)
  {
    forall h
      ensures h in ctx.alreadyTombstoned <==> h in CtxOf(log).alreadyTombstoned
    {
      InCtx(log, h);
    }
  }

  lemma InCtx(log: Log, h: Hash)
    ensures h in CtxOf(log).alreadyTombstoned <==> Tombstoned(log, h)
  {
    if Tombstoned(log, h) {
      var i :| 0 <= i < |log| && Kills(log[i], h);
    }
  }
}
