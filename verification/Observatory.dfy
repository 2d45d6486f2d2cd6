/**
 The saturation stage machine and the budget alarms (substrate/src/observatory.rs). The live
 counters are kept step by step; here they are functions of the samples seen since boot.
 */
module Observatory {
  import opened Prelude
  import opened Dag
  import opened Server
  import opened Ingest

  const BUDGET_EXHAUSTED_COOLDOWN_CYCLES: nat := 10
  const C53_CHECK_WINDOW_CYCLES: nat := 50

  predicate Exceeds(b: CostBudgets, c: Cost, axis: CostAxis) {
    match axis
    case Compute => c.computeNs > b.computeNs
    case Network => c.networkBytes > b.networkBytes
    case Storage => c.storageBytes > b.storageBytes
  }

  predicate Over(b: CostBudgets, c: Cost) {
    Exceeds(b, c, Compute) || Exceeds(b, c, Network) || Exceeds(b, c, Storage)
  }

  // -------------------------------------------------------------------------
  // The machine as a function of the samples
  // -------------------------------------------------------------------------

  /** How many samples at the end are over budget. */
  function OverRun(b: CostBudgets, h: seq<Sample>): nat {
    if |h| == 0 || !Over(b, h[|h| - 1].cost) then 0 else OverRun(b, h[..|h| - 1]) + 1
  }

  /** How many samples at the end are over budget and past the eligibility floor. */
  function LateRun(b: CostBudgets, h: seq<Sample>): nat {
    if |h| == 0 || !Over(b, h[|h| - 1].cost) || h[|h| - 1].cycle < b.eligibilityFloor then 0
    else LateRun(b, h[..|h| - 1]) + 1
  }

  /** How long saturation has lasted: max(0, run - threshold + 1), or the whole run without a threshold. */
  function SaturatedRun(b: CostBudgets, h: seq<Sample>): nat {
    if b.saturationThreshold == 0 then LateRun(b, h) else SatSub(LateRun(b, h) + 1, b.saturationThreshold)
  }

  function StageOf(b: CostBudgets, h: seq<Sample>): SaturationStage {
    if OverRun(b, h) == 0 then SaturationStage.Normal
    else if LateRun(b, h) == 0 then PreEligibility
    else if SaturatedRun(b, h) == 0 then PostEligibility
    else Saturated
  }

  /** The saturation count at which mortality is proposed. */
  function ProposalMark(b: CostBudgets): nat {
    if b.mortalityThreshold == 0 then 1 else b.mortalityThreshold
  }

  predicate Ordered(h: seq<Sample>) {
    forall i, j :: 0 <= i < j < |h| ==> h[i].cycle <= h[j].cycle
  }

  /** A u64 that stops at its maximum. */
  function Capped(x: nat): nat {
    if x < U64_MAX then x else U64_MAX
  }

  predicate IsU64Budgets(b: CostBudgets) {
    b.eligibilityFloor <= U64_MAX && b.saturationThreshold <= U64_MAX && b.mortalityThreshold <= U64_MAX
  }

  /** The live counters, stage and proposal memory are those of the samples h. */
  ghost predicate StageAgrees(b: CostBudgets, h: seq<Sample>, exhausted: nat, postEligibility: nat, saturated: nat,
                              stage: SaturationStage, proposed: bool)
  {
    && exhausted == Capped(OverRun(b, h))
    && postEligibility == Capped(LateRun(b, h))
    && saturated == Capped(SaturatedRun(b, h))
    && stage == StageOf(b, h)
    && (proposed <==> SaturatedRun(b, h) >= ProposalMark(b))
  }

  ghost predicate RefinesStage(state: ServerState, h: seq<Sample>)
    reads state`budgets, state`exhaustedCycles, state`postEligibilityCycles, state`saturatedCycles,
          state`saturationStage, state`lastProposal
  {
    StageAgrees(state.budgets, h, state.exhaustedCycles, state.postEligibilityCycles, state.saturatedCycles,
                state.saturationStage, state.lastProposal.Some?)
  }

  /** Mortality is proposed at sample i. */
  predicate ProposesAt(b: CostBudgets, h: seq<Sample>, i: nat) {
    i < |h| && SaturatedRun(b, h[..i + 1]) == ProposalMark(b)
  }

  // -------------------------------------------------------------------------
  // Properties of the machine
  // -------------------------------------------------------------------------

  /** Saturated is left to Normal, unless the counter falls below the floor again. */
  lemma SaturatedIsLeftToNormal(b: CostBudgets, h: seq<Sample>, x: Sample)
    requires StageOf(b, h) == Saturated
    ensures (StageOf(b, h + [x]) == Saturated || StageOf(b, h + [x]) == SaturationStage.Normal) <==>
            !Over(b, x.cost) || x.cycle >= b.eligibilityFloor
    ensures Ordered(h + [x]) ==> x.cycle >= b.eligibilityFloor
  {
    assert (h + [x])[..|h|] == h;
    assert (h + [x])[|h| - 1] == h[|h| - 1];
  }

  /** While a run lasts and cycles do not fall, saturation grows by one a sample once it has begun. */
  lemma {:induction false} SaturationGrows(b: CostBudgets, h: seq<Sample>, i: nat, j: nat)
    requires Ordered(h) && i <= j < |h| && SaturatedRun(b, h[..i + 1]) > 0
    requires forall k :: i < k <= j ==> Over(b, h[k].cost)
    ensures SaturatedRun(b, h[..j + 1]) == SaturatedRun(b, h[..i + 1]) + (j - i)
    decreases j
  {
    if i < j {
      SaturationGrows(b, h, i, j - 1);
      assert h[..j + 1][..j] == h[..j];
      assert h[..j - 1 + 1] == h[..j];
      assert h[..j][|h[..j]| - 1] == h[j - 1];
    }
  }

  /** Each maximal over-budget run proposes mortality at most once. */
  lemma OneProposalPerRun(b: CostBudgets, h: seq<Sample>, i: nat, j: nat)
    requires Ordered(h) && i < j && ProposesAt(b, h, i) && ProposesAt(b, h, j)
    ensures exists k :: i < k < j && !Over(b, h[k].cost)
  {
    if forall k :: i < k < j ==> Over(b, h[k].cost) {
      SaturationGrows(b, h, i, j);
    }
  }

  /** A run whose saturation has reached the mark proposed it, at the sample that reached it. */
  lemma {:induction false} SaturatedRunProposed(b: CostBudgets, h: seq<Sample>) returns (i: nat)
    requires SaturatedRun(b, h) >= ProposalMark(b)
    ensures ProposesAt(b, h, i) && |h| - OverRun(b, h) <= i
    ensures i == |h| - 1 - (SaturatedRun(b, h) - ProposalMark(b))
  {
    var front := h[..|h| - 1];
    if SaturatedRun(b, h) == ProposalMark(b) {
      i := |h| - 1;
      assert h[..i + 1] == h;
    } else {
      i := SaturatedRunProposed(b, front);
      assert front[..i + 1] == h[..i + 1];
    }
  }

  /** What one more sample does to the run lengths. */
  lemma RunsStep(b: CostBudgets, h: seq<Sample>, x: Sample)
    ensures OverRun(b, h + [x]) == if Over(b, x.cost) then OverRun(b, h) + 1 else 0
    ensures LateRun(b, h + [x]) == if Over(b, x.cost) && x.cycle >= b.eligibilityFloor then LateRun(b, h) + 1 else 0
  {
    assert (h + [x])[..|h|] == h;
  }

  // -------------------------------------------------------------------------
  // The machine
  // -------------------------------------------------------------------------

  method P11cAdvanceStage(state: ServerState, anyExceeded: bool) returns (stage: SaturationStage)
    ensures stage == if !anyExceeded then SaturationStage.Normal
                     else if state.cycleCounter < state.budgets.eligibilityFloor then PreEligibility
                     else if SatInc(state.postEligibilityCycles) >= state.budgets.saturationThreshold then Saturated
                     else PostEligibility
  {
    if !anyExceeded { return SaturationStage.Normal; }
    if state.cycleCounter < state.budgets.eligibilityFloor { return PreEligibility; }
    var next := SatInc(state.postEligibilityCycles);
    stage := if next >= state.budgets.saturationThreshold then Saturated else PostEligibility;
  }

  /** g is h with one more sample: the live cycle's. */
  ghost predicate Grows(state: ServerState, cost: Cost, h: seq<Sample>, g: seq<Sample>)
    reads state`cycleCounter
  {
    g == h + [Sample.Sample(state.cycleCounter, cost)] && Ordered(g)
  }

  /** The machine has taken in the last sample, except for the proposal that sample may call for. */
  ghost predicate CountersRefine(state: ServerState, g: seq<Sample>)
    reads state`budgets, state`exhaustedCycles, state`postEligibilityCycles, state`saturatedCycles,
          state`saturationStage, state`lastProposal
  {
    var b := state.budgets;
    && state.exhaustedCycles == Capped(OverRun(b, g))
    && state.postEligibilityCycles == Capped(LateRun(b, g))
    && state.saturatedCycles == Capped(SaturatedRun(b, g))
    && state.saturationStage == StageOf(b, g)
    && (state.lastProposal.Some? <==> SaturatedRun(b, g) > ProposalMark(b))
  }

  /** The counters after one sample: still the functions of the longer history. */
  method AdvanceCounters(state: ServerState, cost: Cost, ghost h: seq<Sample>, ghost g: seq<Sample>)
    requires IsU64Budgets(state.budgets) && RefinesStage(state, h) && Grows(state, cost, h, g)
    modifies state`exhaustedCycles, state`saturationStage, state`postEligibilityCycles, state`saturatedCycles,
        state`lastProposal
    ensures CountersRefine(state, g)
  {
    var anyExceeded := Over(state.budgets, cost);
    RunsStep(state.budgets, h, Sample.Sample(state.cycleCounter, cost));
    if |h| > 0 {
      assert g[|h| - 1] == h[|h| - 1];
    }
    state.exhaustedCycles := if anyExceeded then SatInc(state.exhaustedCycles) else 0;
    var stage := P11cAdvanceStage(state, anyExceeded);
    state.saturationStage := stage;
    match stage
    case PostEligibility =>
      state.postEligibilityCycles := SatInc(state.postEligibilityCycles);
      state.saturatedCycles := 0;
    case Saturated =>
      state.postEligibilityCycles := SatInc(state.postEligibilityCycles);
      state.saturatedCycles := SatInc(state.saturatedCycles);
    case Normal =>
      state.postEligibilityCycles, state.saturatedCycles := 0, 0;
      state.lastProposal := None;
    case PreEligibility =>
      state.postEligibilityCycles, state.saturatedCycles := 0, 0;
  }

  // -------------------------------------------------------------------------
  // Budget alarms
  // -------------------------------------------------------------------------

  predicate Cooled(last: Option<nat>, cycle: nat) {
    last.None? || SatSub(cycle, last.value) >= BUDGET_EXHAUSTED_COOLDOWN_CYCLES
  }

  /** The cycle of the last alarm for an axis. */
  function LastAlarm(b: CostBudgets, h: seq<Sample>, axis: CostAxis): Option<nat> {
    if |h| == 0 then None
    else
      var x := h[|h| - 1];
      var prior := LastAlarm(b, h[..|h| - 1], axis);
      if Exceeds(b, x.cost, axis) && Cooled(prior, x.cycle) then Some(x.cycle) else prior
  }

  /** An alarm for the axis is raised at sample i. */
  predicate Alarms(b: CostBudgets, h: seq<Sample>, axis: CostAxis, i: nat) {
    i < |h| && Exceeds(b, h[i].cost, axis) && Cooled(LastAlarm(b, h[..i], axis), h[i].cycle)
  }

  /** The last alarm is an alarm, and every one is at or before it. */
  lemma {:induction false} LastAlarmIsLast(b: CostBudgets, h: seq<Sample>, axis: CostAxis)
    requires Ordered(h)
    ensures LastAlarm(b, h, axis).Some? ==>
      exists j: nat :: Alarms(b, h, axis, j) && h[j].cycle == LastAlarm(b, h, axis).value
    ensures forall j: nat :: Alarms(b, h, axis, j) ==>
      LastAlarm(b, h, axis).Some? && h[j].cycle <= LastAlarm(b, h, axis).value
    decreases |h|
  {
    if |h| > 0 {
      var n := |h| - 1;
      LastAlarmIsLast(b, h[..n], axis);
      forall j: nat | j < n
        ensures Alarms(b, h, axis, j) <==> Alarms(b, h[..n], axis, j)
      {
        assert h[..n][..j] == h[..j];
      }
      if LastAlarm(b, h[..n], axis).Some? {
        var j: nat :| Alarms(b, h[..n], axis, j) && h[..n][j].cycle == LastAlarm(b, h[..n], axis).value;
        assert Alarms(b, h, axis, j) && h[j].cycle == LastAlarm(b, h[..n], axis).value;
      }
      assert Alarms(b, h, axis, n) <==> Exceeds(b, h[n].cost, axis) && Cooled(LastAlarm(b, h[..n], axis), h[n].cycle);
    }
  }

  lemma AlarmInPrefix(b: CostBudgets, h: seq<Sample>, axis: CostAxis, i: nat, j: nat)
    requires j <= |h| && i < j
    ensures Alarms(b, h[..j], axis, i) <==> Alarms(b, h, axis, i)
  {
    assert h[..j][..i] == h[..i];
  }

  /** Two alarms for one axis are at least ten cycles apart. */
  lemma AlarmsAreSpaced(b: CostBudgets, h: seq<Sample>, axis: CostAxis, i: nat, j: nat)
    requires Ordered(h) && i < j && Alarms(b, h, axis, i) && Alarms(b, h, axis, j)
    ensures h[j].cycle >= h[i].cycle + BUDGET_EXHAUSTED_COOLDOWN_CYCLES
  {
    AlarmInPrefix(b, h, axis, i, j);
    LastAlarmIsLast(b, h[..j], axis);
  }

  /** Whenever an axis is over budget there is an alarm for it within the last ten cycles. */
  lemma ExceedingIsAlarmed(b: CostBudgets, h: seq<Sample>, axis: CostAxis, i: nat) returns (j: nat)
    requires Ordered(h) && i < |h| && Exceeds(b, h[i].cost, axis)
    ensures j <= i && Alarms(b, h, axis, j) && h[i].cycle < h[j].cycle + BUDGET_EXHAUSTED_COOLDOWN_CYCLES
  {
    if Cooled(LastAlarm(b, h[..i], axis), h[i].cycle) {
      j := i;
    } else {
      LastAlarmIsLast(b, h[..i], axis);
      j :| Alarms(b, h[..i], axis, j) && h[..i][j].cycle == LastAlarm(b, h[..i], axis).value;
      AlarmInPrefix(b, h, axis, j, i);
    }
  }

  /** The log holds an alarm for the axis created at the given cycle. */
  predicate IsAlarmLogged(log: Log, axis: CostAxis, cycle: nat) {
    exists i :: 0 <= i < |log| && log[i].kind == NodeType.BudgetExhausted(AxisName(axis)) && log[i].cycle == cycle
  }

  /** The alarm memory for the axis agrees with the samples h and with the log. */
  ghost predicate AlarmAgrees(last: map<CostAxis, nat>, log: Log, b: CostBudgets, h: seq<Sample>, axis: CostAxis) {
    && (axis in last <==> LastAlarm(b, h, axis).Some?)
    && (axis in last ==> last[axis] == LastAlarm(b, h, axis).value && IsAlarmLogged(log, axis, last[axis]))
  }

  ghost predicate AlarmsAgree(last: map<CostAxis, nat>, log: Log, b: CostBudgets, h: seq<Sample>) {
    AlarmAgrees(last, log, b, h, Compute) && AlarmAgrees(last, log, b, h, Network) &&
        AlarmAgrees(last, log, b, h, Storage)
  }

  ghost predicate RefinesAlarms(state: ServerState, h: seq<Sample>)
    reads state`budgets, state`dag, state`lastExhausted
  {
    AlarmsAgree(state.lastExhausted, state.dag, state.budgets, h)
  }

  // -------------------------------------------------------------------------
  // Emission
  // -------------------------------------------------------------------------

  function TransitionNotes(prev: SaturationStage, next: SaturationStage): seq<Note> {
    if prev == next then []
    else if next == Saturated then [RawNote(Other("substrate_saturated"), Opaque([]))]
    else if next == SaturationStage.Normal then [RawNote(Other("substrate_normal_restored"), Opaque([]))]
    else []
  }

  const PROPOSAL: Note := RawNote(SelfEuthanasiaProposal("metabolic_saturation"), Opaque([]))

  function ProposalNotes(b: CostBudgets, h: seq<Sample>): seq<Note>
    requires |h| > 0
  {
    if ProposesAt(b, h, |h| - 1) then [PROPOSAL] else []
  }

  function AlarmNotes(b: CostBudgets, h: seq<Sample>, axis: CostAxis): seq<Note>
    requires |h| > 0
  {
    if Alarms(b, h, axis, |h| - 1) then [AlarmNote(axis)] else []
  }

  function AllAlarmNotes(b: CostBudgets, h: seq<Sample>): seq<Note>
    requires |h| > 0
  {
    AlarmNotes(b, h, Compute) + AlarmNotes(b, h, Network) + AlarmNotes(b, h, Storage)
  }

  function StageNotes(b: CostBudgets, h: seq<Sample>): seq<Note>
    requires |h| > 0
  {
    TransitionNotes(StageOf(b, h[..|h| - 1]), StageOf(b, h)) + ProposalNotes(b, h)
  }

  function Compression(rule: string): Note {
    RawNote(Other("compression_proposed:" + rule), Opaque([]))
  }

  function CompressionNotes(prev: SaturationStage, next: SaturationStage): seq<Note> {
    if next == PostEligibility && prev != PostEligibility
    then [Compression("raw_material_aggregate_v1"), Compression("federation_payload_retention_v1"),
          Compression("trajectory_archive_v1")]
    else []
  }

  /** Everything one sample makes the observatory write; C53 is not among it. */
  function P11cNotes(b: CostBudgets, h: seq<Sample>): seq<Note>
    requires |h| > 0
  {
    StageNotes(b, h) + AllAlarmNotes(b, h) + CompressionNotes(StageOf(b, h[..|h| - 1]), StageOf(b, h))
  }

  lemma {:induction false} EmitNotesConcat(s: Live, a: seq<Note>, b: seq<Note>)
    ensures EmitNotes(s, a + b) == EmitNotes(EmitNotes(s, a), b)
    decreases |b|
  {
    if |b| == 0 {
      assert a + b == a;
    } else {
      EmitNotesConcat(s, a, b[..|b| - 1]);
      assert (a + b)[..|a + b| - 1] == a + b[..|b| - 1];
    }
  }

  lemma AlarmLoggedExtends(a: Log, b: Log, axis: CostAxis, cycle: nat)
    requires a <= b && IsAlarmLogged(a, axis, cycle)
    ensures IsAlarmLogged(b, axis, cycle)
  {
    var i :| 0 <= i < |a| && a[i].kind == NodeType.BudgetExhausted(AxisName(axis)) && a[i].cycle == cycle;
    assert b[i] == a[i];
  }

  lemma AlarmAgreesExtends(last: map<CostAxis, nat>, last': map<CostAxis, nat>, a: Log, b: Log, budgets: CostBudgets,
      h: seq<Sample>, axis: CostAxis)
    requires AlarmAgrees(last, a, budgets, h, axis) && a <= b
    requires axis in last' <==> axis in last
    requires axis in last ==> last'[axis] == last[axis]
    ensures AlarmAgrees(last', b, budgets, h, axis)
  {
    if axis in last {
      AlarmLoggedExtends(a, b, axis, last[axis]);
    }
  }

  /** One more sample and its alarm. */
  lemma AlarmStep(b: CostBudgets, h: seq<Sample>, g: seq<Sample>, x: Sample, axis: CostAxis)
    requires g == h + [x]
    ensures Alarms(b, g, axis, |g| - 1) <==> Exceeds(b, x.cost, axis) && Cooled(LastAlarm(b, h, axis), x.cycle)
    ensures LastAlarm(b, g, axis) == if Alarms(b, g, axis, |g| - 1) then Some(x.cycle) else LastAlarm(b, h, axis)
  {
    assert g[..|g| - 1] == h;
  }

  function AlarmNote(axis: CostAxis): Note {
    RawNote(NodeType.BudgetExhausted(AxisName(axis)), Opaque([]))
  }

  method RaiseAlarm(state: ServerState, axis: CostAxis)
    requires WellFormed(state.dag)
    modifies state`dag, state`cultivation
    ensures WellFormed(state.dag) && old(state.dag) <= state.dag && IsAlarmLogged(state.dag, axis, state.cycleCounter)
    ensures state.View() == EmitNotes(old(state.View()), [AlarmNote(axis)])
  {
    RecordNotes(state, [AlarmNote(axis)]);
    NotesGrow(old(state.View()), [AlarmNote(axis)]);
    assert [AlarmNote(axis)][..0] == [];
    assert state.dag[|state.dag| - 1].kind == AlarmNote(axis).kind;
  }

  method EmitAxisExhaustion(state: ServerState, axis: CostAxis, cost: Cost, ghost h: seq<Sample>, ghost g: seq<Sample>)
    requires WellFormed(state.dag) && AlarmAgrees(state.lastExhausted, state.dag, state.budgets, h, axis) &&
      Grows(state, cost, h, g)
    modifies state`dag, state`cultivation, state`lastExhausted
    ensures AlarmAgrees(state.lastExhausted, state.dag, state.budgets, g, axis)
    ensures state.View() == EmitNotes(old(state.View()), AlarmNotes(state.budgets, g, axis))
    ensures WellFormed(state.dag) && old(state.dag) <= state.dag
    ensures state.lastExhausted == old(state.lastExhausted) ||
            state.lastExhausted == old(state.lastExhausted)[axis := state.cycleCounter]
  {
    var cycle := state.cycleCounter;
    AlarmStep(state.budgets, h, g, Sample.Sample(cycle, cost), axis);
    if Exceeds(state.budgets, cost, axis) {
      if axis !in state.lastExhausted || SatSub(cycle, state.lastExhausted[axis]) >= BUDGET_EXHAUSTED_COOLDOWN_CYCLES {
        RaiseAlarm(state, axis);
        state.lastExhausted := state.lastExhausted[axis := cycle];
      }
    }
  }

  /** No alarm for the axis in the log's last fifty cycles. */
  predicate IsSilent(log: Log, axis: CostAxis, cycle: nat) {
    forall i :: 0 <= i < |log| && log[i].kind == NodeType.BudgetExhausted(AxisName(axis)) ==>
        log[i].cycle + 50 < cycle
  }

  method QueryRecentAlarm(log: Log, axis: CostAxis, cycle: nat) returns (recent: bool)
    ensures recent <==> !IsSilent(log, axis, cycle)
  {
    var windowStart := SatSub(cycle, C53_CHECK_WINDOW_CYCLES);
    for i := 0 to |log|
      invariant forall k :: 0 <= k < i && log[k].kind == NodeType.BudgetExhausted(AxisName(axis)) ==>
        log[k].cycle < windowStart
    {
      if log[i].kind == NodeType.BudgetExhausted(AxisName(axis)) && log[i].cycle >= windowStart {
        return true;
      }
    }
    recent := false;
  }

  /** The detector is silenced while it is `limited`: it fired less than a second ago. */
  method CheckC53(state: ServerState, axis: CostAxis, cost: Cost, limited: bool)
    requires WellFormed(state.dag)
    modifies state`dag, state`cultivation
    ensures WellFormed(state.dag)
    ensures state.View() == if Exceeds(state.budgets, cost, axis) &&
                               IsSilent(old(state.dag), axis, state.cycleCounter) && !limited
                            then Emit(old(state.View()), Immune("C53_budget_exhausted_silent"), Opaque([]))
                            else old(state.View())
  {
    if Exceeds(state.budgets, cost, axis) {
      var recent := QueryRecentAlarm(state.dag, axis, state.cycleCounter);
      if !recent && !limited {
        state.EmitSubstrateEvent(Immune("C53_budget_exhausted_silent"), Opaque([]));
      }
    }
  }

  /** With the emitter working, no exceeding axis is ever silent. */
  lemma NeverSilent(last: map<CostAxis, nat>, log: Log, b: CostBudgets, h: seq<Sample>, axis: CostAxis)
    requires |h| > 0 && Ordered(h) && Exceeds(b, h[|h| - 1].cost, axis) && AlarmAgrees(last, log, b, h, axis)
    ensures !IsSilent(log, axis, h[|h| - 1].cycle)
  {
    var j := ExceedingIsAlarmed(b, h, axis, |h| - 1);
    LastAlarmIsLast(b, h, axis);
    var i :| 0 <= i < |log| && log[i].kind == NodeType.BudgetExhausted(AxisName(axis)) &&
        log[i].cycle == LastAlarm(b, h, axis).value;
  }

  lemma AlarmsExtend(last: map<CostAxis, nat>, a: Log, b: Log, budgets: CostBudgets, h: seq<Sample>)
    requires a <= b && AlarmsAgree(last, a, budgets, h)
    ensures AlarmsAgree(last, b, budgets, h)
  {
    AlarmAgreesExtends(last, last, a, b, budgets, h, Compute);
    AlarmAgreesExtends(last, last, a, b, budgets, h, Network);
    AlarmAgreesExtends(last, last, a, b, budgets, h, Storage);
  }

  /** The axes before `done` agree with the longer history g, the others still with h. */
  ghost predicate AlarmsDone(last: map<CostAxis, nat>, log: Log, b: CostBudgets, h: seq<Sample>, g: seq<Sample>,
      done: nat) {
    && AlarmAgrees(last, log, b, if done > 0 then g else h, Compute)
    && AlarmAgrees(last, log, b, if done > 1 then g else h, Network)
    && AlarmAgrees(last, log, b, if done > 2 then g else h, Storage)
  }

  function AxisAt(k: nat): CostAxis {
    if k == 0 then Compute else if k == 1 then Network else Storage
  }

  lemma AlarmsDoneStep(last: map<CostAxis, nat>, last': map<CostAxis, nat>, a: Log, log: Log, b: CostBudgets,
                       h: seq<Sample>, g: seq<Sample>, k: nat, cycle: nat)
    requires k < 3 && a <= log && AlarmsDone(last, a, b, h, g, k) && AlarmAgrees(last', log, b, g, AxisAt(k))
    requires last' == last || last' == last[AxisAt(k) := cycle]
    ensures AlarmsDone(last', log, b, h, g, k + 1)
  {
    if k != 0 { AlarmAgreesExtends(last, last', a, log, b, g, Compute); }
    if k != 1 { AlarmAgreesExtends(last, last', a, log, b, if k > 1 then g else h, Network); }
    if k != 2 { AlarmAgreesExtends(last, last', a, log, b, h, Storage); }
  }

  method EmitAxis(state: ServerState, k: nat, cost: Cost, ghost h: seq<Sample>, ghost g: seq<Sample>)
    requires WellFormed(state.dag) && k < 3 && Grows(state, cost, h, g)
    requires AlarmsDone(state.lastExhausted, state.dag, state.budgets, h, g, k)
    modifies state`dag, state`cultivation, state`lastExhausted
    ensures WellFormed(state.dag) && AlarmsDone(state.lastExhausted, state.dag, state.budgets, h, g, k + 1)
    ensures state.View() == EmitNotes(old(state.View()), AlarmNotes(state.budgets, g, AxisAt(k)))
  {
    EmitAxisExhaustion(state, AxisAt(k), cost, h, g);
    AlarmsDoneStep(old(state.lastExhausted), state.lastExhausted, old(state.dag), state.dag, state.budgets, h, g, k,
        state.cycleCounter);
  }

  lemma EmitNotesThrice(s: Live, a: seq<Note>, b: seq<Note>, c: seq<Note>)
    ensures EmitNotes(EmitNotes(EmitNotes(s, a), b), c) == EmitNotes(s, a + b + c)
  {
    EmitNotesConcat(s, a, b);
    EmitNotesConcat(s, a + b, c);
  }

  /** The three alarms, then the three C53 queries, which find nothing. */
  method EmitAlarms(state: ServerState, cost: Cost, limited: bool, ghost h: seq<Sample>, ghost g: seq<Sample>,
      ghost start: Log)
    requires WellFormed(state.dag) && Grows(state, cost, h, g)
    requires start <= state.dag && AlarmsAgree(state.lastExhausted, start, state.budgets, h)
    modifies state`dag, state`cultivation, state`lastExhausted
    ensures WellFormed(state.dag) && RefinesAlarms(state, g)
    ensures state.View() == EmitNotes(old(state.View()), AllAlarmNotes(state.budgets, g))
  {
    AlarmsExtend(state.lastExhausted, start, state.dag, state.budgets, h);
    EmitAxis(state, 0, cost, h, g);
    EmitAxis(state, 1, cost, h, g);
    EmitAxis(state, 2, cost, h, g);
    EmitNotesThrice(old(state.View()), AlarmNotes(state.budgets, g, Compute), AlarmNotes(state.budgets, g, Network),
                    AlarmNotes(state.budgets, g, Storage));
    QueryAxes(state, cost, limited, g);
  }

  method QueryAxes(state: ServerState, cost: Cost, limited: bool, ghost g: seq<Sample>)
    requires WellFormed(state.dag) && RefinesAlarms(state, g)
    requires |g| > 0 && Ordered(g) && g[|g| - 1] == Sample.Sample(state.cycleCounter, cost)
    modifies state`dag, state`cultivation
    ensures WellFormed(state.dag) && state.View() == old(state.View())
  {
    hide WellFormed, IsSilent;
    var axes := [Compute, Network, Storage];
    for i := 0 to |axes|
      invariant WellFormed(state.dag) && state.View() == old(state.View())
    {
      if Exceeds(state.budgets, cost, axes[i]) {
        NeverSilent(state.lastExhausted, state.dag, state.budgets, g, axes[i]);
      }
      CheckC53(state, axes[i], cost, limited);
    }
  }

  // -------------------------------------------------------------------------
  // One sample
  // -------------------------------------------------------------------------

  method EscalateSaturationToP7(state: ServerState)
    requires WellFormed(state.dag)
    modifies state`dag, state`cultivation, state`lastProposal
    ensures WellFormed(state.dag) && state.lastProposal == Some(state.cycleCounter)
    ensures state.View() == EmitNotes(old(state.View()), [PROPOSAL])
  {
    RecordNotes(state, [PROPOSAL]);
    state.lastProposal := Some(state.cycleCounter);
  }

  /** The proposal, on top of what this sample has already written since s0. */
  method EscalateIfDue(state: ServerState, ghost g: seq<Sample>, ghost s0: Live, ghost prior: seq<Note>)
    requires WellFormed(state.dag) && IsU64Budgets(state.budgets) && |g| > 0 && CountersRefine(state, g)
    requires state.View() == EmitNotes(s0, prior)
    modifies state`dag, state`cultivation, state`lastProposal
    ensures WellFormed(state.dag) && RefinesStage(state, g)
    ensures state.View() == EmitNotes(s0, prior + ProposalNotes(state.budgets, g))
  {
    assert g[..|g| - 1 + 1] == g;
    EmitNotesConcat(s0, prior, ProposalNotes(state.budgets, g));
    if state.saturationStage == Saturated && state.saturatedCycles >= state.budgets.mortalityThreshold &&
        state.lastProposal.None? {
      EscalateSaturationToP7(state);
    }
  }

  method EmitTransition(state: ServerState, prev: SaturationStage, ghost g: seq<Sample>)
    requires WellFormed(state.dag) && CountersRefine(state, g)
    modifies state`dag, state`cultivation
    ensures WellFormed(state.dag) && CountersRefine(state, g)
    ensures state.View() == EmitNotes(old(state.View()), TransitionNotes(prev, StageOf(state.budgets, g)))
  {
    RecordNotes(state, TransitionNotes(prev, state.saturationStage));
  }

  /** The machine, its transition event and the escalation. */
  method AdvanceStage(state: ServerState, cost: Cost, ghost h: seq<Sample>, ghost g: seq<Sample>)
    requires WellFormed(state.dag) && IsU64Budgets(state.budgets) && RefinesStage(state, h) && Grows(state, cost, h, g)
    modifies state`dag, state`cultivation, state`exhaustedCycles, state`saturationStage, state`postEligibilityCycles,
             state`saturatedCycles, state`lastProposal
    ensures WellFormed(state.dag) && RefinesStage(state, g) && old(state.dag) <= state.dag
    ensures state.View() == EmitNotes(old(state.View()), StageNotes(state.budgets, g))
  {
    hide TransitionNotes, ProposalNotes, EmitNotes, WellFormed;
    var prev := state.saturationStage;
    assert g[..|g| - 1] == h;
    AdvanceCounters(state, cost, h, g);
    EmitTransition(state, prev, g);
    EscalateIfDue(state, g, old(state.View()), TransitionNotes(prev, StageOf(state.budgets, g)));
    NotesGrow(old(state.View()), StageNotes(state.budgets, g));
  }

  /** The compression rules, proposed once on entering PostEligibility. */
  method ProposeCompression(state: ServerState, prev: SaturationStage, ghost g: seq<Sample>)
    requires WellFormed(state.dag) && RefinesAlarms(state, g)
    modifies state`dag, state`cultivation
    ensures WellFormed(state.dag) && RefinesAlarms(state, g)
    ensures state.View() == EmitNotes(old(state.View()), CompressionNotes(prev, state.saturationStage))
  {
    ghost var before := state.dag;
    RecordNotes(state, CompressionNotes(prev, state.saturationStage));
    AlarmsExtend(state.lastExhausted, before, state.dag, state.budgets, g);
  }

  /** What holds of the machine and the alarm memory between steps: they are those of the samples since boot. */
  ghost predicate Tracks(state: ServerState)
    reads state
  {
    && IsU64Budgets(state.budgets) && RefinesStage(state, state.samples) && RefinesAlarms(state, state.samples)
    && UpTo(state.samples, state.cycleCounter)
  }

  predicate UpTo(h: seq<Sample>, cycle: nat) {
    Ordered(h) && forall k :: 0 <= k < |h| ==> h[k].cycle <= cycle
  }

  /** Everything but the compression proposals. */
  method StageAndAlarms(state: ServerState, cost: Cost, limited: bool, ghost h: seq<Sample>, ghost g: seq<Sample>)
    requires WellFormed(state.dag) && IsU64Budgets(state.budgets)
    requires RefinesStage(state, h) && RefinesAlarms(state, h) && Grows(state, cost, h, g)
    modifies state`dag, state`cultivation, state`exhaustedCycles, state`saturationStage, state`postEligibilityCycles,
             state`saturatedCycles, state`lastProposal, state`lastExhausted
    ensures WellFormed(state.dag) && RefinesStage(state, g) && RefinesAlarms(state, g)
    ensures state.View() ==
            EmitNotes(EmitNotes(old(state.View()), StageNotes(state.budgets, g)), AllAlarmNotes(state.budgets, g))
  {
    hide StageNotes, AllAlarmNotes, EmitNotes;
    ghost var start := state.dag;
    AdvanceStage(state, cost, h, g);
    EmitAlarms(state, cost, limited, h, g, start);
  }

  lemma UpToGrows(h: seq<Sample>, cycle: nat, cost: Cost)
    requires UpTo(h, cycle)
    ensures UpTo(h + [Sample.Sample(cycle, cost)], cycle)
  {
  }

  /** The whole of one sample: machine, alarms, proposals. */
  method TakeSample(state: ServerState, cost: Cost, limited: bool, ghost h: seq<Sample>, ghost g: seq<Sample>)
    requires WellFormed(state.dag) && IsU64Budgets(state.budgets)
    requires RefinesStage(state, h) && RefinesAlarms(state, h) && Grows(state, cost, h, g)
    modifies state`dag, state`cultivation, state`exhaustedCycles, state`saturationStage, state`postEligibilityCycles,
             state`saturatedCycles, state`lastProposal, state`lastExhausted
    ensures WellFormed(state.dag) && RefinesStage(state, g) && RefinesAlarms(state, g) && old(state.dag) <= state.dag
    ensures state.View() == EmitNotes(old(state.View()), P11cNotes(state.budgets, g))
  {
    hide StageNotes, AllAlarmNotes, EmitNotes;
    var prev := state.saturationStage;
    assert g[..|g| - 1] == h;
    StageAndAlarms(state, cost, limited, h, g);
    ProposeCompression(state, prev, g);
    EmitNotesThrice(old(state.View()), StageNotes(state.budgets, g), AllAlarmNotes(state.budgets, g),
                    CompressionNotes(prev, state.saturationStage));
    NotesGrow(old(state.View()), P11cNotes(state.budgets, g));
  }

  method ApplyP11cAndEmit(state: ServerState, cost: Cost, limited: bool)
    requires WellFormed(state.dag) && Tracks(state)
    modifies state`dag, state`cultivation, state`exhaustedCycles, state`saturationStage, state`postEligibilityCycles,
             state`saturatedCycles, state`lastProposal, state`lastExhausted, state`samples
    ensures WellFormed(state.dag) && Tracks(state) && old(state.dag) <= state.dag
    ensures state.samples == old(state.samples) + [Sample.Sample(state.cycleCounter, cost)]
    ensures state.View() == EmitNotes(old(state.View()), P11cNotes(state.budgets, state.samples))
  {
    UpToGrows(state.samples, state.cycleCounter, cost);
    ghost var h := state.samples;
    state.samples := h + [Sample.Sample(state.cycleCounter, cost)];
    TakeSample(state, cost, limited, h, state.samples);
  }

  /** A process starts with no samples and agrees with them. */
  lemma FreshTracks(state: ServerState)
    requires IsU64Budgets(state.budgets) && state.samples == []
    requires state.saturationStage == SaturationStage.Normal && state.lastProposal == None &&
      state.lastExhausted == map[]
    requires state.exhaustedCycles == 0 && state.postEligibilityCycles == 0 && state.saturatedCycles == 0
    ensures Tracks(state)
  {
  }

  /** Whatever leaves the machine alone, only appends to the log and never lowers the counter keeps it. */
  twostate lemma StillTracks(state: ServerState)
    requires old(Tracks(state)) && old(state.dag) <= state.dag && old(state.cycleCounter) <= state.cycleCounter
    requires unchanged(state`budgets, state`saturationStage, state`exhaustedCycles, state`postEligibilityCycles)
    requires unchanged(state`saturatedCycles, state`lastProposal, state`lastExhausted, state`samples)
    ensures Tracks(state)
  {
    AlarmsExtend(state.lastExhausted, old(state.dag), state.dag, state.budgets, state.samples);
  }

  /** At least the last three cycles were over budget. */
  predicate IsOverBudget(b: CostBudgets, h: seq<Sample>) {
    OverRun(b, h) >= P02_REFUSAL_SUSTAINED_CYCLES
  }

  /** Intake is refused exactly when at least the last three cycles since boot were over budget. */
  lemma IntakeRefusedIff(state: ServerState)
    requires Tracks(state)
    ensures RefusesIntake(state) <==> IsOverBudget(state.budgets, state.samples)
  {
    assert state.saturationStage == SaturationStage.Normal <==> OverRun(state.budgets, state.samples) == 0;
  }
}
