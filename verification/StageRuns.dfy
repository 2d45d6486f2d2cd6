/** What the observatory makes of the last samples, told by the samples and the three budgets alone. */
module StageRuns {
  import opened Dag
  import opened Server
  import opened Ingest
  import opened Observatory

  // -------------------------------------------------------------------------
  // Stages
  // -------------------------------------------------------------------------

  /** Some axis costs more than its own budget. */
  predicate IsOver(b: CostBudgets, x: Sample) {
    || x.cost.computeNs > b.computeNs
    || x.cost.networkBytes > b.networkBytes
    || x.cost.storageBytes > b.storageBytes
  }

  /** Over budget, at or past the eligibility floor. */
  predicate IsLate(b: CostBudgets, x: Sample) {
    IsOver(b, x) && x.cycle >= b.eligibilityFloor
  }

  /** The last n samples are all over budget. */
  predicate LastOver(b: CostBudgets, h: seq<Sample>, n: nat) {
    n <= |h| && forall k :: |h| - n <= k < |h| ==> IsOver(b, h[k])
  }

  /** The last n samples are all over budget and past the floor. */
  predicate LastLate(b: CostBudgets, h: seq<Sample>, n: nat) {
    n <= |h| && forall k :: |h| - n <= k < |h| ==> IsLate(b, h[k])
  }

  lemma {:induction false} OverRunIs(b: CostBudgets, h: seq<Sample>, n: nat)
    ensures n <= OverRun(b, h) <==> LastOver(b, h, n)
    decreases |h|
  {
    if |h| > 0 && n > 0 {
      var front := h[..|h| - 1];
      OverRunIs(b, front, n - 1);
      assert Over(b, h[|h| - 1].cost) <==> IsOver(b, h[|h| - 1]);
      assert LastOver(b, h, n) <==> LastOver(b, front, n - 1) && IsOver(b, h[|h| - 1]);
    }
  }

  lemma {:induction false} LateRunIs(b: CostBudgets, h: seq<Sample>, n: nat)
    ensures n <= LateRun(b, h) <==> LastLate(b, h, n)
    decreases |h|
  {
    if |h| > 0 && n > 0 {
      var front := h[..|h| - 1];
      LateRunIs(b, front, n - 1);
      assert Over(b, h[|h| - 1].cost) <==> IsOver(b, h[|h| - 1]);
      assert LastLate(b, h, n) <==> LastLate(b, front, n - 1) && IsLate(b, h[|h| - 1]);
    }
  }

  /** How many samples in a row past the floor make saturation: the threshold, and one at least. */
  function SaturationLength(b: CostBudgets): nat {
    if b.saturationThreshold == 0 then 1 else b.saturationThreshold
  }

  /** How many make the mortality proposal. */
  function ProposalLength(b: CostBudgets): nat {
    SaturationLength(b) - 1 + if b.mortalityThreshold == 0 then 1 else b.mortalityThreshold
  }

  /**
   The stage after some samples. Normal: none yet, or the last is within every budget. Saturated:
   as many of the last as the threshold asks for are over budget past the floor. In between, the
   floor decides.
   */
  lemma StageIs(b: CostBudgets, h: seq<Sample>)
    ensures StageOf(b, h) == SaturationStage.Normal <==> !LastOver(b, h, 1)
    ensures StageOf(b, h) == PreEligibility <==> LastOver(b, h, 1) && h[|h| - 1].cycle < b.eligibilityFloor
    ensures StageOf(b, h) == Saturated <==> LastLate(b, h, SaturationLength(b))
    ensures StageOf(b, h) == PostEligibility <==> LastLate(b, h, 1) && !LastLate(b, h, SaturationLength(b))
  {
    OverRunIs(b, h, 1);
    LateRunIs(b, h, 1);
    LateRunIs(b, h, SaturationLength(b));
  }

  /** One more sample leaves the stage Normal exactly when every axis is within its own budget. */
  lemma LeavesNormalIff(b: CostBudgets, h: seq<Sample>, x: Sample)
    ensures StageOf(b, h + [x]) != SaturationStage.Normal <==>
            x.cost.computeNs > b.computeNs || x.cost.networkBytes > b.networkBytes ||
            x.cost.storageBytes > b.storageBytes
  {
    StageIs(b, h + [x]);
    assert (h + [x])[|h|] == x;
  }

  /** New material is refused exactly when there were three cycles since boot and the last three were over budget. */
  lemma IntakeRefusedAfterThree(state: ServerState)
    requires Tracks(state)
    ensures RefusesIntake(state) <==> LastOver(state.budgets, state.samples, 3)
  {
    IntakeRefusedIff(state);
    OverRunIs(state.budgets, state.samples, 3);
  }

  // -------------------------------------------------------------------------
  // What a sample writes
  // -------------------------------------------------------------------------

  /** Mortality is proposed at the sample that makes the run of late ones exactly long enough. */
  lemma ProposesIff(b: CostBudgets, h: seq<Sample>)
    requires |h| > 0
    ensures ProposesAt(b, h, |h| - 1) <==> LastLate(b, h, ProposalLength(b)) && !LastLate(b, h, ProposalLength(b) + 1)
  {
    assert h[..|h| - 1 + 1] == h;
    LateRunIs(b, h, ProposalLength(b));
    LateRunIs(b, h, ProposalLength(b) + 1);
  }

  /** The kinds of events a sample can make the observatory write are told apart by their names. */
  lemma NamesDiffer(rule: string)
    ensures Compression(rule) != RawNote(Other("substrate_saturated"), Opaque([]))
    ensures Compression(rule) != RawNote(Other("substrate_normal_restored"), Opaque([]))
    ensures RawNote(Other("substrate_saturated"), Opaque([])) !=
            RawNote(Other("substrate_normal_restored"), Opaque([]))
    ensures AlarmNote(Compute) != AlarmNote(Network) && AlarmNote(Compute) != AlarmNote(Storage) &&
            AlarmNote(Network) != AlarmNote(Storage)
  {
    assert ("compression_proposed:" + rule)[0] == 'c';
    assert "substrate_saturated"[0] == "substrate_normal_restored"[0] == 's';
    assert "substrate_saturated"[10] == 's' && "substrate_normal_restored"[10] == 'n';
    assert "compute_per_cycle"[0] == 'c' && "network_per_cycle"[0] == 'n' && "storage_per_cycle"[0] == 's';
  }

  /** The notes of the stage machine, the alarms and the compression proposals are told apart by their kinds. */
  lemma NotesAre(b: CostBudgets, h: seq<Sample>, x: Sample, n: Note)
    ensures n in P11cNotes(b, h + [x]) <==>
            || n in TransitionNotes(StageOf(b, h), StageOf(b, h + [x]))
            || n in ProposalNotes(b, h + [x])
            || n in AllAlarmNotes(b, h + [x])
            || n in CompressionNotes(StageOf(b, h), StageOf(b, h + [x]))
    ensures n in AllAlarmNotes(b, h + [x]) ==> n.RawNote? && n.kind.BudgetExhausted?
  {
    hide StageOf, TransitionNotes, ProposalNotes, CompressionNotes, Alarms;
    assert (h + [x])[..|h|] == h;
  }

  /** The mortality proposal is written exactly by the sample that completes the run of late ones. */
  lemma ProposalIff(b: CostBudgets, h: seq<Sample>, x: Sample)
    ensures RawNote(SelfEuthanasiaProposal("metabolic_saturation"), Opaque([])) in P11cNotes(b, h + [x]) <==>
            LastLate(b, h + [x], ProposalLength(b)) && !LastLate(b, h + [x], ProposalLength(b) + 1)
  {
    hide StageOf, AllAlarmNotes, P11cNotes;
    NotesAre(b, h, x, PROPOSAL);
    ProposesIff(b, h + [x]);
  }

  /**
   The event of a newly saturated substrate is written exactly by the sample after which the run is
   long enough and before which it was not; that of a restored one by the first sample within
   budget after one over it.
   */
  lemma TransitionIff(b: CostBudgets, h: seq<Sample>, x: Sample)
    ensures RawNote(Other("substrate_saturated"), Opaque([])) in P11cNotes(b, h + [x]) <==>
            LastLate(b, h + [x], SaturationLength(b)) && !LastLate(b, h, SaturationLength(b))
    ensures RawNote(Other("substrate_normal_restored"), Opaque([])) in P11cNotes(b, h + [x]) <==>
            LastOver(b, h, 1) && !LastOver(b, h + [x], 1)
  {
    hide StageOf, AllAlarmNotes, P11cNotes, ProposesAt;
    NotesAre(b, h, x, RawNote(Other("substrate_saturated"), Opaque([])));
    NotesAre(b, h, x, RawNote(Other("substrate_normal_restored"), Opaque([])));
    StageIs(b, h + [x]);
    StageIs(b, h);
    NamesDiffer("raw_material_aggregate_v1");
    NamesDiffer("federation_payload_retention_v1");
    NamesDiffer("trajectory_archive_v1");
  }

  /** The last sample is late, but the run of late ones is too short for saturation. */
  predicate LateButShort(b: CostBudgets, h: seq<Sample>) {
    LastLate(b, h, 1) && !LastLate(b, h, SaturationLength(b))
  }

  /** Each compression rule is proposed exactly by the sample that enters that stretch. */
  lemma CompressionIff(b: CostBudgets, h: seq<Sample>, x: Sample, rule: string)
    requires rule in {"raw_material_aggregate_v1", "federation_payload_retention_v1", "trajectory_archive_v1"}
    ensures RawNote(Other("compression_proposed:" + rule), Opaque([])) in P11cNotes(b, h + [x]) <==>
            LateButShort(b, h + [x]) && !LateButShort(b, h)
  {
    hide StageOf, AllAlarmNotes, P11cNotes, ProposesAt;
    NotesAre(b, h, x, Compression(rule));
    StageIs(b, h + [x]);
    StageIs(b, h);
    NamesDiffer(rule);
  }

  /** The axis's own cost is over its own budget. */
  predicate AxisOver(b: CostBudgets, x: Sample, name: string) {
    || (name == "compute_per_cycle" && x.cost.computeNs > b.computeNs)
    || (name == "network_per_cycle" && x.cost.networkBytes > b.networkBytes)
    || (name == "storage_per_cycle" && x.cost.storageBytes > b.storageBytes)
  }

  /** Sample i makes the observatory write an alarm for the axis of this name. */
  predicate WritesAlarm(b: CostBudgets, h: seq<Sample>, name: string, i: nat) {
    i < |h| && RawNote(NodeType.BudgetExhausted(name), Opaque([])) in P11cNotes(b, h[..i + 1])
  }

  lemma AlarmIsWritten(b: CostBudgets, h: seq<Sample>, axis: CostAxis, i: nat)
    requires i < |h|
    ensures WritesAlarm(b, h, AxisName(axis), i) <==> Alarms(b, h, axis, i)
  {
    hide StageOf, P11cNotes;
    var g := h[..i + 1];
    NamesDiffer("raw_material_aggregate_v1");
    assert g == h[..i] + [h[i]];
    NotesAre(b, h[..i], h[i], AlarmNote(axis));
    match axis
    case Compute => assert AlarmNote(axis) in AllAlarmNotes(b, g) <==> AlarmNote(axis) in AlarmNotes(b, g, Compute);
    case Network => assert AlarmNote(axis) in AllAlarmNotes(b, g) <==> AlarmNote(axis) in AlarmNotes(b, g, Network);
    case Storage => assert AlarmNote(axis) in AllAlarmNotes(b, g) <==> AlarmNote(axis) in AlarmNotes(b, g, Storage);
  }

  /**
   An alarm for an axis is written exactly by a sample over that axis's own budget that comes at
   least ten cycles after every earlier alarm for it.
   */
  lemma AlarmIff(b: CostBudgets, h: seq<Sample>, axis: CostAxis, i: nat)
    requires Ordered(h) && i < |h|
    ensures WritesAlarm(b, h, AxisName(axis), i) <==>
            AxisOver(b, h[i], AxisName(axis)) &&
            forall j: nat :: j < i && WritesAlarm(b, h, AxisName(axis), j) ==> h[i].cycle >= h[j].cycle + 10
  {
    hide WritesAlarm;
    NamesDiffer("");
    AlarmIsWritten(b, h, axis, i);
    LastAlarmIsLast(b, h[..i], axis);
    forall j: nat | j < i
      ensures WritesAlarm(b, h, AxisName(axis), j) <==> Alarms(b, h[..i], axis, j)
    {
      AlarmIsWritten(b, h, axis, j);
      AlarmInPrefix(b, h, axis, j, i);
    }
    assert AxisOver(b, h[i], AxisName(axis)) <==> Exceeds(b, h[i].cost, axis);
  }
}
