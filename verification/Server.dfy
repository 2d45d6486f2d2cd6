/** The live server state (substrate/src/server/mod.rs) and the two ways handlers append to its log. */
module Server {
  import opened Prelude
  import opened Dag
  import opened Derived
  import opened Cultivation

  /** The part of the state the log accounts for, plus what is only in memory or in snapshot.cb. */
  datatype Live = Live(
    dag: Log,
    facts: Facts,
    cultivation: CultivationState,
    pendingNoop: nat,
    snapshot: Option<Value>)

  datatype SaturationStage = Normal | PreEligibility | PostEligibility | Saturated

  /** The budgeted cost axes; alarms are filed under their names. */
  datatype CostAxis = Compute | Network | Storage

  function AxisName(axis: CostAxis): string {
    match axis
    case Compute => "compute_per_cycle"
    case Network => "network_per_cycle"
    case Storage => "storage_per_cycle"
  }

  datatype CostBudgets = CostBudgets(
    computeNs: nat, networkBytes: nat, storageBytes: nat,
    eligibilityFloor: nat, saturationThreshold: nat, mortalityThreshold: nat)

  /** What one cycle cost, and what it is remembered as. */
  datatype Cost = Cost(computeNs: nat, networkBytes: nat, storageBytes: nat)

  datatype Sample = Sample(cycle: nat, cost: Cost)

  class ServerState {
    var dag: Log
    var substrateId: Option<Id>
    var genesisTime: Option<int>
    var generationDepth: nat
    var cycleCounter: nat
    var lastAbsorbed: Option<nat>
    var history: seq<Value>
    var migration: Option<MigrationCandidate>
    var successorChain: seq<SuccessorEntry>
    var successionConfig: Option<SuccessionConfig>
    var cultivation: CultivationState   // memo of CurrentCultivationState
    var pendingNoop: nat                // idle self-driven cycles not yet in the counter
    var snapshot: Option<Value>         // what snapshot.cb holds

    // The saturation machine; never persisted, fresh at every boot.
    var budgets: CostBudgets
    var saturationStage: SaturationStage
    var exhaustedCycles: nat            // consecutive_budget_exhausted_cycles
    var postEligibilityCycles: nat      // post_eligibility_consecutive_cycles
    var saturatedCycles: nat            // saturated_consecutive_cycles
    var lastProposal: Option<nat>       // last_saturation_mortality_proposal_at_cycle
    var lastExhausted: map<CostAxis, nat> // last_budget_exhausted_per_axis
    ghost var samples: seq<Sample>      // every cycle completed since boot

    function View(): Live
      reads this
    {
      Live(dag,
           Facts(substrateId, genesisTime, generationDepth, cycleCounter, lastAbsorbed, history, migration,
                 successorChain, successionConfig),
           cultivation, pendingNoop, snapshot)
    }

    constructor (s: Live, b: CostBudgets)
      ensures View() == s && budgets == b
      ensures saturationStage == SaturationStage.Normal &&
        exhaustedCycles == postEligibilityCycles == saturatedCycles == 0
      ensures lastProposal == None && lastExhausted == map[] && samples == []
    {
      budgets, saturationStage := b, SaturationStage.Normal;
      exhaustedCycles, postEligibilityCycles, saturatedCycles := 0, 0, 0;
      lastProposal, lastExhausted, samples := None, map[], [];
      dag := s.dag;
      substrateId, genesisTime := s.facts.substrateId, s.facts.genesisTime;
      generationDepth, cycleCounter := s.facts.generationDepth, s.facts.cycleCounter;
      lastAbsorbed, history, migration := s.facts.lastAbsorbed, s.facts.history, s.facts.migration;
      successorChain, successionConfig := s.facts.successorChain, s.facts.successionConfig;
      cultivation, pendingNoop, snapshot := s.cultivation, s.pendingNoop, s.snapshot;
    }

    /** A handler's own state.dag.insert_node: parented by the tip and by `extra`. */
    method InsertAtTip(extra: seq<Hash>, kind: NodeType, cycle: nat, content: Content)
      requires WellFormed(dag) && forall h :: h in extra ==> Has(dag, h)
      modifies this`dag
      ensures WellFormed(dag) && dag == Append(old(dag), extra, kind, cycle, content) && old(dag) <= dag
    {
      TipParentedInsertAppends(dag, extra, kind, cycle, content);
      var inserted := InsertNode(dag, WithTip(dag, extra), kind, cycle, content);
      dag := inserted.value;
    }

    /** emit_substrate_event: the central emitter, which keeps the cultivation memo fresh. */
    method EmitSubstrateEvent(kind: NodeType, content: Content)
      requires WellFormed(dag)
      modifies this`dag, this`cultivation
      ensures WellFormed(dag) && View() == Emit(old(View()), kind, content) && old(dag) <= dag
    {
      InsertAtTip([], kind, cycleCounter, content);
      if IsCultivationFamily(kind) {
        cultivation := CurrentCultivationState(dag);
      }
    }
  }

  ghost function Emit(s: Live, kind: NodeType, content: Content): Live {
    var dag := Append(s.dag, [], kind, s.facts.cycleCounter, content);
    s.(dag := dag, cultivation := if IsCultivationFamily(kind) then CultivationOf(dag) else s.cultivation)
  }
}
