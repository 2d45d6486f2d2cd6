/**
 The run loop: dispatching requests (substrate/src/server/dispatch.rs), the self-driven tick
 (substrate/src/server/autonomous.rs), snapshots and boot (substrate/src/server/mod.rs).
 Step says what one complete step does to the live state; Execute is the code that does it.
 */
module RunLoop {
  import opened Prelude
  import opened Dag
  import opened Derived
  import opened Snapshot
  import opened Cultivation
  import opened Server
  import opened Ingest
  import opened Migration
  import opened Observatory

  const SELF_DRIVEN_BATCH_MAX: nat := 9
  const SNAPSHOT_EVERY_K_CYCLES: nat := 10
  const OBSERVATORY_HISTORY_CAP: nat := 90

  // -------------------------------------------------------------------------
  // Moving the counter
  // -------------------------------------------------------------------------

  /** The counter moved by `span`, recorded by one cycle_advanced node at its new value. */
  ghost function CounterMoved(s: Live, span: nat): Live {
    var next := s.facts.cycleCounter + span;
    Emit(s.(facts := s.facts.(cycleCounter := next)), CycleAdvanced,
         CycleAdvancedBody(Some(s.facts.cycleCounter), Some(next)))
  }

  method MoveCounter(state: ServerState, span: nat)
    requires WellFormed(state.dag)
    modifies state`dag, state`cultivation, state`cycleCounter
    ensures WellFormed(state.dag) && state.View() == CounterMoved(old(state.View()), span)
    ensures old(state.dag) <= state.dag
  {
    var prior := state.cycleCounter;
    state.cycleCounter := prior + span;
    state.EmitSubstrateEvent(CycleAdvanced, CycleAdvancedBody(Some(prior), Some(prior + span)));
  }

  /** The idle cycles counted in memory become one spanning node; an archived substrate drops them. */
  ghost function Flushed(s: Live): Live {
    if s.pendingNoop == 0 || s.cultivation == Archived then s.(pendingNoop := 0)
    else CounterMoved(s, s.pendingNoop).(pendingNoop := 0)
  }

  method FlushPendingSelfDriven(state: ServerState)
    requires WellFormed(state.dag)
    modifies state`dag, state`cultivation, state`cycleCounter, state`pendingNoop
    ensures WellFormed(state.dag) && state.View() == Flushed(old(state.View())) && old(state.dag) <= state.dag
  {
    if state.pendingNoop == 0 || state.cultivation == Archived {
      state.pendingNoop := 0;
      return;
    }
    MoveCounter(state, state.pendingNoop);
    state.pendingNoop := 0;
  }

  // -------------------------------------------------------------------------
  // Snapshots
  // -------------------------------------------------------------------------

  /** The fields save_snapshot_for_state mirrors; the zero identifier is saved as absent. */
  function SnapshotFacts(f: Facts): Facts {
    var known := f.substrateId.Some? && !IsZero(f.substrateId.value);
    f.(substrateId := if known then f.substrateId else None,
       genesisTime := if known then Some(match f.genesisTime case Some(t) => t case None => 0) else None,
       successorChain := [], successionConfig := None)
  }

  function Saved(s: Live): Live {
    s.(snapshot := Some(Encode(SnapshotFacts(s.facts), Tip(s.dag))))
  }

  /** A push onto the bounded trend window. */
  function Remember(history: seq<Value>, v: Value): seq<Value> {
    var longer := history + [v];
    if |longer| > OBSERVATORY_HISTORY_CAP then longer[|longer| - OBSERVATORY_HISTORY_CAP..] else longer
  }

  // -------------------------------------------------------------------------
  // One cycle
  // -------------------------------------------------------------------------

  /**
   A cycle's inputs: what the engine reported, the events the observers wrote during and after it,
   what it cost, and whether C53 is rate-limited when it ends.
   */
  datatype Cycle = Cycle(outcome: CycleOutcome, during: seq<Note>, report: Report, after: seq<Note>,
                         observation: Value, cost: Cost, limited: bool)

  /** The samples after a cycle that ends at `cycle`, and the cycle with what they make the observatory write. */
  function Sampled(h: seq<Sample>, c: Cycle, cycle: nat): seq<Sample> {
    h + [Sample.Sample(cycle, c.cost)]
  }

  function Costed(b: CostBudgets, h: seq<Sample>, c: Cycle, cycle: nat): Cycle {
    c.(after := P11cNotes(b, Sampled(h, c, cycle)) + c.after)
  }

  /** The observatory window grows, and snapshot.cb is saved every ten cycles. */
  function Observed(s: Live, v: Value, cycle: nat): Live {
    var remembered := s.(facts := s.facts.(history := Remember(s.facts.history, v)));
    if cycle % SNAPSHOT_EVERY_K_CYCLES == 0 then Saved(remembered) else remembered
  }

  ghost function Concluded(s: Live, c: Cycle): Live {
    Observed(EmitNotes(MigrationStepped(CounterMoved(s, 1), c.report), c.after), c.observation,
        s.facts.cycleCounter + 1)
  }

  /** A failed cycle only leaves notes: counter, mark and migration stay. */
  ghost function Cycled(s: Live, c: Cycle): Live {
    match c.outcome
    case Failed => EmitNotes(s, c.during)
    case Committed(sps) => Concluded(EmitNotes(Advanced(s, sps), c.during), c)
  }

  method SaveSnapshotForState(state: ServerState)
    modifies state`snapshot
    ensures state.View() == Saved(old(state.View()))
  {
    var known := state.substrateId.Some? && !IsZero(state.substrateId.value);
    var id := if known then state.substrateId else None;
    var time := if known then Some(match state.genesisTime case Some(t) => t case None => 0) else None;
    var f := Facts(id, time, state.generationDepth, state.cycleCounter, state.lastAbsorbed, state.history,
        state.migration, [], None);
    state.snapshot := Some(Encode(f, Tip(state.dag)));
  }

  method Observe(state: ServerState, v: Value, cycle: nat)
    modifies state`history, state`snapshot
    ensures state.View() == Observed(old(state.View()), v, cycle)
  {
    state.history := Remember(state.history, v);
    if cycle % SNAPSHOT_EVERY_K_CYCLES == 0 {
      SaveSnapshotForState(state);
    }
  }

  /** The counter, its event, and the migration step. */
  method BumpCounter(state: ServerState, r: Report)
    requires WellFormed(state.dag) && Tracks(state)
    modifies state`dag, state`cultivation, state`cycleCounter, state`migration
    ensures WellFormed(state.dag) && Tracks(state) && old(state.dag) <= state.dag
    ensures state.View() == MigrationStepped(CounterMoved(old(state.View()), 1), r)
    ensures state.cycleCounter == old(state.cycleCounter) + 1
  {
    hide MigrationStepped, P11cNotes;
    MoveCounter(state, 1);
    MigrationKeepsCounter(state.View(), r);
    RunMigrationStep(state, r);
    StillTracks(state);
  }

  lemma MigrationKeepsCounter(s: Live, r: Report)
    ensures MigrationStepped(s, r).facts == s.facts.(migration := MigrationStepped(s, r).facts.migration)
  {
    if s.facts.migration.Some? {
      NotesKeepFacts(Validated(s, s.facts.migration.value.op, []), r.trouble);
      NotesKeepFacts(Validated(s, s.facts.migration.value.op, r.reason), r.trouble);
    }
  }

  /** The sample of the cycle and what else the observers write, then the trend window and snapshot.cb. */
  method ObserveCycle(state: ServerState, c: Cycle)
    requires WellFormed(state.dag) && Tracks(state)
    modifies state
    ensures WellFormed(state.dag) && Tracks(state) && old(state.dag) <= state.dag
    ensures state.budgets == old(state.budgets)
    ensures state.samples == Sampled(old(state.samples), c, old(state.cycleCounter))
    ensures state.View() ==
            Observed(EmitNotes(old(state.View()),
                               Costed(state.budgets, old(state.samples), c, old(state.cycleCounter)).after),
                     c.observation, old(state.cycleCounter))
  {
    hide P11cNotes, EmitNotes, StageAgrees, AlarmsAgree;
    var counter := state.cycleCounter;
    ApplyP11cAndEmit(state, c.cost, c.limited);
    EmitNotesConcat(old(state.View()), P11cNotes(state.budgets, state.samples), c.after);
    label sampled:
    RecordNotes(state, c.after);
    Observe(state, c.observation, counter);
    StillTracks@sampled(state);
  }

  method ConcludeCycle(state: ServerState, c: Cycle)
    requires WellFormed(state.dag) && Tracks(state)
    modifies state
    ensures WellFormed(state.dag) && Tracks(state) && old(state.dag) <= state.dag
    ensures state.budgets == old(state.budgets)
    ensures state.samples == Sampled(old(state.samples), c, old(state.cycleCounter) + 1)
    ensures state.View() ==
            Concluded(old(state.View()), Costed(state.budgets, old(state.samples), c, old(state.cycleCounter) + 1))
  {
    hide P11cNotes, EmitNotes, MigrationStepped, CounterMoved, Observed, Tracks;
    BumpCounter(state, c.report);
    ObserveCycle(state, c);
  }

  method RunCycle(state: ServerState, c: Cycle)
    requires WellFormed(state.dag) && Tracks(state)
    modifies state
    ensures WellFormed(state.dag) && Tracks(state) && old(state.dag) <= state.dag
    ensures state.budgets == old(state.budgets)
    ensures state.samples == if c.outcome.Committed? then Sampled(old(state.samples), c, old(state.cycleCounter) + 1)
                             else old(state.samples)
    ensures state.View() ==
            Cycled(old(state.View()), Costed(state.budgets, old(state.samples), c, old(state.cycleCounter) + 1))
  {
    hide P11cNotes, EmitNotes, Concluded, Advanced, StageAgrees, AlarmsAgree;
    var ok := HandleAdvance(state, c.outcome, c.during);
    StillTracks(state);
    if ok {
      ConcludeCycle(state, c);
    }
  }

  // -------------------------------------------------------------------------
  // Requests and ticks
  // -------------------------------------------------------------------------

  /**
   One complete step. `refused` is the intake refusal in force; `quiet` says no axis was ever
   registered and no federation is active; `trusted` that snapshot.cb's signature was accepted;
   `clean` that the process flushed before it stopped.
   */
  datatype Command =
    | IngestRaw(refused: bool, kind: string, bytes: Bytes)
    | DepositPlate(deposit: Deposit)
    | Advance(cycle: Cycle)
    | SubmitMutation(mutation: Mutation)
    | UpdateSuccessorChain(entry: SuccessorEntry)
    | RecordEvents(notes: seq<Note>)
    | Tick(quiet: bool, selfDriven: bool, cycle: Cycle, cooling: bool, notes: seq<Note>, reason: Bytes,
        trouble: seq<Note>)
    | Reboot(clean: bool, trusted: bool, now: int)

  ghost function ChainUpdated(s: Live, e: SuccessorEntry): Live {
    if CheckEntry(s.facts.successorChain, e).Err? then s
    else
      var emitted := Emit(s, SuccessorChainUpdated("successor"),
          SuccessorBody(Some(e.pubkey), Some(e.validFrom), e.validUntil));
      emitted.(facts := emitted.facts.(successorChain := emitted.facts.successorChain + [e]))
  }

  method HandleUpdateSuccessorChain(state: ServerState, e: SuccessorEntry) returns (r: Result<nat, ChainError>)
    requires WellFormed(state.dag)
    modifies state`dag, state`cultivation, state`successorChain
    ensures WellFormed(state.dag) && state.View() == ChainUpdated(old(state.View()), e) && old(state.dag) <= state.dag
    ensures r.Ok? <==> CheckEntry(old(state.successorChain), e).Ok?
    ensures r.Ok? ==> r.value == |state.successorChain|
    ensures r.Err? ==> r.error == CheckEntry(old(state.successorChain), e).error
  {
    if |state.successorChain| > 0 {
      var last := state.successorChain[|state.successorChain| - 1];
      if e.validFrom <= last.validFrom { return Err(NotMonotone); }
      if last.validUntil.Some? {
        if last.validUntil.value > e.validFrom { return Err(Overlap); }
      } else {
        return Err(HeadIsOpen);
      }
    }
    if e.validUntil.Some? && e.validUntil.value <= e.validFrom { return Err(EmptyInterval); }
    state.EmitSubstrateEvent(SuccessorChainUpdated("successor"),
        SuccessorBody(Some(e.pubkey), Some(e.validFrom), e.validUntil));
    state.successorChain := state.successorChain + [e];
    r := Ok(|state.successorChain|);
  }

  predicate IsInertForBatch(s: Live, quiet: bool) {
    quiet && s.cultivation != Archived && s.facts.migration.None?
  }

  /** The cycle the next real one would land on. */
  function NextPostCycle(s: Live): nat {
    s.facts.cycleCounter + s.pendingNoop + 1
  }

  predicate Batches(s: Live, quiet: bool) {
    IsInertForBatch(s, quiet) && s.pendingNoop + 1 < SELF_DRIVEN_BATCH_MAX && !ShouldRunPruneScan(NextPostCycle(s))
  }

  /** An inert tick is only counted; any other flushes the span and runs a real cycle. */
  ghost function SelfDriven(s: Live, quiet: bool, c: Cycle): Live {
    if s.cultivation == Archived then s
    else if Batches(s, quiet) then s.(pendingNoop := s.pendingNoop + 1)
    else Cycled(Flushed(s), c)
  }

  /** Sealing the pending span leaves the counter one short of the next cycle. */
  method FlushForCycle(state: ServerState)
    requires WellFormed(state.dag) && Tracks(state)
    modifies state`dag, state`cultivation, state`cycleCounter, state`pendingNoop
    ensures WellFormed(state.dag) && state.View() == Flushed(old(state.View())) && old(state.dag) <= state.dag
    ensures Tracks(state) && state.cycleCounter + 1 == PostCycle(old(state.View()))
  {
    FlushPendingSelfDriven(state);
    StillTracks(state);
  }

  /** A tick runs a real cycle. */
  predicate RunsCycle(s: Live, quiet: bool) {
    s.cultivation != Archived && !Batches(s, quiet)
  }

  /** The cycle a flushed process would complete next. */
  function PostCycle(s: Live): nat {
    s.facts.cycleCounter + (if s.cultivation == Archived then 0 else s.pendingNoop) + 1
  }

  method DecideBatch(state: ServerState, quiet: bool) returns (batch: bool)
    requires state.cultivation != Archived
    ensures batch == Batches(state.View(), quiet)
  {
    var nextPostCycle := state.cycleCounter + state.pendingNoop + 1;
    var inert := quiet && state.migration.None?;
    batch := inert && state.pendingNoop + 1 < SELF_DRIVEN_BATCH_MAX && !ShouldRunPruneScan(nextPostCycle);
  }

  method ExecuteSelfDriven(state: ServerState, quiet: bool, c: Cycle)
    requires WellFormed(state.dag) && Tracks(state)
    modifies state
    ensures WellFormed(state.dag) && Tracks(state) && old(state.dag) <= state.dag
    ensures state.budgets == old(state.budgets)
    ensures state.samples == if RunsCycle(old(state.View()), quiet) && c.outcome.Committed?
                             then Sampled(old(state.samples), c, PostCycle(old(state.View()))) else old(state.samples)
    ensures state.View() == SelfDriven(old(state.View()), quiet,
      Costed(state.budgets, old(state.samples), c, PostCycle(old(state.View()))))
  {
    hide Costed, Cycled, Batches, Flushed, Tracks;
    if state.cultivation == Archived { return; }
    var batch := DecideBatch(state, quiet);
    if batch {
      state.pendingNoop := state.pendingNoop + 1;
      StillTracks(state);
    } else {
      FlushForCycle(state);
      RunCycle(state, c);
    }
  }

  // -------------------------------------------------------------------------
  // Boot
  // -------------------------------------------------------------------------

  /** A resumed migration keeps its window but restarts its wall clock. */
  function Resumed(m: Option<MigrationCandidate>, now: int): Option<MigrationCandidate> {
    match m case Some(c) => Some(c.(startedAtNs := now)) case None => None
  }

  ghost function Booted(log: Log, snapshot: Option<Value>, trusted: bool, now: int): Live {
    var f := Boot(log, if trusted then snapshot else None);
    Live(log, f.(migration := Resumed(f.migration, now)), CultivationOf(log), 0, snapshot)
  }

  /** An accepted snapshot is restored and caught up; failing that, the whole log is replayed. */
  method BootDerived(log: Log, snapshot: Option<Value>) returns (derived: DerivedState)
    ensures fresh(derived) && derived.View() == Boot(log, snapshot)
  {
    var fromSnapshot := RestoreSnapshot(log, snapshot);
    if fromSnapshot.Some? {
      derived := fromSnapshot.value;
    } else {
      var replayed := DeriveFromDag(log);
      if replayed.Ok? {
        derived := replayed.value;
      } else {
        derived := new DerivedState(EMPTY_FACTS);
      }
    }
    assert derived.View() == OrElse(FromSnapshot(log, snapshot), log);
    var rederived := derived.RederiveCultivationFromDag(log);
  }

  method RestoreSnapshot(log: Log, snapshot: Option<Value>) returns (restored: Option<DerivedState>)
    ensures restored.Some? ==> fresh(restored.value) && FromSnapshot(log, snapshot) == Some(restored.value.View())
    ensures restored.None? ==> FromSnapshot(log, snapshot) == None
  {
    if snapshot.None? { return None; }
    var decoded := Decode(snapshot.value);
    if decoded.Err? || decoded.value.None? { return None; }
    var d := decoded.value.value;
    var tipInDag := if d.tip.None? then |log| == 0 else Has(log, d.tip.value);
    if !tipInDag { return None; }
    var state := new DerivedState(d.facts);
    var replayed := ReplayEventsAfterTip(state, log, d.tip);
    restored := if replayed.Ok? then Some(state) else None;
  }

  /** A new process over the same log and snapshot.cb; every other field starts afresh. */
  method BootServer(log: Log, snapshot: Option<Value>, trusted: bool, now: int, budgets: CostBudgets)
      returns (state: ServerState)
    requires IsU64Budgets(budgets)
    ensures fresh(state) && state.View() == Booted(log, snapshot, trusted, now)
    ensures state.budgets == budgets && state.samples == [] && Tracks(state)
  {
    var derived := BootDerived(log, if trusted then snapshot else None);
    var cultivation := CurrentCultivationState(log);
    var f := derived.View();
    state := new ServerState(Live(log, f.(migration := Resumed(f.migration, now)), cultivation, 0, snapshot), budgets);
    FreshTracks(state);
  }

  // -------------------------------------------------------------------------
  // One step
  // -------------------------------------------------------------------------

  ghost function Handled(s: Live, c: Command): Live
    requires !c.Tick? && !c.Reboot?
  {
    match c
    case IngestRaw(refused, kind, bytes) =>
      if !refused && |kind| > 0 && |bytes| <= MAX_INGESTION_BYTES then Ingested(s, kind, bytes) else s
    case DepositPlate(d) => if AcceptsDeposit(s.dag, d) then Deposited(s, d) else s
    case Advance(cycle) => if s.cultivation == Archived then s else Cycled(s, cycle)
    case SubmitMutation(m) => Submitted(s, m)
    case UpdateSuccessorChain(e) => ChainUpdated(s, e)
    case RecordEvents(notes) => EmitNotes(s, notes)
  }

  /** Pending idle cycles are sealed before any request runs. */
  ghost function Step(s: Live, c: Command): Live {
    match c
    case Tick(quiet, selfDriven, cycle, cooling, notes, reason, trouble) =>
      WindowChecked(if selfDriven then SelfDriven(s, quiet, cycle) else s, cooling, notes, reason, trouble)
    case Reboot(clean, trusted, now) =>
      var last := if clean then Flushed(s) else s;
      Booted(last.dag, last.snapshot, trusted, now)
    case _ => Handled(Flushed(s), c)
  }

  /** The step completes a metabolic cycle. */
  predicate Advances(s: Live, c: Command) {
    && s.cultivation != Archived
    && ((c.Advance? && c.cycle.outcome.Committed?) ||
        (c.Tick? && c.selfDriven && !Batches(s, c.quiet) && c.cycle.outcome.Committed?))
  }

  /**
   The command with what the process itself decides filled in: whether intake is refused, and what
   the stage machine writes, from the samples h it has taken since it booted.
   */
  function Realised(c: Command, s: Live, b: CostBudgets, h: seq<Sample>): Command {
    match c
    case IngestRaw(_, kind, bytes) => IngestRaw(IsOverBudget(b, h), kind, bytes)
    case Advance(cycle) => Advance(Costed(b, h, cycle, PostCycle(s)))
    case Tick(quiet, selfDriven, cycle, cooling, notes, reason, trouble) =>
      Tick(quiet, selfDriven, Costed(b, h, cycle, PostCycle(s)), cooling, notes, reason, trouble)
    case _ => c
  }

  /** The samples of the process after the step. */
  function SamplesAfter(c: Command, s: Live, h: seq<Sample>): seq<Sample> {
    if c.Reboot? then [] else if Advances(s, c) then Sampled(h, c.cycle, PostCycle(s)) else h
  }

  method HandleIntake(state: ServerState, kind: string, bytes: Bytes)
    requires WellFormed(state.dag) && Tracks(state)
    modifies state`dag
    ensures WellFormed(state.dag) && old(state.dag) <= state.dag
    ensures state.View() == Handled(old(state.View()),
      IngestRaw(IsOverBudget(state.budgets, state.samples), kind, bytes))
  {
    hide Tracks;
    IntakeRefusedIff(state);
    ghost var refused := RefusesIntake(state);
    var r := HandleIngestRawMaterial(state, kind, bytes);
    assert RefusesIntake(state) == refused;
  }

  /** The requests that run no cycle. */
  method Handle(state: ServerState, c: Command)
    requires WellFormed(state.dag) && Tracks(state) && !c.Tick? && !c.Reboot? && !c.Advance?
    modifies state`dag, state`cultivation, state`migration, state`successorChain
    ensures WellFormed(state.dag) && Tracks(state)
    ensures state.View() ==
            Handled(old(state.View()), Realised(c, old(state.View()), state.budgets, state.samples))
  {
    hide Tracks, Submitted, ChainUpdated, EmitNotes;
    match c {
      case IngestRaw(_, kind, bytes) => HandleIntake(state, kind, bytes);
      case DepositPlate(d) => var r := HandleDepositForgedUnderstanding(state, d);
      case SubmitMutation(m) => var accepted := HandleSubmitMutation(state, m);
      case UpdateSuccessorChain(e) => var r := HandleUpdateSuccessorChain(state, e);
      case RecordEvents(notes) => RecordNotes(state, notes);
    }
    StillTracks(state);
  }

  /** An archived substrate refuses to advance. */
  method RequestCycle(state: ServerState, c: Cycle)
    requires WellFormed(state.dag) && Tracks(state)
    modifies state
    ensures WellFormed(state.dag) && Tracks(state) && state.budgets == old(state.budgets)
    ensures state.samples == if old(state.cultivation) != Archived && c.outcome.Committed?
                             then Sampled(old(state.samples), c, old(state.cycleCounter) + 1) else old(state.samples)
    ensures state.View() == Handled(old(state.View()),
      Advance(Costed(state.budgets, old(state.samples), c, old(state.cycleCounter) + 1)))
  {
    hide Tracks, Costed, Cycled, EmitNotes;
    if state.cultivation != Archived {
      RunCycle(state, c);
    }
  }

  /** Pending idle cycles are sealed before any request. */
  method Dispatch(state: ServerState, c: Command)
    requires WellFormed(state.dag) && Tracks(state) && !c.Tick? && !c.Reboot?
    modifies state
    ensures WellFormed(state.dag) && Tracks(state) && state.budgets == old(state.budgets)
    ensures state.samples == SamplesAfter(c, old(state.View()), old(state.samples))
    ensures state.View() == Step(old(state.View()), Realised(c, old(state.View()), state.budgets, old(state.samples)))
  {
    hide Tracks, Costed, Cycled, Handled;
    FlushForCycle(state);
    if c.Advance? {
      RequestCycle(state, c.cycle);
    } else {
      Handle(state, c);
    }
  }

  method ExecuteTick(state: ServerState, c: Command)
    requires WellFormed(state.dag) && Tracks(state) && c.Tick?
    modifies state
    ensures WellFormed(state.dag) && Tracks(state) && state.budgets == old(state.budgets)
    ensures state.samples == SamplesAfter(c, old(state.View()), old(state.samples))
    ensures state.View() == Step(old(state.View()), Realised(c, old(state.View()), state.budgets, old(state.samples)))
  {
    hide Tracks, Costed, SelfDriven, WindowChecked;
    if c.selfDriven {
      ExecuteSelfDriven(state, c.quiet, c.cycle);
    }
    label driven:
    CheckMigrationWindow(state, c.cooling, c.notes, c.reason, c.trouble);
    StillTracks@driven(state);
  }

  /** One complete step; only a reboot leaves another process behind. */
  method Execute(state: ServerState, c: Command) returns (next: ServerState)
    requires WellFormed(state.dag) && Tracks(state)
    modifies state
    ensures next == state || (c.Reboot? && fresh(next))
    ensures WellFormed(next.dag) && Tracks(next) && next.budgets == old(state.budgets)
    ensures next.samples == SamplesAfter(c, old(state.View()), old(state.samples))
    ensures next.View() == Step(old(state.View()), Realised(c, old(state.View()), next.budgets, old(state.samples)))
  {
    hide Handled, Flushed;
    hide Costed;
    next := state;
    if c.Tick? {
      ExecuteTick(state, c);
    } else if c.Reboot? {
      if c.clean {
        FlushPendingSelfDriven(state);
      }
      next := BootServer(state.dag, state.snapshot, c.trusted, c.now, state.budgets);
    } else {
      Dispatch(state, c);
    }
  }
}
