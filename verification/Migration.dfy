/**
 Two-phase schema migrations: opening one (substrate/src/attestation.rs), the per-cycle
 decision and the terminal sequence (substrate/src/ingest.rs, kernel/schema/src/migration.rs),
 and the window-exceeded detector of the autonomous tick (substrate/src/server/autonomous.rs).
 */
module Migration {
  import opened Prelude
  import opened Dag
  import opened Derived
  import opened Server
  import opened Ingest

  const DEFAULT_DUAL_VALIDATION_WINDOW_CYCLES: nat := 100
  const DEFAULT_MIGRATION_GRACE_CYCLES: nat := 10
  const CYCLE_VALIDATED_SAMPLE_EVERY: nat := 10
  const ABORT_MIGRATION: string := "abort_migration"

  datatype Decision = KeepValidating | Commit | Rollback

  /** The cycles the candidate has been validating for. */
  function Elapsed(c: MigrationCandidate, cycle: nat): nat {
    SatSub(cycle, c.startedAt)
  }

  function DecideCycle(c: MigrationCandidate, cycle: nat, diverged: bool): Decision {
    if diverged then Rollback
    else if Elapsed(c, cycle) >= c.window then Commit
    else KeepValidating
  }

  predicate WindowExceeded(c: MigrationCandidate, cycle: nat) {
    Elapsed(c, cycle) > c.window + DEFAULT_MIGRATION_GRACE_CYCLES
  }

  // -------------------------------------------------------------------------
  // The terminal sequence
  // -------------------------------------------------------------------------

  /** The terminal event, its evolution sibling, and no candidate any more. */
  ghost function Closed(s: Live, op: string, commit: bool, reason: Bytes, trouble: seq<Note>): Live {
    var noted := EmitNotes(s, trouble);
    var terminal := Emit(noted, if commit then MigrationCommitted(op) else MigrationRolledBack(op),
                         MigrationTerminalBody(op, s.facts.cycleCounter));
    var sibling := Emit(terminal, if commit then EvolutionSucceeded(op) else EvolutionFailed(op), Opaque(reason));
    sibling.(facts := sibling.facts.(migration := None))
  }

  method Close(state: ServerState, op: string, commit: bool, reason: Bytes, trouble: seq<Note>)
    requires WellFormed(state.dag)
    modifies state`dag, state`cultivation, state`migration
    ensures WellFormed(state.dag) && old(state.dag) <= state.dag
    ensures state.View() == Closed(old(state.View()), op, commit, reason, trouble)
  {
    hide WellFormed;
    RecordNotes(state, trouble);
    var kind := if commit then MigrationCommitted(op) else MigrationRolledBack(op);
    state.EmitSubstrateEvent(kind, MigrationTerminalBody(op, state.cycleCounter));
    var sibling := if commit then EvolutionSucceeded(op) else EvolutionFailed(op);
    state.EmitSubstrateEvent(sibling, Opaque(reason));
    state.migration := None;
  }

  method ForceMigrationRollback(state: ServerState, op: string, reason: Bytes, trouble: seq<Note>)
    requires WellFormed(state.dag)
    modifies state`dag, state`cultivation, state`migration
    ensures WellFormed(state.dag) && old(state.dag) <= state.dag
    ensures state.View() ==
      if old(state.migration).None? then old(state.View()) else Closed(old(state.View()), op, false, reason, trouble)
  {
    if state.migration.None? { return; }
    Close(state, op, false, reason, trouble);
  }

  // -------------------------------------------------------------------------
  // One cycle of dual validation
  // -------------------------------------------------------------------------

  /** What the gradient worker said of the candidate this cycle, and any trouble closing it there. */
  datatype Report = Report(active: bool, diverged: bool, reason: Bytes, trouble: seq<Note>)

  ghost function Validated(s: Live, op: string, reason: Bytes): Live {
    Emit(s, MigrationCycleValidated(op), Opaque(reason))
  }

  /** A worker that no longer runs the candidate counts as divergence. */
  ghost function MigrationStepped(s: Live, r: Report): Live {
    match s.facts.migration
    case None => s
    case Some(c) =>
      var elapsed := Elapsed(c, s.facts.cycleCounter);
      match DecideCycle(c, s.facts.cycleCounter, !r.active || r.diverged)
      case KeepValidating =>
        if elapsed > 0 && elapsed % CYCLE_VALIDATED_SAMPLE_EVERY == 0 then Validated(s, c.op, r.reason) else s
      case Commit => Closed(Validated(s, c.op, []), c.op, true, [], r.trouble)
      case Rollback => Closed(Validated(s, c.op, r.reason), c.op, false, r.reason, r.trouble)
  }

  method RunMigrationStep(state: ServerState, r: Report)
    requires WellFormed(state.dag)
    modifies state`dag, state`cultivation, state`migration
    ensures WellFormed(state.dag) && old(state.dag) <= state.dag
    ensures state.View() == MigrationStepped(old(state.View()), r)
  {
    if state.migration.None? { return; }
    var candidate := state.migration.value;
    var diverged := !r.active || r.diverged;
    var decision := DecideCycle(candidate, state.cycleCounter, diverged);
    var elapsed := Elapsed(candidate, state.cycleCounter);
    match decision
    case KeepValidating =>
      if elapsed > 0 && elapsed % CYCLE_VALIDATED_SAMPLE_EVERY == 0 {
        state.EmitSubstrateEvent(MigrationCycleValidated(candidate.op), Opaque(r.reason));
      }
    case Commit =>
      state.EmitSubstrateEvent(MigrationCycleValidated(candidate.op), Opaque([]));
      Close(state, candidate.op, true, [], r.trouble);
    case Rollback =>
      state.EmitSubstrateEvent(MigrationCycleValidated(candidate.op), Opaque(r.reason));
      Close(state, candidate.op, false, r.reason, r.trouble);
  }

  /** C66: a candidate past its window and grace is rolled back, unless the detector is cooling down. */
  ghost function WindowChecked(s: Live, cooling: bool, notes: seq<Note>, reason: Bytes, trouble: seq<Note>): Live {
    match s.facts.migration
    case Some(c) =>
      if WindowExceeded(c, s.facts.cycleCounter) && !cooling
      then Closed(EmitNotes(s, notes), c.op, false, reason, trouble) else s
    case None => s
  }

  method CheckMigrationWindow(state: ServerState, cooling: bool, notes: seq<Note>, reason: Bytes, trouble: seq<Note>)
    requires WellFormed(state.dag)
    modifies state`dag, state`cultivation, state`migration
    ensures WellFormed(state.dag) && old(state.dag) <= state.dag
    ensures state.View() == WindowChecked(old(state.View()), cooling, notes, reason, trouble)
  {
    if state.migration.Some? {
      var candidate := state.migration.value;
      if WindowExceeded(candidate, state.cycleCounter) && !cooling {
        NotesKeepFacts(state.View(), notes);
        RecordNotes(state, notes);
        ForceMigrationRollback(state, candidate.op, reason, trouble);
      }
    }
  }

  // -------------------------------------------------------------------------
  // Submitting a mutation
  // -------------------------------------------------------------------------

  /**
   A submitted mutation as the gradient worker classified it: `built` says the candidate
   copy was made, `notes` are the events the other branches of the handler write.
   */
  datatype Mutation = Mutation(kind: string, accepted: bool, migrationMode: bool, built: bool, op: string, diff: Bytes,
                               now: int, reason: Bytes, notes: seq<Note>, trouble: seq<Note>)

  /** Only one migration may be in flight. */
  predicate Accepts(s: Facts, m: Mutation) {
    m.accepted && !(m.migrationMode && s.migration.Some?)
  }

  function Opened(s: Live, m: Mutation): Live {
    var cycle := s.facts.cycleCounter;
    var c := MigrationCandidate(m.op, m.diff, cycle, DEFAULT_DUAL_VALIDATION_WINDOW_CYCLES, m.now);
    s.(dag := Append(s.dag, [], MigrationStarted(m.op), cycle,
                     MigrationStartedBody(Some(c.op), Some(c.diff), Some(cycle), Some(c.window), Some(c.startedAtNs))),
       facts := s.facts.(migration := Some(c)))
  }

  /** The copy could not be built: straight to the rollback, with no candidate. */
  function BuildFailed(s: Live, m: Mutation): Live {
    var cycle := s.facts.cycleCounter;
    var rolledBack := Append(s.dag, [], MigrationRolledBack(m.op), cycle, MigrationTerminalBody(m.op, cycle));
    s.(dag := Append(rolledBack, [], EvolutionFailed(m.op), cycle, Opaque(m.reason)))
  }

  ghost function Migrated(s: Live, m: Mutation): Live {
    if !m.migrationMode then s else if m.built then Opened(s, m) else BuildFailed(s, m)
  }

  ghost function Aborted(s: Live, m: Mutation): Live {
    match s.facts.migration
    case Some(c) => if m.kind == ABORT_MIGRATION then Closed(s, c.op, false, m.reason, m.trouble) else s
    case None => s
  }

  ghost function Submitted(s: Live, m: Mutation): Live {
    var noted := EmitNotes(s, m.notes);
    if Accepts(s.facts, m) then Aborted(Migrated(noted, m), m) else noted
  }

  method MigrateMutation(state: ServerState, m: Mutation)
    requires WellFormed(state.dag)
    modifies state`dag, state`migration
    ensures WellFormed(state.dag) && old(state.dag) <= state.dag
    ensures state.View() == Migrated(old(state.View()), m)
  {
    var cycle := state.cycleCounter;
    if m.migrationMode {
      if m.built {
        var window := DEFAULT_DUAL_VALIDATION_WINDOW_CYCLES;
        state.migration := Some(MigrationCandidate(m.op, m.diff, cycle, window, m.now));
        state.InsertAtTip([], MigrationStarted(m.op), cycle,
                          MigrationStartedBody(Some(m.op), Some(m.diff), Some(cycle), Some(window), Some(m.now)));
      } else {
        state.InsertAtTip([], MigrationRolledBack(m.op), cycle, MigrationTerminalBody(m.op, cycle));
        state.InsertAtTip([], EvolutionFailed(m.op), cycle, Opaque(m.reason));
      }
    }
  }

  method HandleSubmitMutation(state: ServerState, m: Mutation) returns (accepted: bool)
    requires WellFormed(state.dag)
    modifies state`dag, state`cultivation, state`migration
    ensures WellFormed(state.dag) && old(state.dag) <= state.dag
    ensures state.View() == Submitted(old(state.View()), m)
    ensures accepted <==> Accepts(old(state.View()).facts, m)
  {
    accepted := m.accepted;
    if accepted && m.migrationMode && state.migration.Some? {
      accepted := false;
    }
    RecordNotes(state, m.notes);
    if accepted {
      MigrateMutation(state, m);
      if m.kind == ABORT_MIGRATION && state.migration.Some? {
        ForceMigrationRollback(state, state.migration.value.op, m.reason, m.trouble);
      }
    }
  }
}
