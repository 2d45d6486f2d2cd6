/** Which migration events a step writes, in terms of the request or of the worker's report alone. */
module MigrationRuns {
  import opened Prelude
  import opened Dag
  import opened PruneRules
  import opened PruneScan
  import opened Derived
  import opened Server
  import opened Ingest
  import opened Migration
  import opened RunLoop
  import opened Invariants
  import opened Steps
  import opened Runs
  import opened RunTheorems
  import opened PruneRuns

  predicate IsMigrationKind(kind: NodeType) {
    kind.MigrationStarted? || kind.MigrationCycleValidated? || kind.MigrationCommitted? || kind.MigrationRolledBack?
  }

  /** A node of this type is among those b adds to a. */
  ghost predicate Added(a: Log, b: Log, kind: NodeType) {
    exists i :: |a| <= i < |b| && b[i].kind == kind
  }

  /** Every terminal event is followed at once by its evolution event, for the same operation. */
  ghost predicate HasSibling(log: Log, i: nat) {
    i < |log| ==>
      match log[i].kind
      case MigrationCommitted(op) => i + 1 < |log| && log[i + 1].kind == EvolutionSucceeded(op)
      case MigrationRolledBack(op) => i + 1 < |log| && log[i + 1].kind == EvolutionFailed(op)
      case _ => true
  }

  /** b adds exactly these migration events to a, each terminal one with its sibling. */
  ghost predicate Writes(a: Log, b: Log, kinds: set<NodeType>) {
    && a <= b
    && (forall kind :: IsMigrationKind(kind) ==> (Added(a, b, kind) <==> kind in kinds))
    && (forall i: nat :: |a| <= i ==> HasSibling(b, i))
  }

  lemma WritesBoth(a: Log, b: Log, c: Log, first: set<NodeType>, second: set<NodeType>)
    requires Writes(a, b, first) && Writes(b, c, second)
    ensures Writes(a, c, first + second)
  {
    assert forall i :: 0 <= i < |b| ==> c[i] == b[i];
    forall kind | IsMigrationKind(kind)
      ensures Added(a, c, kind) <==> kind in first + second
    {
      if Added(a, b, kind) {
        var i :| |a| <= i < |b| && b[i].kind == kind;
        assert c[i].kind == kind;
      }
      if Added(b, c, kind) {
        var i :| |b| <= i < |c| && c[i].kind == kind;
      }
      if Added(a, c, kind) {
        var i :| |a| <= i < |c| && c[i].kind == kind;
        assert i < |b| ==> b[i].kind == kind;
      }
    }
    forall i: nat | |a| <= i
      ensures HasSibling(c, i)
    {
      assert HasSibling(b, i);
      assert HasSibling(c, i) || i < |b|;
    }
  }

  lemma WritesThen(a: Log, b: Log, c: Log, kinds: set<NodeType>)
    requires Writes(a, b, {}) && Writes(b, c, kinds)
    ensures Writes(a, c, kinds)
  {
    WritesBoth(a, b, c, {}, kinds);
    assert {} + kinds == kinds;
  }

  lemma OthersWriteNone(a: Log, b: Log)
    requires a <= b && forall i :: |a| <= i < |b| ==> !IsMigrationKind(b[i].kind)
    ensures Writes(a, b, {})
  {
  }

  lemma {:induction false} NotesWriteNone(s: Live, notes: seq<Note>)
    ensures Writes(s.dag, EmitNotes(s, notes).dag, {})
    decreases |notes|
  {
    if |notes| > 0 {
      var before, last := EmitNotes(s, notes[..|notes| - 1]), notes[|notes| - 1];
      NotesWriteNone(s, notes[..|notes| - 1]);
      OthersWriteNone(before.dag, Emit(before, last.kind, last.content).dag);
      WritesThen(s.dag, before.dag, EmitNotes(s, notes).dag, {});
    }
  }

  lemma PairWrites(s: Live, op: string, commit: bool, reason: Bytes)
    ensures Writes(s.dag, Closed(s, op, commit, reason, []).dag, {TerminalKind(op, commit)})
  {
    var b := Closed(s, op, commit, reason, []).dag;
    assert b[|s.dag|].kind == TerminalKind(op, commit);
  }

  lemma ClosedWrites(s: Live, op: string, commit: bool, reason: Bytes, trouble: seq<Note>)
    ensures Writes(s.dag, Closed(s, op, commit, reason, trouble).dag, {TerminalKind(op, commit)})
  {
    var noted := EmitNotes(s, trouble);
    NotesWriteNone(s, trouble);
    NotesKeepFacts(s, trouble);
    PairWrites(noted, op, commit, reason);
    assert Closed(s, op, commit, reason, trouble) == Closed(noted, op, commit, reason, []);
    WritesThen(s.dag, noted.dag, Closed(noted, op, commit, reason, []).dag, {TerminalKind(op, commit)});
  }

  lemma ValidatedWrites(s: Live, op: string, evidence: Bytes)
    ensures Writes(s.dag, Validated(s, op, evidence).dag, {MigrationCycleValidated(op)})
  {
    assert Validated(s, op, evidence).dag[|s.dag|].kind == MigrationCycleValidated(op);
  }

  lemma ValidatedClosedWrites(s: Live, op: string, commit: bool, evidence: Bytes, reason: Bytes, trouble: seq<Note>)
    ensures Writes(s.dag, Closed(Validated(s, op, evidence), op, commit, reason, trouble).dag,
      {MigrationCycleValidated(op), TerminalKind(op, commit)})
  {
    hide Closed, Validated, Writes;
    var validated := Validated(s, op, evidence);
    ValidatedWrites(s, op, evidence);
    ClosedWrites(validated, op, commit, reason, trouble);
    WritesBoth(s.dag, validated.dag, Closed(validated, op, commit, reason, trouble).dag,
        {MigrationCycleValidated(op)}, {TerminalKind(op, commit)});
    assert {MigrationCycleValidated(op)} + {TerminalKind(op, commit)} ==
           {MigrationCycleValidated(op), TerminalKind(op, commit)};
  }

  /**
   What the cycle that takes the counter to `cycle` writes of the open migration: a rollback if the
   worker lost the candidate or saw it diverge, else a commit once the window has passed, else a
   sample every tenth cycle.
   */
  function CycleEvents(open: Option<MigrationCandidate>, cycle: nat, r: Report): set<NodeType> {
    match open
    case None => {}
    case Some(m) =>
      if !r.active || r.diverged then {MigrationCycleValidated(m.op), MigrationRolledBack(m.op)}
      else if cycle >= m.startedAt + m.window then {MigrationCycleValidated(m.op), MigrationCommitted(m.op)}
      else if cycle > m.startedAt && (cycle - m.startedAt) % 10 == 0 then {MigrationCycleValidated(m.op)}
      else {}
  }

  lemma MigrationSteppedWrites(s: Live, r: Report)
    requires s.facts.migration.Some? ==> s.facts.migration.value.startedAt <= s.facts.cycleCounter
    ensures Writes(s.dag, MigrationStepped(s, r).dag, CycleEvents(s.facts.migration, s.facts.cycleCounter, r))
  {
    hide Closed, Validated, Writes;
    OthersWriteNone(s.dag, s.dag);
    if s.facts.migration.Some? {
      var op := s.facts.migration.value.op;
      ValidatedWrites(s, op, r.reason);
      ValidatedClosedWrites(s, op, true, [], [], r.trouble);
      ValidatedClosedWrites(s, op, false, r.reason, r.reason, r.trouble);
    }
  }

  lemma CounterMovedWritesNone(s: Live, span: nat)
    ensures Writes(s.dag, CounterMoved(s, span).dag, {})
  {
    OthersWriteNone(s.dag, CounterMoved(s, span).dag);
  }

  lemma ConcludedWrites(s: Live, c: Cycle)
    requires s.facts.migration.Some? ==> s.facts.migration.value.startedAt <= s.facts.cycleCounter
    ensures Writes(s.dag, Concluded(s, c).dag, CycleEvents(s.facts.migration, s.facts.cycleCounter + 1, c.report))
  {
    var events := CycleEvents(s.facts.migration, s.facts.cycleCounter + 1, c.report);
    var moved := CounterMoved(s, 1);
    var stepped := MigrationStepped(moved, c.report);
    CounterMovedWritesNone(s, 1);
    MovedFacts(s);
    hide Writes, CycleEvents, MigrationStepped, CounterMoved, EmitNotes;
    MigrationSteppedWrites(moved, c.report);
    NotesWriteNone(stepped, c.after);
    ConcludedUnfolds(s, c);
    WritesThen(s.dag, moved.dag, stepped.dag, events);
    WritesBoth(s.dag, stepped.dag, EmitNotes(stepped, c.after).dag, events, {});
    assert events + {} == events;
  }

  lemma MovedFacts(s: Live)
    ensures CounterMoved(s, 1).facts == s.facts.(cycleCounter := s.facts.cycleCounter + 1)
  {
  }

  lemma MetabolizedWritesNone(s: Live, sps: seq<SporocarpReport>, pending: seq<Hash>, post: nat)
    requires WellFormed(s.dag)
    ensures Writes(s.dag, Absorbed(s.(dag := InsertSporocarps(s.dag, sps)), pending, post).dag, {})
  {
    hide Absorbed, InsertSporocarps, WellFormed;
    MetabolizedIsInert(s, sps, pending, post);
    OthersWriteNone(s.dag, Absorbed(s.(dag := InsertSporocarps(s.dag, sps)), pending, post).dag);
  }

  lemma AdvancedWritesNone(s: Live, sps: seq<SporocarpReport>)
    requires Settled(s)
    ensures Writes(s.dag, Advanced(s, sps).dag, {})
  {
    var post := s.facts.cycleCounter + 1;
    var pending := PendingAbsorption(s.dag, s.facts.lastAbsorbed);
    var mid := Absorbed(s.(dag := InsertSporocarps(s.dag, sps)), pending, post);
    hide Absorbed, InsertSporocarps, PendingAbsorption, Pruned, Writes, LogOk, Faithful, AbsorbedOnce;
    SettledIsWellFormed(s);
    MetabolizedGrows(s, sps, post);
    MetabolizedWritesNone(s, sps, pending, post);
    PrunedWritesNone(mid, post);
    WritesThen(s.dag, mid.dag, Advanced(s, sps).dag, {});
  }

  lemma SettledIsWellFormed(s: Live)
    requires Settled(s)
    ensures WellFormed(s.dag)
  {
  }

  lemma CommittedFacts(s: Live, sps: seq<SporocarpReport>, during: seq<Note>)
    requires Settled(s)
    ensures var t := EmitNotes(Advanced(s, sps), during);
            t.facts.migration == s.facts.migration && t.facts.cycleCounter == s.facts.cycleCounter
  {
    hide Advanced, EmitNotes, Settled;
    CommittedKeeps(s, sps, during);
  }

  lemma PrunedWritesNone(s: Live, post: nat)
    requires WellFormed(s.dag)
    ensures Writes(s.dag, Pruned(s, post).dag, {})
  {
    StageAppends(s.dag, post, 0, |REGISTRY|);
    forall i | |s.dag| <= i < |Scan(s.dag, post)|
      ensures !IsMigrationKind(Scan(s.dag, post)[i].kind)
    {
      assert IsScanTombstone(Scan(s.dag, post), i, post);
    }
    OthersWriteNone(s.dag, Pruned(s, post).dag);
  }

  lemma CommittedWrites(s: Live, c: Cycle)
    requires Settled(s) && c.outcome.Committed?
    requires s.facts.migration.Some? ==> s.facts.migration.value.startedAt <= s.facts.cycleCounter
    ensures Writes(s.dag, Cycled(s, c).dag, CycleEvents(s.facts.migration, s.facts.cycleCounter + 1, c.report))
  {
    hide Writes, CycleEvents, Advanced, Concluded, EmitNotes, Settled;
    var events := CycleEvents(s.facts.migration, s.facts.cycleCounter + 1, c.report);
    var advanced := Advanced(s, c.outcome.sporocarps);
    var noted := EmitNotes(advanced, c.during);
    AdvancedWritesNone(s, c.outcome.sporocarps);
    NotesWriteNone(advanced, c.during);
    CommittedFacts(s, c.outcome.sporocarps, c.during);
    ConcludedWrites(noted, c);
    WritesThen(s.dag, advanced.dag, noted.dag, {});
    WritesThen(s.dag, noted.dag, Cycled(s, c).dag, events);
  }

  // -------------------------------------------------------------------------
  // Submissions
  // -------------------------------------------------------------------------

  /** What a submission writes: a migration that starts, or fails to build, and an abort of what is then open. */
  function SubmissionEvents(open: Option<MigrationCandidate>, m: Mutation): set<NodeType> {
    if !m.accepted || (m.migrationMode && open.Some?) then {}
    else if m.migrationMode && m.built then
      if m.kind == "abort_migration" then {MigrationStarted(m.op), MigrationRolledBack(m.op)}
      else {MigrationStarted(m.op)}
    else if m.migrationMode then {MigrationRolledBack(m.op)}
    else if m.kind == "abort_migration" && open.Some? then {MigrationRolledBack(open.value.op)}
    else {}
  }

  lemma MigratedWrites(s: Live, m: Mutation)
    ensures Writes(s.dag, Migrated(s, m).dag,
      if m.migrationMode then {if m.built then MigrationStarted(m.op) else MigrationRolledBack(m.op)} else {})
  {
    if m.migrationMode {
      assert Migrated(s, m).dag[|s.dag|].kind == if m.built then MigrationStarted(m.op) else MigrationRolledBack(m.op);
    } else {
      OthersWriteNone(s.dag, s.dag);
    }
  }

  lemma AbortedWrites(s: Live, m: Mutation)
    ensures Writes(s.dag, Aborted(s, m).dag,
      if m.kind == "abort_migration" && s.facts.migration.Some? then {MigrationRolledBack(s.facts.migration.value.op)}
      else {})
  {
    hide Closed, Writes;
    OthersWriteNone(s.dag, s.dag);
    if s.facts.migration.Some? {
      ClosedWrites(s, s.facts.migration.value.op, false, m.reason, m.trouble);
    }
  }

  lemma SubmittedWrites(s: Live, m: Mutation)
    ensures Writes(s.dag, Submitted(s, m).dag, SubmissionEvents(s.facts.migration, m))
  {
    var noted := EmitNotes(s, m.notes);
    NotesWriteNone(s, m.notes);
    NotesKeepFacts(s, m.notes);
    hide Writes, EmitNotes, Aborted;
    if Accepts(s.facts, m) {
      var migrated := Migrated(noted, m);
      var first := if m.migrationMode then {if m.built then MigrationStarted(m.op) else MigrationRolledBack(m.op)}
                   else {};
      var second := if m.kind == "abort_migration" && migrated.facts.migration.Some?
                    then {MigrationRolledBack(migrated.facts.migration.value.op)} else {};
      MigratedWrites(noted, m);
      AbortedWrites(migrated, m);
      WritesThen(s.dag, noted.dag, migrated.dag, first);
      WritesBoth(s.dag, migrated.dag, Aborted(migrated, m).dag, first, second);
      assert first + second == SubmissionEvents(s.facts.migration, m);
    }
  }

  // -------------------------------------------------------------------------
  // Every step
  // -------------------------------------------------------------------------

  /** Everything a step writes of migrations. */
  ghost function StepEvents(s: Live, c: Command): set<NodeType> {
    if Advances(s, c) then CycleEvents(s.facts.migration, Step(s, c).facts.cycleCounter, c.cycle.report)
    else if c.SubmitMutation? then SubmissionEvents(s.facts.migration, c.mutation)
    else {}
  }

  lemma FlushedWritesNone(s: Live)
    ensures Writes(s.dag, Flushed(s).dag, {}) && Flushed(s).facts.migration == s.facts.migration
    ensures Flushed(s).facts.cycleCounter >= s.facts.cycleCounter
  {
    OthersWriteNone(s.dag, Flushed(s).dag);
  }

  lemma HandledWrites(s: Live, c: Command)
    requires !c.Tick? && !c.Reboot? && !c.Advance?
    ensures Writes(s.dag, Handled(s, c).dag,
      if c.SubmitMutation? then SubmissionEvents(s.facts.migration, c.mutation) else {})
  {
    hide Writes, SubmissionEvents, Submitted, EmitNotes;
    match c
    case IngestRaw(_, _, _) => OthersWriteNone(s.dag, Handled(s, c).dag);
    case DepositPlate(_) => OthersWriteNone(s.dag, Handled(s, c).dag);
    case UpdateSuccessorChain(_) => OthersWriteNone(s.dag, Handled(s, c).dag);
    case SubmitMutation(m) => SubmittedWrites(s, m);
    case RecordEvents(notes) => NotesWriteNone(s, notes);
  }

  lemma AdvancingWrites(s: Live, c: Command)
    requires Ready(s) && Advances(s, c)
    ensures Writes(s.dag, Step(s, c).dag, StepEvents(s, c))
  {
    hide Writes, CycleEvents, Cycled, Flushed, Step, LogOk, Faithful, AbsorbedOnce;
    var flushed := Flushed(s);
    FlushedKeeps(s);
    FlushedWritesNone(s);
    AdvancingIsCycle(s, c);
    CommittedWrites(flushed, c.cycle);
    WritesThen(s.dag, flushed.dag, Step(s, c).dag, StepEvents(s, c));
  }

  lemma FailedWrites(s: Live, c: Cycle)
    requires c.outcome.Failed?
    ensures Writes(s.dag, Cycled(s, c).dag, {})
  {
    NotesWriteNone(s, c.during);
  }

  lemma IdleTickWrites(s: Live, c: Command)
    requires Ready(s) && c.Tick? && !Advances(s, c)
    ensures Writes(s.dag, Step(s, c).dag, {})
  {
    hide Writes, Cycled, Flushed, Settled, Batches;
    OthersWriteNone(s.dag, s.dag);
    FlushedWritesNone(s);
    TickIsSelfDriven(s, c);
    if c.cycle.outcome.Failed? {
      FailedWrites(Flushed(s), c.cycle);
      WritesThen(s.dag, Flushed(s).dag, Cycled(Flushed(s), c.cycle).dag, {});
    }
  }

  lemma RequestWrites(s: Live, c: Command)
    requires !c.Tick? && !c.Reboot? && !Advances(s, c)
    ensures Writes(s.dag, Step(s, c).dag, StepEvents(s, c))
  {
    hide Writes, SubmissionEvents, Cycled, Flushed;
    var flushed := Flushed(s);
    FlushedKeepsNodes(s);
    FlushedWritesNone(s);
    OthersWriteNone(flushed.dag, flushed.dag);
    if !c.Advance? {
      HandledWrites(flushed, c);
    } else if c.cycle.outcome.Failed? {
      FailedWrites(flushed, c.cycle);
    }
    WritesThen(s.dag, flushed.dag, Step(s, c).dag, StepEvents(s, c));
  }

  /** Every step writes exactly these migration events. */
  lemma StepWrites(s: Live, c: Command)
    requires Ready(s)
    ensures Writes(s.dag, Step(s, c).dag, StepEvents(s, c))
  {
    hide Writes, Settled, Step, CycleEvents, SubmissionEvents;
    if Advances(s, c) {
      AdvancingWrites(s, c);
    } else if c.Tick? {
      IdleTickWrites(s, c);
    } else if c.Reboot? {
      RebootWritesNone(s, c);
    } else {
      RequestWrites(s, c);
    }
  }

  lemma RebootWritesNone(s: Live, c: Command)
    requires c.Reboot?
    ensures Writes(s.dag, Step(s, c).dag, {})
  {
    FlushedWritesNone(s);
    OthersWriteNone(s.dag, s.dag);
  }

  // -------------------------------------------------------------------------
  // When a migration starts, commits and rolls back
  // -------------------------------------------------------------------------

  /** The operation is the open migration's. */
  predicate IsOpen(s: Live, op: string) {
    s.facts.migration.Some? && s.facts.migration.value.op == op
  }

  /**
   A step commits a migration exactly when it completes a cycle in which the worker still runs the
   candidate without divergence, and whose number is past the candidate's window.
   */
  lemma CommitsIff(s: Live, c: Command, op: string)
    requires Reachable(s)
    ensures Added(s.dag, Step(s, c).dag, MigrationCommitted(op)) <==>
            Advances(s, c) && IsOpen(s, op) && c.cycle.report.active && !c.cycle.report.diverged &&
            Step(s, c).facts.cycleCounter >= s.facts.migration.value.startedAt + s.facts.migration.value.window
  {
    hide Step, Added;
    ReachableIsReady(s);
    StepWrites(s, c);
  }

  /**
   A step rolls a migration back exactly when it completes a cycle in which the worker lost the
   candidate or saw it diverge, or is an accepted request that aborts it, or that could not build it.
   */
  lemma RollsBackIff(s: Live, c: Command, op: string)
    requires Reachable(s)
    ensures Added(s.dag, Step(s, c).dag, MigrationRolledBack(op)) <==>
            || (Advances(s, c) && IsOpen(s, op) && (!c.cycle.report.active || c.cycle.report.diverged))
            || (c.SubmitMutation? && c.mutation.accepted && c.mutation.migrationMode && s.facts.migration.None? &&
                c.mutation.op == op && (!c.mutation.built || c.mutation.kind == "abort_migration"))
            || (c.SubmitMutation? && c.mutation.accepted && !c.mutation.migrationMode &&
                c.mutation.kind == "abort_migration" && IsOpen(s, op))
  {
    hide Step, Added;
    ReachableIsReady(s);
    StepWrites(s, c);
  }

  /** A step starts a migration exactly when it is an accepted request that could build it, with none open. */
  lemma StartsIff(s: Live, c: Command, op: string)
    requires Reachable(s)
    ensures Added(s.dag, Step(s, c).dag, MigrationStarted(op)) <==>
            c.SubmitMutation? && c.mutation.accepted && c.mutation.migrationMode && c.mutation.built &&
            s.facts.migration.None? && c.mutation.op == op
  {
    hide Step, Added;
    ReachableIsReady(s);
    StepWrites(s, c);
  }

  /** A step samples a validation at every end of a migration, and at every tenth cycle of it otherwise. */
  lemma ValidatesIff(s: Live, c: Command, op: string)
    requires Reachable(s)
    ensures Added(s.dag, Step(s, c).dag, MigrationCycleValidated(op)) <==>
            Advances(s, c) && IsOpen(s, op) &&
            var m, k := s.facts.migration.value, Step(s, c).facts.cycleCounter;
            !c.cycle.report.active || c.cycle.report.diverged || k >= m.startedAt + m.window ||
            (k > m.startedAt && (k - m.startedAt) % 10 == 0)
  {
    hide Step, Added;
    ReachableIsReady(s);
    StepWrites(s, c);
  }

  lemma {:induction false} RunHasSiblings(s: Live, cs: seq<Command>)
    requires Ready(s) && forall i: nat :: HasSibling(s.dag, i)
    ensures forall i: nat :: HasSibling(Run(s, cs).dag, i)
    decreases |cs|
  {
    if |cs| > 0 {
      hide Step, StepEvents, Settled;
      var before := Run(s, cs[..|cs| - 1]);
      RunKeeps(s, cs[..|cs| - 1]);
      RunHasSiblings(s, cs[..|cs| - 1]);
      StepWrites(before, cs[|cs| - 1]);
      SiblingsExtend(before.dag, Run(s, cs).dag, StepEvents(before, cs[|cs| - 1]));
    }
  }

  lemma SiblingsExtend(a: Log, b: Log, kinds: set<NodeType>)
    requires Writes(a, b, kinds) && forall i: nat :: HasSibling(a, i)
    ensures forall i: nat :: HasSibling(b, i)
  {
    forall i: nat
      ensures HasSibling(b, i)
    {
      assert HasSibling(a, i);
      assert i < |a| ==> a[i] == b[i] && (i + 1 < |a| ==> a[i + 1] == b[i + 1]);
    }
  }

  /** In every reachable log a commit is followed at once by the evolution's success, a rollback by its failure. */
  lemma TerminalsHaveSiblings(s: Live, i: nat)
    requires Reachable(s) && i < |s.dag|
    ensures s.dag[i].kind.MigrationCommitted? ==>
              i + 1 < |s.dag| && s.dag[i + 1].kind == EvolutionSucceeded(s.dag[i].kind.op)
    ensures s.dag[i].kind.MigrationRolledBack? ==>
              i + 1 < |s.dag| && s.dag[i + 1].kind == EvolutionFailed(s.dag[i].kind.op)
  {
    var id: Id, time: int, depth: nat, cs: seq<Command> :| !IsZero(id) && s == Run(Born(id, time, depth), cs);
    BornIsReady(id, time, depth);
    hide Ready;
    RunHasSiblings(Born(id, time, depth), cs);
    assert HasSibling(s.dag, i);
  }

  /**
   C66, on any state, reachable or not: a candidate ten cycles past its window is rolled back unless
   the detector is cooling down, and any other is left alone.
   */
  lemma C66RollsBackIff(s: Live, cooling: bool, notes: seq<Note>, reason: Bytes, trouble: seq<Note>)
    requires s.facts.migration.Some?
    ensures var m, t := s.facts.migration.value, WindowChecked(s, cooling, notes, reason, trouble);
            if s.facts.cycleCounter > m.startedAt + m.window + 10 && !cooling
            then Added(s.dag, t.dag, MigrationRolledBack(m.op)) && t.facts.migration.None?
            else t == s
  {
    var op := s.facts.migration.value.op;
    NotesWriteNone(s, notes);
    ClosedWrites(EmitNotes(s, notes), op, false, reason, trouble);
    WritesThen(s.dag, EmitNotes(s, notes).dag, Closed(EmitNotes(s, notes), op, false, reason, trouble).dag,
        {MigrationRolledBack(op)});
  }

  // -------------------------------------------------------------------------
  // What a terminal event says
  // -------------------------------------------------------------------------

  /** b adds a terminal event of this kind, for this operation at this cycle, and a sibling with this reason. */
  ghost predicate Closes(a: Log, b: Log, kind: NodeType, op: string, cycle: nat, reason: Bytes) {
    exists i :: |a| <= i < |b| - 1 && b[i].kind == kind && b[i].cycle == cycle &&
                b[i].content == MigrationTerminalBody(op, cycle) && b[i + 1].content == Opaque(reason)
  }

  lemma ClosesExtends(a: Log, b: Log, c: Log, d: Log, kind: NodeType, op: string, cycle: nat, reason: Bytes)
    requires a <= b && c <= d && Closes(b, c, kind, op, cycle, reason)
    ensures Closes(a, d, kind, op, cycle, reason)
  {
    var i :| |b| <= i < |c| - 1 && c[i].kind == kind && c[i].cycle == cycle &&
             c[i].content == MigrationTerminalBody(op, cycle) && c[i + 1].content == Opaque(reason);
    assert d[i] == c[i] && d[i + 1] == c[i + 1];
  }

  lemma ClosedCloses(s: Live, op: string, commit: bool, reason: Bytes, trouble: seq<Note>)
    ensures Closes(s.dag, Closed(s, op, commit, reason, trouble).dag, TerminalKind(op, commit), op,
                   s.facts.cycleCounter, reason)
  {
    var noted, log := EmitNotes(s, trouble), Closed(s, op, commit, reason, trouble).dag;
    var i := |noted.dag|;
    NotesGrow(s, trouble);
    NotesKeepFacts(s, trouble);
    assert log[i].kind == TerminalKind(op, commit) && log[i].cycle == s.facts.cycleCounter;
    assert log[i].content == MigrationTerminalBody(op, s.facts.cycleCounter) && log[i + 1].content == Opaque(reason);
  }

  lemma SteppedCloses(s: Live, r: Report, m: MigrationCandidate, commit: bool)
    requires s.facts.migration == Some(m) && m.startedAt <= s.facts.cycleCounter
    requires commit <==> r.active && !r.diverged
    requires commit ==> s.facts.cycleCounter >= m.startedAt + m.window
    ensures Closes(s.dag, MigrationStepped(s, r).dag, TerminalKind(m.op, commit), m.op, s.facts.cycleCounter,
                   if commit then [] else r.reason)
  {
    hide Closed, Closes;
    var reason := if commit then [] else r.reason;
    var validated := Validated(s, m.op, reason);
    ClosedCloses(validated, m.op, commit, reason, r.trouble);
    ClosesExtends(s.dag, validated.dag, Closed(validated, m.op, commit, reason, r.trouble).dag,
                  Closed(validated, m.op, commit, reason, r.trouble).dag, TerminalKind(m.op, commit), m.op,
                  s.facts.cycleCounter, reason);
  }

  lemma CycledCloses(s: Live, c: Cycle, m: MigrationCandidate, commit: bool)
    requires Settled(s) && c.outcome.Committed? && s.facts.migration == Some(m)
    requires m.startedAt <= s.facts.cycleCounter && (commit <==> c.report.active && !c.report.diverged)
    requires commit ==> s.facts.cycleCounter + 1 >= m.startedAt + m.window
    ensures Closes(s.dag, Cycled(s, c).dag, TerminalKind(m.op, commit), m.op, s.facts.cycleCounter + 1,
                   if commit then [] else c.report.reason)
  {
    hide Closes, Advanced, EmitNotes, MigrationStepped, CounterMoved, Settled, Closed, TerminalKind;
    var noted := EmitNotes(Advanced(s, c.outcome.sporocarps), c.during);
    var moved := CounterMoved(noted, 1);
    var stepped := MigrationStepped(moved, c.report);
    CommittedFacts(s, c.outcome.sporocarps, c.during);
    AdvancedGrows(s, c.outcome.sporocarps);
    NotesGrow(Advanced(s, c.outcome.sporocarps), c.during);
    MovedFacts(noted);
    MovedGrows(noted);
    SteppedCloses(moved, c.report, m, commit);
    NotesGrow(stepped, c.after);
    ClosesExtends(s.dag, moved.dag, stepped.dag, Cycled(s, c).dag, TerminalKind(m.op, commit), m.op,
                  s.facts.cycleCounter + 1, if commit then [] else c.report.reason);
  }

  lemma MovedGrows(s: Live)
    ensures s.dag <= CounterMoved(s, 1).dag
  {
  }

  /**
   The terminal event a cycle writes names the operation and the cycle, and a rollback's evolution
   event carries the reason the worker gave.
   */
  lemma TerminalSays(s: Live, c: Command, op: string)
    requires Reachable(s) && Advances(s, c) && IsOpen(s, op)
    ensures var t, k, r := Step(s, c), Step(s, c).facts.cycleCounter, c.cycle.report;
            && (!r.active || r.diverged ==> Closes(s.dag, t.dag, MigrationRolledBack(op), op, k, r.reason))
            && (r.active && !r.diverged && k >= s.facts.migration.value.startedAt + s.facts.migration.value.window ==>
                  Closes(s.dag, t.dag, MigrationCommitted(op), op, k, []))
  {
    hide Step, Cycled, Flushed, Settled, Closes;
    var flushed, m, r := Flushed(s), s.facts.migration.value, c.cycle.report;
    ReachableIsReady(s);
    FlushedKeeps(s);
    FlushedKeepsNodes(s);
    FlushedWritesNone(s);
    AdvancingIsCycle(s, c);
    var k := Step(s, c).facts.cycleCounter;
    var commit := r.active && !r.diverged;
    if !commit || k >= m.startedAt + m.window {
      CycledCloses(flushed, c.cycle, m, commit);
      ClosesExtends(s.dag, flushed.dag, Step(s, c).dag, Step(s, c).dag, TerminalKind(op, commit), op, k,
                    if commit then [] else r.reason);
    }
  }
}
