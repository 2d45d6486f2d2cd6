/** How many terminal events migrations leave in the log of a run, counted against the commands that cause them. */
module Terminals {
  import opened Prelude
  import opened Dag
  import opened PruneRules
  import opened Derived
  import opened Server
  import opened Ingest
  import opened Migration
  import opened RunLoop
  import opened Invariants
  import opened Steps
  import opened Runs
  import opened RunTheorems

  /** How many of the nodes from a up to b are terminal events. */
  function TerminalCount(log: Log, a: nat, b: nat): nat
    requires a <= b <= |log|
  {
    if a == b then 0 else TerminalCount(log, a, b - 1) + if IsTerminal(log[b - 1].kind) then 1 else 0
  }

  /** Node k is the rollback of a build that failed: there was nothing open to roll back. */
  predicate IsFailedBuild(log: Log, k: nat) {
    k < |log| && log[k].kind.MigrationRolledBack? && OpenOf(log[..k]) == None
  }

  function FailedBuilds(log: Log, a: nat, b: nat): nat
    requires a <= b <= |log|
  {
    if a == b then 0 else FailedBuilds(log, a, b - 1) + if IsFailedBuild(log, b - 1) then 1 else 0
  }

  /** Every terminal event closes a migration or records a failed build. */
  lemma {:induction false} TerminalsSplit(log: Log, a: nat, b: nat)
    requires Bracketed(log) && a <= b <= |log|
    ensures TerminalCount(log, a, b) == Closings(log, a, b) + FailedBuilds(log, a, b)
    decreases b
  {
    if a < b {
      TerminalsSplit(log, a, b - 1);
      BracketedAt(log, b - 1);
    }
  }

  /**
   "At most one terminal event between one start and the next" holds exactly when no build failed
   in between: there is one terminal event for the migration, and one for every failed build.
   */
  lemma {:induction false} AtMostOneTerminalIff(log: Log, i: nat, j: nat)
    requires Bracketed(log) && i < j < |log| && log[i].kind.MigrationStarted? && log[j].kind.MigrationStarted?
    requires forall k :: i < k < j ==> !log[k].kind.MigrationStarted?
    ensures TerminalCount(log, i + 1, j) == 1 + FailedBuilds(log, i + 1, j)
    ensures TerminalCount(log, i + 1, j) <= 1 <==> forall k: nat :: i < k < j ==> !IsFailedBuild(log, k)
  {
    hide Bracketed, EndsOrFails, BracketStep;
    StartsAreSeparated(log, i, j);
    TerminalsSplit(log, i + 1, j);
    NoFailedBuildsIff(log, i + 1, j);
  }

  lemma {:induction false} NoFailedBuildsIff(log: Log, a: nat, b: nat)
    requires a <= b <= |log|
    ensures FailedBuilds(log, a, b) == 0 <==> forall k: nat :: a <= k < b ==> !IsFailedBuild(log, k)
    decreases b
  {
    if a < b {
      NoFailedBuildsIff(log, a, b - 1);
    }
  }

  // -------------------------------------------------------------------------
  // What handlers add
  // -------------------------------------------------------------------------

  function AllFailedBuilds(log: Log): nat {
    FailedBuilds(log, 0, |log|)
  }

  /** b extends a by nodes of which n record failed builds. */
  ghost predicate AddsFailures(a: Log, b: Log, n: nat) {
    a <= b && AllFailedBuilds(b) == AllFailedBuilds(a) + n
  }

  lemma {:induction false} FailedBuildsOfPrefix(a: Log, b: Log, n: nat, k: nat)
    requires a <= b && n <= k <= |a|
    ensures FailedBuilds(b, n, k) == FailedBuilds(a, n, k)
    decreases k
  {
    if n < k {
      FailedBuildsOfPrefix(a, b, n, k - 1);
      assert b[..k - 1] == a[..k - 1];
    }
  }

  lemma NodeAddsFailure(log: Log, n: Node)
    ensures AddsFailures(log, log + [n], if n.kind.MigrationRolledBack? && OpenOf(log) == None then 1 else 0)
  {
    FailedBuildsOfPrefix(log, log + [n], 0, |log|);
    assert (log + [n])[..|log|] == log;
  }

  lemma {:induction false} OthersAddNone(a: Log, b: Log)
    requires a <= b && forall i :: |a| <= i < |b| ==> !b[i].kind.MigrationRolledBack?
    ensures AddsFailures(a, b, 0)
    decreases |b|
  {
    if |a| == |b| {
      assert a == b;
    } else {
      var front := b[..|b| - 1];
      OthersAddNone(a, front);
      NodeAddsFailure(front, b[|b| - 1]);
      assert b == front + [b[|b| - 1]];
    }
  }

  lemma {:induction false} NotesAddNone(s: Live, notes: seq<Note>)
    ensures AddsFailures(s.dag, EmitNotes(s, notes).dag, 0) && OpenOf(EmitNotes(s, notes).dag) == OpenOf(s.dag)
    decreases |notes|
  {
    if |notes| > 0 {
      var before, last := EmitNotes(s, notes[..|notes| - 1]), notes[|notes| - 1];
      NotesAddNone(s, notes[..|notes| - 1]);
      NodeAddsFailure(before.dag, EmittedNode(before, last.kind, last.content));
      AccountsStep(before.dag, EmittedNode(before, last.kind, last.content));
    }
  }

  /** Closing what is open records no failed build. */
  lemma ClosedAddsNone(s: Live, op: string, commit: bool, reason: Bytes, trouble: seq<Note>)
    requires OpenOf(s.dag).Some?
    ensures AddsFailures(s.dag, Closed(s, op, commit, reason, trouble).dag, 0)
  {
    var noted := EmitNotes(s, trouble);
    var terminal := Emit(noted, TerminalKind(op, commit), MigrationTerminalBody(op, s.facts.cycleCounter));
    NotesAddNone(s, trouble);
    NodeAddsFailure(noted.dag,
        EmittedNode(noted, TerminalKind(op, commit), MigrationTerminalBody(op, s.facts.cycleCounter)));
    NodeAddsFailure(terminal.dag,
        EmittedNode(terminal, if commit then EvolutionSucceeded(op) else EvolutionFailed(op), Opaque(reason)));
  }

  lemma ValidatedClosedAddsNone(s: Live, op: string, commit: bool, evidence: Bytes, reason: Bytes, trouble: seq<Note>)
    requires OpenOf(s.dag).Some?
    ensures AddsFailures(s.dag, Validated(s, op, evidence).dag, 0)
    ensures AddsFailures(s.dag, Closed(Validated(s, op, evidence), op, commit, reason, trouble).dag, 0)
  {
    var n := EmittedNode(s, MigrationCycleValidated(op), Opaque(evidence));
    NodeAddsFailure(s.dag, n);
    AccountsStep(s.dag, n);
    ClosedAddsNone(Validated(s, op, evidence), op, commit, reason, trouble);
  }

  lemma MigrationSteppedAddsNone(s: Live, r: Report)
    requires OpenOf(s.dag) == OpOf(s.facts.migration)
    ensures AddsFailures(s.dag, MigrationStepped(s, r).dag, 0)
  {
    if s.facts.migration.Some? {
      var op := s.facts.migration.value.op;
      ValidatedClosedAddsNone(s, op, true, [], [], r.trouble);
      ValidatedClosedAddsNone(s, op, false, r.reason, r.reason, r.trouble);
    }
  }

  lemma CounterMovedAddsNone(s: Live, span: nat)
    ensures AddsFailures(s.dag, CounterMoved(s, span).dag, 0) && OpenOf(CounterMoved(s, span).dag) == OpenOf(s.dag)
  {
    var moved := s.(facts := s.facts.(cycleCounter := s.facts.cycleCounter + span));
    var n := EmittedNode(moved, CycleAdvanced,
        CycleAdvancedBody(Some(s.facts.cycleCounter), Some(s.facts.cycleCounter + span)));
    NodeAddsFailure(s.dag, n);
    AccountsStep(s.dag, n);
  }

  lemma ConcludedAddsNone(s: Live, c: Cycle)
    requires OpenOf(s.dag) == OpOf(s.facts.migration)
    ensures AddsFailures(s.dag, Concluded(s, c).dag, 0)
  {
    var moved := CounterMoved(s, 1);
    CounterMovedAddsNone(s, 1);
    MigrationSteppedAddsNone(moved, c.report);
    NotesAddNone(MigrationStepped(moved, c.report), c.after);
    ConcludedUnfolds(s, c);
  }

  lemma MetabolizedAddsNone(s: Live, sps: seq<SporocarpReport>, post: nat)
    requires Settled(s)
    ensures var t := Absorbed(s.(dag := InsertSporocarps(s.dag, sps)), PendingAbsorption(s.dag, s.facts.lastAbsorbed),
      post);
            AddsFailures(s.dag, t.dag, 0)
  {
    var fruited := InsertSporocarps(s.dag, sps);
    SporocarpsAppend(s.dag, sps);
    OthersAddNone(s.dag, Absorbed(s.(dag := fruited), PendingAbsorption(s.dag, s.facts.lastAbsorbed), post).dag);
  }

  lemma PrunedAddsNone(s: Live, post: nat)
    requires WellFormed(s.dag)
    ensures AddsFailures(s.dag, Pruned(s, post).dag, 0)
  {
    TombstonesAreNeutral(s.dag, post);
    OthersAddNone(s.dag, Pruned(s, post).dag);
  }

  lemma AdvancedAddsNone(s: Live, sps: seq<SporocarpReport>)
    requires Settled(s)
    ensures AddsFailures(s.dag, Advanced(s, sps).dag, 0)
  {
    var post := s.facts.cycleCounter + 1;
    MetabolizedAddsNone(s, sps, post);
    MetabolizedGrows(s, sps, post);
    PrunedAddsNone(Absorbed(s.(dag := InsertSporocarps(s.dag, sps)),
        PendingAbsorption(s.dag, s.facts.lastAbsorbed), post), post);
  }

  lemma CommittedAddsNone(s: Live, sps: seq<SporocarpReport>, during: seq<Note>)
    requires Settled(s)
    ensures AddsFailures(s.dag, EmitNotes(Advanced(s, sps), during).dag, 0)
    ensures var t := EmitNotes(Advanced(s, sps), during);
            OpenOf(t.dag) == OpOf(t.facts.migration)
  {
    AdvancedAddsNone(s, sps);
    NotesAddNone(Advanced(s, sps), during);
    CommittedKeeps(s, sps, during);
    OpenIsCandidate(EmitNotes(Advanced(s, sps), during));
  }

  lemma CycledAddsNone(s: Live, c: Cycle)
    requires Settled(s)
    ensures AddsFailures(s.dag, Cycled(s, c).dag, 0)
  {
    hide EmitNotes, Concluded, Advanced;
    match c.outcome
    case Failed => NotesAddNone(s, c.during);
    case Committed(sps) =>
      CommittedAddsNone(s, sps, c.during);
      ConcludedAddsNone(EmitNotes(Advanced(s, sps), c.during), c);
  }

  // -------------------------------------------------------------------------
  // Failed builds are commands
  // -------------------------------------------------------------------------

  /** The mutation is accepted, asks for a migration, and its candidate cannot be built. */
  predicate FailsToBuild(f: Facts, m: Mutation) {
    Accepts(f, m) && m.migrationMode && !m.built
  }

  ghost predicate IsFailingCommand(s: Live, c: Command) {
    c.SubmitMutation? && FailsToBuild(Flushed(s).facts, c.mutation)
  }

  lemma MigratedAdds(s: Live, m: Mutation)
    requires OpenOf(s.dag) == OpOf(s.facts.migration) && Accepts(s.facts, m)
    ensures AddsFailures(s.dag, Migrated(s, m).dag, if m.migrationMode && !m.built then 1 else 0)
    ensures OpenOf(Migrated(s, m).dag) == OpOf(Migrated(s, m).facts.migration)
  {
    var rolledBack := Append(s.dag, [], MigrationRolledBack(m.op), s.facts.cycleCounter,
        MigrationTerminalBody(m.op, s.facts.cycleCounter));
    if m.migrationMode && m.built {
      NodeAddsFailure(s.dag, Migrated(s, m).dag[|s.dag|]);
      AccountsStep(s.dag, Migrated(s, m).dag[|s.dag|]);
    } else if m.migrationMode {
      NodeAddsFailure(s.dag, rolledBack[|s.dag|]);
      AccountsStep(s.dag, rolledBack[|s.dag|]);
      NodeAddsFailure(rolledBack, Migrated(s, m).dag[|rolledBack|]);
      AccountsStep(rolledBack, Migrated(s, m).dag[|rolledBack|]);
    }
  }

  lemma SubmittedAdds(s: Live, m: Mutation)
    requires Settled(s)
    ensures AddsFailures(s.dag, Submitted(s, m).dag, if FailsToBuild(s.facts, m) then 1 else 0)
  {
    hide EmitNotes;
    var noted := EmitNotes(s, m.notes);
    OpenIsCandidate(s);
    NotesAddNone(s, m.notes);
    NotesKeepFacts(s, m.notes);
    if Accepts(s.facts, m) {
      var migrated := Migrated(noted, m);
      MigratedAdds(noted, m);
      if migrated.facts.migration.Some? {
        ClosedAddsNone(migrated, migrated.facts.migration.value.op, false, m.reason, m.trouble);
      }
    }
  }

  lemma HandledAdds(s: Live, c: Command)
    requires Settled(s) && !c.Tick? && !c.Reboot?
    ensures AddsFailures(s.dag, Handled(s, c).dag,
      if c.SubmitMutation? && FailsToBuild(s.facts, c.mutation) then 1 else 0)
  {
    hide Settled, Cycled, EmitNotes;
    match c
    case Advance(cycle) => CycledAddsNone(s, cycle);
    case SubmitMutation(m) => SubmittedAdds(s, m);
    case RecordEvents(notes) => NotesAddNone(s, notes);
    case IngestRaw(_, _, _) => OthersAddNone(s.dag, Handled(s, c).dag);
    case DepositPlate(_) => OthersAddNone(s.dag, Handled(s, c).dag);
    case UpdateSuccessorChain(_) => OthersAddNone(s.dag, Handled(s, c).dag);
  }

  lemma FlushedAddsNone(s: Live)
    ensures AddsFailures(s.dag, Flushed(s).dag, 0)
  {
    CounterMovedAddsNone(s, s.pendingNoop);
  }

  lemma TickAddsNone(s: Live, c: Command)
    requires Ready(s) && c.Tick?
    ensures AddsFailures(s.dag, Step(s, c).dag, 0)
  {
    TickIsSelfDriven(s, c);
    FlushedAddsNone(s);
    FlushedKeeps(s);
    CycledAddsNone(Flushed(s), c.cycle);
  }

  lemma RequestAdds(s: Live, c: Command)
    requires Ready(s) && !c.Tick? && !c.Reboot?
    ensures AddsFailures(s.dag, Step(s, c).dag, if IsFailingCommand(s, c) then 1 else 0)
  {
    FlushedAddsNone(s);
    FlushedKeeps(s);
    HandledAdds(Flushed(s), c);
  }

  /** A step records a failed build exactly when it is an accepted migration that cannot be built. */
  lemma StepAdds(s: Live, c: Command)
    requires Ready(s)
    ensures AddsFailures(s.dag, Step(s, c).dag, if IsFailingCommand(s, c) then 1 else 0)
  {
    if c.Tick? {
      TickAddsNone(s, c);
    } else if c.Reboot? {
      FlushedAddsNone(s);
    } else {
      RequestAdds(s, c);
    }
  }

  ghost function FailingCommands(s: Live, cs: seq<Command>): nat
    decreases |cs|
  {
    if |cs| == 0 then 0
    else
      FailingCommands(s, cs[..|cs| - 1]) +
      if IsFailingCommand(Run(s, cs[..|cs| - 1]), cs[|cs| - 1]) then 1 else 0
  }

  lemma {:induction false} RunAdds(s: Live, cs: seq<Command>)
    requires Ready(s)
    ensures AddsFailures(s.dag, Run(s, cs).dag, FailingCommands(s, cs))
    decreases |cs|
  {
    if |cs| > 0 {
      RunKeeps(s, cs[..|cs| - 1]);
      RunAdds(s, cs[..|cs| - 1]);
      StepAdds(Run(s, cs[..|cs| - 1]), cs[|cs| - 1]);
    }
  }

  lemma {:induction false} FailedBuildsJoin(log: Log, a: nat, b: nat, c: nat)
    requires a <= b <= c <= |log|
    ensures FailedBuilds(log, a, c) == FailedBuilds(log, a, b) + FailedBuilds(log, b, c)
    decreases c
  {
    if b < c {
      FailedBuildsJoin(log, a, b, c - 1);
    }
  }

  /**
   Over any run, from any state: the terminal events written are those that close a migration, and
   one for every accepted migration request whose candidate could not be built.
   */
  lemma TerminalsOfRun(s: Live, cs: seq<Command>)
    requires Ready(s)
    ensures s.dag <= Run(s, cs).dag
    ensures TerminalCount(Run(s, cs).dag, |s.dag|, |Run(s, cs).dag|) ==
            Closings(Run(s, cs).dag, |s.dag|, |Run(s, cs).dag|) + FailingCommands(s, cs)
  {
    var log := Run(s, cs).dag;
    RunAdds(s, cs);
    RunKeeps(s, cs);
    TerminalsSplit(log, |s.dag|, |log|);
    FailedBuildsJoin(log, 0, |s.dag|, |log|);
    FailedBuildsOfPrefix(s.dag, log, 0, |s.dag|);
  }

  /**
   From a start until another one: one terminal event once the migration is closed, and one for every
   accepted request that fails to build. So at most one exactly when at most one of those happens.
   */
  lemma TerminalsAfterStart(s: Live, cs: seq<Command>)
    requires Ready(s) && |s.dag| > 0 && s.dag[|s.dag| - 1].kind.MigrationStarted?
    requires forall k :: |s.dag| <= k < |Run(s, cs).dag| ==> !Run(s, cs).dag[k].kind.MigrationStarted?
    ensures s.dag <= Run(s, cs).dag
    ensures TerminalCount(Run(s, cs).dag, |s.dag|, |Run(s, cs).dag|) ==
            FailingCommands(s, cs) + if Run(s, cs).facts.migration.None? then 1 else 0
  {
    hide Faithful, Bracketed, Step;
    var log := Run(s, cs).dag;
    TerminalsOfRun(s, cs);
    RunKeeps(s, cs);
    OpenIsCandidate(Run(s, cs));
    assert log[|s.dag| - 1] == s.dag[|s.dag| - 1];
    ClosedAtMostOnce(log, |s.dag| - 1, |log|);
    assert log[..|log|] == log;
  }
}
