/** Every log a run writes is a chain, and what that leaves C55 and the prune scans to do. */
module RunChains {
  import opened Prelude
  import opened Dag
  import opened PruneRules
  import opened PruneScan
  import opened Mortality
  import opened Chains
  import opened Retirements
  import opened Derived
  import Cultivation
  import opened Server
  import opened Ingest
  import opened Migration
  import opened RunLoop
  import opened Invariants
  import opened Steps
  import opened Runs
  import opened RunTheorems

  // -------------------------------------------------------------------------
  // What handlers append
  // -------------------------------------------------------------------------

  /** Each node after a hangs on the one before it, and none is a tombstone. */
  ghost predicate Chained(a: Log, b: Log) {
    && a <= b
    && forall i :: |a| <= i < |b| ==> !b[i].kind.InternalMortality? && (i > 0 ==> HashOf(b[i - 1]) in b[i].parents)
  }

  lemma ChainedTransitive(a: Log, b: Log, c: Log)
    requires Chained(a, b) && Chained(b, c)
    ensures Chained(a, c)
  {
    assert forall i :: 0 <= i < |b| ==> c[i] == b[i];
  }

  lemma AppendChains(log: Log, extra: seq<Hash>, kind: NodeType, cycle: nat, content: Content)
    requires !kind.InternalMortality?
    ensures Chained(log, Append(log, extra, kind, cycle, content))
  {
  }

  lemma EmitChains(s: Live, kind: NodeType, content: Content)
    requires !kind.InternalMortality?
    ensures Chained(s.dag, Emit(s, kind, content).dag)
  {
    AppendChains(s.dag, [], kind, s.facts.cycleCounter, content);
  }

  lemma {:induction false} NotesChain(s: Live, notes: seq<Note>)
    ensures Chained(s.dag, EmitNotes(s, notes).dag)
    decreases |notes|
  {
    if |notes| > 0 {
      var before, last := EmitNotes(s, notes[..|notes| - 1]), notes[|notes| - 1];
      NotesChain(s, notes[..|notes| - 1]);
      EmitChains(before, last.kind, last.content);
      ChainedTransitive(s.dag, before.dag, EmitNotes(s, notes).dag);
    }
  }

  lemma ClosedChains(s: Live, op: string, commit: bool, reason: Bytes, trouble: seq<Note>)
    ensures Chained(s.dag, Closed(s, op, commit, reason, trouble).dag)
  {
    var noted := EmitNotes(s, trouble);
    var terminal := Emit(noted, TerminalKind(op, commit), MigrationTerminalBody(op, s.facts.cycleCounter));
    NotesChain(s, trouble);
    EmitChains(noted, TerminalKind(op, commit), MigrationTerminalBody(op, s.facts.cycleCounter));
    EmitChains(terminal, if commit then EvolutionSucceeded(op) else EvolutionFailed(op), Opaque(reason));
    ChainedTransitive(s.dag, noted.dag, terminal.dag);
    ChainedTransitive(s.dag, terminal.dag, Closed(s, op, commit, reason, trouble).dag);
  }

  lemma ValidatedClosedChains(s: Live, op: string, commit: bool, evidence: Bytes, reason: Bytes, trouble: seq<Note>)
    ensures Chained(s.dag, Closed(Validated(s, op, evidence), op, commit, reason, trouble).dag)
  {
    var validated := Validated(s, op, evidence);
    EmitChains(s, MigrationCycleValidated(op), Opaque(evidence));
    ClosedChains(validated, op, commit, reason, trouble);
    ChainedTransitive(s.dag, validated.dag, Closed(validated, op, commit, reason, trouble).dag);
  }

  lemma MigrationSteppedChains(s: Live, r: Report)
    ensures Chained(s.dag, MigrationStepped(s, r).dag)
  {
    if s.facts.migration.Some? {
      var op := s.facts.migration.value.op;
      EmitChains(s, MigrationCycleValidated(op), Opaque(r.reason));
      ValidatedClosedChains(s, op, true, [], [], r.trouble);
      ValidatedClosedChains(s, op, false, r.reason, r.reason, r.trouble);
    }
  }

  lemma ConcludedChains(s: Live, c: Cycle)
    ensures Chained(s.dag, Concluded(s, c).dag)
  {
    var moved := CounterMoved(s, 1);
    var stepped := MigrationStepped(moved, c.report);
    assert Chained(s.dag, moved.dag);
    MigrationSteppedChains(moved, c.report);
    NotesChain(stepped, c.after);
    ChainedTransitive(s.dag, moved.dag, stepped.dag);
    ChainedTransitive(s.dag, stepped.dag, EmitNotes(stepped, c.after).dag);
    ConcludedUnfolds(s, c);
  }

  lemma FlushedChains(s: Live)
    ensures Chained(s.dag, Flushed(s).dag)
  {
  }

  lemma InsertSporocarpChains(log: Log, sp: SporocarpReport)
    ensures Chained(log, InsertSporocarp(log, sp))
  {
    var fruited := Append(log, [], Sporocarp(sp.kind), sp.atCycle, Opaque(sp.body));
    AppendChains(log, [], Sporocarp(sp.kind), sp.atCycle, Opaque(sp.body));
    AppendChains(fruited, [], SelfEuthanasiaProposal(sp.axis), sp.atCycle, Opaque(sp.proposal));
    ChainedTransitive(log, fruited,
        Append(fruited, [], SelfEuthanasiaProposal(sp.axis), sp.atCycle, Opaque(sp.proposal)));
  }

  lemma {:induction false} SporocarpsChain(log: Log, sps: seq<SporocarpReport>)
    ensures Chained(log, InsertSporocarps(log, sps))
    decreases |sps|
  {
    if |sps| > 0 {
      var before := InsertSporocarps(log, sps[..|sps| - 1]);
      SporocarpsChain(log, sps[..|sps| - 1]);
      InsertSporocarpChains(before, sps[|sps| - 1]);
      ChainedTransitive(log, before, InsertSporocarps(log, sps));
    }
  }

  lemma MetabolizedChains(s: Live, sps: seq<SporocarpReport>, pending: seq<Hash>, post: nat)
    ensures Chained(s.dag, Absorbed(s.(dag := InsertSporocarps(s.dag, sps)), pending, post).dag)
  {
    var fruited := InsertSporocarps(s.dag, sps);
    SporocarpsChain(s.dag, sps);
    if |pending| > 0 {
      AppendChains(fruited, pending, AbsorptionEvent(post), post, AbsorptionBody(Some(post), Some(pending)));
      ChainedTransitive(s.dag, fruited,
          Append(fruited, pending, AbsorptionEvent(post), post, AbsorptionBody(Some(post), Some(pending))));
    }
  }

  lemma SubmittedChains(s: Live, m: Mutation)
    ensures Chained(s.dag, Submitted(s, m).dag)
  {
    hide Closed, EmitNotes;
    var noted := EmitNotes(s, m.notes);
    var migrated := Migrated(noted, m);
    NotesChain(s, m.notes);
    assert Chained(noted.dag, migrated.dag);
    ChainedTransitive(s.dag, noted.dag, migrated.dag);
    if migrated.facts.migration.Some? {
      ClosedChains(migrated, migrated.facts.migration.value.op, false, m.reason, m.trouble);
      ChainedTransitive(s.dag, migrated.dag,
          Closed(migrated, migrated.facts.migration.value.op, false, m.reason, m.trouble).dag);
    }
  }

  // -------------------------------------------------------------------------
  // Every step
  // -------------------------------------------------------------------------

  /** What the log of a run is: a chain that names no part dead twice. */
  ghost predicate Orderly(log: Log) {
    IsChain(log) && OneDeathEach(log)
  }

  lemma ChainedKeepsOrder(a: Log, b: Log)
    requires Orderly(a) && Chained(a, b)
    ensures Orderly(b)
  {
    assert forall i :: 0 <= i < |a| ==> b[i] == a[i];
    forall h
      ensures Deaths(b, h) <= 1
    {
      DeathsWithoutRetirement(a, b, h);
    }
  }

  lemma MetabolizedKeepsOrder(s: Live, sps: seq<SporocarpReport>, post: nat)
    requires Settled(s) && Orderly(s.dag)
    ensures var t := Absorbed(s.(dag := InsertSporocarps(s.dag, sps)), PendingAbsorption(s.dag, s.facts.lastAbsorbed),
      post);
            WellFormed(t.dag) && Orderly(t.dag)
  {
    var pending := PendingAbsorption(s.dag, s.facts.lastAbsorbed);
    MetabolizedGrows(s, sps, post);
    MetabolizedChains(s, sps, pending, post);
    ChainedKeepsOrder(s.dag, Absorbed(s.(dag := InsertSporocarps(s.dag, sps)), pending, post).dag);
  }

  lemma PrunedKeepsOrder(s: Live, post: nat)
    requires WellFormed(s.dag) && Orderly(s.dag)
    ensures Orderly(Pruned(s, post).dag)
  {
    ScanKeepsChain(s.dag, post, |REGISTRY|);
    ScanKeepsOneDeath(s.dag, post);
  }

  lemma AdvancedKeepsOrder(s: Live, sps: seq<SporocarpReport>)
    requires Settled(s) && Orderly(s.dag)
    ensures Orderly(Advanced(s, sps).dag)
  {
    var post := s.facts.cycleCounter + 1;
    MetabolizedKeepsOrder(s, sps, post);
    PrunedKeepsOrder(Absorbed(s.(dag := InsertSporocarps(s.dag, sps)),
        PendingAbsorption(s.dag, s.facts.lastAbsorbed), post), post);
  }

  lemma CycledKeepsOrder(s: Live, c: Cycle)
    requires Settled(s) && Orderly(s.dag)
    ensures Orderly(Cycled(s, c).dag)
  {
    match c.outcome
    case Failed =>
      NotesChain(s, c.during);
      ChainedKeepsOrder(s.dag, EmitNotes(s, c.during).dag);
    case Committed(sps) =>
      var advanced := Advanced(s, sps);
      var noted := EmitNotes(advanced, c.during);
      AdvancedKeepsOrder(s, sps);
      NotesChain(advanced, c.during);
      ConcludedChains(noted, c);
      ChainedTransitive(advanced.dag, noted.dag, Concluded(noted, c).dag);
      ChainedKeepsOrder(advanced.dag, Concluded(noted, c).dag);
  }

  lemma HandledChains(s: Live, c: Command)
    requires !c.Tick? && !c.Reboot? && !c.Advance?
    ensures Chained(s.dag, Handled(s, c).dag)
  {
    hide Submitted;
    match c
    case SubmitMutation(m) => SubmittedChains(s, m);
    case RecordEvents(notes) => NotesChain(s, notes);
    case _ =>
  }

  lemma FlushedKeepsOrder(s: Live)
    requires Orderly(s.dag)
    ensures Orderly(Flushed(s).dag)
  {
    FlushedChains(s);
    ChainedKeepsOrder(s.dag, Flushed(s).dag);
  }

  lemma RequestKeepsOrder(s: Live, c: Command)
    requires Ready(s) && Orderly(s.dag) && !c.Tick? && !c.Reboot?
    ensures Orderly(Step(s, c).dag)
  {
    var flushed := Flushed(s);
    FlushedKeeps(s);
    FlushedKeepsOrder(s);
    if c.Advance? {
      CycledKeepsOrder(flushed, c.cycle);
    } else {
      HandledChains(flushed, c);
      ChainedKeepsOrder(flushed.dag, Handled(flushed, c).dag);
    }
  }

  lemma TickKeepsOrder(s: Live, c: Command)
    requires Ready(s) && Orderly(s.dag) && c.Tick?
    ensures Orderly(Step(s, c).dag)
  {
    TickIsSelfDriven(s, c);
    if c.selfDriven && s.cultivation != Cultivation.CultivationState.Archived && !Batches(s, c.quiet) {
      FlushedKeeps(s);
      FlushedKeepsOrder(s);
      CycledKeepsOrder(Flushed(s), c.cycle);
    }
  }

  lemma StepKeepsOrder(s: Live, c: Command)
    requires Ready(s) && Orderly(s.dag)
    ensures Orderly(Step(s, c).dag)
  {
    if c.Tick? {
      TickKeepsOrder(s, c);
    } else if c.Reboot? {
      FlushedKeepsOrder(s);
    } else {
      RequestKeepsOrder(s, c);
    }
  }

  lemma {:induction false} RunKeepsOrder(s: Live, cs: seq<Command>)
    requires Ready(s) && Orderly(s.dag)
    ensures Orderly(Run(s, cs).dag)
    decreases |cs|
  {
    if |cs| > 0 {
      RunKeeps(s, cs[..|cs| - 1]);
      RunKeepsOrder(s, cs[..|cs| - 1]);
      StepKeepsOrder(Run(s, cs[..|cs| - 1]), cs[|cs| - 1]);
    }
  }

  // -------------------------------------------------------------------------
  // Every reachable state
  // -------------------------------------------------------------------------

  lemma BornIsOrderly(id: Id, time: int, depth: nat)
    ensures Orderly(Born(id, time, depth).dag)
  {
    var log := Born(id, time, depth).dag;
    assert log[..|log| - 1] == [];
    assert forall h :: Deaths(log, h) == 0;
  }

  lemma ReachableIsOrderly(s: Live)
    requires Reachable(s)
    ensures Orderly(s.dag)
  {
    var id: Id, time: int, depth: nat, cs: seq<Command> :| !IsZero(id) && s == Run(Born(id, time, depth), cs);
    BornIsReady(id, time, depth);
    BornIsOrderly(id, time, depth);
    RunKeepsOrder(Born(id, time, depth), cs);
  }

  /** In every reachable log each node but the last is a parent of the next. */
  lemma ReachableIsChain(s: Live)
    requires Reachable(s)
    ensures IsChain(s.dag)
    ensures forall i :: 0 <= i < |s.dag| - 1 ==> References(s.dag, HashOf(s.dag[i]))
  {
    ReachableIsOrderly(s);
    forall i | 0 <= i < |s.dag| - 1
      ensures References(s.dag, HashOf(s.dag[i]))
    {
      assert HashOf(s.dag[i]) in s.dag[i + 1].parents;
    }
  }

  /** No part ever gets a second tombstone, neither in one scan nor over a whole run. */
  lemma EachPartDiesOnce(s: Live, h: Hash)
    requires Reachable(s)
    ensures Deaths(s.dag, h) <= 1
  {
    ReachableIsOrderly(s);
  }

  /** C55 finds nothing in any reachable state, at any counter, whether or not a scan has ever run. */
  lemma C55NeverFires(s: Live, counter: nat, i: nat)
    requires Reachable(s)
    ensures !IsSilentDeath(s.dag, counter, i)
  {
    ReachableIsOrderly(s);
    ChainHasNoSilentDeath(s.dag, counter, i);
  }

  /**
   What a prune scan does to a reachable log, at any cycle: the seed rule and rule D find nothing,
   and what is retired is exactly what rule A, B, C or E has against an eligible part.
   */
  lemma ReachableScanRetiresExactly(s: Live, cycle: nat, i: nat)
    requires Reachable(s) && i < |s.dag|
    ensures !HitInTurn(s.dag, cycle, 0, i) && !HitInTurn(s.dag, cycle, 4, i)
    ensures Retired(s.dag, Scan(s.dag, cycle), HashOf(s.dag[i])) <==>
            LocallyOverdue(s.dag, cycle, i) && IsPruneEligible(s.dag[i], CtxOf(s.dag))
  {
    ReachableIsReady(s);
    ReachableIsOrderly(s);
    ChainSparesReachable(s.dag, cycle, 0, i);
    ChainSparesReachable(s.dag, cycle, 4, i);
    ChainScanRetiresExactly(s.dag, cycle, i);
  }
}
