/** What holds in every state a run can reach, whatever the commands and their inputs. */
module Runs {
  import opened Prelude
  import opened Dag
  import opened PruneRules
  import opened PruneScan
  import opened Derived
  import opened Snapshot
  import opened Cultivation
  import opened Server
  import opened Ingest
  import opened Migration
  import opened RunLoop
  import opened Invariants
  import opened Steps

  // -------------------------------------------------------------------------
  // Runs
  // -------------------------------------------------------------------------

  /** A fresh substrate: its log holds the genesis event alone. A root leaves its depth out. */
  ghost function Born(id: Id, time: int, depth: nat): Live {
    var content := GenesisBody(Some(id), Some(time), if depth > 0 then Some(depth) else None);
    Live([Node([], GenesisEvent("genesis"), 0, content)],
        EMPTY_FACTS.(substrateId := Some(id), genesisTime := Some(time), generationDepth := depth),
         CultivationState.Normal, 0, None)
  }

  ghost function Run(s: Live, cs: seq<Command>): Live
    decreases |cs|
  {
    if |cs| == 0 then s else Step(Run(s, cs[..|cs| - 1]), cs[|cs| - 1])
  }

  lemma BornIsReady(id: Id, time: int, depth: nat)
    requires !IsZero(id)
    ensures Ready(Born(id, time, depth))
  {
    var s := Born(id, time, depth);
    var n := s.dag[0];
    assert Replay(EMPTY_FACTS, s.dag[..|s.dag| - 1], Some(s.dag)) == Ok(EMPTY_FACTS);
    assert FromDag(s.dag) == Apply(EMPTY_FACTS, n, Some(s.dag));
    assert !IsRetired(s.dag);
    assert forall i: nat :: !IsLatestFamily(s.dag, i);
    assert s.dag[..|s.dag| - 1] == [];
    assert SpanSum(s.dag) == 0 && Bracketed(s.dag) && PlatesGrounded(s.dag);
    assert NoPruneWithin(0, 0);
  }

  lemma {:induction false} RunKeeps(s: Live, cs: seq<Command>)
    requires Ready(s)
    ensures Ready(Run(s, cs))
    decreases |cs|
  {
    if |cs| > 0 {
      RunKeeps(s, cs[..|cs| - 1]);
      StepKeeps(Run(s, cs[..|cs| - 1]), cs[|cs| - 1]);
    }
  }

  // -------------------------------------------------------------------------
  // The log only grows
  // -------------------------------------------------------------------------

  lemma ClosedGrows(s: Live, op: string, commit: bool, reason: Bytes, trouble: seq<Note>)
    ensures s.dag <= Closed(s, op, commit, reason, trouble).dag
  {
    NotesGrow(s, trouble);
  }

  lemma MigrationSteppedGrows(s: Live, r: Report)
    ensures s.dag <= MigrationStepped(s, r).dag
  {
    if s.facts.migration.Some? {
      var op := s.facts.migration.value.op;
      ClosedGrows(Validated(s, op, []), op, true, [], r.trouble);
      ClosedGrows(Validated(s, op, r.reason), op, false, r.reason, r.trouble);
    }
  }

  lemma MetabolizedGrows(s: Live, sps: seq<SporocarpReport>, post: nat)
    requires Settled(s)
    ensures var t := Absorbed(s.(dag := InsertSporocarps(s.dag, sps)), PendingAbsorption(s.dag, s.facts.lastAbsorbed),
      post);
            WellFormed(t.dag) && s.dag <= t.dag
  {
    SporocarpsAppend(s.dag, sps);
    MetabolizedKeeps(s, sps, post);
  }

  lemma AdvancedGrows(s: Live, sps: seq<SporocarpReport>)
    requires Settled(s)
    ensures s.dag <= Advanced(s, sps).dag
  {
    var post := s.facts.cycleCounter + 1;
    MetabolizedGrows(s, sps, post);
    PruneGrows(Absorbed(s.(dag := InsertSporocarps(s.dag, sps)), PendingAbsorption(s.dag, s.facts.lastAbsorbed), post),
        post);
  }

  lemma PruneGrows(s: Live, post: nat)
    requires WellFormed(s.dag)
    ensures s.dag <= Pruned(s, post).dag
  {
    StageAppends(s.dag, post, 0, |REGISTRY|);
  }

  lemma ConcludedGrows(s: Live, c: Cycle)
    ensures s.dag <= CounterMoved(s, 1).dag <= Concluded(s, c).dag
  {
    MigrationSteppedGrows(CounterMoved(s, 1), c.report);
    NotesGrow(MigrationStepped(CounterMoved(s, 1), c.report), c.after);
  }

  lemma CycledGrows(s: Live, c: Cycle)
    requires Settled(s)
    ensures s.dag <= Cycled(s, c).dag
  {
    match c.outcome
    case Failed => NotesGrow(s, c.during);
    case Committed(sps) =>
      AdvancedGrows(s, sps);
      NotesGrow(Advanced(s, sps), c.during);
      ConcludedGrows(EmitNotes(Advanced(s, sps), c.during), c);
  }

  lemma SubmittedGrows(s: Live, m: Mutation)
    ensures s.dag <= Submitted(s, m).dag
  {
    var noted := EmitNotes(s, m.notes);
    NotesGrow(s, m.notes);
    var migrated := Migrated(noted, m);
    if migrated.facts.migration.Some? {
      ClosedGrows(migrated, migrated.facts.migration.value.op, false, m.reason, m.trouble);
    }
  }

  lemma SelfDrivenGrows(s: Live, quiet: bool, c: Cycle)
    requires Ready(s)
    ensures s.dag <= SelfDriven(s, quiet, c).dag
  {
    if s.cultivation != Archived && !Batches(s, quiet) {
      FlushedKeeps(s);
      CycledGrows(Flushed(s), c);
    }
  }

  lemma HandledGrows(s: Live, c: Command)
    requires Settled(s) && !c.Tick? && !c.Reboot?
    ensures s.dag <= Handled(s, c).dag
  {
    match c
    case Advance(cycle) => CycledGrows(s, cycle);
    case SubmitMutation(m) => SubmittedGrows(s, m);
    case RecordEvents(notes) => NotesGrow(s, notes);
    case _ =>
  }

  /** In a reachable state a tick is its self-driven part: the window check finds nothing. */
  lemma TickIsSelfDriven(s: Live, c: Command)
    requires Ready(s) && c.Tick?
    ensures Step(s, c) == if c.selfDriven then SelfDriven(s, c.quiet, c.cycle) else s
  {
    SelfDrivenKeeps(s, c.quiet, c.cycle);
    WindowCheckedKeeps(if c.selfDriven then SelfDriven(s, c.quiet, c.cycle)
        else s, c.cooling, c.notes, c.reason, c.trouble);
  }

  lemma StepGrows(s: Live, c: Command)
    requires Ready(s)
    ensures s.dag <= Step(s, c).dag
  {
    hide Settled, Handled, SelfDriven;
    if c.Tick? {
      TickIsSelfDriven(s, c);
      SelfDrivenGrows(s, c.quiet, c.cycle);
    } else if !c.Reboot? {
      FlushedKeeps(s);
      HandledGrows(Flushed(s), c);
    }
  }

  lemma {:induction false} RunGrows(s: Live, cs: seq<Command>)
    requires Ready(s)
    ensures s.dag <= Run(s, cs).dag
    decreases |cs|
  {
    if |cs| > 0 {
      RunKeeps(s, cs[..|cs| - 1]);
      RunGrows(s, cs[..|cs| - 1]);
      StepGrows(Run(s, cs[..|cs| - 1]), cs[|cs| - 1]);
    }
  }
}
