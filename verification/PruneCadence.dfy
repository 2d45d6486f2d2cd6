/** The prune cadence over runs: no cycle that owes a scan is ever skipped, until the substrate is sealed. */
module PruneCadence {
  import opened Dag
  import opened Derived
  import opened Cultivation
  import opened Server
  import opened Ingest
  import opened Migration
  import opened RunLoop
  import opened Invariants
  import opened Steps
  import opened Runs
  import opened RunTheorems

  // -------------------------------------------------------------------------
  // Prune scans are never skipped
  // -------------------------------------------------------------------------

  lemma CycledCounter(s: Live, c: Cycle)
    requires Ready(s) && s.pendingNoop == 0
    ensures Cycled(s, c).facts.cycleCounter == s.facts.cycleCounter + if c.outcome.Committed? then 1 else 0
  {
    match c.outcome
    case Failed => NotesKeepFacts(s, c.during);
    case Committed(sps) =>
      CommittedKeeps(s, sps, c.during);
      ConcludedKeeps(EmitNotes(Advanced(s, sps), c.during), c);
  }

  lemma HandledCounter(s: Live, c: Command)
    requires Ready(s) && s.pendingNoop == 0 && !c.Tick? && !c.Reboot? && !c.Advance?
    ensures Handled(s, c).facts.cycleCounter == s.facts.cycleCounter
  {
    match c
    case SubmitMutation(m) =>
      NotesKeepFacts(s, m.notes);
      NotesKeepFacts(Migrated(EmitNotes(s, m.notes), m), m.trouble);
    case RecordEvents(notes) => NotesKeepFacts(s, notes);
    case _ =>
  }

  /** The cycles the counter has been moved over, by flushing what was pending and by one completed cycle. */
  function Sealed(s: Live): nat {
    if s.cultivation == Archived then 0 else s.pendingNoop
  }

  lemma FlushedCounter(s: Live)
    ensures Flushed(s).facts.cycleCounter == s.facts.cycleCounter + Sealed(s)
  {
  }

  lemma RequestCounter(s: Live, c: Command)
    requires Ready(s) && !c.Tick? && !c.Reboot?
    ensures Step(s, c).facts.cycleCounter == s.facts.cycleCounter + Sealed(s) + if Advances(s, c) then 1 else 0
  {
    FlushedKeeps(s);
    FlushedKeepsNodes(s);
    FlushedCounter(s);
    if c.Advance? {
      CycledCounter(Flushed(s), c.cycle);
    } else {
      HandledCounter(Flushed(s), c);
    }
  }

  lemma TickCounter(s: Live, c: Command)
    requires Ready(s) && c.Tick?
    ensures s.facts.cycleCounter <= Step(s, c).facts.cycleCounter <= s.facts.cycleCounter + Sealed(s) +
      if Advances(s, c) then 1 else 0
    ensures Advances(s, c) ==> Step(s, c).facts.cycleCounter == s.facts.cycleCounter + Sealed(s) + 1
  {
    TickIsSelfDriven(s, c);
    if c.selfDriven && s.cultivation != Archived && !Batches(s, c.quiet) {
      FlushedKeeps(s);
      FlushedCounter(s);
      CycledCounter(Flushed(s), c.cycle);
    }
  }

  lemma RebootCounter(s: Live, c: Command)
    requires Ready(s) && c.Reboot?
    ensures s.facts.cycleCounter <= Step(s, c).facts.cycleCounter <= s.facts.cycleCounter + Sealed(s)
  {
    hide Settled;
    FlushedKeeps(s);
    FlushedCounter(s);
    BootAgrees(if c.clean then Flushed(s) else s, c.trusted);
  }

  /** A cycle that owes a prune scan is never batched over: the counter reaches it by completing that very cycle. */
  lemma PruneCyclesAreRun(s: Live, c: Command, k: nat)
    requires Ready(s) && s.facts.cycleCounter < k <= Step(s, c).facts.cycleCounter && ShouldRunPruneScan(k)
    ensures Advances(s, c) && Step(s, c).facts.cycleCounter == k
  {
    if c.Tick? {
      TickCounter(s, c);
    } else if c.Reboot? {
      RebootCounter(s, c);
    } else {
      RequestCounter(s, c);
    }
    assert NoPruneWithin(s.facts.cycleCounter, s.facts.cycleCounter + s.pendingNoop);
  }

  // -------------------------------------------------------------------------
  // Archived substrates
  // -------------------------------------------------------------------------

  lemma ArchivedStepStays(s: Live, c: Command)
    requires Ready(s) && s.cultivation == Archived
    ensures Step(s, c).facts.cycleCounter == s.facts.cycleCounter
  {
    if c.Tick? {
      TickCounter(s, c);
    } else if c.Reboot? {
      RebootCounter(s, c);
    } else {
      RequestCounter(s, c);
    }
  }

  /** Once sealed, a substrate stays archived and its counter never moves again. */
  lemma {:induction false} ArchivedIsFinal(s: Live, cs: seq<Command>)
    requires Ready(s) && s.cultivation == Archived
    ensures Run(s, cs).cultivation == Archived && Run(s, cs).facts.cycleCounter == s.facts.cycleCounter
    decreases |cs|
  {
    RunKeeps(s, cs);
    RunGrows(s, cs);
    ArchivedAbsorbs(s.dag, Run(s, cs).dag);
    if |cs| > 0 {
      ArchivedIsFinal(s, cs[..|cs| - 1]);
      RunKeeps(s, cs[..|cs| - 1]);
      ArchivedStepStays(Run(s, cs[..|cs| - 1]), cs[|cs| - 1]);
    }
  }
}
