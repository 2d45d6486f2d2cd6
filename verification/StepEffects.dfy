/** What a step remembers, counts and records, over whole runs, in the terms of its inputs alone. */
module StepEffects {
  import opened Prelude
  import opened Dag
  import opened Derived
  import opened Snapshot
  import opened Cultivation
  import opened Server
  import opened Ingest
  import opened Migration
  import opened RunLoop
  import opened Invariants
  import opened Steps
  import opened Runs
  import opened RunTheorems
  import opened Serving
  import opened PruneCadence
  import opened PruneRuns

  // -------------------------------------------------------------------------
  // The trend window and snapshot.cb
  // -------------------------------------------------------------------------

  /** The last n of them, or all if there are fewer. */
  function LastOf(values: seq<Value>, n: nat): seq<Value> {
    if |values| <= n then values else values[|values| - n..]
  }

  /** Reading the snapshot back gives what t held, under t's tip; the cultivation fields are not in it. */
  ghost predicate Restores(v: Value, t: Live) {
    && Decode(v).Ok? && Decode(v).value.Some?
    && var d := Decode(v).value.value;
       && d.tip == Tip(t.dag)
       && d.facts.generationDepth == t.facts.generationDepth && d.facts.cycleCounter == t.facts.cycleCounter
       && d.facts.lastAbsorbed == t.facts.lastAbsorbed && d.facts.history == t.facts.history
       && d.facts.migration == t.facts.migration
       && (t.facts.substrateId.Some? && !IsZero(t.facts.substrateId.value) ==>
             d.facts.substrateId == t.facts.substrateId &&
             (t.facts.genesisTime.Some? ==> d.facts.genesisTime == t.facts.genesisTime))
  }

  lemma SavedRestoresState(s: Live)
    ensures Saved(s).snapshot.Some? && Restores(Saved(s).snapshot.value, Saved(s))
  {
    hide Encode, Decode;
    SnapshotRoundTrip(SnapshotFacts(s.facts), Tip(s.dag));
  }

  /** Neither the trend window nor snapshot.cb is touched. */
  predicate SameMemory(s: Live, t: Live) {
    t.facts.history == s.facts.history && t.snapshot == s.snapshot
  }

  lemma ClosedMemory(s: Live, op: string, commit: bool, reason: Bytes, trouble: seq<Note>)
    ensures SameMemory(s, Closed(s, op, commit, reason, trouble))
  {
    NotesKeepFacts(s, trouble);
  }

  lemma MigrationSteppedMemory(s: Live, r: Report)
    ensures SameMemory(s, MigrationStepped(s, r))
  {
    hide Closed;
    if s.facts.migration.Some? {
      var op := s.facts.migration.value.op;
      ClosedMemory(Validated(s, op, []), op, true, [], r.trouble);
      ClosedMemory(Validated(s, op, r.reason), op, false, r.reason, r.trouble);
    }
  }

  lemma SubmittedMemory(s: Live, m: Mutation)
    ensures SameMemory(s, Submitted(s, m))
  {
    hide Closed, EmitNotes;
    NotesKeepFacts(s, m.notes);
    var migrated := Migrated(EmitNotes(s, m.notes), m);
    if migrated.facts.migration.Some? {
      ClosedMemory(migrated, migrated.facts.migration.value.op, false, m.reason, m.trouble);
    }
  }

  /** What a completed cycle does to the memory. */
  lemma CycleRemembers(s: Live, c: Cycle)
    requires Settled(s) && c.outcome.Committed?
    ensures var t := Cycled(s, c);
            && t.facts.history == LastOf(s.facts.history + [c.observation], 90)
            && (if (s.facts.cycleCounter + 1) % 10 == 0
                then t.snapshot.Some? && Restores(t.snapshot.value, t) else t.snapshot == s.snapshot)
  {
    hide Restores, Saved, MigrationStepped, CounterMoved, EmitNotes, Advanced, Settled;
    var noted := EmitNotes(Advanced(s, c.outcome.sporocarps), c.during);
    var moved := CounterMoved(noted, 1);
    var stepped := MigrationStepped(moved, c.report);
    var written := EmitNotes(stepped, c.after);
    CommittedMemory(s, c);
    MovedMemory(noted);
    MigrationSteppedMemory(moved, c.report);
    NotesKeepFacts(stepped, c.after);
    SavedRestoresState(written.(facts := written.facts.(history := Remember(written.facts.history, c.observation))));
    SavedKeepsFacts(written.(facts := written.facts.(history := Remember(written.facts.history, c.observation))));
  }

  lemma SavedKeepsFacts(s: Live)
    ensures Saved(s).facts == s.facts
  {
  }

  lemma CommittedMemory(s: Live, c: Cycle)
    requires Settled(s) && c.outcome.Committed?
    ensures var t := EmitNotes(Advanced(s, c.outcome.sporocarps), c.during);
            SameMemory(s, t) && t.facts.cycleCounter == s.facts.cycleCounter
  {
    hide Settled, Advanced;
    AdvancedKeeps(s, c.outcome.sporocarps);
    NotesKeepFacts(Advanced(s, c.outcome.sporocarps), c.during);
  }

  lemma MovedMemory(s: Live)
    ensures SameMemory(s, CounterMoved(s, 1))
  {
  }

  lemma FlushedMemory(s: Live)
    ensures SameMemory(s, Flushed(s))
  {
  }

  lemma RequestMemory(s: Live, c: Command)
    requires !c.Tick? && !c.Reboot? && !c.Advance?
    ensures SameMemory(s, Handled(s, c))
  {
    hide Submitted;
    match c
    case SubmitMutation(m) => SubmittedMemory(s, m);
    case RecordEvents(notes) => NotesKeepFacts(s, notes);
    case _ =>
  }

  lemma OtherStepMemory(s: Live, c: Command)
    requires Ready(s) && !Advances(s, c) && !c.Reboot?
    ensures SameMemory(s, Step(s, c))
  {
    hide Settled, Batches, Flushed;
    FlushedMemory(s);
    var flushed := Flushed(s);
    if c.Tick? {
      TickIsSelfDriven(s, c);
      NotesKeepFacts(flushed, c.cycle.during);
    } else if c.Advance? {
      FlushedKeepsNodes(s);
      NotesKeepFacts(flushed, c.cycle.during);
    } else {
      RequestMemory(flushed, c);
    }
  }

  /**
   Over every run: a completed cycle, and nothing else before the next boot, adds its observation to
   the trend window, which keeps the last 90; and when its number is a multiple of ten, and at no
   other step, snapshot.cb is saved so that reading it gives back the state the step leaves.
   */
  lemma StepRemembers(s: Live, c: Command)
    requires Reachable(s)
    ensures var t := Step(s, c);
            && (Advances(s, c) ==> t.facts.history == LastOf(s.facts.history + [c.cycle.observation], 90))
            && (!Advances(s, c) && !c.Reboot? ==> t.facts.history == s.facts.history)
            && (if Advances(s, c) && t.facts.cycleCounter % 10 == 0
                then t.snapshot.Some? && Restores(t.snapshot.value, t) else t.snapshot == s.snapshot)
  {
    hide Step, Cycled, Settled, Restores;
    ReachableIsReady(s);
    if Advances(s, c) {
      FlushedKeeps(s);
      AdvancingIsCycle(s, c);
      CycleRemembers(Flushed(s), c.cycle);
      FlushedMemory(s);
    } else if c.Reboot? {
      RebootMemory(s, c);
    } else {
      OtherStepMemory(s, c);
    }
  }

  lemma RebootMemory(s: Live, c: Command)
    requires c.Reboot?
    ensures Step(s, c).snapshot == s.snapshot
  {
  }

  /** The observations of the cycles a run completes, oldest first. */
  ghost function Observations(s: Live, cs: seq<Command>): seq<Value>
    decreases |cs|
  {
    if |cs| == 0 then []
    else
      var before, c := Run(s, cs[..|cs| - 1]), cs[|cs| - 1];
      Observations(s, cs[..|cs| - 1]) + if Advances(before, c) then [c.cycle.observation] else []
  }

  lemma WholeWindow(values: seq<Value>)
    requires |values| <= 90
    ensures LastOf(values, 90) == values
  {
  }

  lemma LastOfStep(values: seq<Value>, v: Value)
    ensures LastOf(LastOf(values, 90) + [v], 90) == LastOf(values + [v], 90)
  {
  }

  lemma ObservationsStep(s: Live, cs: seq<Command>)
    requires |cs| > 0
    ensures var front, c := cs[..|cs| - 1], cs[|cs| - 1];
            Observations(s, cs) ==
              if Advances(Run(s, front), c) then Observations(s, front) + [c.cycle.observation]
              else Observations(s, front)
  {
    hide Run;
  }

  /** So over a run of one process the window is the last 90 of what it held and what the cycles observed. */
  lemma {:induction false} TrendIsLast90(s: Live, cs: seq<Command>)
    requires Reachable(s) && |s.facts.history| <= 90 && forall k :: 0 <= k < |cs| ==> !cs[k].Reboot?
    ensures Run(s, cs).facts.history == LastOf(s.facts.history + Observations(s, cs), 90)
    decreases |cs|
  {
    hide Step, LastOf, Restores;
    if |cs| == 0 {
      assert s.facts.history + [] == s.facts.history;
      WholeWindow(s.facts.history);
    } else {
      var front, c := cs[..|cs| - 1], cs[|cs| - 1];
      var before := s.facts.history + Observations(s, front);
      TrendIsLast90(s, front);
      RunIsReachable(s, front);
      StepRemembers(Run(s, front), c);
      ObservationsStep(s, cs);
      if Advances(Run(s, front), c) {
        LastOfStep(before, c.cycle.observation);
        assert s.facts.history + Observations(s, cs) == before + [c.cycle.observation];
      }
    }
  }

  // -------------------------------------------------------------------------
  // Idle ticks
  // -------------------------------------------------------------------------

  /** Nothing is going on, the next cycle owes no prune scan, and there is room for one more idle cycle. */
  predicate IsIdle(s: Live, quiet: bool) {
    && quiet && s.facts.migration.None? && s.pendingNoop + 1 < 9
    && (s.facts.cycleCounter + s.pendingNoop + 1) % 100 != 0
  }

  /**
   In every reachable state a self-driven tick does nothing on an archived substrate, only counts an
   idle cycle, and otherwise moves the counter past all cycles counted so far, and past its own if
   that completes.
   */
  lemma TickCounts(s: Live, c: Command)
    requires Reachable(s) && c.Tick? && c.selfDriven
    ensures s.cultivation == Archived ==> Step(s, c) == s
    ensures s.cultivation != Archived && IsIdle(s, c.quiet) ==> Step(s, c) == s.(pendingNoop := s.pendingNoop + 1)
    ensures s.cultivation != Archived && !IsIdle(s, c.quiet) ==>
              && Step(s, c).pendingNoop == 0
              && Step(s, c).facts.cycleCounter ==
                   s.facts.cycleCounter + s.pendingNoop + if c.cycle.outcome.Committed? then 1 else 0
  {
    hide Settled, Cycled, Step;
    ReachableIsReady(s);
    TickIsSelfDriven(s, c);
    if s.cultivation != Archived && !IsIdle(s, c.quiet) {
      FlushedKeeps(s);
      CycledKeeps(Flushed(s), c.cycle);
      CycledCounter(Flushed(s), c.cycle);
    }
  }

  // -------------------------------------------------------------------------
  // What requests record
  // -------------------------------------------------------------------------

  /** b is a and one more node, with this kind, content and cycle. */
  predicate Adds(a: Log, b: Log, kind: NodeType, content: Content, cycle: nat) {
    a <= b && |b| == |a| + 1 && b[|a|].kind == kind && b[|a|].content == content && b[|a|].cycle == cycle
  }

  /** Intake that is not refused, named and at most half a mebibyte becomes one raw-material node at the counter. */
  lemma IngestRecords(s: Live, refused: bool, kind: string, bytes: Bytes)
    requires Reachable(s)
    ensures var t := Step(s, IngestRaw(refused, kind, bytes));
            if !refused && |kind| > 0 && |bytes| <= 524288
            then Adds(Flushed(s).dag, t.dag, RawMaterial(kind), Opaque(bytes), t.facts.cycleCounter)
            else t == Flushed(s)
  {
    FlushedKeepsNodes(s);
  }

  /** Some node of the log is raw material, or a plate, of this hash. */
  predicate IsThere(log: Log, h: Hash, plate: bool) {
    exists i :: 0 <= i < |log| && HashOf(log[i]) == h &&
                if plate then log[i].kind.ForgedUnderstanding? else log[i].kind.RawMaterial?
  }

  lemma NodeOfIsThere(log: Log, h: Hash, plate: bool)
    requires WellFormed(log)
    ensures IsNodeOf(log, h, plate) <==> IsThere(log, h, plate)
  {
    if Lookup(log, h).Some? {
      var j :| 0 <= j < |log| && log[j] == Lookup(log, h).value;
      assert forall i :: 0 <= i < |log| && HashOf(log[i]) == h ==> i == j;
    }
  }

  /** Sealing idle cycles adds neither raw material nor plates. */
  lemma FlushAddsNeither(s: Live, h: Hash, plate: bool)
    requires Ready(s)
    ensures WellFormed(Flushed(s).dag) && (IsThere(Flushed(s).dag, h, plate) <==> IsThere(s.dag, h, plate))
  {
    FlushedKeeps(s);
    FlushedKeepsNodes(s);
    var flushed := Flushed(s).dag;
    assert forall i :: |s.dag| <= i < |flushed| ==> flushed[i].kind.CycleAdvanced?;
    assert forall i :: 0 <= i < |s.dag| ==> flushed[i] == s.dag[i];
  }

  /** The conditions of a deposit, by the nodes of the log. */
  predicate MayDeposit(log: Log, d: Deposit) {
    && |d.name| > 0 && |d.text| <= 524288
    && (d.worth.Some? ==> d.worth.value <= 100) && (d.confidence.Some? ==> d.confidence.value <= 100)
    && (forall h :: h in d.sources ==> IsThere(log, h, false))
    && (forall h :: h in d.supersedes ==> IsThere(log, h, true))
  }

  lemma AcceptsIff(s: Live, d: Deposit)
    requires Ready(s)
    ensures AcceptsDeposit(Flushed(s).dag, d) <==> MayDeposit(s.dag, d)
  {
    hide IsNodeOf, IsThere, WellFormed, Flushed, Settled;
    forall h, plate
      ensures IsNodeOf(Flushed(s).dag, h, plate) <==> IsThere(s.dag, h, plate)
    {
      FlushAddsNeither(s, h, plate);
      NodeOfIsThere(Flushed(s).dag, h, plate);
    }
  }

  /**
   A deposit whose sources are raw material and whose superseded plates are plates, in range, becomes
   one plate at the counter that carries its text, value, confidence and superseded plates, with every
   source among its parents; any other deposit leaves no trace.
   */
  lemma DepositRecords(s: Live, d: Deposit)
    requires Reachable(s)
    ensures var t := Step(s, DepositPlate(d));
            if MayDeposit(s.dag, d)
            then
              var declared := if d.supersedes == [] then None else Some(d.supersedes);
              && Adds(Flushed(s).dag, t.dag, ForgedUnderstanding(d.name),
                          PlateBody(d.text, d.worth, d.confidence, declared), t.facts.cycleCounter)
              && forall h :: h in d.sources ==> h in t.dag[|t.dag| - 1].parents
            else t == Flushed(s)
  {
    hide MayDeposit, AcceptsDeposit, Flushed, Settled;
    ReachableIsReady(s);
    AcceptsIff(s, d);
    FlushedKeepsNodes(s);
  }

  lemma FlushKeepsChain(s: Live)
    ensures Flushed(s).facts.successorChain == s.facts.successorChain
  {
  }

  /**
   The successor chain grows by an entry, recorded as it is, exactly when the longer chain is well
   spaced; any other entry leaves no trace.
   */
  lemma ChainGrowsIff(s: Live, e: SuccessorEntry)
    requires Reachable(s)
    ensures var t, longer := Step(s, UpdateSuccessorChain(e)), s.facts.successorChain + [e];
            if WellSpaced(longer)
            then
              && t.facts.successorChain == longer
              && Adds(Flushed(s).dag, t.dag, SuccessorChainUpdated("successor"),
                          SuccessorBody(Some(e.pubkey), Some(e.validFrom), e.validUntil), t.facts.cycleCounter)
            else t == Flushed(s)
  {
    hide WellSpaced, CheckEntry, Flushed, FromDag, SpanSum;
    FlushKeepsChain(s);
    LiveIsFold(s);
    CheckEntryIsExact(s.facts.successorChain, e);
    FlushedKeepsNodes(s);
  }

  /**
   With no migration open an accepted migration request that builds, and is not itself an abort,
   opens the one it describes, for 100 cycles from the counter. An open one is closed by an accepted
   abort that asks for no migration, and by no other submission.
   */
  lemma SubmissionOpens(s: Live, m: Mutation)
    requires Reachable(s)
    ensures var t := Step(s, SubmitMutation(m));
            t.facts.migration ==
            match s.facts.migration
            case None =>
              if m.accepted && m.migrationMode && m.built && m.kind != "abort_migration"
              then Some(MigrationCandidate(m.op, m.diff, t.facts.cycleCounter, 100, m.now)) else None
            case Some(c) =>
              if m.accepted && !m.migrationMode && m.kind == "abort_migration" then None else Some(c)
  {
    var flushed := Flushed(s);
    NotesKeepFacts(flushed, m.notes);
  }

  // -------------------------------------------------------------------------
  // What a cycle records of its reports
  // -------------------------------------------------------------------------

  /** A node after the first n has this kind, cycle and content. */
  predicate Records(log: Log, n: nat, kind: NodeType, cycle: nat, bytes: Bytes) {
    exists i :: n <= i < |log| && log[i].kind == kind && log[i].cycle == cycle && log[i].content == Opaque(bytes)
  }

  lemma RecordsExtends(a: Log, b: Log, n: nat, kind: NodeType, cycle: nat, bytes: Bytes)
    requires a <= b && Records(a, n, kind, cycle, bytes)
    ensures Records(b, n, kind, cycle, bytes)
  {
    var i :| n <= i < |a| && a[i].kind == kind && a[i].cycle == cycle && a[i].content == Opaque(bytes);
    assert b[i] == a[i];
  }

  /** The report is in the log as a sporocarp, and a mortality signal also as the proposal it makes. */
  predicate IsReported(log: Log, n: nat, sp: SporocarpReport) {
    && Records(log, n, Sporocarp(sp.kind), sp.atCycle, sp.body)
    && (sp.kind == "mortality_signal_threshold_crossed" ==>
          Records(log, n, SelfEuthanasiaProposal(sp.axis), sp.atCycle, sp.proposal))
  }

  lemma ReportedExtends(a: Log, b: Log, n: nat, sp: SporocarpReport)
    requires a <= b && IsReported(a, n, sp)
    ensures IsReported(b, n, sp)
  {
    RecordsExtends(a, b, n, Sporocarp(sp.kind), sp.atCycle, sp.body);
    if sp.kind == "mortality_signal_threshold_crossed" {
      RecordsExtends(a, b, n, SelfEuthanasiaProposal(sp.axis), sp.atCycle, sp.proposal);
    }
  }

  lemma InsertedIsReported(log: Log, sp: SporocarpReport, n: nat)
    requires n <= |log|
    ensures log <= InsertSporocarp(log, sp) && IsReported(InsertSporocarp(log, sp), n, sp)
  {
    hide WithTip;
    var after := InsertSporocarp(log, sp);
    assert after[|log|].kind == Sporocarp(sp.kind);
    if sp.kind == MORTALITY_SIGNAL {
      assert after[|log| + 1].kind == SelfEuthanasiaProposal(sp.axis);
    }
  }

  lemma LastIsInserted(log: Log, sps: seq<SporocarpReport>)
    requires |sps| > 0
    ensures InsertSporocarps(log, sps) ==
            InsertSporocarp(InsertSporocarps(log, sps[..|sps| - 1]), sps[|sps| - 1])
  {
    hide InsertSporocarp;
  }

  lemma {:induction false} FruitGrows(log: Log, sps: seq<SporocarpReport>)
    ensures log <= InsertSporocarps(log, sps)
    decreases |sps|
  {
    hide InsertSporocarp, IsReported;
    if |sps| > 0 {
      var last := |sps| - 1;
      FruitGrows(log, sps[..last]);
      InsertedIsReported(InsertSporocarps(log, sps[..last]), sps[last], |log|);
    }
  }

  /** Inserting the last report keeps what was there and records it. */
  lemma LastIsReported(log: Log, sps: seq<SporocarpReport>, sp: SporocarpReport)
    requires |sps| > 0
    requires sp == sps[|sps| - 1] || IsReported(InsertSporocarps(log, sps[..|sps| - 1]), |log|, sp)
    ensures IsReported(InsertSporocarps(log, sps), |log|, sp)
  {
    hide InsertSporocarps, InsertSporocarp, IsReported;
    var before := InsertSporocarps(log, sps[..|sps| - 1]);
    LastIsInserted(log, sps);
    FruitGrows(log, sps[..|sps| - 1]);
    InsertedIsReported(before, sps[|sps| - 1], |log|);
    if sp != sps[|sps| - 1] {
      ReportedExtends(before, InsertSporocarps(log, sps), |log|, sp);
    }
  }

  lemma {:induction false} FruitIsReported(log: Log, sps: seq<SporocarpReport>, k: nat)
    requires k < |sps|
    ensures IsReported(InsertSporocarps(log, sps), |log|, sps[k])
    decreases |sps|
  {
    hide InsertSporocarps, IsReported;
    if k < |sps| - 1 {
      FruitIsReported(log, sps[..|sps| - 1], k);
    }
    LastIsReported(log, sps, sps[k]);
  }

  /** Over every run, a completed cycle records every sporocarp reported to it. */
  lemma CycleReports(s: Live, c: Command, k: nat)
    requires Reachable(s) && Advances(s, c) && k < |c.cycle.outcome.sporocarps|
    ensures IsReported(Step(s, c).dag, |s.dag|, c.cycle.outcome.sporocarps[k])
  {
    hide Step, Settled, InsertSporocarps, IsReported;
    var flushed, sps := Flushed(s), c.cycle.outcome.sporocarps;
    ReachableIsReady(s);
    FlushedKeeps(s);
    FlushedKeepsNodes(s);
    AdvancingIsCycle(s, c);
    ReportedInCycle(flushed, c.cycle, k);
    ReportedEarlier(Step(s, c).dag, |flushed.dag|, |s.dag|, sps[k]);
  }

  lemma ReportedEarlier(log: Log, n: nat, m: nat, sp: SporocarpReport)
    requires IsReported(log, n, sp) && m <= n
    ensures IsReported(log, m, sp)
  {
  }

  lemma ReportedInCycle(s: Live, c: Cycle, k: nat)
    requires Settled(s) && c.outcome.Committed? && k < |c.outcome.sporocarps|
    ensures IsReported(Cycled(s, c).dag, |s.dag|, c.outcome.sporocarps[k])
  {
    hide InsertSporocarps, Concluded, EmitNotes, Settled, IsReported;
    var sps, post := c.outcome.sporocarps, s.facts.cycleCounter + 1;
    var fruited := InsertSporocarps(s.dag, sps);
    var noted := EmitNotes(Advanced(s, sps), c.during);
    FruitIsReported(s.dag, sps, k);
    FruitStays(s, sps);
    NotesGrow(Advanced(s, sps), c.during);
    ConcludedGrows(noted, c);
    ReportedExtends(fruited, Cycled(s, c).dag, |s.dag|, sps[k]);
  }

  /** A cycle inserts its sporocarps, absorbs what is pending, then scans if it must. */
  lemma AdvancedUnfolds(s: Live, sps: seq<SporocarpReport>) returns (absorbed: Live)
    requires Settled(s)
    ensures absorbed ==
            Absorbed(s.(dag := InsertSporocarps(s.dag, sps)), PendingAbsorption(s.dag, s.facts.lastAbsorbed),
                     s.facts.cycleCounter + 1)
    ensures WellFormed(absorbed.dag) && absorbed.dag <= Advanced(s, sps).dag
  {
    hide InsertSporocarps, PendingAbsorption, Settled, Pruned, WellFormed, Absorbed;
    var post := s.facts.cycleCounter + 1;
    absorbed := Absorbed(s.(dag := InsertSporocarps(s.dag, sps)), PendingAbsorption(s.dag, s.facts.lastAbsorbed), post);
    MetabolizedGrows(s, sps, post);
    PruneGrows(absorbed, post);
  }

  lemma FruitIsKept(s: Live, sps: seq<SporocarpReport>, pending: seq<Hash>, post: nat)
    ensures InsertSporocarps(s.dag, sps) <= Absorbed(s.(dag := InsertSporocarps(s.dag, sps)), pending, post).dag
  {
    hide InsertSporocarps;
  }

  lemma FruitStays(s: Live, sps: seq<SporocarpReport>)
    requires Settled(s)
    ensures InsertSporocarps(s.dag, sps) <= Advanced(s, sps).dag
  {
    hide InsertSporocarps, PendingAbsorption, Settled, Advanced, WellFormed, Absorbed;
    var absorbed := AdvancedUnfolds(s, sps);
    FruitIsKept(s, sps, PendingAbsorption(s.dag, s.facts.lastAbsorbed), s.facts.cycleCounter + 1);
  }

  /** Raw material of the log that is past the mark. */
  ghost predicate IsUnmarked(s: Live, h: Hash) {
    exists i :: 0 <= i < |s.dag| && HashOf(s.dag[i]) == h && s.dag[i].kind.RawMaterial? &&
                (s.facts.lastAbsorbed.Some? ==> s.dag[i].cycle > s.facts.lastAbsorbed.value)
  }

  /** Node j is the absorption event of cycle k: it lists, and has as parents, exactly the unmarked material. */
  ghost predicate AbsorbsUnmarked(log: Log, j: nat, s: Live, k: nat) {
    && j < |log| && log[j].kind == AbsorptionEvent(k) && log[j].cycle == k && log[j].content.AbsorptionBody?
    && log[j].content.cycle == Some(k) && log[j].content.absorbed.Some?
    && forall h :: (h in log[j].content.absorbed.value <==> IsUnmarked(s, h)) &&
                   (IsUnmarked(s, h) ==> h in log[j].parents)
  }

  lemma PendingIsUnmarked(s: Live)
    ensures forall h :: h in PendingAbsorption(s.dag, s.facts.lastAbsorbed) <==> IsUnmarked(s, h)
  {
    hide PendingAbsorption;
    forall h
      ensures h in PendingAbsorption(s.dag, s.facts.lastAbsorbed) <==> IsUnmarked(s, h)
    {
      PendingIsExact(s.dag, s.facts.lastAbsorbed, h);
    }
  }

  lemma AbsorptionRecords(s: Live, t: Live, pending: seq<Hash>, post: nat)
    requires |pending| > 0 && forall h :: h in pending <==> IsUnmarked(t, h)
    ensures |s.dag| < |Absorbed(s, pending, post).dag|
    ensures AbsorbsUnmarked(Absorbed(s, pending, post).dag, |s.dag|, t, post)
  {
    hide IsUnmarked, MaxCreatedAt, Tip;
  }

  lemma SameNodeAbsorbs(a: Log, b: Log, j: nat, s: Live, k: nat)
    requires AbsorbsUnmarked(a, j, s, k) && a <= b
    ensures j < |b| && AbsorbsUnmarked(b, j, s, k)
  {
    hide IsUnmarked;
    assert b[j] == a[j];
  }

  lemma SomePending(s: Live)
    requires exists h :: IsUnmarked(s, h)
    ensures |PendingAbsorption(s.dag, s.facts.lastAbsorbed)| > 0
  {
    hide PendingAbsorption, IsUnmarked;
    PendingIsUnmarked(s);
    var h :| IsUnmarked(s, h);
    assert h in PendingAbsorption(s.dag, s.facts.lastAbsorbed);
  }

  lemma AbsorbedRecords(s: Live, sps: seq<SporocarpReport>) returns (j: nat)
    requires Settled(s) && exists h :: IsUnmarked(s, h)
    ensures |s.dag| <= j < |Advanced(s, sps).dag|
    ensures AbsorbsUnmarked(Advanced(s, sps).dag, j, s, s.facts.cycleCounter + 1)
  {
    var post := s.facts.cycleCounter + 1;
    var fruited, pending := InsertSporocarps(s.dag, sps), PendingAbsorption(s.dag, s.facts.lastAbsorbed);
    hide InsertSporocarps, PendingAbsorption, Settled, Advanced, WellFormed, Absorbed, IsUnmarked, AbsorbsUnmarked;
    PendingIsUnmarked(s);
    SomePending(s);
    FruitGrows(s.dag, sps);
    var absorbed := AdvancedUnfolds(s, sps);
    AbsorptionRecords(s.(dag := fruited), s, pending, post);
    j := |fruited|;
    SameNodeAbsorbs(absorbed.dag, Advanced(s, sps).dag, j, s, post);
  }

  /** Over every run, a completed cycle absorbs all unmarked material there is, in one event. */
  lemma CycleAbsorbs(s: Live, c: Command) returns (j: nat)
    requires Reachable(s) && Advances(s, c) && exists h :: IsUnmarked(s, h)
    ensures |s.dag| <= j < |Step(s, c).dag|
    ensures AbsorbsUnmarked(Step(s, c).dag, j, s, Step(s, c).facts.cycleCounter)
  {
    hide Step, Settled, AbsorbsUnmarked, IsUnmarked, Cycled;
    var flushed := Flushed(s);
    ReachableIsReady(s);
    FlushedKeeps(s);
    FlushedKeepsNodes(s);
    AdvancingIsCycle(s, c);
    FlushKeepsUnmarked(s);
    j := AbsorbedInCycle(flushed, c.cycle);
    SameUnmarked(Step(s, c).dag, j, flushed, s, Step(s, c).facts.cycleCounter);
  }

  lemma FlushKeepsUnmarked(s: Live)
    ensures forall h :: IsUnmarked(Flushed(s), h) <==> IsUnmarked(s, h)
  {
    FlushedKeepsNodes(s);
    var flushed := Flushed(s).dag;
    assert forall i :: |s.dag| <= i < |flushed| ==> flushed[i].kind.CycleAdvanced?;
    assert forall i :: 0 <= i < |s.dag| ==> flushed[i] == s.dag[i];
  }

  lemma SameUnmarked(log: Log, j: nat, s: Live, t: Live, k: nat)
    requires AbsorbsUnmarked(log, j, s, k) && forall h :: IsUnmarked(s, h) <==> IsUnmarked(t, h)
    ensures AbsorbsUnmarked(log, j, t, k)
  {
    hide IsUnmarked;
  }

  lemma AbsorbedInCycle(s: Live, c: Cycle) returns (j: nat)
    requires Settled(s) && c.outcome.Committed? && exists h :: IsUnmarked(s, h)
    ensures |s.dag| <= j < |Cycled(s, c).dag|
    ensures AbsorbsUnmarked(Cycled(s, c).dag, j, s, s.facts.cycleCounter + 1)
  {
    hide Advanced, Concluded, EmitNotes, Settled, IsUnmarked, AbsorbsUnmarked;
    var advanced := Advanced(s, c.outcome.sporocarps);
    j := AbsorbedRecords(s, c.outcome.sporocarps);
    NotesGrow(advanced, c.during);
    ConcludedGrows(EmitNotes(advanced, c.during), c);
    SameNodeAbsorbs(advanced.dag, Cycled(s, c).dag, j, s, s.facts.cycleCounter + 1);
  }
}
