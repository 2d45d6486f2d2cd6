/** Every step of the run loop keeps the invariant. */
module Steps {
  import opened Prelude
  import opened Dag
  import opened PruneRules
  import opened PruneScan
  import opened Derived
  import opened Snapshot
  import opened Cultivation
  import opened Server
  import opened Ingest
  import opened Migration
  import opened RunLoop
  import opened Invariants

  // -------------------------------------------------------------------------
  // The invariant between steps
  // -------------------------------------------------------------------------

  predicate MarkBehind(f: Facts) {
    f.lastAbsorbed.Some? ==> f.lastAbsorbed.value < f.cycleCounter
  }

  /** An open migration is still inside its window. */
  predicate InWindow(f: Facts) {
    f.migration.Some? ==>
      f.migration.value.startedAt <= f.cycleCounter &&
      Elapsed(f.migration.value, f.cycleCounter) < f.migration.value.window
  }

  /** Only idle cycles that owe nothing are pending, and no migration is open over them. */
  ghost predicate PendingIsIdle(s: Live) {
    && s.pendingNoop < SELF_DRIVEN_BATCH_MAX
    && NoPruneWithin(s.facts.cycleCounter, s.facts.cycleCounter + s.pendingNoop)
    && (s.pendingNoop > 0 ==> s.facts.migration.None?)
  }

  ghost predicate Ready(s: Live) {
    Settled(s) && MarkBehind(s.facts) && InWindow(s.facts) && PendingIsIdle(s)
  }

  // -------------------------------------------------------------------------
  // Emitting
  // -------------------------------------------------------------------------

  function EmittedNode(s: Live, kind: NodeType, content: Content): Node {
    Node(WithTip(s.dag, []), kind, s.facts.cycleCounter, content)
  }

  lemma EmitAppends(s: Live, kind: NodeType, content: Content)
    requires WellFormed(s.dag) && s.cultivation == CultivationOf(s.dag)
    ensures Emit(s, kind, content) ==
            s.(dag := s.dag + [EmittedNode(s, kind, content)], cultivation := CultivationOf(Emit(s, kind, content).dag))
    ensures WellFormed(Emit(s, kind, content).dag)
  {
    TipParentedInsertAppends(s.dag, [], kind, s.facts.cycleCounter, content);
    if !IsCultivationFamily(kind) {
      OutsidersKeepCultivation(s.dag, Emit(s, kind, content).dag);
    }
  }

  lemma EmitNoteKeeps(s: Live, kind: NodeType, content: Content)
    requires Settled(s) && IsPlainKind(kind)
    ensures Settled(Emit(s, kind, content))
  {
    EmitAppends(s, kind, content);
    NeutralStep(s, Emit(s, kind, content), EmittedNode(s, kind, content));
  }

  lemma {:induction false} NotesKeep(s: Live, notes: seq<Note>)
    requires Settled(s)
    ensures Settled(EmitNotes(s, notes))
    decreases |notes|
  {
    if |notes| > 0 {
      NotesKeep(s, notes[..|notes| - 1]);
      EmitNoteKeeps(EmitNotes(s, notes[..|notes| - 1]), notes[|notes| - 1].kind, notes[|notes| - 1].content);
    }
  }

  lemma NotesKeepReady(s: Live, notes: seq<Note>)
    requires Ready(s)
    ensures Ready(EmitNotes(s, notes))
  {
    NotesKeep(s, notes);
    NotesKeepFacts(s, notes);
  }

  // -------------------------------------------------------------------------
  // Intake, plates, the successor chain
  // -------------------------------------------------------------------------

  lemma IngestedKeeps(s: Live, kind: string, bytes: Bytes)
    requires Ready(s)
    ensures Ready(Ingested(s, kind, bytes))
  {
    var n := EmittedNode(s, RawMaterial(kind), Opaque(bytes));
    TipParentedInsertAppends(s.dag, [], RawMaterial(kind), s.facts.cycleCounter, Opaque(bytes));
    RawStep(s, Ingested(s, kind, bytes), n);
  }

  lemma NodeIsIn(log: Log, h: Hash, plate: bool)
    requires IsNodeOf(log, h, plate)
    ensures Has(log, h)
  {
    var n := Lookup(log, h).value;
    var i :| 0 <= i < |log| && log[i] == n;
    assert HashOf(log[i]) == h;
  }

  lemma DepositedKeeps(s: Live, d: Deposit)
    requires Ready(s) && AcceptsDeposit(s.dag, d)
    ensures Ready(Deposited(s, d))
  {
    var content := PlateOf(d);
    forall h | h in d.sources
      ensures Has(s.dag, h)
    {
      NodeIsIn(s.dag, h, false);
    }
    TipParentedInsertAppends(s.dag, d.sources, ForgedUnderstanding(d.name), s.facts.cycleCounter, content);
    OutsidersKeepCultivation(s.dag, Deposited(s, d).dag);
    PlainStep(s, Deposited(s, d),
        Node(WithTip(s.dag, d.sources), ForgedUnderstanding(d.name), s.facts.cycleCounter, content));
  }

  lemma ChainUpdatedKeeps(s: Live, e: SuccessorEntry)
    requires Ready(s)
    ensures Ready(ChainUpdated(s, e))
  {
    if CheckEntry(s.facts.successorChain, e).Ok? {
      var kind, content :=
          SuccessorChainUpdated("successor"), SuccessorBody(Some(e.pubkey), Some(e.validFrom), e.validUntil);
      EmitAppends(s, kind, content);
      OutsidersKeepCultivation(s.dag, Emit(s, kind, content).dag);
      CheckEntryIsExact(s.facts.successorChain, e);
      ChainStep(s, ChainUpdated(s, e), EmittedNode(s, kind, content), e);
    }
  }

  // -------------------------------------------------------------------------
  // The counter
  // -------------------------------------------------------------------------

  lemma CounterMovedKeeps(s: Live, span: nat)
    requires Settled(s) && (span <= 1 || NoPruneWithin(s.facts.cycleCounter, s.facts.cycleCounter + span))
    ensures Settled(CounterMoved(s, span))
    ensures CounterMoved(s, span) ==
      s.(dag := CounterMoved(s, span).dag, facts := s.facts.(cycleCounter := s.facts.cycleCounter + span))
  {
    var moved := s.(facts := s.facts.(cycleCounter := s.facts.cycleCounter + span));
    var content := CycleAdvancedBody(Some(s.facts.cycleCounter), Some(s.facts.cycleCounter + span));
    TipParentedInsertAppends(moved.dag, [], CycleAdvanced, moved.facts.cycleCounter, content);
    CounterStep(s, CounterMoved(s, span), EmittedNode(moved, CycleAdvanced, content), span);
  }

  lemma FlushedKeeps(s: Live)
    requires Ready(s)
    ensures Ready(Flushed(s)) && Flushed(s).pendingNoop == 0
  {
    if s.pendingNoop > 0 && s.cultivation != Archived {
      CounterMovedKeeps(s, s.pendingNoop);
      PendingChangesNothing(CounterMoved(s, s.pendingNoop), 0);
    } else {
      PendingChangesNothing(s, 0);
    }
  }

  /** The pending count, the trend window and snapshot.cb are outside the log's account. */
  lemma MemoryOnly(s: Live, t: Live)
    requires Settled(s) && t.dag == s.dag && t.cultivation == s.cultivation
    requires t.facts == s.facts.(history := t.facts.history) && Restorable(t)
    ensures Settled(t)
  {
    forall i: nat | i < |t.dag| && t.dag[i].kind.RawMaterial?
      ensures IsAccounted(t, t.dag[i])
    {
      assert IsAccounted(s, s.dag[i]);
    }
  }

  lemma PendingChangesNothing(s: Live, pending: nat)
    requires Settled(s)
    ensures Settled(s.(pendingNoop := pending))
  {
    RestorableExtends(s, s.(pendingNoop := pending));
    MemoryOnly(s, s.(pendingNoop := pending));
  }

  // -------------------------------------------------------------------------
  // Migrations
  // -------------------------------------------------------------------------

  function TerminalKind(op: string, commit: bool): NodeType {
    if commit then MigrationCommitted(op) else MigrationRolledBack(op)
  }

  lemma TerminalKeeps(s: Live, op: string, commit: bool)
    requires Settled(s) && OpOf(s.facts.migration) == Some(op)
    ensures Settled(Emit(s, TerminalKind(op, commit), MigrationTerminalBody(op, s.facts.cycleCounter)).(facts :=
      s.facts.(migration := None)))
  {
    var kind, content := TerminalKind(op, commit), MigrationTerminalBody(op, s.facts.cycleCounter);
    EmitAppends(s, kind, content);
    OutsidersKeepCultivation(s.dag, Emit(s, kind, content).dag);
    TerminalStep(s, Emit(s, kind, content).(facts := s.facts.(migration := None)), EmittedNode(s, kind, content));
  }

  /** The terminal event, then its sibling, over a candidate already cleared: the order does not show. */
  lemma TerminalPairKeeps(s: Live, op: string, commit: bool, reason: Bytes)
    requires Settled(s) && OpOf(s.facts.migration) == Some(op)
    ensures Settled(Closed(s, op, commit, reason, []))
    ensures Closed(s, op, commit, reason, []).facts == s.facts.(migration := None)
    ensures Closed(s, op, commit, reason, []).pendingNoop == s.pendingNoop
  {
    hide Settled;
    TerminalKeeps(s, op, commit);
    var terminal := Emit(s, TerminalKind(op, commit), MigrationTerminalBody(op, s.facts.cycleCounter));
    EmitNoteKeeps(terminal.(facts := s.facts.(migration := None)),
                  if commit then EvolutionSucceeded(op) else EvolutionFailed(op), Opaque(reason));
  }

  lemma ClosedKeeps(s: Live, op: string, commit: bool, reason: Bytes, trouble: seq<Note>)
    requires Settled(s) && OpOf(s.facts.migration) == Some(op)
    ensures Settled(Closed(s, op, commit, reason, trouble))
    ensures Closed(s, op, commit, reason, trouble).facts == s.facts.(migration := None)
    ensures Closed(s, op, commit, reason, trouble).pendingNoop == s.pendingNoop
  {
    NotesKeep(s, trouble);
    NotesKeepFacts(s, trouble);
    TerminalPairKeeps(EmitNotes(s, trouble), op, commit, reason);
    assert Closed(s, op, commit, reason, trouble) == Closed(EmitNotes(s, trouble), op, commit, reason, []);
  }

  lemma MigrationSteppedKeeps(s: Live, r: Report)
    requires Settled(s) && s.pendingNoop == 0
    requires s.facts.migration.Some? ==> s.facts.migration.value.startedAt <= s.facts.cycleCounter
    ensures Settled(MigrationStepped(s, r)) && InWindow(MigrationStepped(s, r).facts)
    ensures MigrationStepped(s, r).facts == s.facts.(migration := MigrationStepped(s, r).facts.migration)
    ensures MigrationStepped(s, r).pendingNoop == 0
  {
    hide Settled, Closed;
    if s.facts.migration.Some? {
      var c := s.facts.migration.value;
      EmitNoteKeeps(s, MigrationCycleValidated(c.op), Opaque(r.reason));
      match DecideCycle(c, s.facts.cycleCounter, !r.active || r.diverged)
      case KeepValidating =>
      case Commit =>
        EmitNoteKeeps(s, MigrationCycleValidated(c.op), Opaque([]));
        ClosedKeeps(Validated(s, c.op, []), c.op, true, [], r.trouble);
      case Rollback =>
        ClosedKeeps(Validated(s, c.op, r.reason), c.op, false, r.reason, r.trouble);
    }
  }

  lemma OpenedKeeps(s: Live, m: Mutation)
    requires Settled(s) && s.facts.migration.None?
    ensures Settled(Opened(s, m))
  {
    var c := Opened(s, m).facts.migration.value;
    var content := MigrationStartedBody(Some(c.op), Some(c.diff), Some(c.startedAt), Some(c.window),
        Some(c.startedAtNs));
    TipParentedInsertAppends(s.dag, [], MigrationStarted(m.op), s.facts.cycleCounter, content);
    StartedStep(s, Opened(s, m), EmittedNode(s, MigrationStarted(m.op), content), c);
  }

  lemma BuildFailedKeeps(s: Live, m: Mutation)
    requires Settled(s) && s.facts.migration.None?
    ensures Settled(BuildFailed(s, m))
  {
    var content := MigrationTerminalBody(m.op, s.facts.cycleCounter);
    var mid := s.(dag := Append(s.dag, [], MigrationRolledBack(m.op), s.facts.cycleCounter, content));
    TipParentedInsertAppends(s.dag, [], MigrationRolledBack(m.op), s.facts.cycleCounter, content);
    TerminalStep(s, mid, EmittedNode(s, MigrationRolledBack(m.op), content));
    EmitNoteKeeps(mid, EvolutionFailed(m.op), Opaque(m.reason));
  }

  lemma SubmittedKeeps(s: Live, m: Mutation)
    requires Ready(s) && s.pendingNoop == 0
    ensures Ready(Submitted(s, m))
  {
    NotesKeepReady(s, m.notes);
    NotesKeepFacts(s, m.notes);
    var noted := EmitNotes(s, m.notes);
    if Accepts(s.facts, m) {
      if m.migrationMode {
        if m.built { OpenedKeeps(noted, m); } else { BuildFailedKeeps(noted, m); }
      }
      var migrated := Migrated(noted, m);
      if m.kind == ABORT_MIGRATION && migrated.facts.migration.Some? {
        ClosedKeeps(migrated, migrated.facts.migration.value.op, false, m.reason, m.trouble);
      }
    }
  }

  /** Every open migration is inside its window, so C66 finds nothing to force. */
  lemma WindowCheckedKeeps(s: Live, cooling: bool, notes: seq<Note>, reason: Bytes, trouble: seq<Note>)
    requires InWindow(s.facts)
    ensures WindowChecked(s, cooling, notes, reason, trouble) == s
  {
  }

  // -------------------------------------------------------------------------
  // One cycle
  // -------------------------------------------------------------------------

  lemma {:induction false} SporocarpsAppend(log: Log, sps: seq<SporocarpReport>)
    requires WellFormed(log)
    ensures WellFormed(InsertSporocarps(log, sps)) && log <= InsertSporocarps(log, sps)
    ensures forall i :: |log| <= i < |InsertSporocarps(log, sps)| ==>
              InsertSporocarps(log, sps)[i].kind.Sporocarp? ||
                  InsertSporocarps(log, sps)[i].kind.SelfEuthanasiaProposal?
    decreases |sps|
  {
    if |sps| > 0 {
      var sp, before := sps[|sps| - 1], InsertSporocarps(log, sps[..|sps| - 1]);
      SporocarpsAppend(log, sps[..|sps| - 1]);
      TipParentedInsertAppends(before, [], Sporocarp(sp.kind), sp.atCycle, Opaque(sp.body));
      TipParentedInsertAppends(Append(before, [], Sporocarp(sp.kind), sp.atCycle, Opaque(sp.body)), [],
                               SelfEuthanasiaProposal(sp.axis), sp.atCycle, Opaque(sp.proposal));
    }
  }

  /** Neutral nodes outside the cultivation family leave everything but the log as it was. */
  lemma QuietSuffixKeeps(s: Live, after: Log)
    requires Settled(s) && s.dag <= after && WellFormed(after)
    requires forall i :: |s.dag| <= i < |after| ==> IsNeutral(after[i]) && !IsCultivationFamily(after[i].kind)
    ensures Settled(s.(dag := after))
  {
    OutsidersKeepCultivation(s.dag, after);
    NeutralSuffix(s, s.(dag := after));
  }

  lemma FruitsAreNeutral(log: Log, sps: seq<SporocarpReport>)
    requires WellFormed(log)
    ensures forall i :: |log| <= i < |InsertSporocarps(log, sps)| ==>
              IsNeutral(InsertSporocarps(log, sps)[i]) && !IsCultivationFamily(InsertSporocarps(log, sps)[i].kind)
  {
    SporocarpsAppend(log, sps);
  }

  lemma TombstonesAreNeutral(log: Log, post: nat)
    requires WellFormed(log)
    ensures WellFormed(Scan(log, post)) && log <= Scan(log, post)
    ensures forall i :: |log| <= i < |Scan(log, post)| ==>
      IsNeutral(Scan(log, post)[i]) && !IsCultivationFamily(Scan(log, post)[i].kind)
  {
    StageAppends(log, post, 0, |REGISTRY|);
    var after := Scan(log, post);
    forall i | |log| <= i < |after|
      ensures IsNeutral(after[i]) && !IsCultivationFamily(after[i].kind)
    {
      assert IsScanTombstone(after, i, post);
    }
  }

  lemma FruitedKeeps(s: Live, sps: seq<SporocarpReport>)
    requires Settled(s)
    ensures Settled(s.(dag := InsertSporocarps(s.dag, sps)))
    ensures PendingAbsorption(InsertSporocarps(s.dag, sps), s.facts.lastAbsorbed) ==
      PendingAbsorption(s.dag, s.facts.lastAbsorbed)
  {
    SporocarpsAppend(s.dag, sps);
    FruitsAreNeutral(s.dag, sps);
    QuietSuffixKeeps(s, InsertSporocarps(s.dag, sps));
    PendingIgnoresOthers(s.dag, InsertSporocarps(s.dag, sps), s.facts.lastAbsorbed);
  }

  /** t differs from s in its log and its absorbed mark at most. */
  predicate SameButMark(s: Live, t: Live) {
    t == s.(dag := t.dag, facts := s.facts.(lastAbsorbed := t.facts.lastAbsorbed))
  }

  lemma AbsorbedKeeps(s: Live, post: nat)
    requires Settled(s)
    ensures Settled(Absorbed(s, PendingAbsorption(s.dag, s.facts.lastAbsorbed), post))
    ensures SameButMark(s, Absorbed(s, PendingAbsorption(s.dag, s.facts.lastAbsorbed), post))
  {
    var pending := PendingAbsorption(s.dag, s.facts.lastAbsorbed);
    if |pending| > 0 {
      forall h | h in pending
        ensures Has(s.dag, h)
      {
        PendingIsExact(s.dag, s.facts.lastAbsorbed, h);
      }
      TipParentedInsertAppends(s.dag, pending, AbsorptionEvent(post), post, AbsorptionBody(Some(post), Some(pending)));
      NewestIsNewMark(s.dag, s.facts.lastAbsorbed);
      AbsorptionStep(s, Absorbed(s, pending, post),
                     Node(WithTip(s.dag, pending), AbsorptionEvent(post), post,
                         AbsorptionBody(Some(post), Some(pending))), post);
    }
  }

  lemma PrunedKeeps(s: Live, post: nat)
    requires Settled(s)
    ensures Settled(Pruned(s, post)) && SameButMark(s, Pruned(s, post))
  {
    TombstonesAreNeutral(s.dag, post);
    QuietSuffixKeeps(s, Scan(s.dag, post));
  }

  lemma MetabolizedKeeps(s: Live, sps: seq<SporocarpReport>, post: nat)
    requires Settled(s)
    ensures var t := Absorbed(s.(dag := InsertSporocarps(s.dag, sps)), PendingAbsorption(s.dag, s.facts.lastAbsorbed),
      post);
            Settled(t) && SameButMark(s, t)
  {
    FruitedKeeps(s, sps);
    AbsorbedKeeps(s.(dag := InsertSporocarps(s.dag, sps)), post);
  }

  lemma AdvancedKeeps(s: Live, sps: seq<SporocarpReport>)
    requires Settled(s)
    ensures Settled(Advanced(s, sps)) && SameButMark(s, Advanced(s, sps))
  {
    var post := s.facts.cycleCounter + 1;
    MetabolizedKeeps(s, sps, post);
    PrunedKeeps(Absorbed(s.(dag := InsertSporocarps(s.dag, sps)), PendingAbsorption(s.dag, s.facts.lastAbsorbed), post),
        post);
  }

  lemma SavedRestores(s: Live)
    requires Settled(s)
    ensures Restorable(Saved(s))
  {
    var g := SnapshotFacts(s.facts);
    assert s.dag[..|s.dag|] == s.dag;
    assert SameCore(false, g, FromDag(s.dag).value);
    assert IsSnapshotOf(false, Saved(s).snapshot.value, s.dag, |s.dag|);
  }

  lemma ObservedKeeps(s: Live, v: Value, cycle: nat)
    requires Settled(s)
    ensures Settled(Observed(s, v, cycle))
  {
    var remembered := s.(facts := s.facts.(history := Remember(s.facts.history, v)));
    RestorableExtends(s, remembered);
    MemoryOnly(s, remembered);
    SavedRestores(remembered);
    MemoryOnly(remembered, Saved(remembered));
  }

  lemma BumpedKeeps(s: Live, r: Report)
    requires Settled(s) && s.pendingNoop == 0
    requires s.facts.migration.Some? ==> s.facts.migration.value.startedAt <= s.facts.cycleCounter
    ensures var t := MigrationStepped(CounterMoved(s, 1), r);
            && Settled(t) && InWindow(t.facts) && t.pendingNoop == 0
            && t.facts == s.facts.(cycleCounter := s.facts.cycleCounter + 1, migration := t.facts.migration)
  {
    CounterMovedKeeps(s, 1);
    MigrationSteppedKeeps(CounterMoved(s, 1), r);
  }

  lemma WitnessedKeeps(s: Live, after: seq<Note>, v: Value, cycle: nat)
    requires Settled(s)
    ensures Settled(Observed(EmitNotes(s, after), v, cycle))
  {
    NotesKeep(s, after);
    ObservedKeeps(EmitNotes(s, after), v, cycle);
  }

  lemma WitnessedFacts(s: Live, after: seq<Note>, v: Value, cycle: nat)
    ensures var t := Observed(EmitNotes(s, after), v, cycle);
            t.pendingNoop == s.pendingNoop && t.facts == s.facts.(history := t.facts.history)
  {
    NotesKeepFacts(s, after);
  }

  lemma ConcludedKeeps(s: Live, c: Cycle)
    requires Settled(s) && s.pendingNoop == 0
    requires s.facts.migration.Some? ==> s.facts.migration.value.startedAt <= s.facts.cycleCounter
    ensures Settled(Concluded(s, c)) && InWindow(Concluded(s, c).facts) && Concluded(s, c).pendingNoop == 0
    ensures Concluded(s, c).facts.cycleCounter == s.facts.cycleCounter + 1
    ensures Concluded(s, c).facts.lastAbsorbed == s.facts.lastAbsorbed
  {
    BumpedKeeps(s, c.report);
    ConcludedUnfolds(s, c);
    WitnessedKeeps(MigrationStepped(CounterMoved(s, 1), c.report), c.after, c.observation, s.facts.cycleCounter + 1);
    WitnessedFacts(MigrationStepped(CounterMoved(s, 1), c.report), c.after, c.observation, s.facts.cycleCounter + 1);
  }

  lemma ConcludedUnfolds(s: Live, c: Cycle)
    ensures Concluded(s, c) ==
            Observed(EmitNotes(MigrationStepped(CounterMoved(s, 1), c.report), c.after), c.observation,
                s.facts.cycleCounter + 1)
  {
  }

  lemma CommittedKeeps(s: Live, sps: seq<SporocarpReport>, during: seq<Note>)
    requires Settled(s)
    ensures Settled(EmitNotes(Advanced(s, sps), during))
    ensures var t := EmitNotes(Advanced(s, sps), during);
            t.pendingNoop == s.pendingNoop && t.facts == s.facts.(lastAbsorbed := t.facts.lastAbsorbed)
  {
    AdvancedKeeps(s, sps);
    NotesKeep(Advanced(s, sps), during);
    NotesKeepFacts(Advanced(s, sps), during);
  }

  lemma CycledKeeps(s: Live, c: Cycle)
    requires Ready(s) && s.pendingNoop == 0
    ensures Ready(Cycled(s, c)) && Cycled(s, c).pendingNoop == 0
  {
    match c.outcome
    case Failed => NotesKeepReady(s, c.during); NotesKeepFacts(s, c.during);
    case Committed(sps) =>
      CommittedKeeps(s, sps, c.during);
      ConcludedKeeps(EmitNotes(Advanced(s, sps), c.during), c);
  }

  lemma SelfDrivenKeeps(s: Live, quiet: bool, c: Cycle)
    requires Ready(s)
    ensures Ready(SelfDriven(s, quiet, c))
  {
    if s.cultivation != Archived {
      if Batches(s, quiet) {
        PendingChangesNothing(s, s.pendingNoop + 1);
      } else {
        FlushedKeeps(s);
        CycledKeeps(Flushed(s), c);
      }
    }
  }

  // -------------------------------------------------------------------------
  // Boot
  // -------------------------------------------------------------------------

  /** A boot, from a snapshot or not, agrees with the fold: with the live fields it replaces. */
  lemma BootAgrees(s: Live, trusted: bool)
    requires Settled(s)
    ensures var f := Boot(s.dag, if trusted then s.snapshot else None);
            SameCore(false, f, s.facts) && SameCultivation(f, s.facts)
  {
    FullBootIsFold(s.dag);
    if trusted && s.snapshot.Some? {
      var k: nat :| IsSnapshotOf(false, s.snapshot.value, s.dag, k);
      SnapshotBootIsFullReplay(false, s.dag, k, s.snapshot.value);
    }
  }

  lemma BootedKeeps(s: Live, trusted: bool, now: int)
    requires Ready(s)
    ensures Ready(Booted(s.dag, s.snapshot, trusted, now))
  {
    BootAgrees(s, trusted);
    var t := Booted(s.dag, s.snapshot, trusted, now);
    RestorableExtends(s, t);
    forall i: nat | i < |t.dag| && t.dag[i].kind.RawMaterial?
      ensures IsAccounted(t, t.dag[i])
    {
      assert IsAccounted(s, s.dag[i]);
    }
  }

  // -------------------------------------------------------------------------
  // Every step
  // -------------------------------------------------------------------------

  lemma HandledKeeps(s: Live, c: Command)
    requires Ready(s) && s.pendingNoop == 0 && !c.Tick? && !c.Reboot?
    ensures Ready(Handled(s, c))
  {
    match c
    case IngestRaw(refused, kind, bytes) => IngestedKeeps(s, kind, bytes);
    case DepositPlate(d) => if AcceptsDeposit(s.dag, d) { DepositedKeeps(s, d); }
    case Advance(cycle) => CycledKeeps(s, cycle);
    case SubmitMutation(m) => SubmittedKeeps(s, m);
    case UpdateSuccessorChain(e) => ChainUpdatedKeeps(s, e);
    case RecordEvents(notes) => NotesKeepReady(s, notes);
  }

  lemma TickKeeps(s: Live, c: Command)
    requires Ready(s) && c.Tick?
    ensures Ready(Step(s, c))
  {
    SelfDrivenKeeps(s, c.quiet, c.cycle);
    WindowCheckedKeeps(if c.selfDriven then SelfDriven(s, c.quiet, c.cycle)
        else s, c.cooling, c.notes, c.reason, c.trouble);
  }

  lemma RebootKeeps(s: Live, c: Command)
    requires Ready(s) && c.Reboot?
    ensures Ready(Step(s, c))
  {
    hide Settled, Booted;
    FlushedKeeps(s);
    BootedKeeps(if c.clean then Flushed(s) else s, c.trusted, c.now);
  }

  lemma RequestKeeps(s: Live, c: Command)
    requires Ready(s) && !c.Tick? && !c.Reboot?
    ensures Ready(Step(s, c))
  {
    FlushedKeeps(s);
    HandledKeeps(Flushed(s), c);
  }

  lemma StepKeeps(s: Live, c: Command)
    requires Ready(s)
    ensures Ready(Step(s, c))
  {
    if c.Tick? {
      TickKeeps(s, c);
    } else if c.Reboot? {
      RebootKeeps(s, c);
    } else {
      RequestKeeps(s, c);
    }
  }
}
