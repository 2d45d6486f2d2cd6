/** The properties of whole runs, for every sequence of commands and every input. */
module RunTheorems {
  import opened Prelude
  import opened Dag
  import opened PruneRules
  import opened Derived
  import opened Snapshot
  import opened Cultivation
  import opened Server
  import opened Ingest
  import opened Migration
  import opened RunLoop
  import opened Invariants
  import opened Steps
  import opened Runs

  ghost predicate Reachable(s: Live) {
    exists id: Id, time: int, depth: nat, cs: seq<Command> :: !IsZero(id) && s == Run(Born(id, time, depth), cs)
  }

  lemma ReachableIsReady(s: Live)
    requires Reachable(s)
    ensures Ready(s)
  {
    var id: Id, time: int, depth: nat, cs: seq<Command> :| !IsZero(id) && s == Run(Born(id, time, depth), cs);
    BornIsReady(id, time, depth);
    RunKeeps(Born(id, time, depth), cs);
  }

  // -------------------------------------------------------------------------
  // The live state is the fold over the log
  // -------------------------------------------------------------------------

  /** Every live field is what the log says; an open migration may differ in its wall-clock start only. */
  lemma LiveIsFold(s: Live)
    requires Reachable(s)
    ensures FromDag(s.dag).Ok?
    ensures var d := FromDag(s.dag).value;
            && d.substrateId == s.facts.substrateId && d.genesisTime == s.facts.genesisTime
            && d.generationDepth == s.facts.generationDepth && d.cycleCounter == s.facts.cycleCounter
            && d.lastAbsorbed == s.facts.lastAbsorbed && d.successorChain == s.facts.successorChain
            && d.successionConfig == s.facts.successionConfig
            && WithoutClock(d.migration) == WithoutClock(s.facts.migration)
    ensures SpanSum(s.dag) == s.facts.cycleCounter
    ensures s.cultivation == CultivationOf(s.dag) && WellSpaced(s.facts.successorChain)
  {
    ReachableIsReady(s);
  }

  lemma ResumedClock(f: Facts, g: Facts, now: int)
    requires SameCore(false, f, g)
    ensures SameCore(false, f.(migration := Resumed(f.migration, now)), g)
    ensures SameCore(true, f.(migration := Resumed(f.migration, now)), g) <==>
      g.migration.None? || g.migration.value.startedAtNs == now
  {
  }

  /** A reboot changes nothing the log accounts for,
      whether or not snapshot.cb is used; it resets a migration's clock. */
  lemma RebootIsTransparent(s: Live, trusted: bool, now: int)
    requires Ready(s)
    ensures var t := Step(s, Reboot(false, trusted, now));
            && t.dag == s.dag && t.cultivation == s.cultivation && SameCultivation(t.facts, s.facts)
            && SameCore(false, t.facts, s.facts)
            && (SameCore(true, t.facts, s.facts) <==>
                s.facts.migration.None? || s.facts.migration.value.startedAtNs == now)
  {
    hide SameCore, Boot;
    BootAgrees(s, trusted);
    ResumedClock(Boot(s.dag, if trusted then s.snapshot else None), s.facts, now);
  }

  // -------------------------------------------------------------------------
  // Raw material is absorbed exactly once
  // -------------------------------------------------------------------------

  ghost predicate Completed(s: Live, cs: seq<Command>)
    decreases |cs|
  {
    |cs| > 0 && (Completed(s, cs[..|cs| - 1]) || Advances(Run(s, cs[..|cs| - 1]), cs[|cs| - 1]))
  }

  lemma AdvancedMarksAll(s: Live, sps: seq<SporocarpReport>, i: nat)
    requires Settled(s) && i < |s.dag| && s.dag[i].kind.RawMaterial?
    ensures IsMarked(s.dag[i].cycle, Advanced(s, sps).facts.lastAbsorbed)
  {
    FruitedKeeps(s, sps);
    SporocarpsAppend(s.dag, sps);
    var fruited := InsertSporocarps(s.dag, sps);
    assert fruited[i] == s.dag[i];
    PendingIsExact(fruited, s.facts.lastAbsorbed, HashOf(s.dag[i]));
    if |PendingAbsorption(fruited, s.facts.lastAbsorbed)| > 0 {
      NewestIsNewMark(fruited, s.facts.lastAbsorbed);
    }
  }

  lemma CycledMark(s: Live, c: Cycle, i: nat)
    requires Settled(s) && s.pendingNoop == 0 && i < |s.dag| && s.dag[i].kind.RawMaterial?
    requires s.facts.migration.Some? ==> s.facts.migration.value.startedAt <= s.facts.cycleCounter
    ensures if c.outcome.Committed? then IsMarked(s.dag[i].cycle, Cycled(s, c).facts.lastAbsorbed)
            else Cycled(s, c).facts.lastAbsorbed == s.facts.lastAbsorbed
  {
    match c.outcome
    case Failed => NotesKeepFacts(s, c.during);
    case Committed(sps) =>
      AdvancedMarksAll(s, sps, i);
      NotesKeepFacts(Advanced(s, sps), c.during);
      CommittedKeeps(s, sps, c.during);
      ConcludedKeeps(EmitNotes(Advanced(s, sps), c.during), c);
  }

  lemma HandledMark(s: Live, c: Command)
    requires Ready(s) && s.pendingNoop == 0 && !c.Tick? && !c.Reboot? && !c.Advance?
    ensures Handled(s, c).facts.lastAbsorbed == s.facts.lastAbsorbed
  {
    match c
    case SubmitMutation(m) =>
      NotesKeepFacts(s, m.notes);
      NotesKeepFacts(Migrated(EmitNotes(s, m.notes), m), m.trouble);
    case RecordEvents(notes) => NotesKeepFacts(s, notes);
    case _ =>
  }

  lemma FlushedKeepsNodes(s: Live)
    ensures s.dag <= Flushed(s).dag && Flushed(s).facts.lastAbsorbed == s.facts.lastAbsorbed
    ensures Flushed(s).cultivation == s.cultivation
  {
  }

  lemma TickMark(s: Live, c: Command, i: nat)
    requires Ready(s) && i < |s.dag| && s.dag[i].kind.RawMaterial? && c.Tick?
    ensures if Advances(s, c) then IsMarked(s.dag[i].cycle, Step(s, c).facts.lastAbsorbed)
            else Step(s, c).facts.lastAbsorbed == s.facts.lastAbsorbed
  {
    TickIsSelfDriven(s, c);
    if s.cultivation != Archived && !Batches(s, c.quiet) {
      FlushedKeeps(s);
      FlushedKeepsNodes(s);
      assert Flushed(s).dag[i] == s.dag[i];
      CycledMark(Flushed(s), c.cycle, i);
    }
  }

  lemma AdvanceMark(s: Live, c: Command, i: nat)
    requires Ready(s) && i < |s.dag| && s.dag[i].kind.RawMaterial? && c.Advance?
    ensures if Advances(s, c) then IsMarked(s.dag[i].cycle, Step(s, c).facts.lastAbsorbed)
            else Step(s, c).facts.lastAbsorbed == s.facts.lastAbsorbed
  {
    hide Settled, Cycled, Flushed;
    FlushedKeeps(s);
    FlushedKeepsNodes(s);
    assert Flushed(s).dag[i] == s.dag[i];
    CycledMark(Flushed(s), c.cycle, i);
  }

  lemma RequestMark(s: Live, c: Command)
    requires Ready(s) && !c.Tick? && !c.Reboot? && !c.Advance?
    ensures Step(s, c).facts.lastAbsorbed == s.facts.lastAbsorbed
  {
    FlushedKeeps(s);
    FlushedKeepsNodes(s);
    HandledMark(Flushed(s), c);
  }

  /** A completed cycle marks all the raw material there was; any other step leaves the mark alone. */
  lemma StepMark(s: Live, c: Command, i: nat)
    requires Ready(s) && i < |s.dag| && s.dag[i].kind.RawMaterial?
    ensures if Advances(s, c) then IsMarked(s.dag[i].cycle, Step(s, c).facts.lastAbsorbed)
            else Step(s, c).facts.lastAbsorbed == s.facts.lastAbsorbed
  {
    if c.Tick? {
      TickMark(s, c, i);
    } else if c.Reboot? {
      RebootMark(s, c);
    } else if c.Advance? {
      AdvanceMark(s, c, i);
    } else {
      RequestMark(s, c);
    }
  }

  lemma RebootMark(s: Live, c: Command)
    requires Ready(s) && c.Reboot?
    ensures Step(s, c).facts.lastAbsorbed == s.facts.lastAbsorbed
  {
    hide Settled, Boot, Flushed;
    FlushedKeeps(s);
    FlushedKeepsNodes(s);
    BootAgrees(if c.clean then Flushed(s) else s, c.trusted);
  }

  lemma {:induction false} RunMark(s: Live, cs: seq<Command>, i: nat)
    requires Ready(s) && i < |s.dag| && s.dag[i].kind.RawMaterial?
    ensures IsMarked(s.dag[i].cycle, Run(s, cs).facts.lastAbsorbed) <==>
            IsMarked(s.dag[i].cycle, s.facts.lastAbsorbed) || Completed(s, cs)
    decreases |cs|
  {
    if |cs| > 0 {
      var front := cs[..|cs| - 1];
      RunMark(s, front, i);
      RunKeeps(s, front);
      RunGrows(s, front);
      assert Run(s, front).dag[i] == s.dag[i];
      StepMark(Run(s, front), cs[|cs| - 1], i);
    }
  }

  lemma FreshMaterialIsPending(s: Live, kind: string, bytes: Bytes)
    requires Ready(s) && 0 < |kind| && |bytes| <= MAX_INGESTION_BYTES
    ensures var t := Step(s, IngestRaw(false, kind, bytes));
            && Ready(t) && |t.dag| > 0 && t.dag[|t.dag| - 1].kind == RawMaterial(kind)
            && !IsMarked(t.dag[|t.dag| - 1].cycle, t.facts.lastAbsorbed)
  {
    hide Settled, Flushed;
    FlushedKeeps(s);
    IngestedKeeps(Flushed(s), kind, bytes);
  }

  /**
   Over any interleaving of intake, cycles (failed ones too), reboots and everything else:
   newly ingested material is listed by no absorption event until a cycle completes, and by
   exactly one, once, from then on.
   */
  lemma AbsorbedExactlyOnce(s: Live, kind: string, bytes: Bytes, cs: seq<Command>)
    requires Ready(s) && 0 < |kind| && |bytes| <= MAX_INGESTION_BYTES
    ensures var t := Step(s, IngestRaw(false, kind, bytes));
            && |t.dag| > 0 && t.dag[|t.dag| - 1].kind == RawMaterial(kind)
            && Listings(Run(t, cs).dag, HashOf(t.dag[|t.dag| - 1])) == (if Completed(t, cs) then 1 else 0)
  {
    FreshMaterialIsPending(s, kind, bytes);
    var t := Step(s, IngestRaw(false, kind, bytes));
    var i := |t.dag| - 1;
    RunMark(t, cs, i);
    RunKeeps(t, cs);
    RunGrows(t, cs);
    assert Run(t, cs).dag[i] == t.dag[i];
    assert IsAccounted(Run(t, cs), t.dag[i]);
  }

  // -------------------------------------------------------------------------
  // Migrations are bracketed
  // -------------------------------------------------------------------------

  predicate IsTerminal(kind: NodeType) {
    kind.MigrationCommitted? || kind.MigrationRolledBack?
  }

  /** Node k is a terminal event that closes an open migration, not the rollback of a failed build. */
  predicate Closes(log: Log, k: nat) {
    k < |log| && IsTerminal(log[k].kind) && OpenOf(log[..k]).Some?
  }

  /** How many of the nodes from a up to b close a migration. */
  function Closings(log: Log, a: nat, b: nat): nat
    requires a <= b <= |log|
  {
    if a == b then 0 else Closings(log, a, b - 1) + if Closes(log, b - 1) then 1 else 0
  }

  lemma {:induction false} BracketedAt(log: Log, k: nat)
    requires Bracketed(log) && k < |log|
    ensures BracketStep(OpenOf(log[..k]), log[k])
    decreases |log|
  {
    if k < |log| - 1 {
      BracketedAt(log[..|log| - 1], k);
      assert log[..|log| - 1][..k] == log[..k];
    }
  }

  /** After a start, with no other start in between, at most one event closes it, and it is open until that one. */
  lemma {:induction false} ClosedAtMostOnce(log: Log, i: nat, m: nat)
    requires Bracketed(log) && i < m <= |log| && log[i].kind.MigrationStarted?
    requires forall k :: i < k < m ==> !log[k].kind.MigrationStarted?
    ensures Closings(log, i + 1, m) <= 1
    ensures OpenOf(log[..m]) == if Closings(log, i + 1, m) == 0 then Some(log[i].kind.op) else None
    decreases m
  {
    assert log[..m][..m - 1] == log[..m - 1];
    if i + 1 < m {
      ClosedAtMostOnce(log, i, m - 1);
    }
  }

  /** The terminal event k after the start i: it closes it under the same name,
      or rolls back a build with nothing open. */
  ghost predicate EndsOrFails(log: Log, i: nat, k: nat)
    requires i < |log| && k < |log| && log[i].kind.MigrationStarted?
  {
    if Closes(log, k) then log[k].kind == MigrationCommitted(log[i].kind.op) ||
        log[k].kind == MigrationRolledBack(log[i].kind.op)
    else log[k].kind.MigrationRolledBack? && OpenOf(log[..k]) == None
  }

  lemma TerminalAfterStart(log: Log, i: nat, k: nat)
    requires Bracketed(log) && i < k < |log| && log[i].kind.MigrationStarted? && IsTerminal(log[k].kind)
    requires forall m :: i < m < k ==> !log[m].kind.MigrationStarted?
    ensures EndsOrFails(log, i, k)
  {
    ClosedAtMostOnce(log, i, k);
    BracketedAt(log, k);
  }

  /**
   Never two candidates open: between two starts exactly one event closes the first, it names
   the same operation, and every other terminal event there is a failed build's rollback with
   nothing open.
   */
  lemma StartsAreSeparated(log: Log, i: nat, j: nat)
    requires Bracketed(log) && i < j < |log| && log[i].kind.MigrationStarted? && log[j].kind.MigrationStarted?
    requires forall k :: i < k < j ==> !log[k].kind.MigrationStarted?
    ensures Closings(log, i + 1, j) == 1
    ensures forall k: nat :: i < k < j && IsTerminal(log[k].kind) ==> EndsOrFails(log, i, k)
  {
    ClosedAtMostOnce(log, i, j);
    BracketedAt(log, j);
    forall k: nat | i < k < j && IsTerminal(log[k].kind)
      ensures EndsOrFails(log, i, k)
    {
      TerminalAfterStart(log, i, k);
    }
  }

  /** In a run: the log is bracketed, and the last start is unclosed exactly while the live candidate exists. */
  lemma RunsAreBracketed(s: Live, i: nat)
    requires Reachable(s) && i < |s.dag| && s.dag[i].kind.MigrationStarted?
    requires forall k :: i < k < |s.dag| ==> !s.dag[k].kind.MigrationStarted?
    ensures Bracketed(s.dag)
    ensures Closings(s.dag, i + 1, |s.dag|) == (if s.facts.migration.Some? then 0 else 1)
    ensures s.facts.migration.Some? ==> s.facts.migration.value.op == s.dag[i].kind.op
  {
    ReachableIsReady(s);
    OpenIsCandidate(s);
    ClosedAtMostOnce(s.dag, i, |s.dag|);
    assert s.dag[..|s.dag|] == s.dag;
  }

  /** Every migration is decided inside its window, so C66 never has one to roll back. */
  lemma NoMigrationOutlivesItsWindow(s: Live)
    requires Reachable(s) && s.facts.migration.Some?
    ensures Elapsed(s.facts.migration.value, s.facts.cycleCounter) < s.facts.migration.value.window
    ensures !WindowExceeded(s.facts.migration.value, s.facts.cycleCounter)
  {
    ReachableIsReady(s);
  }

  // -------------------------------------------------------------------------
  // Where the expected statements stop
  // -------------------------------------------------------------------------

  lemma RunSnoc(s: Live, cs: seq<Command>, c: Command)
    ensures Run(s, cs + [c]) == Step(Run(s, cs), c)
  {
    assert (cs + [c])[..|cs|] == cs;
  }

  function Plain(kind: string, migrationMode: bool, built: bool, op: string): Command {
    SubmitMutation(Mutation(kind, true, migrationMode, built, op, [], 0, [], [], []))
  }

  /** What one plain submission appends, with nothing pending. */
  lemma PlainOpens(s: Live, op: string)
    requires s.pendingNoop == 0 && s.facts.migration.None?
    ensures var t := Step(s, Plain("", true, true, op));
            && s.dag <= t.dag && |t.dag| == |s.dag| + 1 && t.dag[|s.dag|].kind == MigrationStarted(op)
            && t.pendingNoop == 0 && OpOf(t.facts.migration) == Some(op)
  {
  }

  lemma PlainAborts(s: Live, op: string)
    requires s.pendingNoop == 0 && OpOf(s.facts.migration) == Some(op)
    ensures var t := Step(s, Plain(ABORT_MIGRATION, false, false, ""));
            && s.dag <= t.dag && |t.dag| == |s.dag| + 2 && t.dag[|s.dag|].kind == MigrationRolledBack(op)
            && t.dag[|s.dag| + 1].kind == EvolutionFailed(op) && t.pendingNoop == 0 && t.facts.migration.None?
  {
    assert Step(s, Plain(ABORT_MIGRATION, false, false, "")) == Closed(s, op, false, [], []);
  }

  lemma PlainFails(s: Live, op: string)
    requires s.pendingNoop == 0 && s.facts.migration.None?
    ensures var t := Step(s, Plain("", true, false, op));
            && s.dag <= t.dag && |t.dag| == |s.dag| + 2 && t.dag[|s.dag|].kind == MigrationRolledBack(op)
            && t.dag[|s.dag| + 1].kind == EvolutionFailed(op) && t.pendingNoop == 0 && t.facts.migration.None?
  {
  }

  lemma RunsFour(s: Live, c1: Command, c2: Command, c3: Command, c4: Command)
    ensures Run(s, [c1] + [c2] + [c3] + [c4]) == Step(Step(Step(Step(s, c1), c2), c3), c4)
  {
    assert Run(s, []) == s;
    assert [] + [c1] == [c1];
    RunSnoc(s, [], c1);
    RunSnoc(s, [c1], c2);
    RunSnoc(s, [c1] + [c2], c3);
    RunSnoc(s, [c1] + [c2] + [c3], c4);
  }

  /** A build that starts, is aborted, a build that fails, and another that starts. */
  function AbortThenFail(): seq<Command> {
    [Plain("", true, true, "a")] + [Plain(ABORT_MIGRATION, false, false, "")] + [Plain("", true, false, "b")] +
        [Plain("", true, true, "c")]
  }

  lemma AbortedThenFailed(s: Live)
    requires s.pendingNoop == 0 && s.facts.migration.None?
    ensures var t := Step(Step(Step(s, Plain("", true, true, "a")), Plain(ABORT_MIGRATION, false, false, "")),
      Plain("", true, false, "b"));
            && s.dag <= t.dag && |t.dag| == |s.dag| + 5 && t.pendingNoop == 0 && t.facts.migration.None?
            && t.dag[|s.dag|].kind == MigrationStarted("a") && t.dag[|s.dag| + 1].kind == MigrationRolledBack("a")
            && t.dag[|s.dag| + 2].kind == EvolutionFailed("a") && t.dag[|s.dag| + 3].kind == MigrationRolledBack("b")
            && t.dag[|s.dag| + 4].kind == EvolutionFailed("b")
  {
    PlainOpens(s, "a");
    var s1 := Step(s, Plain("", true, true, "a"));
    PlainAborts(s1, "a");
    PlainFails(Step(s1, Plain(ABORT_MIGRATION, false, false, "")), "b");
  }

  /** The log from position b on: two starts, two rollbacks between them. */
  predicate HasTwoTerminals(log: Log, b: nat) {
    && |log| == b + 6 && log[b].kind == MigrationStarted("a") && log[b + 5].kind == MigrationStarted("c")
    && log[b + 1].kind == MigrationRolledBack("a") && log[b + 3].kind == MigrationRolledBack("b")
    && log[b + 2].kind == EvolutionFailed("a") && log[b + 4].kind == EvolutionFailed("b")
  }

  lemma AbortThenFailFrom(s: Live)
    requires s.pendingNoop == 0 && s.facts.migration.None?
    ensures HasTwoTerminals(Step(Step(Step(Step(s, Plain("", true, true, "a")),
      Plain(ABORT_MIGRATION, false, false, "")),
                                      Plain("", true, false, "b")), Plain("", true, true, "c")).dag, |s.dag|)
  {
    AbortedThenFailed(s);
    PlainOpens(Step(Step(Step(s, Plain("", true, true, "a")), Plain(ABORT_MIGRATION, false, false, "")),
        Plain("", true, false, "b")), "c");
  }

  /** Not "at most one terminal event between two starts": a failed build adds its own rollback. */
  lemma TwoTerminalsBetweenStarts(id: Id)
    requires !IsZero(id)
    ensures HasTwoTerminals(Run(Born(id, 0, 0), AbortThenFail()).dag, 1)
  {
    RunsFour(Born(id, 0, 0), Plain("", true, true, "a"), Plain(ABORT_MIGRATION, false, false, ""),
        Plain("", true, false, "b"),
             Plain("", true, true, "c"));
    AbortThenFailFrom(Born(id, 0, 0));
  }

  lemma NothingAfterTip(log: Log)
    requires WellFormed(log)
    ensures AfterTip(log, Tip(log)) == []
  {
    if |log| > 0 {
      AfterTipOfPrefix(log, |log|);
    }
  }

  /** A snapshot restores the identity it was saved from exactly when that is not the all-zero one. */
  lemma SnapshotKeepsIdentityIff(log: Log, f: Facts)
    requires WellFormed(log) && f.substrateId.Some?
    ensures FromSnapshot(log, Some(Encode(SnapshotFacts(f), Tip(log)))).Some?
    ensures FromSnapshot(log, Some(Encode(SnapshotFacts(f), Tip(log)))).value.substrateId == f.substrateId <==>
      !IsZero(f.substrateId.value)
  {
    SnapshotRoundTrip(SnapshotFacts(f), Tip(log));
    NothingAfterTip(log);
    assert |log| > 0 ==> HashOf(log[|log| - 1]) == Tip(log).value;
  }
}
