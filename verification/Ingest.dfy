/** Raw-material intake, plate deposits and the metabolic cycle (substrate/src/ingest.rs). */
module Ingest {
  import opened Prelude
  import opened Dag
  import opened Derived
  import opened PruneRules
  import opened PruneScan
  import opened Server

  const P02_REFUSAL_SUSTAINED_CYCLES: nat := 3
  const MAX_INGESTION_BYTES: nat := 512 * 1024
  const PRUNE_SCAN_DEEP_CYCLE_INTERVAL: nat := 100
  const MORTALITY_SIGNAL: string := "mortality_signal_threshold_crossed"

  datatype Refusal = UnderExhaustion | BadRequest | UnknownSource | UnknownPlate

  predicate ShouldRunPruneScan(cycle: nat) {
    cycle > 0 && cycle % PRUNE_SCAN_DEEP_CYCLE_INTERVAL == 0
  }

  // -------------------------------------------------------------------------
  // Other events
  // -------------------------------------------------------------------------

  /** Types that nothing in the log's account depends on. */
  predicate IsPlainKind(kind: NodeType) {
    !IsStateBearing(kind) && !kind.RawMaterial? && !kind.InternalMortality? && !kind.ForgedUnderstanding?
  }

  /** Types whose nodes the model writes only where the source does are left out; anything else is a note. */
  predicate IsNoteKind(kind: NodeType) {
    IsPlainKind(kind) && !kind.MigrationCycleValidated?
  }

  datatype RawNote = RawNote(kind: NodeType, content: Content)

  /** An event that records something without being read back: immune, perturbation, observatory, and so on. */
  type Note = n: RawNote | IsNoteKind(n.kind) witness RawNote(Other(""), Opaque([]))

  ghost function EmitNotes(s: Live, notes: seq<Note>): Live
    decreases |notes|
  {
    if |notes| == 0 then s
    else
      var before := EmitNotes(s, notes[..|notes| - 1]);
      Emit(before, notes[|notes| - 1].kind, notes[|notes| - 1].content)
  }

  lemma {:induction false} NotesKeepFacts(s: Live, notes: seq<Note>)
    ensures EmitNotes(s, notes) == s.(dag := EmitNotes(s, notes).dag, cultivation := EmitNotes(s, notes).cultivation)
    decreases |notes|
  {
    if |notes| > 0 {
      NotesKeepFacts(s, notes[..|notes| - 1]);
    }
  }

  lemma {:induction false} NotesGrow(s: Live, notes: seq<Note>)
    ensures s.dag <= EmitNotes(s, notes).dag
    decreases |notes|
  {
    if |notes| > 0 {
      NotesGrow(s, notes[..|notes| - 1]);
    }
  }

  method RecordNotes(state: ServerState, notes: seq<Note>)
    requires WellFormed(state.dag)
    modifies state`dag, state`cultivation
    ensures WellFormed(state.dag) && state.View() == EmitNotes(old(state.View()), notes) && old(state.dag) <= state.dag
  {
    for i := 0 to |notes|
      invariant WellFormed(state.dag) && old(state.dag) <= state.dag
      invariant state.View() == EmitNotes(old(state.View()), notes[..i])
    {
      assert notes[..i + 1][..i] == notes[..i];
      state.EmitSubstrateEvent(notes[i].kind, notes[i].content);
    }
    assert notes[..|notes|] == notes;
  }

  // -------------------------------------------------------------------------
  // Intake
  // -------------------------------------------------------------------------

  /** Refused only under sustained exhaustion: a non-normal stage for at least three cycles. */
  predicate RefusesIntake(state: ServerState)
    reads state
  {
    state.saturationStage != SaturationStage.Normal && state.exhaustedCycles >= P02_REFUSAL_SUSTAINED_CYCLES
  }

  function Ingested(s: Live, kind: string, bytes: Bytes): Live {
    s.(dag := Append(s.dag, [], RawMaterial(kind), s.facts.cycleCounter, Opaque(bytes)))
  }

  method HandleIngestRawMaterial(state: ServerState, kind: string, bytes: Bytes) returns (r: Result<Hash, Refusal>)
    requires WellFormed(state.dag)
    modifies state`dag
    ensures WellFormed(state.dag) && old(state.dag) <= state.dag
    ensures r.Err? ==> state.View() == old(state.View())
    ensures r.Ok? ==> state.View() == Ingested(old(state.View()), kind, bytes) && Tip(state.dag) == Some(r.value)
    ensures r.Ok? <==> !RefusesIntake(state) && |kind| > 0 && |bytes| <= MAX_INGESTION_BYTES
    ensures r.Err? ==> r.error == if RefusesIntake(state) then UnderExhaustion else BadRequest
  {
    if RefusesIntake(state) { return Err(UnderExhaustion); }
    if |kind| == 0 || |bytes| > MAX_INGESTION_BYTES { return Err(BadRequest); }
    state.InsertAtTip([], RawMaterial(kind), state.cycleCounter, Opaque(bytes));
    r := Ok(Tip(state.dag).value);
  }

  // -------------------------------------------------------------------------
  // Plates
  // -------------------------------------------------------------------------

  datatype Deposit = Deposit(name: string, text: Bytes, sources: seq<Hash>, worth: Option<nat>,
                             confidence: Option<nat>, supersedes: seq<Hash>)

  predicate IsNodeOf(log: Log, h: Hash, plate: bool) {
    var n := Lookup(log, h);
    n.Some? && (if plate then n.value.kind.ForgedUnderstanding? else n.value.kind.RawMaterial?)
  }

  /** Every request the source accepts: sources are raw material, superseded hashes are plates already in the log. */
  predicate AcceptsDeposit(log: Log, d: Deposit) {
    && |d.name| > 0 && |d.text| <= MAX_INGESTION_BYTES
    && (forall h :: h in d.sources ==> IsNodeOf(log, h, false))
    && (d.worth.Some? ==> d.worth.value <= 100) && (d.confidence.Some? ==> d.confidence.value <= 100)
    && (forall h :: h in d.supersedes ==> IsNodeOf(log, h, true))
  }

  /** Fields a request leaves out are left out of the plate. */
  function PlateOf(d: Deposit): Content {
    PlateBody(d.text, d.worth, d.confidence, if |d.supersedes| > 0 then Some(d.supersedes) else None)
  }

  function Deposited(s: Live, d: Deposit): Live {
    s.(dag := Append(s.dag, d.sources, ForgedUnderstanding(d.name), s.facts.cycleCounter, PlateOf(d)))
  }

  method CheckNodes(log: Log, hashes: seq<Hash>, plate: bool) returns (ok: bool)
    ensures ok <==> forall h :: h in hashes ==> IsNodeOf(log, h, plate)
  {
    for i := 0 to |hashes|
      invariant forall k :: 0 <= k < i ==> IsNodeOf(log, hashes[k], plate)
    {
      if !IsNodeOf(log, hashes[i], plate) { return false; }
    }
    ok := true;
  }

  method HandleDepositForgedUnderstanding(state: ServerState, d: Deposit) returns (r: Result<Hash, Refusal>)
    requires WellFormed(state.dag)
    modifies state`dag
    ensures WellFormed(state.dag) && old(state.dag) <= state.dag
    ensures r.Ok? <==> AcceptsDeposit(old(state.dag), d)
    ensures r == Err(UnknownSource) <==>
            && |d.name| > 0 && |d.text| <= MAX_INGESTION_BYTES
            && exists h :: h in d.sources && !IsNodeOf(old(state.dag), h, false)
    ensures r == Err(UnknownPlate) <==>
            && |d.name| > 0 && |d.text| <= MAX_INGESTION_BYTES
            && (forall h :: h in d.sources ==> IsNodeOf(old(state.dag), h, false))
            && (d.worth.Some? ==> d.worth.value <= 100) && (d.confidence.Some? ==> d.confidence.value <= 100)
            && exists h :: h in d.supersedes && !IsNodeOf(old(state.dag), h, true)
    ensures r.Err? ==> r.error != UnderExhaustion
    ensures r.Ok? ==> state.View() == Deposited(old(state.View()), d) && Tip(state.dag) == Some(r.value)
    ensures r.Err? ==> state.View() == old(state.View())
  {
    if |d.name| == 0 || |d.text| > MAX_INGESTION_BYTES { return Err(BadRequest); }
    var sourcesOk := CheckNodes(state.dag, d.sources, false);
    if !sourcesOk { return Err(UnknownSource); }
    if d.worth.Some? && d.worth.value > 100 { return Err(BadRequest); }
    if d.confidence.Some? && d.confidence.value > 100 { return Err(BadRequest); }
    var platesOk := CheckNodes(state.dag, d.supersedes, true);
    if !platesOk { return Err(UnknownPlate); }
    forall h | h in d.sources
      ensures Has(state.dag, h)
    {
      var n := Lookup(state.dag, h).value;
      var i :| 0 <= i < |state.dag| && state.dag[i] == n;
      assert HashOf(state.dag[i]) == h;
    }
    state.InsertAtTip(d.sources, ForgedUnderstanding(d.name), state.cycleCounter, PlateOf(d));
    r := Ok(Tip(state.dag).value);
  }

  // -------------------------------------------------------------------------
  // The metabolic cycle
  // -------------------------------------------------------------------------

  datatype SporocarpReport = SporocarpReport(kind: string, axis: string, atCycle: nat, body: Bytes, proposal: Bytes)

  function InsertSporocarp(log: Log, sp: SporocarpReport): Log {
    var fruited := Append(log, [], Sporocarp(sp.kind), sp.atCycle, Opaque(sp.body));
    if sp.kind == MORTALITY_SIGNAL
    then Append(fruited, [], SelfEuthanasiaProposal(sp.axis), sp.atCycle, Opaque(sp.proposal))
    else fruited
  }

  function InsertSporocarps(log: Log, sps: seq<SporocarpReport>): Log
    decreases |sps|
  {
    if |sps| == 0 then log
    else InsertSporocarp(InsertSporocarps(log, sps[..|sps| - 1]), sps[|sps| - 1])
  }

  predicate IsPending(n: Node, lastAbsorbed: Option<nat>) {
    n.kind.RawMaterial? && (lastAbsorbed.None? || n.cycle > lastAbsorbed.value)
  }

  /** Raw material created after the absorbed mark, in insertion order. */
  function PendingAbsorption(log: Log, lastAbsorbed: Option<nat>): seq<Hash> {
    if |log| == 0 then []
    else
      var rest := PendingAbsorption(log[..|log| - 1], lastAbsorbed);
      if IsPending(log[|log| - 1], lastAbsorbed) then rest + [HashOf(log[|log| - 1])] else rest
  }

  lemma {:induction false} PendingIsExact(log: Log, last: Option<nat>, h: Hash)
    ensures h in PendingAbsorption(log, last) <==>
      exists i :: 0 <= i < |log| && HashOf(log[i]) == h && IsPending(log[i], last)
  {
    if |log| > 0 {
      var n := |log| - 1;
      PendingIsExact(log[..n], last, h);
      if exists i :: 0 <= i < |log| && HashOf(log[i]) == h && IsPending(log[i], last) {
        var i :| 0 <= i < |log| && HashOf(log[i]) == h && IsPending(log[i], last);
        if i < n {
          assert HashOf(log[..n][i]) == h && IsPending(log[..n][i], last);
        }
      }
      if h in PendingAbsorption(log[..n], last) {
        var i :| 0 <= i < n && HashOf(log[..n][i]) == h && IsPending(log[..n][i], last);
        assert HashOf(log[i]) == h && IsPending(log[i], last);
      } else if h in PendingAbsorption(log, last) {
        assert HashOf(log[n]) == h && IsPending(log[n], last);
      }
    }
  }

  /** What absorbing `pending` at `post` does: one event listing it, and the mark moved to the newest of it. */
  function Absorbed(s: Live, pending: seq<Hash>, post: nat): Live {
    if |pending| == 0 then s
    else
      var newest := match MaxCreatedAt(pending, s.dag) case Some(c) => c case None => 0;
      s.(dag := Append(s.dag, pending, AbsorptionEvent(post), post, AbsorptionBody(Some(post), Some(pending))),
         facts := s.facts.(lastAbsorbed := Some(newest)))
  }

  ghost function Pruned(s: Live, post: nat): Live {
    if ShouldRunPruneScan(post) then s.(dag := Scan(s.dag, post)) else s
  }

  /** handle_advance once the cycle engine has committed. */
  ghost function Advanced(s: Live, sps: seq<SporocarpReport>): Live {
    var pending := PendingAbsorption(s.dag, s.facts.lastAbsorbed);
    var post := s.facts.cycleCounter + 1;
    Pruned(Absorbed(s.(dag := InsertSporocarps(s.dag, sps)), pending, post), post)
  }

  method RecordSporocarps(state: ServerState, sps: seq<SporocarpReport>)
    requires WellFormed(state.dag)
    modifies state`dag
    ensures WellFormed(state.dag) && state.dag == InsertSporocarps(old(state.dag), sps)
    ensures old(state.dag) <= state.dag
  {
    for i := 0 to |sps|
      invariant WellFormed(state.dag) && state.dag == InsertSporocarps(old(state.dag), sps[..i])
      invariant old(state.dag) <= state.dag
    {
      assert sps[..i + 1][..i] == sps[..i];
      var sp := sps[i];
      state.InsertAtTip([], Sporocarp(sp.kind), sp.atCycle, Opaque(sp.body));
      if sp.kind == MORTALITY_SIGNAL {
        state.InsertAtTip([], SelfEuthanasiaProposal(sp.axis), sp.atCycle, Opaque(sp.proposal));
      }
    }
    assert sps[..|sps|] == sps;
  }

  /** The pending list is taken before the cycle runs; the log only grows until it is absorbed. */
  method CollectPending(log: Log, lastAbsorbed: Option<nat>) returns (pending: seq<Hash>)
    ensures pending == PendingAbsorption(log, lastAbsorbed)
  {
    pending := [];
    for i := 0 to |log|
      invariant pending == PendingAbsorption(log[..i], lastAbsorbed)
    {
      assert log[..i + 1][..i] == log[..i];
      if log[i].kind.RawMaterial? && (lastAbsorbed.None? || log[i].cycle > lastAbsorbed.value) {
        pending := pending + [HashOf(log[i])];
      }
    }
    assert log[..|log|] == log;
  }

  method AbsorbPending(state: ServerState, pending: seq<Hash>, post: nat)
    requires WellFormed(state.dag) && forall h :: h in pending ==> Has(state.dag, h)
    modifies state`dag, state`lastAbsorbed
    ensures WellFormed(state.dag) && state.View() == Absorbed(old(state.View()), pending, post)
    ensures old(state.dag) <= state.dag
  {
    if |pending| > 0 {
      var newest := MaxCreatedAt(pending, state.dag);
      state.InsertAtTip(pending, AbsorptionEvent(post), post, AbsorptionBody(Some(post), Some(pending)));
      state.lastAbsorbed := Some(match newest case Some(c) => c case None => 0);
    }
  }

  method PruneIfDue(state: ServerState, post: nat)
    requires WellFormed(state.dag)
    modifies state`dag
    ensures WellFormed(state.dag) && state.View() == Pruned(old(state.View()), post) && old(state.dag) <= state.dag
  {
    if ShouldRunPruneScan(post) {
      StageAppends(state.dag, post, 0, |REGISTRY|);
      var report := RunPruneScan(state, post);
    }
  }

  datatype CycleOutcome = Failed | Committed(sporocarps: seq<SporocarpReport>)

  /** The three things a committed cycle writes before any note. */
  method Metabolize(state: ServerState, sps: seq<SporocarpReport>, pending: seq<Hash>)
    requires WellFormed(state.dag) && pending == PendingAbsorption(state.dag, state.lastAbsorbed)
    modifies state`dag, state`lastAbsorbed
    ensures WellFormed(state.dag) && state.View() == Advanced(old(state.View()), sps) && old(state.dag) <= state.dag
  {
    hide InsertSporocarps, PendingAbsorption, Has, Absorbed, Pruned;
    ghost var start := state.dag;
    var post := state.cycleCounter + 1;
    RecordSporocarps(state, sps);
    forall h | h in pending
      ensures Has(state.dag, h)
    {
      PendingIsExact(start, state.lastAbsorbed, h);
      PrefixHas(start, state.dag, h);
    }
    AbsorbPending(state, pending, post);
    PruneIfDue(state, post);
  }

  method HandleAdvance(state: ServerState, outcome: CycleOutcome, notes: seq<Note>) returns (ok: bool)
    requires WellFormed(state.dag)
    modifies state`dag, state`lastAbsorbed, state`cultivation
    ensures WellFormed(state.dag) && old(state.dag) <= state.dag
    ensures ok <==> outcome.Committed?
    ensures outcome.Failed? ==> state.View() == EmitNotes(old(state.View()), notes)
    ensures outcome.Committed? ==> state.View() == EmitNotes(Advanced(old(state.View()), outcome.sporocarps), notes)
  {
    hide Advanced, PendingAbsorption, EmitNotes, WellFormed;
    var pending := CollectPending(state.dag, state.lastAbsorbed);
    if outcome.Committed? {
      Metabolize(state, outcome.sporocarps, pending);
    }
    RecordNotes(state, notes);
    ok := outcome.Committed?;
  }
}
