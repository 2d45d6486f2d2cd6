/**
 Spawn discipline (substrate/src/reproduction.rs): the attestation and rate gates, the depth and
 quota guards, and what they bound over whole runs and whole lineages.
 */
module Reproduction {
  import opened Prelude
  import opened Dag
  import opened Derived
  import Cultivation
  import opened Server
  import opened Ingest
  import opened Runs

  const I64_MAX: int := 0x7FFF_FFFF_FFFF_FFFF

  /** The depth cap, the lifetime quota and the minimum interval between spawns in nanoseconds. */
  datatype Limits = Limits(depthMax: nat, quota: nat, interval: int)

  /** Events other than spawns. */
  type Bystander = n: RawNote | IsNoteKind(n.kind) && !n.kind.SporeEmission? && !n.kind.GenesisAttested?
    witness RawNote(Other(""), Opaque([]))

  /**
   A request: `wellFormed` says both payload fields are there and the envelope decodes, `schemaOk`
   that the schema hashes to what was co-signed and has the right shape, `occupied` that the target
   directory already holds a substrate. `seeds` are the events after the child's genesis.
   */
  datatype Request = Request(wellFormed: bool, parentId: Id, schemaOk: bool, anchorTs: int, depthOverride: bool,
                             occupied: bool, childId: Id, childTime: int, seeds: seq<Bystander>)

  datatype Refusal = Unattested | TooSoon | TooDeep | QuotaSpent | Occupied

  // -------------------------------------------------------------------------
  // What the log says of earlier spawns
  // -------------------------------------------------------------------------

  predicate IsAttested(n: Node) {
    n.kind.GenesisAttested? && n.content.SpawnBody? && n.content.anchorTs.Some?
  }

  /** The anchor timestamps of the attested spawns, in insertion order. */
  function SpawnTimes(log: Log): seq<int> {
    if |log| == 0 then []
    else
      var n, front := log[|log| - 1], SpawnTimes(log[..|log| - 1]);
      if IsAttested(n) then front + [n.content.anchorTs.value] else front
  }

  function SporeCount(log: Log): nat {
    if |log| == 0 then 0 else SporeCount(log[..|log| - 1]) + if log[|log| - 1].kind.SporeEmission? then 1 else 0
  }

  predicate IsGreatest(times: seq<int>, t: int) {
    t in times && forall k :: 0 <= k < |times| ==> times[k] <= t
  }

  method LastSpawnTime(log: Log) returns (last: Option<int>)
    ensures last.Some? <==> |SpawnTimes(log)| > 0
    ensures last.Some? ==> IsGreatest(SpawnTimes(log), last.value)
  {
    last := None;
    for i := 0 to |log|
      invariant last.Some? <==> |SpawnTimes(log[..i])| > 0
      invariant last.Some? ==> IsGreatest(SpawnTimes(log[..i]), last.value)
    {
      assert log[..i + 1][..i] == log[..i];
      var n := log[i];
      if IsAttested(n) {
        last := Some(if last.Some? && last.value > n.content.anchorTs.value then last.value
            else n.content.anchorTs.value);
      }
    }
    assert log[..|log|] == log;
  }

  method CountSpores(log: Log) returns (count: nat)
    ensures count == SporeCount(log)
  {
    count := 0;
    for i := 0 to |log|
      invariant count == SporeCount(log[..i])
    {
      assert log[..i + 1][..i] == log[..i];
      if log[i].kind.SporeEmission? {
        count := count + 1;
      }
    }
    assert log[..|log|] == log;
  }

  // -------------------------------------------------------------------------
  // The gates
  // -------------------------------------------------------------------------

  /** The stamp is strictly later than every earlier spawn's. */
  predicate MovesForward(times: seq<int>, t: int) {
    forall k :: 0 <= k < |times| ==> times[k] < t
  }

  /** And by at least the interval. */
  predicate KeepsInterval(times: seq<int>, t: int, interval: int) {
    forall k :: 0 <= k < |times| ==> t - times[k] >= interval
  }

  predicate IsDeep(limits: Limits, depth: nat) {
    depth + 1 > limits.depthMax
  }

  /** Why a request is refused, in the order the gates run; Ok if it is not. */
  function Verdict(limits: Limits, s: Live, r: Request): Result<(), Refusal> {
    var times := SpawnTimes(s.dag);
    if !r.wellFormed || Some(r.parentId) != s.facts.substrateId || !r.schemaOk || !MovesForward(times, r.anchorTs) then
        Err(Unattested)
    else if !KeepsInterval(times, r.anchorTs, limits.interval) then Err(TooSoon)
    else if IsDeep(limits, s.facts.generationDepth) && !r.depthOverride then Err(TooDeep)
    else if SporeCount(s.dag) + 1 > limits.quota then Err(QuotaSpent)
    else if r.occupied then Err(Occupied)
    else Ok(())
  }

  /** i64::saturating_sub of a later stamp and an earlier one. */
  function SatGap(later: int, earlier: int): int {
    if later - earlier > I64_MAX then I64_MAX else later - earlier
  }

  method VerifySpawnCoAttestation(state: ServerState, limits: Limits, r: Request) returns (refusal: Option<Refusal>)
    requires limits.interval <= I64_MAX
    ensures refusal == match Verdict(limits, state.View(), r)
                       case Err(Unattested) => Some(Unattested)
                       case Err(TooSoon) => Some(TooSoon)
                       case _ => None
  {
    if !r.wellFormed { return Some(Unattested); }
    if Some(r.parentId) != state.substrateId { return Some(Unattested); }
    if !r.schemaOk { return Some(Unattested); }
    var last := LastSpawnTime(state.dag);
    refusal := None;
    if last.Some? {
      if r.anchorTs <= last.value {
        refusal := Some(Unattested);
      } else if SatGap(r.anchorTs, last.value) < limits.interval {
        refusal := Some(TooSoon);
      }
    }
  }

  // -------------------------------------------------------------------------
  // Sprouting
  // -------------------------------------------------------------------------

  const C68: Note := RawNote(Immune("C68_reproduction_unattested_spawn"), Opaque([]))
  const C48: Note := RawNote(Immune("C48_reproduction_lifetime_quota_exceeded"), Opaque([]))
  const C47: Note := RawNote(Immune("C47_generation_depth_exceeded"), Opaque([]))
  const OVERRIDE: Note := RawNote(Other("depth_override_exercised"), Opaque([]))

  function Detector(refusal: Refusal): seq<Note> {
    match refusal
    case Unattested => [C68]
    case TooSoon => [C48]
    case TooDeep => [C47]
    case QuotaSpent => [C48]
    case Occupied => []
  }

  /** The audit event of an exercised override; it stays even if a later guard refuses. */
  function OverrideNotes(limits: Limits, s: Live, r: Request): seq<Note> {
    var v := Verdict(limits, s, r);
    if IsDeep(limits, s.facts.generationDepth) && (v.Ok? || v.error == QuotaSpent || v.error == Occupied)
    then [OVERRIDE] else []
  }

  const SPORE: Note := RawNote(SporeEmission("child"), Opaque([]))

  function Attestation(r: Request): Note {
    RawNote(GenesisAttested("child"), SpawnBody(Some(r.anchorTs)))
  }

  /** Everything one request makes the parent write. */
  function SproutNotes(limits: Limits, s: Live, r: Request): seq<Note> {
    OverrideNotes(limits, s, r) +
    match Verdict(limits, s, r)
    case Ok(_) => [SPORE, Attestation(r)]
    case Err(refusal) => Detector(refusal)
  }

  ghost function Sprouted(limits: Limits, s: Live, r: Request): Live {
    EmitNotes(s, SproutNotes(limits, s, r))
  }

  /** The child: its own genesis, one generation deeper, and its seeds. */
  ghost function ChildOf(s: Live, r: Request): Live {
    EmitNotes(Born(r.childId, r.childTime, s.facts.generationDepth + 1), r.seeds)
  }

  lemma EmitNotesSnoc(s: Live, notes: seq<Note>, n: Note)
    ensures EmitNotes(s, notes + [n]) == Emit(EmitNotes(s, notes), n.kind, n.content)
  {
    assert (notes + [n])[..|notes|] == notes;
  }

  method BuildChild(state: ServerState, r: Request) returns (child: ServerState)
    ensures fresh(child) && WellFormed(child.dag) && child.View() == ChildOf(state.View(), r)
  {
    var depth := state.generationDepth + 1;
    var content := GenesisBody(Some(r.childId), Some(r.childTime), if depth > 0 then Some(depth) else None);
    var facts := EMPTY_FACTS
        .(substrateId := Some(r.childId), genesisTime := Some(r.childTime), generationDepth := depth);
    child := new ServerState(Live([Node([], GenesisEvent("genesis"), 0, content)], facts,
        Cultivation.CultivationState.Normal, 0, None),
                             state.budgets);
    RecordNotes(child, r.seeds);
  }

  /** Past the attestation and depth gates: the quota, the target directory, the child. */
  method CompleteSprout(state: ServerState, limits: Limits, r: Request, notes: seq<Note>)
      returns (child: Result<ServerState, Refusal>)
    requires WellFormed(state.dag) && notes == OverrideNotes(limits, state.View(), r)
    requires Verdict(limits, state.View(), r).Ok? || Verdict(limits, state.View(), r).error in {QuotaSpent, Occupied}
    modifies state`dag, state`cultivation
    ensures WellFormed(state.dag) && state.View() == Sprouted(limits, old(state.View()), r)
    ensures child.Err? ==> Verdict(limits, old(state.View()), r) == Err(child.error)
    ensures child.Ok? ==> Verdict(limits, old(state.View()), r).Ok? && fresh(child.value)
    ensures child.Ok? ==> child.value.View() == ChildOf(old(state.View()), r)
  {
    var spawned := CountSpores(state.dag);
    if spawned + 1 > limits.quota {
      RecordNotes(state, notes + Detector(QuotaSpent));
      return Err(QuotaSpent);
    }
    if r.occupied {
      RecordNotes(state, notes + Detector(Occupied));
      return Err(Occupied);
    }
    var born := BuildChild(state, r);
    RecordNotes(state, notes + [SPORE, Attestation(r)]);
    child := Ok(born);
  }

  /** The gates, the guards, then the child; a refusal has no side effect but its alarm. */
  method HandleSproutChild(state: ServerState, limits: Limits, r: Request) returns (child: Result<ServerState, Refusal>)
    requires WellFormed(state.dag) && limits.interval <= I64_MAX
    modifies state`dag, state`cultivation
    ensures WellFormed(state.dag) && state.View() == Sprouted(limits, old(state.View()), r)
    ensures child.Err? ==> Verdict(limits, old(state.View()), r) == Err(child.error)
    ensures child.Ok? ==> Verdict(limits, old(state.View()), r).Ok? && fresh(child.value)
    ensures child.Ok? ==> child.value.View() == ChildOf(old(state.View()), r)
  {
    var refusal := VerifySpawnCoAttestation(state, limits, r);
    if refusal.None? && IsDeep(limits, state.generationDepth) && !r.depthOverride {
      refusal := Some(TooDeep);
    }
    if refusal.Some? {
      assert SproutNotes(limits, state.View(), r) == Detector(refusal.value);
      RecordNotes(state, Detector(refusal.value));
      return Err(refusal.value);
    }
    var notes: seq<Note> := if IsDeep(limits, state.generationDepth) then [OVERRIDE] else [];
    child := CompleteSprout(state, limits, r, notes);
  }

  // -------------------------------------------------------------------------
  // Runs of one parent
  // -------------------------------------------------------------------------

  datatype SproutStep = Attempt(request: Request) | Meanwhile(note: Bystander)

  ghost function SproutStepped(limits: Limits, s: Live, step: SproutStep): Live {
    match step
    case Attempt(r) => Sprouted(limits, s, r)
    case Meanwhile(n) => Emit(s, n.kind, n.content)
  }

  ghost function RunSprouts(limits: Limits, s: Live, steps: seq<SproutStep>): Live
    decreases |steps|
  {
    if |steps| == 0 then s else SproutStepped(limits, RunSprouts(limits, s, steps[..|steps| - 1]), steps[|steps| - 1])
  }

  predicate Succeeds(limits: Limits, s: Live, step: SproutStep) {
    step.Attempt? && Verdict(limits, s, step.request).Ok?
  }

  /** The children born along a run, oldest first. */
  ghost function Births(limits: Limits, s: Live, steps: seq<SproutStep>): seq<Live>
    decreases |steps|
  {
    if |steps| == 0 then []
    else
      var before, step := RunSprouts(limits, s, steps[..|steps| - 1]), steps[|steps| - 1];
      var earlier := Births(limits, s, steps[..|steps| - 1]);
      if Succeeds(limits, before, step) then earlier + [ChildOf(before, step.request)] else earlier
  }

  lemma SpawnTimesStep(log: Log, n: Node)
    ensures SpawnTimes(log + [n]) == if IsAttested(n) then SpawnTimes(log) + [n.content.anchorTs.value]
      else SpawnTimes(log)
    ensures SporeCount(log + [n]) == SporeCount(log) + if n.kind.SporeEmission? then 1 else 0
  {
    assert (log + [n])[..|log|] == log;
  }

  lemma EmitSpawnTimes(s: Live, n: RawNote)
    ensures SpawnTimes(Emit(s, n.kind, n.content).dag) ==
            if n.kind.GenesisAttested? && n.content.SpawnBody? && n.content.anchorTs.Some?
            then SpawnTimes(s.dag) + [n.content.anchorTs.value] else SpawnTimes(s.dag)
    ensures SporeCount(Emit(s, n.kind, n.content).dag) == SporeCount(s.dag) + if n.kind.SporeEmission? then 1 else 0
    ensures Emit(s, n.kind, n.content).facts == s.facts
  {
    SpawnTimesStep(s.dag, Node(WithTip(s.dag, []), n.kind, s.facts.cycleCounter, n.content));
  }

  lemma {:induction false} BystandersKeepSpawns(s: Live, notes: seq<Note>)
    requires forall k :: 0 <= k < |notes| ==> !notes[k].kind.SporeEmission? && !notes[k].kind.GenesisAttested?
    ensures SpawnTimes(EmitNotes(s, notes).dag) == SpawnTimes(s.dag) &&
      SporeCount(EmitNotes(s, notes).dag) == SporeCount(s.dag)
    ensures EmitNotes(s, notes).facts == s.facts
    decreases |notes|
  {
    if |notes| > 0 {
      BystandersKeepSpawns(s, notes[..|notes| - 1]);
      EmitSpawnTimes(EmitNotes(s, notes[..|notes| - 1]), notes[|notes| - 1]);
    }
  }

  lemma SpawnPair(s: Live, notes: seq<Note>, r: Request)
    requires forall k :: 0 <= k < |notes| ==> !notes[k].kind.SporeEmission? && !notes[k].kind.GenesisAttested?
    ensures var t := EmitNotes(s, notes + [SPORE, Attestation(r)]);
            SpawnTimes(t.dag) == SpawnTimes(s.dag) + [r.anchorTs] && SporeCount(t.dag) == SporeCount(s.dag) + 1 &&
                t.facts == s.facts
  {
    var mid := EmitNotes(s, notes);
    BystandersKeepSpawns(s, notes);
    EmitNotesSnoc(s, notes, SPORE);
    EmitNotesSnoc(s, notes + [SPORE], Attestation(r));
    assert notes + [SPORE] + [Attestation(r)] == notes + [SPORE, Attestation(r)];
    EmitSpawnTimes(mid, SPORE);
    EmitSpawnTimes(Emit(mid, SPORE.kind, SPORE.content), Attestation(r));
  }

  lemma RefusalWritesNoSpawn(limits: Limits, s: Live, r: Request)
    requires Verdict(limits, s, r).Err?
    ensures forall k :: 0 <= k < |SproutNotes(limits, s, r)| ==>
              !SproutNotes(limits, s, r)[k].kind.SporeEmission? && !SproutNotes(limits, s, r)[k].kind.GenesisAttested?
  {
  }

  /** A success adds one stamp and one spore; a refusal adds neither. */
  lemma SproutedSpawns(limits: Limits, s: Live, r: Request)
    ensures SpawnTimes(Sprouted(limits, s, r).dag) ==
      if Verdict(limits, s, r).Ok? then SpawnTimes(s.dag) + [r.anchorTs] else SpawnTimes(s.dag)
    ensures SporeCount(Sprouted(limits, s, r).dag) == SporeCount(s.dag) + if Verdict(limits, s, r).Ok? then 1 else 0
    ensures Sprouted(limits, s, r).facts == s.facts
  {
    if Verdict(limits, s, r).Ok? {
      SpawnPair(s, OverrideNotes(limits, s, r), r);
    } else {
      RefusalWritesNoSpawn(limits, s, r);
      BystandersKeepSpawns(s, SproutNotes(limits, s, r));
    }
  }

  /** Stamps increase strictly, consecutive ones by at least the interval. */
  ghost predicate Spaced(times: seq<int>, interval: int) {
    forall i, j :: 0 <= i < j < |times| ==> times[j] > times[i] && times[j] - times[i] >= (j - i) * interval
  }

  lemma StampKeepsSpacing(times: seq<int>, t: int, interval: int)
    requires Spaced(times, interval) && MovesForward(times, t) && KeepsInterval(times, t, interval)
    ensures Spaced(times + [t], interval)
  {
    var longer := times + [t];
    forall i, j | 0 <= i < j < |longer|
      ensures longer[j] > longer[i] && longer[j] - longer[i] >= (j - i) * interval
    {
      if j == |times| && i < j - 1 {
        assert times[j - 1] - times[i] >= (j - 1 - i) * interval;
        assert (j - i) * interval == (j - 1 - i) * interval + interval;
      } else if j == |times| {
        assert (j - i) * interval == interval;
      }
    }
  }

  /** What every run of a parent keeps. */
  ghost predicate Disciplined(limits: Limits, s: Live) {
    Spaced(SpawnTimes(s.dag), limits.interval) && SporeCount(s.dag) <= limits.quota &&
        |SpawnTimes(s.dag)| == SporeCount(s.dag)
  }

  lemma SproutStepKeeps(limits: Limits, s: Live, step: SproutStep)
    requires Disciplined(limits, s)
    ensures Disciplined(limits, SproutStepped(limits, s, step))
    ensures SproutStepped(limits, s, step).facts == s.facts
    ensures SporeCount(SproutStepped(limits, s, step).dag) ==
      SporeCount(s.dag) + if Succeeds(limits, s, step) then 1 else 0
  {
    match step
    case Attempt(r) =>
      SproutedSpawns(limits, s, r);
      if Verdict(limits, s, r).Ok? {
        StampKeepsSpacing(SpawnTimes(s.dag), r.anchorTs, limits.interval);
      }
    case Meanwhile(n) => EmitSpawnTimes(s, n);
  }

  /**
   Along any run: k spawns span at least (k - 1) intervals, their stamps increase strictly, spores
   never exceed the quota, and there is exactly one spore for every birth.
   */
  lemma {:induction false} RunsAreDisciplined(limits: Limits, s: Live, steps: seq<SproutStep>)
    requires Disciplined(limits, s)
    ensures Disciplined(limits, RunSprouts(limits, s, steps)) && RunSprouts(limits, s, steps).facts == s.facts
    ensures SporeCount(RunSprouts(limits, s, steps).dag) == SporeCount(s.dag) + |Births(limits, s, steps)|
    decreases |steps|
  {
    if |steps| > 0 {
      RunsAreDisciplined(limits, s, steps[..|steps| - 1]);
      SproutStepKeeps(limits, RunSprouts(limits, s, steps[..|steps| - 1]), steps[|steps| - 1]);
    }
  }

  // -------------------------------------------------------------------------
  // Whole lineages
  // -------------------------------------------------------------------------

  predicate WithoutOverride(steps: seq<SproutStep>) {
    forall k :: 0 <= k < |steps| && steps[k].Attempt? ==> !steps[k].request.depthOverride
  }

  /** One generation deeper, and nothing spawned yet. */
  lemma ChildIsNewborn(s: Live, r: Request)
    ensures ChildOf(s, r).facts.generationDepth == s.facts.generationDepth + 1
    ensures SporeCount(ChildOf(s, r).dag) == 0 && SpawnTimes(ChildOf(s, r).dag) == []
  {
    hide SporeCount, SpawnTimes, EmitNotes, Born;
    var born := Born(r.childId, r.childTime, s.facts.generationDepth + 1);
    BornHasNoSpawns(r.childId, r.childTime, s.facts.generationDepth + 1);
    SeedsAreBystanders(r.seeds);
    BystandersKeepSpawns(born, r.seeds);
  }

  lemma SeedsAreBystanders(seeds: seq<Bystander>)
    ensures forall k :: 0 <= k < |seeds| ==> !seeds[k].kind.SporeEmission? && !seeds[k].kind.GenesisAttested?
  {
    forall k | 0 <= k < |seeds|
      ensures !seeds[k].kind.SporeEmission? && !seeds[k].kind.GenesisAttested?
    {
      var n: Bystander := seeds[k];
    }
  }

  lemma BornHasNoSpawns(id: Id, time: int, depth: nat)
    ensures SporeCount(Born(id, time, depth).dag) == 0 && SpawnTimes(Born(id, time, depth).dag) == []
    ensures Born(id, time, depth).facts.generationDepth == depth
  {
    var log := Born(id, time, depth).dag;
    SpawnTimesStep([], log[0]);
    assert [] + [log[0]] == log;
  }

  /** Without an override every child is a newborn within the depth cap. */
  lemma {:induction false} ChildrenAreNewborn(limits: Limits, s: Live, steps: seq<SproutStep>, k: nat)
    requires Disciplined(limits, s) && k < |Births(limits, s, steps)| && WithoutOverride(steps)
    ensures Births(limits, s, steps)[k].facts.generationDepth == s.facts.generationDepth + 1 <= limits.depthMax
    ensures SporeCount(Births(limits, s, steps)[k].dag) == 0 && SpawnTimes(Births(limits, s, steps)[k].dag) == []
    decreases |steps|
  {
    var before, step := RunSprouts(limits, s, steps[..|steps| - 1]), steps[|steps| - 1];
    if k < |Births(limits, s, steps[..|steps| - 1])| {
      ChildrenAreNewborn(limits, s, steps[..|steps| - 1], k);
    } else {
      RunsAreDisciplined(limits, s, steps[..|steps| - 1]);
      ChildIsNewborn(before, step.request);
    }
  }

  /** A substrate, what happened to it, and the families of its children. */
  datatype Family = Family(start: Live, steps: seq<SproutStep>, children: seq<Family>)

  /** The children are those born along the run, each the start of a family of its own; no override anywhere. */
  ghost predicate IsFamily(limits: Limits, f: Family)
    decreases f
  {
    && WithoutOverride(f.steps)
    && |f.children| == |Births(limits, f.start, f.steps)|
    && forall k :: 0 <= k < |f.children| ==>
        f.children[k].start == Births(limits, f.start, f.steps)[k] && IsFamily(limits, f.children[k])
  }

  function Members(f: Family): nat
    decreases f
  {
    1 + AllMembers(f.children)
  }

  function AllMembers(families: seq<Family>): nat
    decreases families
  {
    if |families| == 0 then 0 else Members(families[0]) + AllMembers(families[1..])
  }

  function Power(base: nat, exponent: nat): nat {
    if exponent == 0 then 1 else base * Power(base, exponent - 1)
  }

  /** The sum of the powers of q from 0 to levels. */
  function GeometricSum(q: nat, levels: nat): nat {
    if levels == 0 then 1 else GeometricSum(q, levels - 1) + Power(q, levels)
  }

  lemma {:induction false} GeometricSumUnfolds(q: nat, levels: nat)
    ensures GeometricSum(q, levels + 1) == 1 + q * GeometricSum(q, levels)
  {
    if levels == 0 {
      assert Power(q, 1) == q * Power(q, 0) == q;
      assert GeometricSum(q, 1) == GeometricSum(q, 0) + Power(q, 1);
    } else {
      GeometricSumUnfolds(q, levels - 1);
      assert Power(q, levels + 1) == q * Power(q, levels);
      assert q * (GeometricSum(q, levels - 1) + Power(q, levels)) ==
          q * GeometricSum(q, levels - 1) + q * Power(q, levels);
    }
  }

  /** The generations that can still follow a substrate. */
  function LevelsBelow(limits: Limits, depth: nat): nat {
    SatSub(limits.depthMax, depth)
  }

  /** Every member has at most the quota of children, each one deeper and within the cap. */
  ghost predicate WithinLimits(limits: Limits, f: Family)
    decreases f
  {
    && |f.children| <= limits.quota
    && forall k :: 0 <= k < |f.children| ==>
         f.children[k].start.facts.generationDepth == f.start.facts.generationDepth + 1 <= limits.depthMax &&
             WithinLimits(limits, f.children[k])
  }

  predicate IsNewborn(s: Live) {
    SporeCount(s.dag) == 0 && SpawnTimes(s.dag) == []
  }

  lemma {:induction false} FamilyIsWithinLimits(limits: Limits, f: Family)
    requires IsFamily(limits, f) && IsNewborn(f.start)
    ensures WithinLimits(limits, f)
    decreases f
  {
    RunsAreDisciplined(limits, f.start, f.steps);
    forall k | 0 <= k < |f.children|
      ensures f.children[k].start.facts.generationDepth == f.start.facts.generationDepth + 1 <= limits.depthMax
      ensures WithinLimits(limits, f.children[k])
    {
      ChildrenAreNewborn(limits, f.start, f.steps, k);
      FamilyIsWithinLimits(limits, f.children[k]);
    }
  }

  lemma {:induction false} LimitsBoundMembers(limits: Limits, f: Family)
    requires WithinLimits(limits, f)
    ensures Members(f) <= GeometricSum(limits.quota, LevelsBelow(limits, f.start.facts.generationDepth))
    decreases f, 1, 0
  {
    var depth := f.start.facts.generationDepth;
    if |f.children| > 0 {
      var each := GeometricSum(limits.quota, LevelsBelow(limits, depth + 1));
      LimitsBoundChildren(limits, f, 0);
      assert f.children[0..] == f.children;
      assert f.children[0].start.facts.generationDepth == depth + 1;
      GeometricSumUnfolds(limits.quota, LevelsBelow(limits, depth + 1));
      Scale(|f.children|, limits.quota, each);
    } else {
      SumIsPositive(limits.quota, LevelsBelow(limits, depth));
    }
  }

  lemma Scale(n: nat, q: nat, each: nat)
    requires n <= q
    ensures n * each <= q * each
  {
  }

  lemma {:induction false} SumIsPositive(q: nat, levels: nat)
    ensures GeometricSum(q, levels) >= 1
  {
    if levels > 0 {
      SumIsPositive(q, levels - 1);
    }
  }

  lemma {:induction false} LimitsBoundChildren(limits: Limits, f: Family, k: nat)
    requires WithinLimits(limits, f) && k <= |f.children|
    ensures AllMembers(f.children[k..]) <=
            (|f.children| - k) * GeometricSum(limits.quota, LevelsBelow(limits, f.start.facts.generationDepth + 1))
    decreases f, 0, |f.children| - k
  {
    if k < |f.children| {
      var each := GeometricSum(limits.quota, LevelsBelow(limits, f.start.facts.generationDepth + 1));
      LimitsBoundMembers(limits, f.children[k]);
      LimitsBoundChildren(limits, f, k + 1);
      assert f.children[k..][1..] == f.children[k + 1..];
      assert (|f.children| - k) * each == each + (|f.children| - (k + 1)) * each;
    }
  }

  /**
   With no depth override the whole lineage of one substrate, at any time, has at most as many
   members as the sum of quota^i over the generations left: from a root, i = 0 to the depth cap.
   */
  lemma LineageIsBounded(limits: Limits, f: Family)
    requires IsFamily(limits, f) && IsNewborn(f.start)
    ensures Members(f) <= GeometricSum(limits.quota, LevelsBelow(limits, f.start.facts.generationDepth))
  {
    FamilyIsWithinLimits(limits, f);
    LimitsBoundMembers(limits, f);
  }
}
