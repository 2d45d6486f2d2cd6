/** When a substrate spawns, and what each refusal leaves behind, told by the nodes of the log alone. */
module SpawnRuns {
  import opened Prelude
  import opened Dag
  import opened Derived
  import opened Server
  import opened Ingest
  import opened Reproduction

  // -------------------------------------------------------------------------
  // What the log says
  // -------------------------------------------------------------------------

  /** The node attests a spawn at this time. */
  predicate Stamped(n: Node, t: int) {
    n.kind.GenesisAttested? && n.content.SpawnBody? && n.content.anchorTs == Some(t)
  }

  /** Where the spores are. */
  function Spores(log: Log): set<nat> {
    set i: nat | i < |log| && log[i].kind.SporeEmission?
  }

  lemma {:induction false} TimesAreStamps(log: Log, t: int)
    ensures t in SpawnTimes(log) <==> exists i: nat :: i < |log| && Stamped(log[i], t)
    decreases |log|
  {
    if |log| > 0 {
      var front := log[..|log| - 1];
      TimesAreStamps(front, t);
      if exists i: nat :: i < |log| && Stamped(log[i], t) {
        var i: nat :| i < |log| && Stamped(log[i], t);
        assert i < |front| ==> Stamped(front[i], t);
      }
      if t in SpawnTimes(front) {
        var i: nat :| i < |front| && Stamped(front[i], t);
        assert Stamped(log[i], t);
      }
    }
  }

  lemma {:induction false} CountIsSpores(log: Log)
    ensures SporeCount(log) == |Spores(log)|
    decreases |log|
  {
    if |log| > 0 {
      var last, front := |log| - 1, log[..|log| - 1];
      CountIsSpores(front);
      assert Spores(log) == Spores(front) + if log[last].kind.SporeEmission? then {last} else {};
    } else {
      assert Spores(log) == {};
    }
  }

  // -------------------------------------------------------------------------
  // The conditions of a birth
  // -------------------------------------------------------------------------

  /** A complete request, for this substrate, for the schema that was co-signed, later than every earlier spawn. */
  ghost predicate IsAttestedRequest(s: Live, r: Request) {
    && r.wellFormed && s.facts.substrateId == Some(r.parentId) && r.schemaOk
    && forall i: nat, t :: i < |s.dag| && Stamped(s.dag[i], t) ==> t < r.anchorTs
  }

  /** The interval since every earlier spawn is over. */
  ghost predicate HasWaited(limits: Limits, s: Live, r: Request) {
    forall i: nat, t :: i < |s.dag| && Stamped(s.dag[i], t) ==> r.anchorTs - t >= limits.interval
  }

  /** The child would be within the depth cap, or the override says it may not be. */
  predicate IsShallowEnough(limits: Limits, s: Live, r: Request) {
    s.facts.generationDepth < limits.depthMax || r.depthOverride
  }

  ghost predicate MaySpawn(limits: Limits, s: Live, r: Request) {
    && IsAttestedRequest(s, r) && HasWaited(limits, s, r) && IsShallowEnough(limits, s, r)
    && |Spores(s.dag)| < limits.quota && !r.occupied
  }

  lemma GatesAre(log: Log, t: int, interval: int)
    ensures MovesForward(SpawnTimes(log), t) <==>
            forall i: nat, earlier :: i < |log| && Stamped(log[i], earlier) ==> earlier < t
    ensures KeepsInterval(SpawnTimes(log), t, interval) <==>
            forall i: nat, earlier :: i < |log| && Stamped(log[i], earlier) ==> t - earlier >= interval
  {
    hide SpawnTimes;
    var times := SpawnTimes(log);
    forall i: nat, earlier | i < |log| && Stamped(log[i], earlier)
      ensures MovesForward(times, t) ==> earlier < t
      ensures KeepsInterval(times, t, interval) ==> t - earlier >= interval
    {
      TimesAreStamps(log, earlier);
      var k :| 0 <= k < |times| && times[k] == earlier;
    }
    if !MovesForward(times, t) {
      var k :| 0 <= k < |times| && times[k] >= t;
      TimesAreStamps(log, times[k]);
    }
    if !KeepsInterval(times, t, interval) {
      var k :| 0 <= k < |times| && t - times[k] < interval;
      TimesAreStamps(log, times[k]);
    }
  }

  /** The verdict, gate by gate. */
  lemma VerdictIs(limits: Limits, s: Live, r: Request)
    ensures Verdict(limits, s, r).Ok? <==> MaySpawn(limits, s, r)
    ensures Verdict(limits, s, r) == Err(Unattested) <==> !IsAttestedRequest(s, r)
    ensures Verdict(limits, s, r) == Err(TooSoon) <==> IsAttestedRequest(s, r) && !HasWaited(limits, s, r)
    ensures Verdict(limits, s, r) == Err(TooDeep) <==>
            IsAttestedRequest(s, r) && HasWaited(limits, s, r) && !IsShallowEnough(limits, s, r)
    ensures Verdict(limits, s, r) == Err(QuotaSpent) <==>
            && IsAttestedRequest(s, r) && HasWaited(limits, s, r) && IsShallowEnough(limits, s, r)
            && |Spores(s.dag)| >= limits.quota
  {
    hide SpawnTimes, SporeCount, Spores, MovesForward, KeepsInterval;
    CountIsSpores(s.dag);
    GatesAre(s.dag, r.anchorTs, limits.interval);
  }

  // -------------------------------------------------------------------------
  // What a request writes
  // -------------------------------------------------------------------------

  /** b is a with exactly these events appended. */
  predicate Wrote(a: Log, b: Log, notes: seq<RawNote>) {
    && a <= b && |b| == |a| + |notes|
    && forall k :: 0 <= k < |notes| ==> b[|a| + k].kind == notes[k].kind && b[|a| + k].content == notes[k].content
  }

  lemma {:induction false} NotesAreWritten(s: Live, notes: seq<Note>)
    ensures Wrote(s.dag, EmitNotes(s, notes).dag, notes)
    decreases |notes|
  {
    if |notes| > 0 {
      NotesAreWritten(s, notes[..|notes| - 1]);
    }
  }

  /**
   A request brings a birth exactly when it is attested, later than every earlier spawn by at least
   the interval, within the depth cap or overriding it, under the lifetime quota and for a free
   directory. Then the log ends with a spore and the attestation that carries its stamp; in every
   other case it gets neither.
   */
  lemma BirthIff(limits: Limits, s: Live, r: Request)
    ensures var a, b := s.dag, Sprouted(limits, s, r).dag;
            && a <= b
            && (MaySpawn(limits, s, r) ==>
                  |b| >= |a| + 2 && b[|b| - 2].kind.SporeEmission? && Stamped(b[|b| - 1], r.anchorTs))
            && (!MaySpawn(limits, s, r) ==>
                  forall i :: |a| <= i < |b| ==> !b[i].kind.SporeEmission? && !b[i].kind.GenesisAttested?)
  {
    hide Verdict, MaySpawn, EmitNotes;
    var notes: seq<Note> := SproutNotes(limits, s, r);
    var a, b := s.dag, Sprouted(limits, s, r).dag;
    VerdictIs(limits, s, r);
    NotesAreWritten(s, notes);
    if MaySpawn(limits, s, r) {
      assert notes[|notes| - 2] == SPORE && notes[|notes| - 1] == Attestation(r);
      assert b[|a| + (|notes| - 2)].kind == SPORE.kind && b[|a| + (|notes| - 1)].content == Attestation(r).content;
    } else {
      RefusalWritesNoSpawn(limits, s, r);
      forall i | |a| <= i < |b|
        ensures !b[i].kind.SporeEmission? && !b[i].kind.GenesisAttested?
      {
        assert b[|a| + (i - |a|)].kind == notes[i - |a|].kind;
      }
    }
  }

  /** An event that says nothing but its name. */
  function Named(kind: NodeType): RawNote {
    RawNote(kind, Opaque([]))
  }

  /** The event of an exercised override, where the child is past the depth cap. */
  function Overrides(limits: Limits, s: Live): seq<RawNote> {
    if s.facts.generationDepth >= limits.depthMax then [Named(Other("depth_override_exercised"))] else []
  }

  /** What each refusal leaves in the log. */
  lemma RefusalTells(limits: Limits, s: Live, r: Request)
    ensures var a, b := s.dag, Sprouted(limits, s, r).dag;
            if !IsAttestedRequest(s, r) then
              Wrote(a, b, [Named(Immune("C68_reproduction_unattested_spawn"))])
            else if !HasWaited(limits, s, r) then
              Wrote(a, b, [Named(Immune("C48_reproduction_lifetime_quota_exceeded"))])
            else if !IsShallowEnough(limits, s, r) then
              Wrote(a, b, [Named(Immune("C47_generation_depth_exceeded"))])
            else if |Spores(a)| >= limits.quota then
              Wrote(a, b, Overrides(limits, s) + [Named(Immune("C48_reproduction_lifetime_quota_exceeded"))])
            else
              r.occupied ==> Wrote(a, b, Overrides(limits, s))
  {
    hide Verdict, EmitNotes, Wrote, IsAttestedRequest, HasWaited, Spores;
    var notes: seq<RawNote> := SproutNotes(limits, s, r);
    VerdictIs(limits, s, r);
    NotesAreWritten(s, SproutNotes(limits, s, r));
    match Verdict(limits, s, r)
    case Err(TooDeep) => assert notes == [Named(Immune("C47_generation_depth_exceeded"))];
    case Err(TooSoon) => assert notes == [Named(Immune("C48_reproduction_lifetime_quota_exceeded"))];
    case Err(Unattested) => assert notes == [Named(Immune("C68_reproduction_unattested_spawn"))];
    case Err(Occupied) => assert notes == Overrides(limits, s);
    case _ =>
  }
}
