/**
 snapshot.cb (substrate/src/derived_state.rs, substrate/src/persistence_runtime.rs) and the
 boot path that starts from it (substrate/src/server/mod.rs): booting from any snapshot gives
 what replaying the whole log gives.
 */
module Snapshot {
  import opened Prelude
  import opened Dag
  import opened Derived

  // -------------------------------------------------------------------------
  // Codec
  // -------------------------------------------------------------------------

  function Put(m: map<Key, Value>, k: Key, v: Option<Value>): map<Key, Value> {
    if v.Some? then m[k := v.value] else m
  }

  function Get(m: map<Key, Value>, k: Key): Option<Value> {
    if k in m then Some(m[k]) else None
  }

  function EncodeCandidate(c: MigrationCandidate): Value {
    VMap(map[OpName := VString(c.op), SchemaDiff := VBytes(c.diff), StartedAtCycle := VUint(c.startedAt),
             DualValidationWindow := VUint(c.window), StartedAtUnixNs := VTimestamp(c.startedAtNs)])
  }

  function TipField(tip: Option<Hash>): Option<Value> {
    match tip case Some(h) => Some(VHash(h)) case None => None
  }

  function IdField(f: Facts): Option<Value> {
    match f.substrateId case Some(b) => Some(VBytes(b)) case None => None
  }

  function TimeField(f: Facts): Option<Value> {
    match f.genesisTime case Some(t) => Some(VTimestamp(t)) case None => None
  }

  function DepthField(f: Facts): Option<Value> {
    if f.generationDepth != 0 then Some(VUint(f.generationDepth)) else None
  }

  function AbsorbedField(f: Facts): Option<Value> {
    match f.lastAbsorbed case Some(c) => Some(VUint(c)) case None => None
  }

  function HistoryField(f: Facts): Option<Value> {
    if |f.history| > 0 then Some(VArray(f.history)) else None
  }

  function CandidateField(f: Facts): Option<Value> {
    match f.migration case Some(c) => Some(EncodeCandidate(c)) case None => None
  }

  function PutIdentity(m: map<Key, Value>, f: Facts, tip: Option<Hash>): map<Key, Value> {
    Put(Put(Put(Put(m, SnapshotAtDagTip, TipField(tip)), SubstrateId, IdField(f)), GenesisTime, TimeField(f)),
        GenerationDepth, DepthField(f))
  }

  function PutMetabolism(m: map<Key, Value>, f: Facts): map<Key, Value> {
    Put(Put(Put(Put(m, CycleCounter, Some(VUint(f.cycleCounter))), LastAbsorbedCycle, AbsorbedField(f)),
            ObservatoryHistory, HistoryField(f)), MigrationCandidateKey, CandidateField(f))
  }

  /** DerivedState::to_canonical_bytes: cultivation fields are left out, absent options are omitted. */
  function Encode(f: Facts, tip: Option<Hash>): Value {
    VMap(PutMetabolism(PutIdentity(map[FormatVersion := VUint(2)], f, tip), f))
  }

  function GetUint(m: map<Key, Value>, k: Key): Result<nat, ReplayError> {
    match Get(m, k) case Some(VUint(n)) => Ok(n) case _ => Err(BadSnapshot)
  }

  function DecodeCandidate(m: map<Key, Value>): Result<MigrationCandidate, ReplayError> {
    var op :- match Get(m, OpName) case Some(VString(s)) => Ok(s) case _ => Err(BadSnapshot);
    var diff :- match Get(m, SchemaDiff) case Some(VBytes(b)) => Ok(b) case _ => Err(BadSnapshot);
    var startedAt :- GetUint(m, StartedAtCycle);
    var window :- GetUint(m, DualValidationWindow);
    var ns := match Get(m, StartedAtUnixNs) case Some(VTimestamp(t)) => t case _ => 0;
    Ok(MigrationCandidate(op, diff, startedAt, window, ns))
  }

  function AsId(b: Bytes): Option<Id> {
    if |b| == 32 then (var id: Id := b; Some(id)) else None
  }

  datatype Decoded = Decoded(facts: Facts, tip: Option<Hash>)

  /** DerivedState::from_canonical_bytes: None is an unknown version. */
  function Decode(v: Value): Result<Option<Decoded>, ReplayError> {
    if !v.VMap? then Err(BadSnapshot)
    else
      var m := v.entries;
      var version :- GetUint(m, FormatVersion);
      if version != 1 && version != 2 then Ok(None)
      else
        var tip := match Get(m, SnapshotAtDagTip) case Some(VHash(h)) => Some(h) case _ => None;
        var id := match Get(m, SubstrateId) case Some(VBytes(b)) => AsId(b) case _ => None;
        var time := match Get(m, GenesisTime) case Some(VTimestamp(t)) => Some(t) case _ => None;
        var depth := match Get(m, GenerationDepth) case Some(VUint(n)) => n case _ => 0;
        var counter :- GetUint(m, CycleCounter);
        var absorbed := match Get(m, LastAbsorbedCycle) case Some(VUint(n)) => Some(n) case _ => None;
        var history := match Get(m, ObservatoryHistory) case Some(VArray(a)) => a case _ => [];
        var migration :-
          match Get(m, MigrationCandidateKey)
          case Some(VMap(cm)) => (var c :- DecodeCandidate(cm); Ok(Some(c)))
          case _ => Ok(None);
        Ok(Some(Decoded(Facts(id, time, depth, counter, absorbed, history, migration, [], None), tip)))
  }

  lemma CandidateRoundTrip(c: MigrationCandidate)
    ensures DecodeCandidate(EncodeCandidate(c).entries) == Ok(c)
  {
  }

  lemma PutIdentityGets(m: map<Key, Value>, f: Facts, tip: Option<Hash>)
    requires m == map[FormatVersion := VUint(2)]
    ensures Get(PutIdentity(m, f, tip), FormatVersion) == Some(VUint(2))
    ensures Get(PutIdentity(m, f, tip), SnapshotAtDagTip) == TipField(tip)
    ensures Get(PutIdentity(m, f, tip), SubstrateId) == IdField(f)
    ensures Get(PutIdentity(m, f, tip), GenesisTime) == TimeField(f)
    ensures Get(PutIdentity(m, f, tip), GenerationDepth) == DepthField(f)
    ensures PutIdentity(m, f, tip).Keys <= {FormatVersion, SnapshotAtDagTip, SubstrateId, GenesisTime, GenerationDepth}
  {
  }

  lemma PutMetabolismGets(m: map<Key, Value>, f: Facts)
    requires m.Keys <= {FormatVersion, SnapshotAtDagTip, SubstrateId, GenesisTime, GenerationDepth}
    ensures Get(PutMetabolism(m, f), CycleCounter) == Some(VUint(f.cycleCounter))
    ensures Get(PutMetabolism(m, f), LastAbsorbedCycle) == AbsorbedField(f)
    ensures Get(PutMetabolism(m, f), ObservatoryHistory) == HistoryField(f)
    ensures Get(PutMetabolism(m, f), MigrationCandidateKey) == CandidateField(f)
    ensures forall k :: k in {FormatVersion, SnapshotAtDagTip, SubstrateId, GenesisTime, GenerationDepth} ==>
              Get(PutMetabolism(m, f), k) == Get(m, k)
  {
  }

  /** The map holds the fields of f under their keys and omits the absent ones. */
  ghost predicate Carries(m: map<Key, Value>, f: Facts, tip: Option<Hash>) {
    && Get(m, FormatVersion) == Some(VUint(2)) && Get(m, SnapshotAtDagTip) == TipField(tip)
    && Get(m, SubstrateId) == IdField(f) && Get(m, GenesisTime) == TimeField(f)
    && Get(m, GenerationDepth) == DepthField(f) && Get(m, CycleCounter) == Some(VUint(f.cycleCounter))
    && Get(m, LastAbsorbedCycle) == AbsorbedField(f) && Get(m, ObservatoryHistory) == HistoryField(f)
    && Get(m, MigrationCandidateKey) == CandidateField(f)
  }

  lemma EncodedCarries(f: Facts, tip: Option<Hash>)
    ensures Carries(Encode(f, tip).entries, f, tip)
  {
    var start := map[FormatVersion := VUint(2)];
    PutIdentityGets(start, f, tip);
    PutMetabolismGets(PutIdentity(start, f, tip), f);
  }

  lemma DecodeCarried(m: map<Key, Value>, f: Facts, tip: Option<Hash>)
    requires Carries(m, f, tip)
    ensures Decode(VMap(m)) == Ok(Some(Decoded(f.(successorChain := [], successionConfig := None), tip)))
  {
    if f.migration.Some? {
      CandidateRoundTrip(f.migration.value);
    }
  }

  /** Everything survives the codec but the two cultivation fields it leaves out. */
  lemma SnapshotRoundTrip(f: Facts, tip: Option<Hash>)
    ensures Decode(Encode(f, tip)) == Ok(Some(Decoded(f.(successorChain := [], successionConfig := None), tip)))
  {
    EncodedCarries(f, tip);
    DecodeCarried(Encode(f, tip).entries, f, tip);
  }

  // -------------------------------------------------------------------------
  // Boot
  // -------------------------------------------------------------------------

  /** The nodes after the first one with the given hash; none if it is absent. */
  function AfterTip(log: Log, tip: Option<Hash>): Log {
    if tip.None? then log
    else if |log| == 0 then []
    else if HashOf(log[0]) == tip.value then log[1..]
    else AfterTip(log[1..], tip)
  }

  lemma ReplayNext(f: Facts, log: Log, start: nat, i: nat, dag: Option<Log>)
    requires start <= i < |log|
    ensures Replay(f, log[start..i + 1], dag) ==
            match Replay(f, log[start..i], dag) case Ok(g) => Apply(g, log[i], dag) case Err(e) => Err(e)
  {
    hide Apply;
    assert log[start..i + 1][..i - start] == log[start..i];
  }

  lemma ReplayNothing(f: Facts, dag: Option<Log>)
    ensures Replay(f, [], dag) == Ok(f)
  {
  }

  lemma AfterTipNext(log: Log, i: nat, tip: Option<Hash>)
    requires i < |log| && tip.Some?
    ensures AfterTip(log[i..], tip) ==
            if HashOf(log[i]) == tip.value then log[i + 1..] else AfterTip(log[i + 1..], tip)
  {
    assert log[i..][1..] == log[i + 1..];
  }

  lemma AfterTipEnds(log: Log, tip: Option<Hash>)
    ensures tip.Some? ==> AfterTip(log[|log|..], tip) == []
    ensures tip.None? ==> AfterTip(log, tip) == log
  {
  }

  method ReplayEventsAfterTip(state: DerivedState, log: Log, afterTip: Option<Hash>)
      returns (r: Result<(), ReplayError>)
    modifies state
    ensures r.Ok? ==> Replay(old(state.View()), AfterTip(log, afterTip), Some(log)) == Ok(state.View())
    ensures r.Err? ==> Replay(old(state.View()), AfterTip(log, afterTip), Some(log)) == Err(r.error)
  {
    hide Apply, Replay, AfterTip;
    ReplayNothing(state.View(), Some(log));
    AfterTipEnds(log, afterTip);
    var skipping := afterTip.Some?;
    ghost var start := 0;
    assert log[0..] == log;
    for i := 0 to |log|
      invariant skipping ==>
        afterTip.Some? && state.View() == old(state.View()) && AfterTip(log[i..], afterTip) == AfterTip(log, afterTip)
      invariant !skipping ==> start <= i && AfterTip(log, afterTip) == log[start..]
      invariant !skipping ==> Replay(old(state.View()), log[start..i], Some(log)) == Ok(state.View())
    {
      if skipping {
        AfterTipNext(log, i, afterTip);
        if HashOf(log[i]) == afterTip.value {
          skipping := false;
          start := i + 1;
          assert log[start..i + 1] == [];
        }
        continue;
      }
      ReplayNext(old(state.View()), log, start, i, Some(log));
      var applied := state.ApplyEventWithDag(log[i], Some(log));
      if applied.Err? {
        assert log[start..][..i + 1 - start] == log[start..i + 1];
        ReplayErrorSticks(old(state.View()), log[start..], i + 1 - start, Some(log));
        return Err(applied.error);
      }
    }
    assert !skipping ==> log[start..|log|] == log[start..];
    r := Ok(());
  }

  /** What the boot path recovers from an accepted snapshot, or None for a full replay. */
  function FromSnapshot(log: Log, snapshot: Option<Value>): Option<Facts> {
    match snapshot
    case None => None
    case Some(v) =>
      match Decode(v)
      case Ok(Some(d)) =>
        var tipInDag := match d.tip case None => |log| == 0 case Some(h) => Has(log, h);
        if !tipInDag then None
        else
          (match Replay(d.facts, AfterTip(log, d.tip), Some(log))
           case Ok(f) => Some(f)
           case Err(_) => None)
      case _ => None
  }

  /** Without an accepted snapshot, the fold; without a log that replays, nothing. */
  function OrElse(o: Option<Facts>, log: Log): Facts {
    match o case Some(f) => f case None => match FromDag(log) case Ok(f) => f case Err(_) => EMPTY_FACTS
  }

  /** The derived state a boot ends with, before it is mirrored onto the server. */
  function Boot(log: Log, snapshot: Option<Value>): Facts {
    RederiveCultivation(OrElse(FromSnapshot(log, snapshot), log), log)
  }

  // -------------------------------------------------------------------------
  // Snapshot boot equals full replay
  // -------------------------------------------------------------------------

  /** Absorption events list only nodes they have as parents, as handle_advance writes them. */
  ghost predicate AbsorbsParents(log: Log) {
    forall i, h :: 0 <= i < |log| && ListsAbsorbed(log[i], h) ==> h in log[i].parents
  }

  /** n is an absorption event that lists h. */
  predicate ListsAbsorbed(n: Node, h: Hash) {
    n.kind.AbsorptionEvent? && n.content.AbsorptionBody? && n.content.absorbed.Some? && h in n.content.absorbed.value
  }

  lemma {:induction false} LookupExtends(a: Log, b: Log, h: Hash)
    requires a <= b && Has(a, h)
    ensures Lookup(a, h) == Lookup(b, h)
  {
    var i :| 0 <= i < |a| && HashOf(a[i]) == h;
    assert b[0] == a[0];
    if HashOf(a[0]) != h {
      assert HashOf(a[1..][i - 1]) == h;
      LookupExtends(a[1..], b[1..], h);
    }
  }

  lemma {:induction false} MaxCreatedAtExtends(a: Log, b: Log, hashes: seq<Hash>)
    requires a <= b && forall h :: h in hashes ==> Has(a, h)
    ensures MaxCreatedAt(hashes, a) == MaxCreatedAt(hashes, b)
  {
    if |hashes| > 0 {
      MaxCreatedAtExtends(a, b, hashes[..|hashes| - 1]);
      LookupExtends(a, b, hashes[|hashes| - 1]);
    }
  }

  /** An event reads the log only for nodes inserted before it, so a longer log changes nothing. */
  lemma {:induction false} ReplayIgnoresLaterNodes(f: Facts, a: Log, b: Log, k: nat)
    requires WellFormed(b) && AbsorbsParents(b) && a <= b && k <= |a|
    ensures Replay(f, a[..k], Some(a)) == Replay(f, a[..k], Some(b))
    decreases k
  {
    if k > 0 {
      ReplayIgnoresLaterNodes(f, a, b, k - 1);
      assert a[..k][..k - 1] == a[..k - 1];
      var n := a[k - 1];
      assert n == b[k - 1];
      if n.kind.AbsorptionEvent? && n.content.AbsorptionBody? && n.content.absorbed.Some? {
        forall h | h in n.content.absorbed.value
          ensures Has(a, h)
        {
          assert ListsAbsorbed(b[k - 1], h);
          assert HasBefore(b, k - 1, h);
          var i :| 0 <= i < k - 1 && HashOf(b[i]) == h;
          assert HashOf(a[i]) == h;
        }
        MaxCreatedAtExtends(a, b, n.content.absorbed.value);
      }
    }
  }

  lemma AfterTipOfPrefix(log: Log, k: nat)
    requires WellFormed(log) && 0 < k <= |log|
    ensures AfterTip(log, Some(HashOf(log[k - 1]))) == log[k..]
  {
    AfterTipFinds(log, Some(HashOf(log[k - 1])), k - 1);
  }

  lemma {:induction false} AfterTipFinds(log: Log, tip: Option<Hash>, j: nat)
    requires tip.Some? && j < |log| && HashOf(log[j]) == tip.value
    requires forall i :: 0 <= i < j ==> HashOf(log[i]) != tip.value
    ensures AfterTip(log, tip) == log[j + 1..]
  {
    if j > 0 {
      assert forall i :: 0 <= i < j - 1 ==> log[1..][i] == log[i + 1];
      AfterTipFinds(log[1..], tip, j - 1);
    }
  }

  function WithoutClock(m: Option<MigrationCandidate>): Option<MigrationCandidate> {
    match m case Some(c) => Some(c.(startedAtNs := 0)) case None => None
  }

  /** What two states must share: all but the observatory history and the rederived cultivation fields. */
  function Core(exact: bool, f: Facts): Facts {
    var g := f.(history := [], successorChain := [], successionConfig := None);
    if exact then g else g.(migration := WithoutClock(f.migration))
  }

  /** Without `exact`, the informational start time of an open migration may differ too. */
  predicate SameCore(exact: bool, f: Facts, g: Facts) {
    Core(exact, f) == Core(exact, g)
  }

  predicate SameResult(exact: bool, r: Result<Facts, ReplayError>, q: Result<Facts, ReplayError>) {
    (r.Ok? <==> q.Ok?) && (r.Ok? ==> SameCore(exact, r.value, q.value)) && (r.Err? ==> r.error == q.error)
  }

  lemma ApplyKeepsCore(exact: bool, f: Facts, g: Facts, n: Node, dag: Option<Log>)
    requires SameCore(exact, f, g)
    ensures SameResult(exact, Apply(f, n, dag), Apply(g, n, dag))
  {
  }

  lemma {:induction false} ReplayKeepsCore(exact: bool, f: Facts, g: Facts, nodes: Log, dag: Option<Log>)
    requires SameCore(exact, f, g)
    ensures SameResult(exact, Replay(f, nodes, dag), Replay(g, nodes, dag))
    decreases |nodes|
  {
    if |nodes| > 0 {
      var front := nodes[..|nodes| - 1];
      ReplayKeepsCore(exact, f, g, front, dag);
      if Replay(f, front, dag).Ok? {
        ApplyKeepsCore(exact, Replay(f, front, dag).value, Replay(g, front, dag).value, nodes[|nodes| - 1], dag);
      }
    }
  }

  predicate SameCultivation(f: Facts, g: Facts) {
    f.successorChain == g.successorChain && f.successionConfig == g.successionConfig
  }

  /** Rederiving depends on the cultivation fields alone, and touches nothing else. */
  lemma {:induction false} RecultivateKeepsCore(exact: bool, f: Facts, g: Facts, nodes: Log)
    requires SameCore(exact, f, g) && SameCultivation(f, g)
    ensures SameCore(exact, Recultivate(f, nodes), Recultivate(g, nodes))
    ensures SameCultivation(Recultivate(f, nodes), Recultivate(g, nodes))
    decreases |nodes|
  {
    if |nodes| > 0 {
      var n := nodes[0];
      if IsCultivationFact(n.kind) {
        match Apply(f, n, None)
        case Ok(f') => RecultivateKeepsCore(exact, f', Apply(g, n, None).value, nodes[1..]);
        case Err(_) =>
      } else {
        RecultivateKeepsCore(exact, f, g, nodes[1..]);
      }
    }
  }

  /** v was saved when the log had k nodes, from a state that agreed with the fold over them. */
  ghost predicate IsSnapshotOf(exact: bool, v: Value, log: Log, k: nat) {
    k <= |log| && FromDag(log[..k]).Ok? &&
    exists g :: SameCore(exact, g, FromDag(log[..k]).value) && v == Encode(g, Tip(log[..k]))
  }

  /** Restoring the prefix and replaying the rest is the fold over the whole log. */
  lemma SnapshotReplayIsFullReplay(exact: bool, log: Log, k: nat, g: Facts)
    requires WellFormed(log) && AbsorbsParents(log) && k <= |log|
    requires FromDag(log[..k]).Ok? && SameCore(exact, g, FromDag(log[..k]).value)
    ensures SameResult(exact, Replay(g, log[k..], Some(log)), FromDag(log))
  {
    ReplayIgnoresLaterNodes(EMPTY_FACTS, log[..k], log, k);
    assert log[..k][..k] == log[..k];
    ReplayConcat(EMPTY_FACTS, log[..k], log[k..], Some(log));
    assert log[..k] + log[k..] == log;
    ReplayKeepsCore(exact, g, FromDag(log[..k]).value, log[k..], Some(log));
  }

  /**
   Booting from a snapshot of any prefix gives what booting without one gives. It also
   holds when the log itself does not replay: both boots then fall back alike.
   */
  lemma SnapshotBootIsFullReplay(exact: bool, log: Log, k: nat, v: Value)
    requires WellFormed(log) && AbsorbsParents(log) && IsSnapshotOf(exact, v, log, k)
    ensures SameCore(exact, Boot(log, Some(v)), Boot(log, None))
    ensures SameCultivation(Boot(log, Some(v)), Boot(log, None))
  {
    var g :| SameCore(exact, g, FromDag(log[..k]).value) && v == Encode(g, Tip(log[..k]));
    SnapshotRoundTrip(g, Tip(log[..k]));
    var restored := g.(successorChain := [], successionConfig := None);
    SnapshotReplayIsFullReplay(exact, log, k, restored);
    if k > 0 {
      AfterTipOfPrefix(log, k);
    } else {
      assert log[k..] == log;
    }
    var a, b := OrElse(FromSnapshot(log, Some(v)), log), OrElse(None, log);
    assert SameCore(exact, a, b);
    RecultivateKeepsCore(exact, a.(successorChain := [], successionConfig := None),
                         b.(successorChain := [], successionConfig := None), log);
  }

  // -------------------------------------------------------------------------
  // Rederiving is the fold
  // -------------------------------------------------------------------------

  lemma ReplayFront(f: Facts, nodes: Log, dag: Option<Log>)
    requires |nodes| > 0
    ensures Replay(f, nodes, dag) ==
            match Apply(f, nodes[0], dag) case Ok(g) => Replay(g, nodes[1..], dag) case Err(e) => Err(e)
  {
    ReplayConcat(f, nodes[..1], nodes[1..], dag);
    assert nodes[..1] + nodes[1..] == nodes;
    assert nodes[..1][..0] == [];
  }

  lemma {:induction false} RecultivateIsReplay(f: Facts, g: Facts, nodes: Log, dag: Option<Log>)
    requires SameCultivation(f, g) && Replay(g, nodes, dag).Ok?
    ensures SameCultivation(Recultivate(f, nodes), Replay(g, nodes, dag).value)
    decreases |nodes|
  {
    if |nodes| > 0 {
      ReplayFront(g, nodes, dag);
      var g' := Apply(g, nodes[0], dag).value;
      if IsCultivationFact(nodes[0].kind) {
        RecultivateIsReplay(Apply(f, nodes[0], None).value, g', nodes[1..], dag);
      } else {
        RecultivateIsReplay(f, g', nodes[1..], dag);
      }
    }
  }

  /** On a log that replays, a full boot is the fold, cultivation fields included. */
  lemma FullBootIsFold(log: Log)
    requires FromDag(log).Ok?
    ensures SameCore(true, Boot(log, None), FromDag(log).value) && SameCultivation(Boot(log, None), FromDag(log).value)
  {
    var f := FromDag(log).value;
    var cleared := f.(successorChain := [], successionConfig := None);
    RecultivateIsReplay(cleared, EMPTY_FACTS, log, Some(log));
    RecultivateLeavesCore(cleared, log);
  }

  lemma {:induction false} RecultivateLeavesCore(f: Facts, nodes: Log)
    ensures SameCore(true, Recultivate(f, nodes), f)
    decreases |nodes|
  {
    if |nodes| > 0 {
      if IsCultivationFact(nodes[0].kind) {
        match Apply(f, nodes[0], None)
        case Ok(g) => RecultivateLeavesCore(g, nodes[1..]);
        case Err(_) =>
      } else {
        RecultivateLeavesCore(f, nodes[1..]);
      }
    }
  }
}
