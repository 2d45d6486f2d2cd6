/** State derived from the log (substrate/src/derived_state.rs): the fold and the class that performs it. */
module Derived {
  import opened Prelude
  import opened Dag

  type Id = b: Bytes | |b| == 32 witness seq(32, _ => 0)

  /** The all-zero identifier stands for a substrate without a genesis. */
  predicate IsZero(id: Id) {
    forall i :: 0 <= i < 32 ==> id[i] == 0
  }

  datatype MigrationCandidate =
    MigrationCandidate(op: string, diff: Bytes, startedAt: nat, window: nat, startedAtNs: int)

  datatype SuccessorEntry = SuccessorEntry(pubkey: Id, validFrom: int, validUntil: Option<int>)

  datatype SuccessionConfig =
    SuccessionConfig(cadence: nat, legacyWindow: nat, terminalWindow: nat, choice: string)

  /** The text keys of snapshot.cb. */
  datatype Key =
    | FormatVersion | SnapshotAtDagTip | SubstrateId | GenesisTime | GenerationDepth | CycleCounter
    | LastAbsorbedCycle | ObservatoryHistory | MigrationCandidateKey
    | OpName | SchemaDiff | StartedAtCycle | DualValidationWindow | StartedAtUnixNs

  /** A canonical-bytes value; a 32-byte node hash is told apart from other bytes. */
  datatype Value =
    | VUint(n: nat)
    | VBytes(bytes: Bytes)
    | VHash(hash: Hash)
    | VTimestamp(t: int)
    | VString(s: string)
    | VMap(entries: map<Key, Value>)
    | VArray(items: seq<Value>)

  /** The fields of DerivedState. */
  datatype Facts = Facts(
    substrateId: Option<Id>,
    genesisTime: Option<int>,
    generationDepth: nat,
    cycleCounter: nat,
    lastAbsorbed: Option<nat>,
    history: seq<Value>,
    migration: Option<MigrationCandidate>,
    successorChain: seq<SuccessorEntry>,
    successionConfig: Option<SuccessionConfig>)

  const EMPTY_FACTS := Facts(None, None, 0, 0, None, [], None, [], None)

  datatype ReplayError = BadField(kind: NodeType) | MultipleGenesis | BadSnapshot

  // -------------------------------------------------------------------------
  // One event
  // -------------------------------------------------------------------------

  /** The greatest creation cycle among the absorbed nodes that resolve. */
  function MaxCreatedAt(hashes: seq<Hash>, dag: Log): Option<nat> {
    if |hashes| == 0 then None
    else
      var rest := MaxCreatedAt(hashes[..|hashes| - 1], dag);
      match Lookup(dag, hashes[|hashes| - 1])
      case None => rest
      case Some(n) => Some(match rest case None => n.cycle case Some(c) => if n.cycle > c then n.cycle else c)
  }

  function MaxAbsorbedCreatedAt(content: Content, dag: Option<Log>): Option<nat>
    requires content.AbsorptionBody?
  {
    if dag.None? || content.absorbed.None? then None else MaxCreatedAt(content.absorbed.value, dag.value)
  }

  function SuccessorOf(n: Node): Result<SuccessorEntry, ReplayError> {
    if n.content.SuccessorBody? && n.content.pubkey.Some? && |n.content.pubkey.value| == 32 && n.content.validFrom.Some?
    then Ok(SuccessorEntry(n.content.pubkey.value, n.content.validFrom.value, n.content.validUntil))
    else Err(BadField(n.kind))
  }

  function ConfigOf(n: Node): Result<SuccessionConfig, ReplayError> {
    var c := n.content;
    if c.ConfigBody? && c.cadence.Some? && c.legacyWindow.Some? && c.terminalWindow.Some? && c.choice.Some?
    then Ok(SuccessionConfig(c.cadence.value, c.legacyWindow.value, c.terminalWindow.value, c.choice.value))
    else Err(BadField(n.kind))
  }

  function CandidateOf(n: Node): Result<MigrationCandidate, ReplayError> {
    var c := n.content;
    if c.MigrationStartedBody? && c.op.Some? && c.diff.Some? && c.startedAt.Some? && c.window.Some? &&
        c.startedAtNs.Some?
    then Ok(MigrationCandidate(c.op.value, c.diff.value, c.startedAt.value, c.window.value, c.startedAtNs.value))
    else Err(BadField(n.kind))
  }

  function ApplyGenesis(f: Facts, n: Node): Result<Facts, ReplayError> {
    if f.substrateId.Some? then Err(MultipleGenesis)
    else if n.content.GenesisBody? && n.content.substrateId.Some? && |n.content.substrateId.value| == 32 &&
            n.content.genesisTime.Some?
    then Ok(f.(substrateId := Some(n.content.substrateId.value), genesisTime := n.content.genesisTime,
               generationDepth := match n.content.depth case Some(d) => d case None => 0))
    else Err(BadField(n.kind))
  }

  function ApplyAbsorption(f: Facts, n: Node, dag: Option<Log>): Result<Facts, ReplayError> {
    if n.content.AbsorptionBody? && n.content.cycle.Some? then
      var effective := match MaxAbsorbedCreatedAt(n.content, dag) case Some(c) => c case None => n.content.cycle.value;
      Ok(f.(lastAbsorbed := Some(match f.lastAbsorbed
                                 case None => effective
                                 case Some(prior) => if prior > effective then prior else effective)))
    else Err(BadField(n.kind))
  }

  /** DerivedState::apply_event_with_dag. */
  function Apply(f: Facts, n: Node, dag: Option<Log>): Result<Facts, ReplayError> {
    match n.kind
    case GenesisEvent(_) => ApplyGenesis(f, n)
    case CycleAdvanced =>
      if n.content.CycleAdvancedBody? && n.content.newCycle.Some?
      then Ok(f.(cycleCounter := n.content.newCycle.value)) else Err(BadField(n.kind))
    case AbsorptionEvent(_) => ApplyAbsorption(f, n, dag)
    case MigrationStarted(_) => (var c :- CandidateOf(n); Ok(f.(migration := Some(c))))
    case MigrationCommitted(_) => Ok(f.(migration := None))
    case MigrationRolledBack(_) => Ok(f.(migration := None))
    case SuccessorChainUpdated(_) => (var e :- SuccessorOf(n); Ok(f.(successorChain := f.successorChain + [e])))
    case SuccessionConfigDeclared => (var c :- ConfigOf(n); Ok(f.(successionConfig := Some(c))))
    case _ => Ok(f)
  }

  /** Types whose events change derived state. */
  predicate IsStateBearing(kind: NodeType) {
    kind.GenesisEvent? || kind.CycleAdvanced? || kind.AbsorptionEvent? || kind.MigrationStarted? ||
    kind.MigrationCommitted? || kind.MigrationRolledBack? || kind.SuccessorChainUpdated? ||
        kind.SuccessionConfigDeclared?
  }

  // -------------------------------------------------------------------------
  // Replay
  // -------------------------------------------------------------------------

  function Replay(f: Facts, nodes: Log, dag: Option<Log>): Result<Facts, ReplayError>
    decreases |nodes|
  {
    if |nodes| == 0 then Ok(f)
    else
      var before :- Replay(f, nodes[..|nodes| - 1], dag);
      Apply(before, nodes[|nodes| - 1], dag)
  }

  /** DerivedState::from_dag. */
  function FromDag(log: Log): Result<Facts, ReplayError> {
    Replay(EMPTY_FACTS, log, Some(log))
  }

  lemma {:induction false} ReplayConcat(f: Facts, a: Log, b: Log, dag: Option<Log>)
    ensures Replay(f, a + b, dag) ==
            match Replay(f, a, dag) case Ok(g) => Replay(g, b, dag) case Err(e) => Err(e)
    decreases |b|
  {
    if |b| == 0 {
      assert a + b == a;
    } else {
      ReplayConcat(f, a, b[..|b| - 1], dag);
      assert (a + b)[..|a + b| - 1] == a + b[..|b| - 1];
    }
  }

  /** A cultivation event, which rederiving looks at; every other event is skipped. */
  predicate IsCultivationFact(kind: NodeType) {
    kind.SuccessorChainUpdated? || kind.SuccessionConfigDeclared?
  }

  /** Cultivation events, applied until one is malformed. */
  function Recultivate(f: Facts, nodes: Log): Facts
    decreases |nodes|
  {
    if |nodes| == 0 then f
    else if IsCultivationFact(nodes[0].kind) then
      match Apply(f, nodes[0], None)
      case Ok(g) => Recultivate(g, nodes[1..])
      case Err(_) => f
    else Recultivate(f, nodes[1..])
  }

  /** The error of the first malformed cultivation event, if there is one. */
  function FirstFault(nodes: Log): Result<(), ReplayError>
    decreases |nodes|
  {
    if |nodes| == 0 then Ok(())
    else
      match nodes[0].kind
      case SuccessorChainUpdated(_) => (var e :- SuccessorOf(nodes[0]); FirstFault(nodes[1..]))
      case SuccessionConfigDeclared => (var c :- ConfigOf(nodes[0]); FirstFault(nodes[1..]))
      case _ => FirstFault(nodes[1..])
  }

  /** The fields after rederive_cultivation_from_dag; a malformed event ends it with what it has. */
  function RederiveCultivation(f: Facts, log: Log): Facts {
    Recultivate(f.(successorChain := [], successionConfig := None), log)
  }

  // -------------------------------------------------------------------------
  // The class
  // -------------------------------------------------------------------------

  class DerivedState {
    var substrateId: Option<Id>
    var genesisTime: Option<int>
    var generationDepth: nat
    var cycleCounter: nat
    var lastAbsorbed: Option<nat>
    var history: seq<Value>
    var migration: Option<MigrationCandidate>
    var successorChain: seq<SuccessorEntry>
    var successionConfig: Option<SuccessionConfig>

    function View(): Facts
      reads this
    {
      Facts(substrateId, genesisTime, generationDepth, cycleCounter, lastAbsorbed, history, migration,
            successorChain, successionConfig)
    }

    constructor (f: Facts)
      ensures View() == f
    {
      substrateId := f.substrateId;
      genesisTime := f.genesisTime;
      generationDepth := f.generationDepth;
      cycleCounter := f.cycleCounter;
      lastAbsorbed := f.lastAbsorbed;
      history := f.history;
      migration := f.migration;
      successorChain := f.successorChain;
      successionConfig := f.successionConfig;
    }

    method ApplyGenesisEvent(n: Node) returns (r: Result<(), ReplayError>)
      modifies this`substrateId, this`genesisTime, this`generationDepth
      ensures r.Ok? ==> ApplyGenesis(old(View()), n) == Ok(View())
      ensures r.Err? ==> ApplyGenesis(old(View()), n) == Err(r.error)
    {
      if substrateId.Some? { return Err(MultipleGenesis); }
      if !n.content.GenesisBody? || n.content.substrateId.None? || |n.content.substrateId.value| != 32 {
        return Err(BadField(n.kind));
      }
      substrateId := Some(n.content.substrateId.value);
      if n.content.genesisTime.None? { return Err(BadField(n.kind)); }
      genesisTime := n.content.genesisTime;
      generationDepth := match n.content.depth case Some(d) => d case None => 0;
      r := Ok(());
    }

    method ApplyAbsorptionEvent(n: Node, dag: Option<Log>) returns (r: Result<(), ReplayError>)
      modifies this`lastAbsorbed
      ensures r.Ok? ==> ApplyAbsorption(old(View()), n, dag) == Ok(View())
      ensures r.Err? ==> ApplyAbsorption(old(View()), n, dag) == Err(r.error) && View() == old(View())
    {
      if !n.content.AbsorptionBody? || n.content.cycle.None? { return Err(BadField(n.kind)); }
      var resolved := MaxAbsorbedCreatedAt(n.content, dag);
      var effective := if resolved.Some? then resolved.value else n.content.cycle.value;
      lastAbsorbed := Some(if lastAbsorbed.Some? && lastAbsorbed.value > effective then lastAbsorbed.value
          else effective);
      r := Ok(());
    }

    method ApplyEventWithDag(n: Node, dag: Option<Log>) returns (r: Result<(), ReplayError>)
      modifies this
      ensures r.Ok? ==> Apply(old(View()), n, dag) == Ok(View())
      ensures r.Err? ==> Apply(old(View()), n, dag) == Err(r.error)
      ensures r.Err? && !n.kind.GenesisEvent? ==> View() == old(View())
    {
      r := Ok(());
      if n.kind.GenesisEvent? {
        r := ApplyGenesisEvent(n);
      } else if n.kind.CycleAdvanced? {
        if !n.content.CycleAdvancedBody? || n.content.newCycle.None? { return Err(BadField(n.kind)); }
        cycleCounter := n.content.newCycle.value;
      } else if n.kind.AbsorptionEvent? {
        r := ApplyAbsorptionEvent(n, dag);
      } else if n.kind.MigrationStarted? {
        var c :- CandidateOf(n);
        migration := Some(c);
      } else if n.kind.MigrationCommitted? || n.kind.MigrationRolledBack? {
        migration := None;
      } else if n.kind.SuccessorChainUpdated? {
        var e :- SuccessorOf(n);
        successorChain := successorChain + [e];
      } else if n.kind.SuccessionConfigDeclared? {
        var c :- ConfigOf(n);
        successionConfig := Some(c);
      }
    }

    method RederiveCultivationFromDag(log: Log) returns (r: Result<(), ReplayError>)
      modifies this
      ensures View() == RederiveCultivation(old(View()), log)
      ensures r == FirstFault(log)
    {
      successorChain, successionConfig := [], None;
      ghost var start := View();
      assert log[0..] == log;
      for i := 0 to |log|
        invariant Recultivate(View(), log[i..]) == Recultivate(start, log)
        invariant FirstFault(log[i..]) == FirstFault(log)
      {
        assert log[i..][1..] == log[i + 1..];
        if IsCultivationFact(log[i].kind) {
          ghost var before := View();
          var applied := ApplyEventWithDag(log[i], None);
          if applied.Err? {
            assert View() == before;
            return applied;
          }
        }
      }
      r := Ok(());
    }
  }

  method DeriveFromDag(log: Log) returns (r: Result<DerivedState, ReplayError>)
    ensures r.Ok? ==> fresh(r.value) && FromDag(log) == Ok(r.value.View())
    ensures r.Err? ==> FromDag(log) == Err(r.error)
  {
    var state := new DerivedState(EMPTY_FACTS);
    for i := 0 to |log|
      invariant fresh(state)
      invariant Replay(EMPTY_FACTS, log[..i], Some(log)) == Ok(state.View())
    {
      assert log[..i + 1][..i] == log[..i];
      var applied := state.ApplyEventWithDag(log[i], Some(log));
      if applied.Err? {
        ReplayErrorSticks(EMPTY_FACTS, log, i + 1, Some(log));
        return Err(applied.error);
      }
    }
    assert log[..|log|] == log;
    r := Ok(state);
  }

  lemma ReplayErrorSticks(f: Facts, log: Log, k: nat, dag: Option<Log>)
    requires k <= |log| && Replay(f, log[..k], dag).Err?
    ensures Replay(f, log, dag) == Err(Replay(f, log[..k], dag).error)
  {
    ReplayConcat(f, log[..k], log[k..], dag);
    assert log[..k] + log[k..] == log;
  }
}
