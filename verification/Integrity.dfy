/** Cross-file integrity checks C32, C57 and C59 (substrate/src/integrity.rs), and why no reachable state fails them. */
module Integrity {
  import opened Prelude
  import opened Dag
  import opened Derived
  import opened Snapshot
  import opened Server
  import opened Invariants
  import opened RunTheorems

  // -------------------------------------------------------------------------
  // C57: genesis uniqueness
  // -------------------------------------------------------------------------

  function GenesisCount(log: Log): nat {
    if |log| == 0 then 0 else GenesisCount(log[..|log| - 1]) + if log[|log| - 1].kind.GenesisEvent? then 1 else 0
  }

  method CheckGenesisEventUniqueness(log: Log) returns (passed: bool, count: nat)
    ensures count == GenesisCount(log) && (passed <==> count <= 1)
  {
    count := 0;
    for i := 0 to |log|
      invariant count == GenesisCount(log[..i])
    {
      assert log[..i + 1][..i] == log[..i];
      if log[i].kind.GenesisEvent? {
        count := count + 1;
      }
    }
    assert log[..|log|] == log;
    passed := count <= 1;
  }

  /** A log replays only with one genesis at most, and knows its identity exactly when it has one. */
  lemma {:induction false} ReplayedGenesisIsUnique(nodes: Log, dag: Option<Log>)
    requires Replay(EMPTY_FACTS, nodes, dag).Ok?
    ensures GenesisCount(nodes) == if Replay(EMPTY_FACTS, nodes, dag).value.substrateId.Some? then 1 else 0
    decreases |nodes|
  {
    if |nodes| > 0 {
      var front := nodes[..|nodes| - 1];
      ReplayedGenesisIsUnique(front, dag);
      assert Replay(EMPTY_FACTS, nodes, dag) == Apply(Replay(EMPTY_FACTS, front, dag).value, nodes[|nodes| - 1], dag);
    }
  }

  // -------------------------------------------------------------------------
  // C59: the counter against the spans
  // -------------------------------------------------------------------------

  /** u64::saturating_add. */
  function SatAdd(x: nat, y: nat): nat {
    if x + y < U64_MAX then x + y else U64_MAX
  }

  /** |counter - spans| <= 1, the sum of the spans stopping at the u64 maximum. */
  predicate CounterMatches(counter: nat, spans: nat) {
    var total := if spans < 0xFFFF_FFFF_FFFF_FFFF then spans else 0xFFFF_FFFF_FFFF_FFFF;
    -1 <= counter - total <= 1
  }

  method CheckManifestCycleVsDagAdvanceCount(state: ServerState) returns (passed: bool)
    ensures passed <==> CounterMatches(state.cycleCounter, SpanSum(state.dag))
  {
    var sum := 0;
    for i := 0 to |state.dag|
      invariant sum == SatAdd(SpanSum(state.dag[..i]), 0)
    {
      assert state.dag[..i + 1][..i] == state.dag[..i];
      var n := state.dag[i];
      if n.kind.CycleAdvanced? {
        if n.content.CycleAdvancedBody? && n.content.priorCycle.Some? && n.content.newCycle.Some? {
          sum := SatAdd(sum, SatSub(n.content.newCycle.value, n.content.priorCycle.value));
        } else {
          sum := SatAdd(sum, 1);
        }
      }
    }
    assert state.dag[..|state.dag|] == state.dag;
    passed := -1 <= state.cycleCounter - sum <= 1;
  }

  // -------------------------------------------------------------------------
  // C32: live fields against the fold
  // -------------------------------------------------------------------------

  /** A missing live identifier reads as all zeros. */
  predicate LiveIdIs(f: Facts, id: Id) {
    match f.substrateId case Some(b) => b == id case None => IsZero(id)
  }

  /** The comparison C32 makes; it tolerates what an old log never recorded. */
  predicate Reconciles(f: Facts, derived: Result<Facts, ReplayError>) {
    && derived.Ok?
    && var d := derived.value;
       && (d.substrateId.Some? ==> LiveIdIs(f, d.substrateId.value))
       && (d.genesisTime.Some? ==> d.genesisTime.value == match f.genesisTime case Some(t) => t case None => 0)
       && (d.cycleCounter > 0 || d.substrateId.Some? ==> d.cycleCounter == f.cycleCounter)
       && (d.lastAbsorbed.Some? ==> d.lastAbsorbed == f.lastAbsorbed)
  }

  method CheckSubstrateStateOrphans(state: ServerState) returns (passed: bool, divergences: nat)
    ensures passed <==> Reconciles(state.View().facts, FromDag(state.dag))
  {
    divergences := 0;
    var derived := DeriveFromDag(state.dag);
    if derived.Err? { return false, 0; }
    var d := derived.value;
    if d.substrateId.Some? {
      var same := if state.substrateId.Some? then state.substrateId.value == d.substrateId.value
          else IsZero(d.substrateId.value);
      if !same { divergences := divergences + 1; }
    }
    if d.genesisTime.Some? {
      var live := if state.genesisTime.Some? then state.genesisTime.value else 0;
      if d.genesisTime.value != live { divergences := divergences + 1; }
    }
    if (d.cycleCounter > 0 || d.substrateId.Some?) && d.cycleCounter != state.cycleCounter {
      divergences := divergences + 1;
    }
    if d.lastAbsorbed != state.lastAbsorbed && d.lastAbsorbed.Some? {
      divergences := divergences + 1;
    }
    passed := divergences == 0;
  }

  /** In every reachable state the three checks pass, C59 with no use of its tolerance. */
  lemma ChecksPass(s: Live)
    requires Reachable(s)
    ensures GenesisCount(s.dag) == 1
    ensures Reconciles(s.facts, FromDag(s.dag))
    ensures SpanSum(s.dag) == s.facts.cycleCounter
    ensures s.facts.cycleCounter <= U64_MAX ==> CounterMatches(s.facts.cycleCounter, SpanSum(s.dag))
  {
    ReachableIsReady(s);
    LiveIsFold(s);
    ReplayedGenesisIsUnique(s.dag, Some(s.dag));
  }
}
