/** What replaying a log gives, field by field, for every log, readable or not; and which snapshots a boot ignores. */
module FoldLaws {
  import opened Prelude
  import opened Dag
  import opened Derived
  import opened Snapshot

  // -------------------------------------------------------------------------
  // Which logs replay
  // -------------------------------------------------------------------------

  /** The event has every field its type needs. */
  predicate IsReadable(n: Node) {
    var c := n.content;
    match n.kind
    case GenesisEvent(_) =>
      c.GenesisBody? && c.substrateId.Some? && |c.substrateId.value| == 32 && c.genesisTime.Some?
    case CycleAdvanced => c.CycleAdvancedBody? && c.newCycle.Some?
    case AbsorptionEvent(_) => c.AbsorptionBody? && c.cycle.Some?
    case MigrationStarted(_) =>
      c.MigrationStartedBody? && c.op.Some? && c.diff.Some? && c.startedAt.Some? && c.window.Some? &&
      c.startedAtNs.Some?
    case SuccessorChainUpdated(_) =>
      c.SuccessorBody? && c.pubkey.Some? && |c.pubkey.value| == 32 && c.validFrom.Some?
    case SuccessionConfigDeclared =>
      c.ConfigBody? && c.cadence.Some? && c.legacyWindow.Some? && c.terminalWindow.Some? && c.choice.Some?
    case _ => true
  }

  ghost predicate AllReadable(nodes: Log) {
    forall i :: 0 <= i < |nodes| ==> IsReadable(nodes[i])
  }

  ghost predicate OneGenesis(nodes: Log) {
    forall i, j :: 0 <= i < j < |nodes| ==> !(nodes[i].kind.GenesisEvent? && nodes[j].kind.GenesisEvent?)
  }

  ghost predicate HasGenesis(nodes: Log) {
    exists i :: 0 <= i < |nodes| && nodes[i].kind.GenesisEvent?
  }

  /** One event more: readable, and no second genesis. */
  lemma LastReadable(nodes: Log)
    requires |nodes| > 0
    ensures var front, n := nodes[..|nodes| - 1], nodes[|nodes| - 1];
            && (AllReadable(nodes) <==> AllReadable(front) && IsReadable(n))
            && (OneGenesis(nodes) <==> OneGenesis(front) && !(n.kind.GenesisEvent? && HasGenesis(front)))
            && (HasGenesis(nodes) <==> HasGenesis(front) || n.kind.GenesisEvent?)
  {
    hide IsReadable;
    var last, front := |nodes| - 1, nodes[..|nodes| - 1];
    if AllReadable(front) && IsReadable(nodes[last]) {
      forall i | 0 <= i < |nodes|
        ensures IsReadable(nodes[i])
      {
        assert i < last ==> IsReadable(front[i]);
      }
    }
    if AllReadable(nodes) {
      assert forall i :: 0 <= i < last ==> IsReadable(nodes[i]);
    }
    if i :| 0 <= i < last && nodes[i].kind.GenesisEvent? {
      assert front[i].kind.GenesisEvent?;
    }
    if HasGenesis(front) {
      var i :| 0 <= i < last && front[i].kind.GenesisEvent?;
      assert nodes[i].kind.GenesisEvent?;
    }
    if OneGenesis(front) {
      forall i, j | 0 <= i < j < last
        ensures !(nodes[i].kind.GenesisEvent? && nodes[j].kind.GenesisEvent?)
      {
        assert front[i] == nodes[i] && front[j] == nodes[j];
      }
    }
    if OneGenesis(nodes) {
      forall i, j | 0 <= i < j < last
        ensures !(front[i].kind.GenesisEvent? && front[j].kind.GenesisEvent?)
      {
        assert front[i] == nodes[i] && front[j] == nodes[j];
      }
    }
  }

  /** A log replays exactly when every event is readable and no genesis follows another. */
  lemma {:induction false} ReplaysIff(nodes: Log, dag: Option<Log>)
    ensures Replay(EMPTY_FACTS, nodes, dag).Ok? <==> AllReadable(nodes) && OneGenesis(nodes)
    ensures Replay(EMPTY_FACTS, nodes, dag).Ok? ==>
              (Replay(EMPTY_FACTS, nodes, dag).value.substrateId.Some? <==> HasGenesis(nodes))
    decreases |nodes|
  {
    if |nodes| > 0 {
      hide AllReadable, OneGenesis, HasGenesis;
      ReplaysIff(nodes[..|nodes| - 1], dag);
      LastReadable(nodes);
    }
  }

  // -------------------------------------------------------------------------
  // What it replays to
  // -------------------------------------------------------------------------

  predicate MovesMigration(kind: NodeType) {
    kind.MigrationStarted? || kind.MigrationCommitted? || kind.MigrationRolledBack?
  }

  /** A start describes the candidate field by field; a terminal event leaves none. */
  predicate CandidateDescribed(n: Node, m: Option<MigrationCandidate>) {
    if n.kind.MigrationStarted? then
      && m.Some? && n.content.MigrationStartedBody? && n.content.op == Some(m.value.op)
      && n.content.diff == Some(m.value.diff) && n.content.startedAt == Some(m.value.startedAt)
      && n.content.window == Some(m.value.window) && n.content.startedAtNs == Some(m.value.startedAtNs)
    else m == None
  }

  predicate ConfigDeclared(n: Node, c: Option<SuccessionConfig>) {
    && c.Some? && n.content.ConfigBody? && n.content.cadence == Some(c.value.cadence)
    && n.content.legacyWindow == Some(c.value.legacyWindow)
    && n.content.terminalWindow == Some(c.value.terminalWindow) && n.content.choice == Some(c.value.choice)
  }

  predicate EntryRecorded(n: Node, e: SuccessorEntry) {
    && n.content.SuccessorBody? && n.content.pubkey == Some(e.pubkey) && n.content.validFrom == Some(e.validFrom)
    && n.content.validUntil == e.validUntil
  }

  /** Identity, time of birth and depth are the genesis event's; a root leaves its depth out. */
  predicate IsBornOf(n: Node, f: Facts) {
    && n.content.GenesisBody? && f.substrateId == n.content.substrateId && f.genesisTime == n.content.genesisTime
    && f.generationDepth == if n.content.depth.Some? then n.content.depth.value else 0
  }

  /** Which field each event sets, and to what. */
  lemma EventSets(f: Facts, n: Node, dag: Option<Log>)
    requires Apply(f, n, dag).Ok?
    ensures var g := Apply(f, n, dag).value;
            && (if n.kind.GenesisEvent? then f.substrateId.None? && IsBornOf(n, g)
                else g.substrateId == f.substrateId && g.genesisTime == f.genesisTime &&
                     g.generationDepth == f.generationDepth)
            && (if n.kind.CycleAdvanced?
                then n.content.CycleAdvancedBody? && n.content.newCycle == Some(g.cycleCounter)
                else g.cycleCounter == f.cycleCounter)
            && (if MovesMigration(n.kind) then CandidateDescribed(n, g.migration) else g.migration == f.migration)
            && (if n.kind.SuccessionConfigDeclared? then ConfigDeclared(n, g.successionConfig)
                else g.successionConfig == f.successionConfig)
            && (if n.kind.SuccessorChainUpdated?
                then |g.successorChain| == |f.successorChain| + 1 && f.successorChain <= g.successorChain &&
                     EntryRecorded(n, g.successorChain[|f.successorChain|])
                else g.successorChain == f.successorChain)
  {
  }

  /** The last event that satisfies some property, told by where it is. */
  predicate IsLatest(nodes: Log, moves: NodeType -> bool, i: nat) {
    i < |nodes| && moves(nodes[i].kind) && forall j :: i < j < |nodes| ==> !moves(nodes[j].kind)
  }

  lemma LatestBefore(nodes: Log, moves: NodeType -> bool, i: nat)
    requires IsLatest(nodes, moves, i) && i < |nodes| - 1
    ensures IsLatest(nodes[..|nodes| - 1], moves, i) && !moves(nodes[|nodes| - 1].kind)
  {
  }

  lemma {:induction false} IdentityIsGenesis(nodes: Log, dag: Option<Log>, i: nat)
    requires Replay(EMPTY_FACTS, nodes, dag).Ok? && i < |nodes| && nodes[i].kind.GenesisEvent?
    ensures IsBornOf(nodes[i], Replay(EMPTY_FACTS, nodes, dag).value)
    decreases |nodes|
  {
    hide Apply;
    var front := nodes[..|nodes| - 1];
    EventSets(Replay(EMPTY_FACTS, front, dag).value, nodes[|nodes| - 1], dag);
    if i < |front| {
      IdentityIsGenesis(front, dag, i);
      ReplaysIff(front, dag);
      assert front[i].kind.GenesisEvent?;
    }
  }

  /** The counter is where the last cycle_advanced event left it. */
  lemma {:induction false} CounterIsLast(nodes: Log, dag: Option<Log>, i: nat)
    requires Replay(EMPTY_FACTS, nodes, dag).Ok? && IsLatest(nodes, (kind: NodeType) => kind.CycleAdvanced?, i)
    ensures nodes[i].content.CycleAdvancedBody?
    ensures nodes[i].content.newCycle == Some(Replay(EMPTY_FACTS, nodes, dag).value.cycleCounter)
    decreases |nodes|
  {
    hide Apply;
    var front := nodes[..|nodes| - 1];
    EventSets(Replay(EMPTY_FACTS, front, dag).value, nodes[|nodes| - 1], dag);
    if i < |front| {
      LatestBefore(nodes, (kind: NodeType) => kind.CycleAdvanced?, i);
      CounterIsLast(front, dag, i);
    }
  }

  /** The candidate is what the last start describes; none once a terminal event follows it. */
  lemma {:induction false} CandidateIsLastStart(nodes: Log, dag: Option<Log>, i: nat)
    requires Replay(EMPTY_FACTS, nodes, dag).Ok? && IsLatest(nodes, MovesMigration, i)
    ensures CandidateDescribed(nodes[i], Replay(EMPTY_FACTS, nodes, dag).value.migration)
    decreases |nodes|
  {
    hide Apply, CandidateDescribed;
    var front := nodes[..|nodes| - 1];
    EventSets(Replay(EMPTY_FACTS, front, dag).value, nodes[|nodes| - 1], dag);
    if i < |front| {
      LatestBefore(nodes, MovesMigration, i);
      CandidateIsLastStart(front, dag, i);
    }
  }

  /** The succession configuration is the last one declared. */
  lemma {:induction false} ConfigIsLast(nodes: Log, dag: Option<Log>, i: nat)
    requires Replay(EMPTY_FACTS, nodes, dag).Ok?
    requires IsLatest(nodes, (kind: NodeType) => kind.SuccessionConfigDeclared?, i)
    ensures ConfigDeclared(nodes[i], Replay(EMPTY_FACTS, nodes, dag).value.successionConfig)
    decreases |nodes|
  {
    hide Apply, ConfigDeclared;
    var front := nodes[..|nodes| - 1];
    EventSets(Replay(EMPTY_FACTS, front, dag).value, nodes[|nodes| - 1], dag);
    if i < |front| {
      LatestBefore(nodes, (kind: NodeType) => kind.SuccessionConfigDeclared?, i);
      ConfigIsLast(front, dag, i);
    }
  }

  /** With no event that sets them, counter, candidate and configuration are those of an empty log. */
  lemma {:induction false} UnsetIsEmpty(nodes: Log, dag: Option<Log>)
    requires Replay(EMPTY_FACTS, nodes, dag).Ok?
    ensures var f := Replay(EMPTY_FACTS, nodes, dag).value;
            && ((forall i :: 0 <= i < |nodes| ==> !nodes[i].kind.CycleAdvanced?) ==> f.cycleCounter == 0)
            && ((forall i :: 0 <= i < |nodes| ==> !MovesMigration(nodes[i].kind)) ==> f.migration == None)
            && ((forall i :: 0 <= i < |nodes| ==> !nodes[i].kind.SuccessionConfigDeclared?) ==>
                  f.successionConfig == None)
    decreases |nodes|
  {
    if |nodes| > 0 {
      hide Apply;
      var front := nodes[..|nodes| - 1];
      EventSets(Replay(EMPTY_FACTS, front, dag).value, nodes[|nodes| - 1], dag);
      UnsetIsEmpty(front, dag);
    }
  }

  /** Where the chain events among the first k nodes are. */
  function ChainEvents(nodes: Log, k: nat): set<nat> {
    set i: nat | i < k && i < |nodes| && nodes[i].kind.SuccessorChainUpdated?
  }

  lemma ChainEventsOfFront(nodes: Log, k: nat)
    requires k < |nodes|
    ensures ChainEvents(nodes[..|nodes| - 1], k) == ChainEvents(nodes, k)
    ensures ChainEvents(nodes, k + 1) ==
            ChainEvents(nodes, k) + if nodes[k].kind.SuccessorChainUpdated? then {k} else {}
  {
  }

  lemma {:induction false} ChainLength(nodes: Log, dag: Option<Log>)
    requires Replay(EMPTY_FACTS, nodes, dag).Ok?
    ensures |Replay(EMPTY_FACTS, nodes, dag).value.successorChain| == |ChainEvents(nodes, |nodes|)|
    decreases |nodes|
  {
    if |nodes| == 0 {
      assert ChainEvents(nodes, 0) == {};
    } else {
      hide Apply;
      var last, front := |nodes| - 1, nodes[..|nodes| - 1];
      EventSets(Replay(EMPTY_FACTS, front, dag).value, nodes[last], dag);
      ChainLength(front, dag);
      ChainEventsOfFront(nodes, last);
    }
  }

  /** The chain has one entry for every chain event, at its turn, with that event's fields. */
  lemma {:induction false} ChainIsRecorded(nodes: Log, dag: Option<Log>, i: nat)
    requires Replay(EMPTY_FACTS, nodes, dag).Ok? && i < |nodes| && nodes[i].kind.SuccessorChainUpdated?
    ensures var chain := Replay(EMPTY_FACTS, nodes, dag).value.successorChain;
            && |chain| == |ChainEvents(nodes, |nodes|)|
            && |ChainEvents(nodes, i)| < |chain| && EntryRecorded(nodes[i], chain[|ChainEvents(nodes, i)|])
    decreases |nodes|
  {
    hide Apply, EntryRecorded;
    var last, front := |nodes| - 1, nodes[..|nodes| - 1];
    EventSets(Replay(EMPTY_FACTS, front, dag).value, nodes[last], dag);
    ChainLength(nodes, dag);
    ChainLength(front, dag);
    ChainEventsOfFront(nodes, i);
    if i < last {
      ChainIsRecorded(front, dag, i);
    }
  }

  /** Node k of the log is absorbed by event n. */
  predicate Absorbs(n: Node, log: Log, k: nat) {
    && k < |log| && n.kind.AbsorptionEvent? && n.content.AbsorptionBody? && n.content.absorbed.Some?
    && HashOf(log[k]) in n.content.absorbed.value
  }

  /** The greatest creation cycle among the hashes that are in the log. */
  lemma {:induction false} GreatestResolved(hashes: seq<Hash>, log: Log)
    requires WellFormed(log)
    ensures MaxCreatedAt(hashes, log).Some? <==> exists k :: 0 <= k < |log| && HashOf(log[k]) in hashes
    ensures MaxCreatedAt(hashes, log).Some? ==>
      exists k :: 0 <= k < |log| && HashOf(log[k]) in hashes && log[k].cycle == MaxCreatedAt(hashes, log).value
    ensures forall k :: 0 <= k < |log| && HashOf(log[k]) in hashes ==> log[k].cycle <= MaxCreatedAt(hashes, log).value
    decreases |hashes|
  {
    if |hashes| > 0 {
      var last, front := hashes[|hashes| - 1], hashes[..|hashes| - 1];
      GreatestResolved(front, log);
      assert hashes == front + [last];
      if Lookup(log, last).Some? {
        var j :| 0 <= j < |log| && log[j] == Lookup(log, last).value;
        assert forall k :: 0 <= k < |log| && HashOf(log[k]) == last ==> k == j;
      }
    }
  }

  /** The event absorbs a node of this cycle, or resolves nothing and has it in its body. */
  ghost predicate Reaches(n: Node, log: Log, mark: nat) {
    n.kind.AbsorptionEvent? &&
    ((exists k: nat :: Absorbs(n, log, k) && log[k].cycle == mark) ||
     ((forall k: nat :: !Absorbs(n, log, k)) && n.content.AbsorptionBody? && n.content.cycle == Some(mark)))
  }

  /** One event's part in the mark: the greatest cycle it absorbs, or its own if it resolves nothing. */
  lemma EventMarks(f: Facts, n: Node, log: Log) returns (own: nat)
    requires WellFormed(log) && Apply(f, n, Some(log)).Ok?
    ensures var g := Apply(f, n, Some(log)).value;
            if n.kind.AbsorptionEvent?
            then g.lastAbsorbed == Some(if f.lastAbsorbed.Some? && f.lastAbsorbed.value > own
                                        then f.lastAbsorbed.value else own)
            else g.lastAbsorbed == f.lastAbsorbed
    ensures n.kind.AbsorptionEvent? ==>
              (forall k: nat :: Absorbs(n, log, k) ==> log[k].cycle <= own) && Reaches(n, log, own)
  {
    own := 0;
    if n.kind.AbsorptionEvent? {
      var resolved := MaxAbsorbedCreatedAt(n.content, Some(log));
      own := if resolved.Some? then resolved.value else n.content.cycle.value;
      if n.content.absorbed.Some? {
        GreatestResolved(n.content.absorbed.value, log);
      }
    }
  }

  /** The absorbed mark is the greatest creation cycle of all that was ever absorbed. */
  lemma {:induction false} MarkIsGreatest(nodes: Log, log: Log)
    requires WellFormed(log) && Replay(EMPTY_FACTS, nodes, Some(log)).Ok?
    ensures var mark := Replay(EMPTY_FACTS, nodes, Some(log)).value.lastAbsorbed;
            && (mark.Some? <==> exists i :: 0 <= i < |nodes| && nodes[i].kind.AbsorptionEvent?)
            && (forall i, k: nat :: 0 <= i < |nodes| && Absorbs(nodes[i], log, k) ==> log[k].cycle <= mark.value)
            && (mark.Some? ==> exists i :: 0 <= i < |nodes| && Reaches(nodes[i], log, mark.value))
    decreases |nodes|
  {
    hide Apply, Reaches;
    if |nodes| > 0 {
      var front, n := nodes[..|nodes| - 1], nodes[|nodes| - 1];
      MarkIsGreatest(front, log);
      var own := EventMarks(Replay(EMPTY_FACTS, front, Some(log)).value, n, log);
      if i :| 0 <= i < |front| && front[i].kind.AbsorptionEvent? {
        var before := Replay(EMPTY_FACTS, front, Some(log)).value.lastAbsorbed;
        var j :| 0 <= j < |front| && Reaches(front[j], log, before.value);
        assert nodes[i] == front[i] && nodes[j] == front[j];
      }
    }
  }

  // -------------------------------------------------------------------------
  // Snapshots a boot ignores
  // -------------------------------------------------------------------------

  /** The snapshot reads back, and its tip is in the log: none for an empty log only. */
  ghost predicate IsUsable(log: Log, v: Value) {
    && Decode(v).Ok? && Decode(v).value.Some?
    && match Decode(v).value.value.tip
       case None => |log| == 0
       case Some(h) => Has(log, h)
  }

  /** A snapshot that does not read back, or whose tip is not in the log, changes nothing about the boot. */
  lemma UnusableIsIgnored(log: Log, v: Value)
    requires !IsUsable(log, v)
    ensures Boot(log, Some(v)) == Boot(log, None)
  {
  }
}
