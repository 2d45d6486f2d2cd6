/**
 The append-only causal log (kernel/schema/src/dag.rs).

 A log is the sequence of nodes in insertion order; its tip is the last one. A
 node's identity is its Merkle hash over parents and content (the node type and
 the cycle are not hashed). The digest is modelled as a free term, so two hashes
 are equal exactly when the hashed parents and content are.

 Node types are text in the source, told apart by their prefix; here each prefix
 the model looks at is a constructor that carries the text after it.
 */
module Dag {
  import opened Prelude

  type Bytes = seq<int>

  datatype Hash = Digest(parents: seq<Hash>, content: Content)

  datatype NodeType =
    | GenesisEvent(id: string)
    | CycleAdvanced
    | RawMaterial(name: string)
    | Sporocarp(name: string)
    | AbsorptionEvent(atCycle: nat)
    | ForgedUnderstanding(name: string)
    | AxisRegistered(axis: string)
    | AxisPerturbed(axis: string)
    | AxisReset(axis: string)
    | EvolutionSucceeded(op: string)
    | EvolutionFailed(op: string)
    | MigrationStarted(op: string)
    | MigrationCycleValidated(op: string)
    | MigrationCommitted(op: string)
    | MigrationRolledBack(op: string)
    | InternalMortality(category: string)
    | SuccessorChainUpdated(id: string)
    | SuccessionConfigDeclared
    | SuccessionCompleted(id: string)
    | CultivationOrphaned(id: string)
    | CultivationRecovered(id: string)
    | BetRetired(name: string)
    | PeerPinned(id: string)
    | PopulationVote(claimType: string)
    | ConsensusReached(claimType: string)
    | ConsensusPending(claimType: string)
    | ByzantineThresholdCheck(claimType: string)
    | SporeEmission(id: string)
    | GenesisAttested(id: string)
    | BudgetExhausted(axis: string)
    | SelfEuthanasiaProposal(axis: string)
    | Immune(detector: string)
    | Protected(name: string)  // any other type in the P10 invariant set
    | Other(name: string)      // any other type outside it

  datatype CertVote = CertVote(voter: Bytes, signature: Bytes, tip: Option<Hash>)

  /** Event bodies. A field the decoder may find missing or ill-typed is an Option. */
  datatype Content =
    | Opaque(bytes: Bytes)
    | GenesisBody(substrateId: Option<Bytes>, genesisTime: Option<int>, depth: Option<nat>)
    | CycleAdvancedBody(priorCycle: Option<nat>, newCycle: Option<nat>)
    | AbsorptionBody(cycle: Option<nat>, absorbed: Option<seq<Hash>>)
    | MigrationStartedBody(op: Option<string>, diff: Option<Bytes>, startedAt: Option<nat>,
                           window: Option<nat>, startedAtNs: Option<int>)
    | MigrationTerminalBody(terminalOp: string, atCycle: nat)
    | SuccessorBody(pubkey: Option<Bytes>, validFrom: Option<int>, validUntil: Option<int>)
    | ConfigBody(cadence: Option<nat>, legacyWindow: Option<nat>, terminalWindow: Option<nat>, choice: Option<string>)
    | TombstoneBody(ruleId: string, killed: Option<Hash>, replacedBy: Option<Hash>, emittedAt: nat)
    | PlateBody(text: Bytes, worth: Option<nat>, confidence: Option<nat>, supersedes: Option<seq<Hash>>)
    | PinBody(peer: Bytes, pinnedKey: Option<Bytes>)
    | VoteBody(voteClaim: string, voteHash: Bytes, votePayload: Bytes, voteRound: nat, voter: Bytes,
               signature: Bytes, voterTip: Option<Hash>)
    | CertBody(certClaim: string, certHash: Bytes, certPayload: Bytes, certRound: nat, certN: nat,
               certVotes: seq<CertVote>)
    | SpawnBody(anchorTs: Option<int>)

  datatype Node = Node(parents: seq<Hash>, kind: NodeType, cycle: nat, content: Content)

  type Log = seq<Node>

  function HashOf(n: Node): Hash {
    Digest(n.parents, n.content)
  }

  function Tip(log: Log): Option<Hash> {
    if |log| == 0 then None else Some(HashOf(log[|log| - 1]))
  }

  predicate Has(log: Log, h: Hash) {
    exists i :: 0 <= i < |log| && HashOf(log[i]) == h
  }

  /** One of the first k nodes has this hash. */
  predicate HasBefore(log: Log, k: nat, h: Hash)
    requires k <= |log|
  {
    exists i :: 0 <= i < k && HashOf(log[i]) == h
  }

  /** Some node lists h among its parents. */
  predicate References(log: Log, h: Hash) {
    exists i :: 0 <= i < |log| && h in log[i].parents
  }

  /** What insertion guarantees: hashes are distinct and every parent was inserted earlier. */
  ghost predicate WellFormed(log: Log) {
    && (forall i, j :: 0 <= i < j < |log| ==> HashOf(log[i]) != HashOf(log[j]))
    && (forall i, p :: 0 <= i < |log| && p in log[i].parents ==> HasBefore(log, i, p))
  }

  /** Node i is node j itself or one of its ancestors. */
  ghost predicate Reaches(log: Log, j: nat, i: nat)
    requires j < |log|
    decreases j
  {
    i == j || exists k :: 0 <= k < j && HashOf(log[k]) in log[j].parents && Reaches(log, k, i)
  }

  /** The node a hash names, as Dag::get. */
  function Lookup(log: Log, h: Hash): (r: Option<Node>)
    ensures r.Some? ==> r.value in log && HashOf(r.value) == h
    ensures r.None? ==> !Has(log, h)
  {
    if |log| == 0 then None
    else if HashOf(log[0]) == h then Some(log[0])
    else Lookup(log[1..], h)
  }

  // -------------------------------------------------------------------------
  // Insertion
  // -------------------------------------------------------------------------

  datatype InsertError = ParentNotFound

  /**
   Dag::insert_node. The hash is computed before the lookup, and a node with the
   same parents and content is silently kept, whatever its type and cycle were.
   The free digest leaves no collision case.
   */
  function InsertNode(log: Log, parents: seq<Hash>, kind: NodeType, cycle: nat, content: Content)
    : Result<Log, InsertError>
  {
    if exists p :: p in parents && !Has(log, p) then Err(ParentNotFound)
    else if Has(log, Digest(parents, content)) then Ok(log)
    else Ok(log + [Node(parents, kind, cycle, content)])
  }

  /**
   Whatever is inserted, hashes stay distinct and parents earlier: insertion fails exactly for a missing
   parent, leaves the log as it is exactly for a hash it has, and else adds the one node.
   */
  lemma InsertKeepsWellFormed(log: Log, parents: seq<Hash>, kind: NodeType, cycle: nat, content: Content)
    requires WellFormed(log)
    ensures var r := InsertNode(log, parents, kind, cycle, content);
            && (r.Err? <==> exists p :: p in parents && forall i :: 0 <= i < |log| ==> HashOf(log[i]) != p)
            && (r.Ok? ==> WellFormed(r.value) && Has(r.value, Digest(parents, content)))
            && (r.Ok? ==> r.value == log || r.value == log + [Node(parents, kind, cycle, content)])
            && (r.Ok? && Has(log, Digest(parents, content)) ==> r.value == log)
  {
    var longer := log + [Node(parents, kind, cycle, content)];
    assert HashOf(longer[|log|]) == Digest(parents, content);
    if InsertNode(log, parents, kind, cycle, content).Ok? {
      forall p | p in parents
        ensures HasBefore(longer, |log|, p)
      {
        var i :| 0 <= i < |log| && HashOf(log[i]) == p;
        assert HashOf(longer[i]) == p;
      }
      forall i, p | 0 <= i < |log| && p in log[i].parents
        ensures HasBefore(longer, i, p)
      {
        var k :| 0 <= k < i && HashOf(log[k]) == p;
        assert HashOf(longer[k]) == p;
      }
    }
  }

  /** [tip] followed by those extra parents that are not already listed. */
  function WithTip(log: Log, extra: seq<Hash>): seq<Hash> {
    AddMissing(match Tip(log) case Some(t) => [t] case None => [], extra)
  }

  function AddMissing(parents: seq<Hash>, extra: seq<Hash>): (r: seq<Hash>)
    ensures parents <= r
    ensures forall h :: h in r <==> h in parents || h in extra
    decreases |extra|
  {
    if |extra| == 0 then parents
    else if extra[0] in parents then AddMissing(parents, extra[1..])
    else AddMissing(parents + [extra[0]], extra[1..])
  }

  lemma WithTipOne(log: Log, h: Hash)
    ensures WithTip(log, [h]) == var first := WithTip(log, []); if h in first then first else first + [h]
  {
    var first := WithTip(log, []);
    assert AddMissing(first, [h]) == AddMissing(if h in first then first else first + [h], [h][1..]);
  }

  /** The log after a node parented by the tip and by `extra`. */
  function Append(log: Log, extra: seq<Hash>, kind: NodeType, cycle: nat, content: Content): Log {
    log + [Node(WithTip(log, extra), kind, cycle, content)]
  }

  lemma PrefixHas(a: Log, b: Log, h: Hash)
    requires a <= b && Has(a, h)
    ensures Has(b, h)
  {
    var i :| 0 <= i < |a| && HashOf(a[i]) == h;
    assert HashOf(b[i]) == h;
  }

  lemma WellFormedPrefix(log: Log, k: nat)
    requires WellFormed(log) && k <= |log|
    ensures WellFormed(log[..k])
  {
    forall i, p | 0 <= i < k && p in log[..k][i].parents
      ensures HasBefore(log[..k], i, p)
    {
      var m :| 0 <= m < i && HashOf(log[m]) == p;
      assert HashOf(log[..k][m]) == p;
    }
  }

  /** Parents come first, so no node has the last one as a parent. */
  lemma TipUnreferenced(log: Log)
    requires WellFormed(log) && |log| > 0
    ensures !References(log, HashOf(log[|log| - 1]))
  {
  }

  /**
   A node parented by the tip is always new: nothing inserted earlier can have the
   current tip as a parent. So insertion appends exactly one node and never takes
   the silent no-op branch.
   */
  lemma TipParentedInsertAppends(log: Log, extra: seq<Hash>, kind: NodeType, cycle: nat, content: Content)
    requires WellFormed(log)
    requires forall h :: h in extra ==> Has(log, h)
    ensures InsertNode(log, WithTip(log, extra), kind, cycle, content) == Ok(Append(log, extra, kind, cycle, content))
    ensures WellFormed(Append(log, extra, kind, cycle, content))
  {
    var parents := WithTip(log, extra);
    if |log| > 0 {
      TipUnreferenced(log);
      assert HashOf(log[|log| - 1]) in parents;
    }
    assert forall i :: 0 <= i < |log| ==> log[i].parents != parents;
    assert forall p :: p in parents ==> HasBefore(log, |log|, p);
    AppendWellFormed(log, Node(parents, kind, cycle, content));
  }

  lemma AppendWellFormed(log: Log, n: Node)
    requires WellFormed(log) && !Has(log, HashOf(n))
    requires forall p :: p in n.parents ==> HasBefore(log, |log|, p)
    ensures WellFormed(log + [n])
  {
    var log' := log + [n];
    forall i, p | 0 <= i < |log'| && p in log'[i].parents
      ensures HasBefore(log', i, p)
    {
      assert HasBefore(log, i, p);
      var k :| 0 <= k < i && HashOf(log[k]) == p;
      assert HashOf(log'[k]) == p;
    }
    forall i, j | 0 <= i < j < |log'|
      ensures HashOf(log'[i]) != HashOf(log'[j])
    {
      assert HashOf(log'[i]) == HashOf(log[i]);
    }
  }

  // -------------------------------------------------------------------------
  // Ancestry
  // -------------------------------------------------------------------------

  lemma {:induction false} ReachesTransitive(log: Log, a: nat, b: nat, c: nat)
    requires a < |log| && b < |log| && Reaches(log, a, b) && Reaches(log, b, c)
    ensures Reaches(log, a, c)
    decreases a
  {
    if a != b {
      var k :| 0 <= k < a && HashOf(log[k]) in log[a].parents && Reaches(log, k, b);
      ReachesTransitive(log, k, b, c);
    }
  }

  lemma {:induction false} ReachesBackwards(log: Log, j: nat, i: nat)
    requires j < |log| && Reaches(log, j, i)
    ensures i <= j
    decreases j
  {
    if i != j {
      var k :| 0 <= k < j && HashOf(log[k]) in log[j].parents && Reaches(log, k, i);
      ReachesBackwards(log, k, i);
    }
  }

  /** A parent of node j is an earlier node, and j reaches it. */
  lemma ParentIsReached(log: Log, j: nat, i: nat)
    requires WellFormed(log) && i < |log| && j < |log| && HashOf(log[i]) in log[j].parents
    ensures i < j && Reaches(log, j, i)
  {
    var k :| 0 <= k < j && HashOf(log[k]) == HashOf(log[i]);
    assert k == i;
    assert Reaches(log, i, i);
  }

  /** A set of hashes closed under parents holds every ancestor of its members. */
  lemma {:induction false} ClosedHoldsAncestors(log: Log, closed: set<Hash>, j: nat, i: nat)
    requires j < |log| && i < |log| && HashOf(log[j]) in closed && Reaches(log, j, i)
    requires forall k, p :: 0 <= k < |log| && HashOf(log[k]) in closed && p in log[k].parents ==> p in closed
    ensures HashOf(log[i]) in closed
    decreases j
  {
    if i != j {
      var k :| 0 <= k < j && HashOf(log[k]) in log[j].parents && Reaches(log, k, i);
      ClosedHoldsAncestors(log, closed, k, i);
    }
  }
}
