/** What every reachable live state keeps, and how each kind of appended node keeps it. */
module Invariants {
  import opened Prelude
  import opened Dag
  import opened PruneRules
  import opened Mortality
  import opened Derived
  import opened Snapshot
  import opened Cultivation
  import opened Server
  import opened Ingest

  // -------------------------------------------------------------------------
  // Accounts kept in the log
  // -------------------------------------------------------------------------

  /** The cycles a cycle_advanced node spans; one if its body cannot be read. */
  function Span(n: Node): nat {
    if !n.kind.CycleAdvanced? then 0
    else if n.content.CycleAdvancedBody? && n.content.priorCycle.Some? && n.content.newCycle.Some?
    then SatSub(n.content.newCycle.value, n.content.priorCycle.value)
    else 1
  }

  function SpanSum(log: Log): nat {
    if |log| == 0 then 0 else SpanSum(log[..|log| - 1]) + Span(log[|log| - 1])
  }

  /** How often one event lists h as absorbed. */
  function Mentions(n: Node, h: Hash): nat {
    if ListsAbsorbed(n, h) then multiset(n.content.absorbed.value)[h] else 0
  }

  /** How often absorption events list h, counting repetitions inside one event. */
  function Listings(log: Log, h: Hash): nat {
    if |log| == 0 then 0 else Listings(log[..|log| - 1], h) + Mentions(log[|log| - 1], h)
  }

  /** The operation whose migration is open after the log. */
  function OpenOf(log: Log): Option<string> {
    if |log| == 0 then None
    else
      match log[|log| - 1].kind
      case MigrationStarted(op) => Some(op)
      case MigrationCommitted(_) => None
      case MigrationRolledBack(_) => None
      case _ => OpenOf(log[..|log| - 1])
  }

  /** A start with nothing open; a commit of what is open; a rollback of what is open,
      or a failed build with nothing open. */
  predicate BracketStep(open: Option<string>, n: Node) {
    match n.kind
    case MigrationStarted(op) => open == None && n.content.MigrationStartedBody? && n.content.op == Some(op)
    case MigrationCommitted(op) => open == Some(op)
    case MigrationRolledBack(op) => open == None || open == Some(op)
    case _ => true
  }

  predicate Bracketed(log: Log) {
    |log| > 0 ==> Bracketed(log[..|log| - 1]) && BracketStep(OpenOf(log[..|log| - 1]), log[|log| - 1])
  }

  ghost predicate NoPruneWithin(after: nat, last: nat) {
    forall c: nat :: after < c <= last ==> !ShouldRunPruneScan(c)
  }

  /** A batched span passes over no cycle that owes a prune scan. */
  ghost predicate SpanSkipsNoPrune(n: Node) {
    n.kind.CycleAdvanced? && n.content.CycleAdvancedBody? && n.content.priorCycle.Some? && n.content.newCycle.Some? ==>
      n.content.newCycle.value <= n.content.priorCycle.value + 1 ||
      NoPruneWithin(n.content.priorCycle.value, n.content.newCycle.value)
  }

  ghost predicate SpansSkipNoPrune(log: Log) {
    forall i :: 0 <= i < |log| ==> SpanSkipsNoPrune(log[i])
  }

  /** Whatever a plate supersedes is a plate of the log. */
  predicate IsGrounded(log: Log, n: Node) {
    n.kind.ForgedUnderstanding? && n.content.PlateBody? && n.content.supersedes.Some? ==>
      forall h :: h in n.content.supersedes.value ==> IsNodeOf(log, h, true)
  }

  /** Every plate supersedes only plates that were there before it. */
  predicate PlatesGrounded(log: Log) {
    |log| > 0 ==> PlatesGrounded(log[..|log| - 1]) && IsGrounded(log[..|log| - 1], log[|log| - 1])
  }

  // -------------------------------------------------------------------------
  // The invariant
  // -------------------------------------------------------------------------

  ghost predicate LogOk(log: Log) {
    && WellFormed(log) && AbsorbsParents(log) && TombstonesParentVictims(log)
    && Bracketed(log) && SpansSkipNoPrune(log) && PlatesGrounded(log)
  }

  /** The live fields are the fold over the log, up to the wall-clock start of an open migration. */
  ghost predicate Faithful(s: Live) {
    && FromDag(s.dag).Ok?
    && SameCore(false, s.facts, FromDag(s.dag).value)
    && SameCultivation(s.facts, FromDag(s.dag).value)
  }

  predicate IsMarked(cycle: nat, last: Option<nat>) {
    last.Some? && cycle <= last.value
  }

  /** Raw material at or below the absorbed mark is listed exactly once, raw material above it never. */
  predicate IsAccounted(s: Live, n: Node) {
    n.cycle <= s.facts.cycleCounter &&
        Listings(s.dag, HashOf(n)) == (if IsMarked(n.cycle, s.facts.lastAbsorbed) then 1 else 0)
  }

  ghost predicate AbsorbedOnce(s: Live) {
    && (forall i: nat :: i < |s.dag| && s.dag[i].kind.RawMaterial? ==> IsAccounted(s, s.dag[i]))
    && (s.facts.lastAbsorbed.Some? ==> s.facts.lastAbsorbed.value <= s.facts.cycleCounter)
  }

  ghost predicate Restorable(s: Live) {
    s.snapshot.Some? ==> exists k: nat :: IsSnapshotOf(false, s.snapshot.value, s.dag, k)
  }

  predicate Identified(f: Facts) {
    f.substrateId.Some? && !IsZero(f.substrateId.value) && f.genesisTime.Some?
  }

  ghost predicate Settled(s: Live) {
    && LogOk(s.dag) && Faithful(s) && AbsorbedOnce(s) && SpanSum(s.dag) == s.facts.cycleCounter
    && s.cultivation == CultivationOf(s.dag) && WellSpaced(s.facts.successorChain)
    && Restorable(s) && Identified(s.facts)
  }

  // -------------------------------------------------------------------------
  // Appending one node
  // -------------------------------------------------------------------------

  predicate IsNeutral(n: Node) {
    && !IsStateBearing(n.kind) && !n.kind.RawMaterial? && !n.kind.ForgedUnderstanding?
    && (n.content.TombstoneBody? && n.content.killed.Some? && n.kind.InternalMortality? ==>
        n.content.killed.value in n.parents)
  }

  /** The fold reads nothing beyond the node it applies. */
  lemma FromDagStep(log: Log, n: Node)
    requires WellFormed(log + [n]) && AbsorbsParents(log + [n])
    ensures FromDag(log + [n]) == match FromDag(log) case Ok(f) => Apply(f, n, Some(log + [n])) case Err(e) => Err(e)
  {
    ReplayIgnoresLaterNodes(EMPTY_FACTS, log, log + [n], |log|);
    assert log[..|log|] == log;
    assert (log + [n])[..|log|] == log;
  }

  lemma ParentsStep(log: Log, n: Node)
    requires AbsorbsParents(log) && TombstonesParentVictims(log) && SpansSkipNoPrune(log)
    requires forall h :: ListsAbsorbed(n, h) || Kills(n, h) ==> h in n.parents
    requires SpanSkipsNoPrune(n)
    ensures AbsorbsParents(log + [n]) && TombstonesParentVictims(log + [n]) && SpansSkipNoPrune(log + [n])
  {
  }

  lemma LogOkStep(log: Log, n: Node)
    requires LogOk(log) && WellFormed(log + [n])
    requires forall h :: ListsAbsorbed(n, h) || Kills(n, h) ==> h in n.parents
    requires BracketStep(OpenOf(log), n) && SpanSkipsNoPrune(n) && IsGrounded(log, n)
    ensures LogOk(log + [n])
  {
    ParentsStep(log, n);
    assert (log + [n])[..|log|] == log;
  }

  lemma AccountsStep(log: Log, n: Node)
    ensures SpanSum(log + [n]) == SpanSum(log) + Span(n)
    ensures forall h :: Listings(log + [n], h) == Listings(log, h) + Mentions(n, h)
    ensures OpenOf(log + [n]) == match n.kind case MigrationStarted(op) => Some(op)
                                 case MigrationCommitted(_) => None case MigrationRolledBack(_) => None
                                 case _ => OpenOf(log)
  {
    assert (log + [n])[..|log|] == log;
  }

  /** Only a hash of the log can be listed. */
  lemma {:induction false} UnlistedIfAbsent(log: Log, h: Hash)
    requires WellFormed(log) && AbsorbsParents(log) && !Has(log, h)
    ensures Listings(log, h) == 0
  {
    if |log| > 0 {
      var front := log[..|log| - 1];
      WellFormedPrefix(log, |log| - 1);
      if Has(front, h) {
        PrefixHas(front, log, h);
      }
      UnlistedIfAbsent(front, h);
      assert !HasBefore(log, |log| - 1, h);
    }
  }

  lemma RestorableExtends(s: Live, t: Live)
    requires Restorable(s) && s.dag <= t.dag && s.snapshot == t.snapshot
    ensures Restorable(t)
  {
    if s.snapshot.Some? {
      var k: nat :| IsSnapshotOf(false, s.snapshot.value, s.dag, k);
      assert t.dag[..k] == s.dag[..k];
      assert IsSnapshotOf(false, t.snapshot.value, t.dag, k);
    }
  }

  /** The state t is s with the node n appended and some facts changed; the log says the same of both. */
  ghost predicate AppendsTo(s: Live, t: Live, n: Node) {
    && t.dag == s.dag + [n] && WellFormed(t.dag)
    && t.snapshot == s.snapshot && t.cultivation == CultivationOf(t.dag)
    && (forall h :: ListsAbsorbed(n, h) || Kills(n, h) ==> h in n.parents)
    && BracketStep(OpenOf(s.dag), n) && SpanSkipsNoPrune(n) && IsGrounded(s.dag, n)
    && WellSpaced(t.facts.successorChain) && Identified(t.facts)
  }

  /** The facts moved as the fold moves them. */
  ghost predicate FactsFollow(f: Facts, g: Facts, n: Node, dag: Log) {
    && Apply(f, n, Some(dag)).Ok? && SameCore(false, g, Apply(f, n, Some(dag)).value)
    && SameCultivation(g, Apply(f, n, Some(dag)).value)
  }

  lemma FaithfulStep(s: Live, t: Live, n: Node)
    requires Settled(s) && AppendsTo(s, t, n) && FactsFollow(s.facts, t.facts, n, t.dag)
    ensures LogOk(t.dag) && Faithful(t) && Restorable(t)
  {
    LogOkStep(s.dag, n);
    FromDagStep(s.dag, n);
    ApplyKeepsCore(false, s.facts, FromDag(s.dag).value, n, Some(t.dag));
    ApplyKeepsCultivation(s.facts, FromDag(s.dag).value, n, Some(t.dag));
    RestorableExtends(s, t);
  }

  lemma ApplyKeepsCultivation(f: Facts, g: Facts, n: Node, dag: Option<Log>)
    requires SameCultivation(f, g) && Apply(f, n, dag).Ok? && Apply(g, n, dag).Ok?
    ensures SameCultivation(Apply(f, n, dag).value, Apply(g, n, dag).value)
  {
  }

  /** Nodes that absorb nothing and are not raw material leave the absorption account alone. */
  lemma AbsorbedOnceStep(s: Live, t: Live, n: Node)
    requires AbsorbedOnce(s) && t.dag == s.dag + [n] && !n.kind.RawMaterial? && !n.kind.AbsorptionEvent?
    requires t.facts.lastAbsorbed == s.facts.lastAbsorbed && t.facts.cycleCounter >= s.facts.cycleCounter
    ensures AbsorbedOnce(t)
  {
    AccountsStep(s.dag, n);
  }

  /** A node that changes no absorption account: what it must do to stay settled. */
  lemma PlainStep(s: Live, t: Live, n: Node)
    requires Settled(s) && AppendsTo(s, t, n) && FactsFollow(s.facts, t.facts, n, t.dag)
    requires !n.kind.RawMaterial? && !n.kind.AbsorptionEvent?
    requires t.facts.lastAbsorbed == s.facts.lastAbsorbed && t.facts.cycleCounter == s.facts.cycleCounter + Span(n)
    ensures Settled(t)
  {
    FaithfulStep(s, t, n);
    AbsorbedOnceStep(s, t, n);
    AccountsStep(s.dag, n);
  }

  lemma NeutralStep(s: Live, t: Live, n: Node)
    requires Settled(s) && IsNeutral(n) && t.dag == s.dag + [n] && WellFormed(t.dag)
    requires t == s.(dag := t.dag, cultivation := CultivationOf(t.dag))
    ensures Settled(t)
  {
    PlainStep(s, t, n);
  }

  /** The state with only the first k nodes of its log, and the memo they give. */
  ghost function Cut(t: Live, k: nat): Live
    requires k <= |t.dag|
  {
    t.(dag := t.dag[..k], cultivation := CultivationOf(t.dag[..k]))
  }

  lemma CutStep(t: Live, k: nat)
    requires k < |t.dag| && WellFormed(t.dag) && Settled(Cut(t, k)) && IsNeutral(t.dag[k])
    ensures Settled(Cut(t, k + 1))
  {
    hide LogOk, Faithful, AbsorbedOnce, WellSpaced;
    WellFormedPrefix(t.dag, k + 1);
    assert t.dag[..k + 1] == t.dag[..k] + [t.dag[k]];
    NeutralStep(Cut(t, k), Cut(t, k + 1), t.dag[k]);
  }

  lemma {:induction false} CutSteps(t: Live, m: nat, k: nat)
    requires m <= k <= |t.dag| && WellFormed(t.dag) && Settled(Cut(t, m))
    requires forall i :: m <= i < k ==> IsNeutral(t.dag[i])
    ensures Settled(Cut(t, k))
    decreases k
  {
    if m < k {
      CutSteps(t, m, k - 1);
      CutStep(t, k - 1);
    }
  }

  lemma CutAt(s: Live, t: Live)
    requires s.dag <= t.dag && s.cultivation == CultivationOf(s.dag)
    requires t == s.(dag := t.dag, cultivation := CultivationOf(t.dag))
    ensures Cut(t, |s.dag|) == s && Cut(t, |t.dag|) == t
  {
    assert t.dag[..|s.dag|] == s.dag;
    assert t.dag[..|t.dag|] == t.dag;
  }

  /** Any neutral suffix, as long as the memo is what the longer log says. */
  lemma NeutralSuffix(s: Live, t: Live)
    requires Settled(s) && s.dag <= t.dag && WellFormed(t.dag)
    requires forall i :: |s.dag| <= i < |t.dag| ==> IsNeutral(t.dag[i])
    requires t == s.(dag := t.dag, cultivation := CultivationOf(t.dag))
    ensures Settled(t)
  {
    CutAt(s, t);
    CutSteps(t, |s.dag|, |t.dag|);
  }

  // -------------------------------------------------------------------------
  // Raw material
  // -------------------------------------------------------------------------

  lemma LastIsNew(log: Log, n: Node)
    requires WellFormed(log + [n])
    ensures !Has(log, HashOf(n))
  {
    forall i | 0 <= i < |log|
      ensures HashOf(log[i]) != HashOf(n)
    {
      assert HashOf((log + [n])[i]) != HashOf((log + [n])[|log|]);
    }
  }

  lemma RawAccounts(s: Live, t: Live, n: Node)
    requires LogOk(s.dag) && AbsorbedOnce(s) && n.kind.RawMaterial? && n.cycle == s.facts.cycleCounter
    requires s.facts.lastAbsorbed.Some? ==> s.facts.lastAbsorbed.value < s.facts.cycleCounter
    requires t.dag == s.dag + [n] && WellFormed(t.dag) && t.facts == s.facts
    ensures AbsorbedOnce(t)
  {
    AccountsStep(s.dag, n);
    LastIsNew(s.dag, n);
    UnlistedIfAbsent(s.dag, HashOf(n));
    forall i: nat | i < |t.dag| && t.dag[i].kind.RawMaterial?
      ensures IsAccounted(t, t.dag[i])
    {
      if i < |s.dag| {
        assert t.dag[i] == s.dag[i];
        assert IsAccounted(s, s.dag[i]);
      }
    }
  }

  lemma RawStep(s: Live, t: Live, n: Node)
    requires Settled(s) && n.kind.RawMaterial? && n.cycle == s.facts.cycleCounter && n.content.Opaque?
    requires s.facts.lastAbsorbed.Some? ==> s.facts.lastAbsorbed.value < s.facts.cycleCounter
    requires t == s.(dag := s.dag + [n]) && WellFormed(t.dag)
    ensures Settled(t)
  {
    OutsidersKeepCultivation(s.dag, t.dag);
    RawAccounts(s, t, n);
    FaithfulStep(s, t, n);
    AccountsStep(s.dag, n);
  }

  // -------------------------------------------------------------------------
  // Absorption
  // -------------------------------------------------------------------------

  lemma LookupFinds(log: Log, i: nat)
    requires WellFormed(log) && i < |log|
    ensures Lookup(log, HashOf(log[i])) == Some(log[i])
  {
    var n := Lookup(log, HashOf(log[i]));
    assert Has(log, HashOf(log[i]));
    var j :| 0 <= j < |log| && log[j] == n.value;
    assert HashOf(log[j]) == HashOf(log[i]);
  }

  /** The newest creation cycle among hashes of the log: reached by one of them, exceeded by none. */
  lemma {:induction false} NewestIsGreatest(log: Log, hashes: seq<Hash>)
    requires WellFormed(log) && |hashes| > 0 && forall h :: h in hashes ==> Has(log, h)
    ensures MaxCreatedAt(hashes, log).Some?
    ensures exists i :: 0 <= i < |log| && HashOf(log[i]) in hashes && log[i].cycle == MaxCreatedAt(hashes, log).value
    ensures forall i :: 0 <= i < |log| && HashOf(log[i]) in hashes ==> log[i].cycle <= MaxCreatedAt(hashes, log).value
  {
    var last := |hashes| - 1;
    assert hashes[last] in hashes;
    var j: nat :| j < |log| && HashOf(log[j]) == hashes[last];
    LookupFinds(log, j);
    assert hashes == hashes[..last] + [hashes[last]];
    forall i | 0 <= i < |log| && HashOf(log[i]) == hashes[last]
      ensures i == j
    {
    }
    if last > 0 {
      NewestIsGreatest(log, hashes[..last]);
    }
  }

  lemma {:induction false} PendingOnce(log: Log, last: Option<nat>, h: Hash)
    requires WellFormed(log)
    ensures multiset(PendingAbsorption(log, last))[h] <= 1
  {
    if |log| > 0 {
      var n := |log| - 1;
      WellFormedPrefix(log, n);
      PendingOnce(log[..n], last, h);
      PendingIsExact(log[..n], last, h);
      assert forall i :: 0 <= i < n ==> HashOf(log[..n][i]) != HashOf(log[n]);
    }
  }

  /** Nodes other than raw material add nothing to what is pending. */
  lemma {:induction false} PendingIgnoresOthers(a: Log, b: Log, last: Option<nat>)
    requires a <= b && forall i :: |a| <= i < |b| ==> !b[i].kind.RawMaterial?
    ensures PendingAbsorption(b, last) == PendingAbsorption(a, last)
    decreases |b|
  {
    if |a| == |b| {
      assert a == b;
    } else {
      PendingIgnoresOthers(a, b[..|b| - 1], last);
    }
  }

  lemma PendingMultiplicity(log: Log, last: Option<nat>, i: nat)
    requires WellFormed(log) && i < |log|
    ensures multiset(PendingAbsorption(log, last))[HashOf(log[i])] == (if IsPending(log[i], last) then 1 else 0)
  {
    PendingIsExact(log, last, HashOf(log[i]));
    PendingOnce(log, last, HashOf(log[i]));
    forall j | 0 <= j < |log| && HashOf(log[j]) == HashOf(log[i])
      ensures j == i
    {
    }
  }

  /** The mark only moves up, to the cycle of some raw material, and passes everything pending. */
  lemma NewestIsNewMark(log: Log, last: Option<nat>)
    requires WellFormed(log) && |PendingAbsorption(log, last)| > 0
    ensures MaxCreatedAt(PendingAbsorption(log, last), log).Some?
    ensures last.Some? ==> last.value < MaxCreatedAt(PendingAbsorption(log, last), log).value
    ensures exists j: nat ::
      j < |log| && log[j].kind.RawMaterial? && log[j].cycle == MaxCreatedAt(PendingAbsorption(log, last), log).value
    ensures forall i :: 0 <= i < |log| && IsPending(log[i], last) ==>
      log[i].cycle <= MaxCreatedAt(PendingAbsorption(log, last), log).value
  {
    var pending := PendingAbsorption(log, last);
    forall h | h in pending
      ensures Has(log, h)
    {
      PendingIsExact(log, last, h);
    }
    NewestIsGreatest(log, pending);
    var j :| 0 <= j < |log| && HashOf(log[j]) in pending && log[j].cycle == MaxCreatedAt(pending, log).value;
    PendingIsExact(log, last, HashOf(log[j]));
    var k :| 0 <= k < |log| && HashOf(log[k]) == HashOf(log[j]) && IsPending(log[k], last);
    assert k == j;
    forall i | 0 <= i < |log| && IsPending(log[i], last)
      ensures log[i].cycle <= MaxCreatedAt(pending, log).value
    {
      PendingIsExact(log, last, HashOf(log[i]));
    }
  }

  lemma AbsorptionAccounts(s: Live, t: Live, n: Node)
    requires WellFormed(s.dag) && AbsorbedOnce(s) && |PendingAbsorption(s.dag, s.facts.lastAbsorbed)| > 0
    requires n.kind.AbsorptionEvent? && n.content.AbsorptionBody?
    requires n.content.absorbed == Some(PendingAbsorption(s.dag, s.facts.lastAbsorbed))
    requires t.dag == s.dag + [n] && t.facts.cycleCounter == s.facts.cycleCounter
    requires t.facts.lastAbsorbed == MaxCreatedAt(PendingAbsorption(s.dag, s.facts.lastAbsorbed), s.dag)
    ensures AbsorbedOnce(t)
  {
    NewestIsNewMark(s.dag, s.facts.lastAbsorbed);
    AccountsStep(s.dag, n);
    forall i: nat | i < |t.dag| && t.dag[i].kind.RawMaterial?
      ensures IsAccounted(t, t.dag[i])
    {
      assert t.dag[i] == s.dag[i];
      assert IsAccounted(s, s.dag[i]);
      PendingMultiplicity(s.dag, s.facts.lastAbsorbed, i);
      assert Mentions(n, HashOf(s.dag[i])) == (if IsPending(s.dag[i], s.facts.lastAbsorbed) then 1 else 0);
    }
    var j: nat :| j < |s.dag| && s.dag[j].kind.RawMaterial? && Some(s.dag[j].cycle) == t.facts.lastAbsorbed;
    assert IsAccounted(s, s.dag[j]);
  }

  /** Live and derived marks move alike: the plain assignment is the running maximum. */
  lemma AbsorptionFollows(s: Live, t: Live, n: Node)
    requires WellFormed(s.dag) && s.dag <= t.dag && |PendingAbsorption(s.dag, s.facts.lastAbsorbed)| > 0
    requires n.kind.AbsorptionEvent? && n.content.AbsorptionBody? && n.content.cycle.Some?
    requires n.content.absorbed == Some(PendingAbsorption(s.dag, s.facts.lastAbsorbed))
    requires t.facts == s.facts.(lastAbsorbed := MaxCreatedAt(PendingAbsorption(s.dag, s.facts.lastAbsorbed), s.dag))
    ensures FactsFollow(s.facts, t.facts, n, t.dag)
  {
    var pending := PendingAbsorption(s.dag, s.facts.lastAbsorbed);
    NewestIsNewMark(s.dag, s.facts.lastAbsorbed);
    forall h | h in pending
      ensures Has(s.dag, h)
    {
      PendingIsExact(s.dag, s.facts.lastAbsorbed, h);
    }
    MaxCreatedAtExtends(s.dag, t.dag, pending);
  }

  /** The absorption event of one cycle, with the mark moved to the newest raw material it lists. */
  lemma AbsorptionStep(s: Live, t: Live, n: Node, post: nat)
    requires Settled(s) && |PendingAbsorption(s.dag, s.facts.lastAbsorbed)| > 0
    requires n.kind == AbsorptionEvent(post)
    requires n.content == AbsorptionBody(Some(post), Some(PendingAbsorption(s.dag, s.facts.lastAbsorbed)))
    requires forall h :: h in PendingAbsorption(s.dag, s.facts.lastAbsorbed) ==> h in n.parents
    requires t.dag == s.dag + [n] && WellFormed(t.dag)
    requires t == s.(dag := t.dag, facts :=
      s.facts.(lastAbsorbed := MaxCreatedAt(PendingAbsorption(s.dag, s.facts.lastAbsorbed), s.dag)))
    ensures Settled(t)
  {
    AbsorptionFollows(s, t, n);
    AbsorptionAccounts(s, t, n);
    OutsidersKeepCultivation(s.dag, t.dag);
    FaithfulStep(s, t, n);
    AccountsStep(s.dag, n);
  }

  // -------------------------------------------------------------------------
  // The counter, migrations and the successor chain
  // -------------------------------------------------------------------------

  lemma CounterStep(s: Live, t: Live, n: Node, span: nat)
    requires Settled(s) && n.kind.CycleAdvanced?
    requires n.content == CycleAdvancedBody(Some(s.facts.cycleCounter), Some(s.facts.cycleCounter + span))
    requires span <= 1 || NoPruneWithin(s.facts.cycleCounter, s.facts.cycleCounter + span)
    requires t.dag == s.dag + [n] && WellFormed(t.dag)
    requires t == s.(dag := t.dag, facts := s.facts.(cycleCounter := s.facts.cycleCounter + span))
    ensures Settled(t)
  {
    OutsidersKeepCultivation(s.dag, t.dag);
    PlainStep(s, t, n);
  }

  function OpOf(m: Option<MigrationCandidate>): Option<string> {
    match m case Some(c) => Some(c.op) case None => None
  }

  lemma {:induction false} OpenIsReplayed(nodes: Log, dag: Option<Log>)
    requires Bracketed(nodes) && Replay(EMPTY_FACTS, nodes, dag).Ok?
    ensures OpenOf(nodes) == OpOf(Replay(EMPTY_FACTS, nodes, dag).value.migration)
    decreases |nodes|
  {
    if |nodes| > 0 {
      var front := nodes[..|nodes| - 1];
      OpenIsReplayed(front, dag);
      assert Replay(EMPTY_FACTS, nodes, dag) == Apply(Replay(EMPTY_FACTS, front, dag).value, nodes[|nodes| - 1], dag);
    }
  }

  /** The migration the log leaves open is the live candidate's. */
  lemma OpenIsCandidate(s: Live)
    requires Bracketed(s.dag) && Faithful(s)
    ensures OpenOf(s.dag) == OpOf(s.facts.migration)
  {
    OpenIsReplayed(s.dag, Some(s.dag));
  }

  lemma StartedStep(s: Live, t: Live, n: Node, c: MigrationCandidate)
    requires Settled(s) && s.facts.migration == None && n.kind == MigrationStarted(c.op)
    requires n.content ==
      MigrationStartedBody(Some(c.op), Some(c.diff), Some(c.startedAt), Some(c.window), Some(c.startedAtNs))
    requires t.dag == s.dag + [n] && WellFormed(t.dag)
    requires t == s.(dag := t.dag, facts := s.facts.(migration := Some(c)))
    ensures Settled(t)
  {
    OpenIsCandidate(s);
    OutsidersKeepCultivation(s.dag, t.dag);
    PlainStep(s, t, n);
  }

  /** A terminal event closes the open migration; a rollback may also find nothing open. */
  lemma TerminalStep(s: Live, t: Live, n: Node)
    requires Settled(s)
    requires match n.kind
             case MigrationCommitted(op) => OpOf(s.facts.migration) == Some(op)
             case MigrationRolledBack(op) => s.facts.migration == None || OpOf(s.facts.migration) == Some(op)
             case _ => false
    requires t.dag == s.dag + [n] && WellFormed(t.dag)
    requires t == s.(dag := t.dag, facts := s.facts.(migration := None))
    ensures Settled(t)
  {
    OpenIsCandidate(s);
    OutsidersKeepCultivation(s.dag, t.dag);
    PlainStep(s, t, n);
  }

  lemma ChainStep(s: Live, t: Live, n: Node, e: SuccessorEntry)
    requires Settled(s) && WellSpaced(s.facts.successorChain + [e]) && n.kind.SuccessorChainUpdated?
    requires n.content == SuccessorBody(Some(e.pubkey), Some(e.validFrom), e.validUntil)
    requires t.dag == s.dag + [n] && WellFormed(t.dag)
    requires t == s.(dag := t.dag, facts := s.facts.(successorChain := s.facts.successorChain + [e]))
    ensures Settled(t)
  {
    hide LogOk, AbsorbedOnce, Faithful, CultivationOf;
    OutsidersKeepCultivation(s.dag, t.dag);
    PlainStep(s, t, n);
  }
}
