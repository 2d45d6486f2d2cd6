/**
 The detection passes of substrate/src/prune.rs: hash maps, sets, a work stack and a
 sort, each proved to produce exactly what its rule in PruneRules says, in order.
 */
module PruneDetectors {
  import opened Prelude
  import opened Dag
  import opened PruneRules

  // -------------------------------------------------------------------------
  // Shared passes
  // -------------------------------------------------------------------------

  method CollectReferenced(log: Log) returns (referenced: set<Hash>)
    ensures forall h :: h in referenced <==> References(log, h)
  {
    referenced := {};
    for i := 0 to |log|
      invariant forall h :: h in referenced <==> exists k :: 0 <= k < i && h in log[k].parents
    {
      referenced := referenced + (set p | p in log[i].parents);
    }
  }

  method CollectAlreadyTombstoned(log: Log) returns (dead: set<Hash>)
    ensures forall h :: h in dead <==> Tombstoned(log, h)
  {
    dead := {};
    for i := 0 to |log|
      invariant forall h :: h in dead <==> exists k :: 0 <= k < i && Kills(log[k], h)
    {
      var n := log[i];
      if n.kind.InternalMortality? && n.content.TombstoneBody? && n.content.killed.Some? {
        dead := dead + {n.content.killed.value};
      }
    }
  }

  // -------------------------------------------------------------------------
  // Seed rule
  // -------------------------------------------------------------------------

  method DetectOrphanPastGrace(log: Log, ctx: ScanCtx, cycle: nat) returns (candidates: seq<Candidate>)
    ensures candidates == Detect(OrphanPastGrace, log, ctx, cycle)
  {
    candidates := [];
    if cycle <= ORPHAN_GRACE_CYCLES {
      NothingBeforeGrace(OrphanPastGrace, log, ctx, cycle, |log|);
      return;
    }
    var referenced := CollectReferenced(log);
    var cutoff := cycle - ORPHAN_GRACE_CYCLES;
    for i := 0 to |log|
      invariant candidates == Collect(OrphanPastGrace, log, ctx, cycle, i)
    {
      var n := log[i];
      if n.cycle > cutoff { continue; }
      if IsProtected(n.kind) { continue; }
      if Some(HashOf(n)) == ctx.tip { continue; }
      if HashOf(n) !in referenced {
        candidates := candidates + [Candidate(HashOf(n), None)];
      }
    }
  }

  // -------------------------------------------------------------------------
  // Rule A
  // -------------------------------------------------------------------------

  method IndexLastTouch(log: Log) returns (lastTouch: map<string, nat>)
    ensures forall j :: 0 <= j < |log| && TouchedAxis(log[j].kind).Some? ==>
              TouchedAxis(log[j].kind).value in lastTouch && log[j].cycle <= lastTouch[TouchedAxis(log[j].kind).value]
    ensures forall a :: a in lastTouch ==>
              lastTouch[a] == 0 ||
              exists j :: 0 <= j < |log| && TouchedAxis(log[j].kind) == Some(a) && log[j].cycle == lastTouch[a]
  {
    lastTouch := map[];
    for i := 0 to |log|
      invariant forall j :: 0 <= j < i && TouchedAxis(log[j].kind).Some? ==>
                  TouchedAxis(log[j].kind).value in lastTouch &&
                      log[j].cycle <= lastTouch[TouchedAxis(log[j].kind).value]
      invariant forall a :: a in lastTouch ==>
                  lastTouch[a] == 0 ||
                  exists j :: 0 <= j < i && TouchedAxis(log[j].kind) == Some(a) && log[j].cycle == lastTouch[a]
    {
      var touched := TouchedAxis(log[i].kind);
      if touched.Some? {
        var sofar := if touched.value in lastTouch then lastTouch[touched.value] else 0;
        lastTouch := lastTouch[touched.value := if log[i].cycle > sofar then log[i].cycle else sofar];
      }
    }
  }

  method DetectStaleAxisPastWindow(log: Log, ctx: ScanCtx, cycle: nat) returns (candidates: seq<Candidate>)
    ensures candidates == Detect(StaleAxis, log, ctx, cycle)
  {
    candidates := [];
    if cycle <= STALE_AXIS_GRACE_CYCLES {
      NothingBeforeGrace(StaleAxis, log, ctx, cycle, |log|);
      return;
    }
    var lastTouch := IndexLastTouch(log);
    var cutoff := cycle - STALE_AXIS_GRACE_CYCLES;
    for i := 0 to |log|
      invariant candidates == Collect(StaleAxis, log, ctx, cycle, i)
    {
      var n := log[i];
      if !n.kind.AxisRegistered? { continue; }
      var touch := if n.kind.axis in lastTouch then lastTouch[n.kind.axis] else n.cycle;
      assert TouchedAxis(n.kind) == Some(n.kind.axis);
      assert touch <= cutoff <==> Untouched(log, n.kind.axis, cutoff);
      if touch > cutoff { continue; }
      if !IsPruneEligible(n, ctx) { continue; }
      candidates := candidates + [Candidate(HashOf(n), None)];
    }
  }

  // -------------------------------------------------------------------------
  // Rules B and E
  // -------------------------------------------------------------------------

  /** j is the newest match among the first i nodes. */
  ghost predicate NewestBefore(log: Log, q: Query, i: nat, j: nat) {
    && j < i <= |log| && Matches(q, log[j])
    && (forall k :: 0 <= k < i && Matches(q, log[k]) ==>
        log[k].cycle < log[j].cycle || (log[k].cycle == log[j].cycle && k <= j))
  }

  /** Node i takes over from the newest match before it unless it is older. */
  lemma NewestStep(log: Log, q: Query, i: nat, j: nat)
    requires i < |log| && NewestBefore(log, q, i, j)
    ensures NewestBefore(log, q, i + 1, if Matches(q, log[i]) && log[i].cycle >= log[j].cycle then i else j)
  {
  }

  /** The newest failure of every operation among the first i nodes. */
  ghost predicate IndexesFailures(log: Log, i: nat, latest: map<string, nat>) {
    && i <= |log|
    && (forall op :: op in latest ==> NewestBefore(log, FailureOf(op), i, latest[op]))
    && (forall k :: 0 <= k < i && log[k].kind.EvolutionFailed? ==> log[k].kind.op in latest)
  }

  lemma FailuresStep(log: Log, i: nat, latest: map<string, nat>, next: map<string, nat>)
    requires i < |log| && IndexesFailures(log, i, latest)
    requires next == if log[i].kind.EvolutionFailed? &&
                        (log[i].kind.op !in latest || log[i].cycle >= log[latest[log[i].kind.op]].cycle)
                     then latest[log[i].kind.op := i] else latest
    ensures IndexesFailures(log, i + 1, next)
  {
    forall op | op in next
      ensures NewestBefore(log, FailureOf(op), i + 1, next[op])
    {
      if op in latest {
        NewestStep(log, FailureOf(op), i, latest[op]);
      } else {
        assert forall k :: 0 <= k < i ==> !Matches(FailureOf(op), log[k]);
      }
    }
  }

  method IndexLatestFailure(log: Log) returns (latest: map<string, nat>)
    ensures IndexesFailures(log, |log|, latest)
  {
    latest := map[];
    for i := 0 to |log|
      invariant IndexesFailures(log, i, latest)
    {
      var n := log[i];
      ghost var before := latest;
      if n.kind.EvolutionFailed? {
        var op := n.kind.op;
        if op !in latest || n.cycle >= log[latest[op]].cycle {
          latest := latest[op := i];
        }
      }
      FailuresStep(log, i, before, latest);
    }
  }

  /** The newest match alone decides whether a part is outdone. */
  lemma OutdoneByNewest(log: Log, q: Query, n: Node, cycle: nat, grace: nat, newest: Option<nat>)
    requires newest.Some? ==> IsNewest(log, q, newest.value)
    requires newest.None? ==> forall k :: 0 <= k < |log| ==> !Matches(q, log[k])
    ensures OutdoneVerdict(log, q, n, cycle, grace) ==
            if newest.Some? && log[newest.value].cycle > n.cycle && SatSub(cycle, log[newest.value].cycle) > grace
            then Some(Candidate(HashOf(n), Some(HashOf(log[newest.value])))) else None
  {
    if newest.Some? {
      assert forall j: nat :: IsNewest(log, q, j) ==> j == newest.value;
      assert Outdone(log, q, n, cycle, grace, newest.value) <==>
             log[newest.value].cycle > n.cycle && SatSub(cycle, log[newest.value].cycle) > grace;
    }
  }

  /** The query rule B or E asks of a part. */
  function QueryOf(rule: RuleId, n: Node): Query
    requires (rule.FailedEvolution? && n.kind.EvolutionSucceeded?) ||
      (rule.PlateSuperseded? && n.kind.ForgedUnderstanding?)
  {
    if rule.FailedEvolution? then FailureOf(n.kind.op) else PlateSuperseding(HashOf(n))
  }

  /** What rule B or E says of node i, from the newest match alone. */
  lemma VerdictByNewest(rule: RuleId, log: Log, ctx: ScanCtx, cycle: nat, i: nat, newest: Option<nat>)
    requires i < |log| && cycle > Grace(rule)
    requires (rule.FailedEvolution? && log[i].kind.EvolutionSucceeded?) ||
      (rule.PlateSuperseded? && log[i].kind.ForgedUnderstanding?)
    requires newest.Some? ==> IsNewest(log, QueryOf(rule, log[i]), newest.value)
    requires newest.None? ==> forall k :: 0 <= k < |log| ==> !Matches(QueryOf(rule, log[i]), log[k])
    ensures Verdict(rule, log, ctx, cycle, i) ==
            if newest.Some? && log[newest.value].cycle > log[i].cycle &&
               SatSub(cycle, log[newest.value].cycle) > Grace(rule) && IsPruneEligible(log[i], ctx)
            then Some(Candidate(HashOf(log[i]), Some(HashOf(log[newest.value])))) else None
  {
    OutdoneByNewest(log, QueryOf(rule, log[i]), log[i], cycle, Grace(rule), newest);
  }

  /** Rule B on node i, from the index of newest failures. */
  lemma FailureVerdict(log: Log, ctx: ScanCtx, cycle: nat, i: nat, latest: map<string, nat>)
    requires i < |log| && cycle > Grace(FailedEvolution) && IndexesFailures(log, |log|, latest)
    ensures forall op :: op in latest ==> latest[op] < |log|
    ensures Verdict(FailedEvolution, log, ctx, cycle, i) ==
            if log[i].kind.EvolutionSucceeded? && log[i].kind.op in latest &&
               log[latest[log[i].kind.op]].cycle > log[i].cycle &&
               SatSub(cycle, log[latest[log[i].kind.op]].cycle) > ERRONEOUS_GRACE_CYCLES && IsPruneEligible(log[i], ctx)
            then Some(Candidate(HashOf(log[i]), Some(HashOf(log[latest[log[i].kind.op]])))) else None
  {
    if log[i].kind.EvolutionSucceeded? {
      var op := log[i].kind.op;
      if op in latest {
        assert IsNewest(log, FailureOf(op), latest[op]);
        VerdictByNewest(FailedEvolution, log, ctx, cycle, i, Some(latest[op]));
      } else {
        assert forall k :: 0 <= k < |log| ==> !Matches(FailureOf(op), log[k]);
        VerdictByNewest(FailedEvolution, log, ctx, cycle, i, None);
      }
    }
  }

  method DetectSupersededByFailedEvolution(log: Log, ctx: ScanCtx, cycle: nat) returns (candidates: seq<Candidate>)
    ensures candidates == Detect(FailedEvolution, log, ctx, cycle)
  {
    candidates := [];
    if cycle <= ERRONEOUS_GRACE_CYCLES {
      NothingBeforeGrace(FailedEvolution, log, ctx, cycle, |log|);
      return;
    }
    var latest := IndexLatestFailure(log);
    hide Verdict, Collect, IndexesFailures, IsPruneEligible;
    CollectNone(FailedEvolution, log, ctx, cycle);
    for i := 0 to |log|
      invariant candidates == Collect(FailedEvolution, log, ctx, cycle, i)
    {
      var n := log[i];
      CollectNext(FailedEvolution, log, ctx, cycle, i);
      FailureVerdict(log, ctx, cycle, i, latest);
      if !n.kind.EvolutionSucceeded? { continue; }
      if n.kind.op !in latest { continue; }
      var f := latest[n.kind.op];
      if log[f].cycle <= n.cycle { continue; }
      if SatSub(cycle, log[f].cycle) <= ERRONEOUS_GRACE_CYCLES { continue; }
      if !IsPruneEligible(n, ctx) { continue; }
      candidates := candidates + [Candidate(HashOf(n), Some(HashOf(log[f])))];
    }
  }

  /** The newest plate superseding every hash among the first i nodes. */
  ghost predicate IndexesSuperseding(log: Log, i: nat, latest: map<Hash, nat>) {
    && i <= |log|
    && (forall h :: h in latest ==> NewestBefore(log, PlateSuperseding(h), i, latest[h]))
    && (forall h, k :: 0 <= k < i && Matches(PlateSuperseding(h), log[k]) ==> h in latest)
  }

  /** What one plate does to the index: it takes over the targets it is not older for. */
  ghost predicate TakesOver(log: Log, i: nat, latest: map<Hash, nat>, next: map<Hash, nat>) {
    && i < |log| && (forall h :: h in latest ==> latest[h] < |log|)
    && (forall h :: h in next <==> h in latest || Matches(PlateSuperseding(h), log[i]))
    && (forall h :: h in next ==>
          next[h] == if h in latest &&
              (!Matches(PlateSuperseding(h), log[i]) || log[i].cycle < log[latest[h]].cycle) then latest[h] else i)
  }

  lemma SupersedingStep(log: Log, i: nat, latest: map<Hash, nat>, next: map<Hash, nat>)
    requires IndexesSuperseding(log, i, latest) && TakesOver(log, i, latest, next)
    ensures IndexesSuperseding(log, i + 1, next)
  {
    forall h | h in next
      ensures NewestBefore(log, PlateSuperseding(h), i + 1, next[h])
    {
      if h in latest {
        NewestStep(log, PlateSuperseding(h), i, latest[h]);
      } else {
        assert forall k :: 0 <= k < i ==> !Matches(PlateSuperseding(h), log[k]);
      }
    }
  }

  method TakeOver(log: Log, i: nat, latest: map<Hash, nat>) returns (next: map<Hash, nat>)
    requires i < |log| && forall h :: h in latest ==> latest[h] < i
    ensures TakesOver(log, i, latest, next)
  {
    var n := log[i];
    next := latest;
    if n.kind.ForgedUnderstanding? && n.content.PlateBody? && n.content.supersedes.Some? {
      var targets := n.content.supersedes.value;
      for t := 0 to |targets|
        invariant forall h :: h in next <==> h in latest || h in targets[..t]
        invariant forall h :: h in latest && h !in targets[..t] ==> next[h] == latest[h]
        invariant forall h :: h in targets[..t] ==>
                    next[h] == if h in latest && n.cycle < log[latest[h]].cycle then latest[h] else i
      {
        var h := targets[t];
        assert targets[..t + 1] == targets[..t] + [h];
        if h !in next || n.cycle >= log[next[h]].cycle {
          next := next[h := i];
        }
      }
      assert targets[..|targets|] == targets;
    }
  }

  method IndexSuperseding(log: Log) returns (latest: map<Hash, nat>)
    ensures IndexesSuperseding(log, |log|, latest)
  {
    latest := map[];
    for i := 0 to |log|
      invariant IndexesSuperseding(log, i, latest)
    {
      var next := TakeOver(log, i, latest);
      SupersedingStep(log, i, latest, next);
      latest := next;
    }
  }

  method DetectForgedUnderstandingSuperseded(log: Log, ctx: ScanCtx, cycle: nat) returns (candidates: seq<Candidate>)
    ensures candidates == Detect(PlateSuperseded, log, ctx, cycle)
  {
    candidates := [];
    if cycle <= PLATE_SUPERSEDED_GRACE_CYCLES {
      NothingBeforeGrace(PlateSuperseded, log, ctx, cycle, |log|);
      return;
    }
    var latest := IndexSuperseding(log);
    for i := 0 to |log|
      invariant candidates == Collect(PlateSuperseded, log, ctx, cycle, i)
    {
      var n := log[i];
      if !n.kind.ForgedUnderstanding? { continue; }
      var h := HashOf(n);
      VerdictByNewest(PlateSuperseded, log, ctx, cycle, i, if h in latest then Some(latest[h]) else None);
      if h !in latest { continue; }
      var s := latest[h];
      if log[s].cycle <= n.cycle { continue; }
      if SatSub(cycle, log[s].cycle) <= PLATE_SUPERSEDED_GRACE_CYCLES { continue; }
      if !IsPruneEligible(n, ctx) { continue; }
      candidates := candidates + [Candidate(h, Some(HashOf(log[s])))];
    }
  }

  // -------------------------------------------------------------------------
  // Rule D
  // -------------------------------------------------------------------------

  /** byHash is the log indexed by hash, giving each node's parents. */
  ghost predicate Indexes(byHash: map<Hash, seq<Hash>>, log: Log) {
    && (forall i :: 0 <= i < |log| ==> HashOf(log[i]) in byHash && byHash[HashOf(log[i])] == log[i].parents)
    && (forall h :: h in byHash ==> Has(log, h))
  }

  method IndexByHash(log: Log) returns (byHash: map<Hash, seq<Hash>>)
    requires WellFormed(log)
    ensures Indexes(byHash, log)
  {
    byHash := map[];
    for i := 0 to |log|
      invariant forall k :: 0 <= k < i ==> HashOf(log[k]) in byHash && byHash[HashOf(log[k])] == log[k].parents
      invariant forall h :: h in byHash ==> Has(log, h)
    {
      byHash := byHash[HashOf(log[i]) := log[i].parents];
    }
  }

  /** Insert each hash not yet visited and push it: HashSet::insert guards the push. */
  method Visit(reachable: set<Hash>, stack: seq<Hash>, hashes: seq<Hash>)
    returns (reachable': set<Hash>, stack': seq<Hash>)
    ensures reachable' == reachable + set h | h in hashes
    ensures forall h :: h in stack' <==> h in stack || (h in hashes && h !in reachable)
    ensures reachable' == reachable ==> stack' == stack
  {
    reachable', stack' := reachable, stack;
    for k := 0 to |hashes|
      invariant reachable' == reachable + set h | h in hashes[..k]
      invariant forall h :: h in stack' <==> h in stack || (h in hashes[..k] && h !in reachable)
      invariant reachable' == reachable ==> stack' == stack
    {
      assert hashes[..k + 1] == hashes[..k] + [hashes[k]];
      if hashes[k] !in reachable' {
        reachable' := reachable' + {hashes[k]};
        stack' := stack' + [hashes[k]];
      }
    }
    assert hashes[..|hashes|] == hashes;
  }

  ghost predicate AllIn(hashes: seq<Hash>, found: set<Hash>) {
    forall h :: h in hashes ==> h in found
  }

  /** Every visited hash still waits on the stack or has all its parents visited. */
  ghost predicate Settled(byHash: map<Hash, seq<Hash>>, found: set<Hash>, stack: seq<Hash>) {
    forall h :: h in byHash && h in found && h !in stack ==> AllIn(byHash[h], found)
  }

  /** The least set that holds the roots and is closed under parents. */
  ghost predicate IsParentClosure(byHash: map<Hash, seq<Hash>>, roots: seq<Hash>, found: set<Hash>) {
    && AllIn(roots, found)
    && Settled(byHash, found, [])
    && NothingBeyond(byHash, roots, found)
  }

  ghost predicate NothingBeyond(byHash: map<Hash, seq<Hash>>, roots: seq<Hash>, found: set<Hash>) {
    forall closed: set<Hash> :: AllIn(roots, closed) && Settled(byHash, closed, []) ==> found <= closed
  }

  /** The bounded backward walk: a visited set and a work stack, no recursion. */
  method WalkBackwards(byHash: map<Hash, seq<Hash>>, roots: seq<Hash>) returns (reachable: set<Hash>)
    ensures IsParentClosure(byHash, roots, reachable)
  {
    var stack: seq<Hash>;
    reachable, stack := Visit({}, [], roots);
    ghost var universe := reachable + set h, p | h in byHash && p in byHash[h] :: p;
    while |stack| > 0
      invariant forall h :: h in stack ==> h in reachable
      invariant AllIn(roots, reachable)
      invariant Settled(byHash, reachable, stack)
      invariant NothingBeyond(byHash, roots, reachable)
      invariant reachable <= universe
      decreases universe - reachable, |stack|
    {
      var h := stack[|stack| - 1];
      stack := stack[..|stack| - 1];
      if h in byHash {
        ghost var before := reachable;
        reachable, stack := Visit(reachable, stack, byHash[h]);
        forall closed: set<Hash> | AllIn(roots, closed) && Settled(byHash, closed, [])
          ensures reachable <= closed
        {
          assert h in before && before <= closed;
          assert AllIn(byHash[h], closed);
        }
        assert reachable != before ==> universe - reachable < universe - before;
      }
    }
    assert stack == [];
  }

  /** Node i is a root or an ancestor of one. */
  ghost predicate ReachedFrom(log: Log, roots: seq<Hash>, i: nat)
    requires i < |log|
  {
    exists r :: 0 <= r < |log| && HashOf(log[r]) in roots && Reaches(log, r, i)
  }

  ghost function ReachedSet(log: Log, roots: seq<Hash>): set<Hash> {
    set i | 0 <= i < |log| && ReachedFrom(log, roots, i) :: HashOf(log[i])
  }

  lemma InReachedSet(log: Log, roots: seq<Hash>, i: nat)
    requires WellFormed(log) && i < |log|
    ensures HashOf(log[i]) in ReachedSet(log, roots) <==> ReachedFrom(log, roots, i)
  {
    if HashOf(log[i]) in ReachedSet(log, roots) {
      var k :| 0 <= k < |log| && ReachedFrom(log, roots, k) && HashOf(log[k]) == HashOf(log[i]);
      assert k == i;
    }
  }

  lemma ParentInReachedSet(log: Log, roots: seq<Hash>, a: nat, p: Hash)
    requires WellFormed(log) && a < |log| && ReachedFrom(log, roots, a) && p in log[a].parents
    ensures p in ReachedSet(log, roots)
  {
    var k :| 0 <= k < a && HashOf(log[k]) == p;
    var r :| 0 <= r < |log| && HashOf(log[r]) in roots && Reaches(log, r, a);
    ParentIsReached(log, a, k);
    ReachesTransitive(log, r, a, k);
    assert ReachedFrom(log, roots, k);
  }

  lemma ReachedSetIsClosed(log: Log, byHash: map<Hash, seq<Hash>>, roots: seq<Hash>)
    requires WellFormed(log) && Indexes(byHash, log)
    requires forall h :: h in roots ==> Has(log, h)
    ensures AllIn(roots, ReachedSet(log, roots))
    ensures Settled(byHash, ReachedSet(log, roots), [])
  {
    forall h | h in roots
      ensures h in ReachedSet(log, roots)
    {
      var i :| 0 <= i < |log| && HashOf(log[i]) == h;
      assert Reaches(log, i, i);
      InReachedSet(log, roots, i);
    }
    forall h | h in byHash && h in ReachedSet(log, roots)
      ensures AllIn(byHash[h], ReachedSet(log, roots))
    {
      var a :| 0 <= a < |log| && HashOf(log[a]) == h;
      InReachedSet(log, roots, a);
      forall p | p in byHash[h]
        ensures p in ReachedSet(log, roots)
      {
        ParentInReachedSet(log, roots, a, p);
      }
    }
  }

  lemma ClosureHoldsReached(log: Log, byHash: map<Hash, seq<Hash>>, roots: seq<Hash>, found: set<Hash>, i: nat)
    requires Indexes(byHash, log) && i < |log| && ReachedFrom(log, roots, i)
    requires AllIn(roots, found) && Settled(byHash, found, [])
    ensures HashOf(log[i]) in found
  {
    var r :| 0 <= r < |log| && HashOf(log[r]) in roots && Reaches(log, r, i);
    forall k, p | 0 <= k < |log| && HashOf(log[k]) in found && p in log[k].parents
      ensures p in found
    {
      assert AllIn(byHash[HashOf(log[k])], found);
    }
    ClosedHoldsAncestors(log, found, r, i);
  }

  /** What the walk finds is exactly the nodes the roots reach. */
  lemma ClosureIsReached(log: Log, byHash: map<Hash, seq<Hash>>, roots: seq<Hash>, found: set<Hash>, i: nat)
    requires WellFormed(log) && Indexes(byHash, log) && i < |log|
    requires forall h :: h in roots ==> Has(log, h)
    requires IsParentClosure(byHash, roots, found)
    ensures HashOf(log[i]) in found <==> ReachedFrom(log, roots, i)
  {
    if HashOf(log[i]) in found {
      ReachedSetIsClosed(log, byHash, roots);
      InReachedSet(log, roots, i);
    }
    if ReachedFrom(log, roots, i) {
      ClosureHoldsReached(log, byHash, roots, found, i);
    }
  }

  method CollectLiveRoots(log: Log, cycle: nat) returns (roots: seq<Hash>)
    ensures forall h :: h in roots <==> IsLiveRoot(log, cycle, h)
  {
    var recentCutoff := SatSub(cycle, ORPHAN_GRACE_CYCLES);
    roots := match Tip(log) case Some(t) => [t] case None => [];
    for i := 0 to |log|
      invariant forall h :: h in roots <==>
                  Tip(log) == Some(h) || exists k :: 0 <= k < i && log[k].cycle > recentCutoff && h in log[k].parents
    {
      if log[i].cycle > recentCutoff {
        roots := roots + log[i].parents;
      }
    }
  }

  /** The walk from the live roots finds exactly the live nodes. */
  lemma WalkFindsLiveNodes(log: Log, cycle: nat, byHash: map<Hash, seq<Hash>>, roots: seq<Hash>, found: set<Hash>)
    requires WellFormed(log) && Indexes(byHash, log)
    requires forall h :: h in roots <==> IsLiveRoot(log, cycle, h)
    requires IsParentClosure(byHash, roots, found)
    ensures forall i :: 0 <= i < |log| ==> (HashOf(log[i]) in found <==> Live(log, cycle, i))
  {
    forall h | h in roots
      ensures Has(log, h)
    {
      if Tip(log) != Some(h) {
        var i :| 0 <= i < |log| && log[i].cycle > SatSub(cycle, ORPHAN_GRACE_CYCLES) && h in log[i].parents;
        assert HasBefore(log, i, h);
      }
    }
    forall i | 0 <= i < |log|
      ensures HashOf(log[i]) in found <==> Live(log, cycle, i)
    {
      ClosureIsReached(log, byHash, roots, found, i);
    }
  }

  method DetectUnreachableFromLiveRoots(log: Log, ctx: ScanCtx, cycle: nat) returns (candidates: seq<Candidate>)
    requires WellFormed(log)
    ensures candidates == Detect(Unreachable, log, ctx, cycle)
  {
    candidates := [];
    if cycle <= ORPHAN_GRACE_CYCLES {
      NothingBeforeGrace(Unreachable, log, ctx, cycle, |log|);
      return;
    }
    var byHash := IndexByHash(log);
    var referenced := CollectReferenced(log);
    var roots := CollectLiveRoots(log, cycle);
    var reachable := WalkBackwards(byHash, roots);
    WalkFindsLiveNodes(log, cycle, byHash, roots, reachable);
    candidates := SelectUnreachable(log, ctx, cycle, referenced, reachable);
  }

  /** Rule D on node i. */
  lemma UnreachableVerdict(log: Log, ctx: ScanCtx, cycle: nat, i: nat)
    requires i < |log| && cycle > ORPHAN_GRACE_CYCLES
    ensures Verdict(Unreachable, log, ctx, cycle, i) ==
            if log[i].cycle <= cycle - ORPHAN_GRACE_CYCLES && References(log, HashOf(log[i])) &&
               !Live(log, cycle, i) && IsPruneEligible(log[i], ctx)
            then Some(Candidate(HashOf(log[i]), None)) else None
  {
  }

  method SelectUnreachable(log: Log, ctx: ScanCtx, cycle: nat, referenced: set<Hash>, reachable: set<Hash>)
    returns (candidates: seq<Candidate>)
    requires cycle > ORPHAN_GRACE_CYCLES
    requires forall h :: h in referenced <==> References(log, h)
    requires forall i :: 0 <= i < |log| ==> (HashOf(log[i]) in reachable <==> Live(log, cycle, i))
    ensures candidates == Detect(Unreachable, log, ctx, cycle)
  {
    candidates := [];
    var recentCutoff := cycle - ORPHAN_GRACE_CYCLES;
    hide Verdict, Collect, Live, References;
    CollectNone(Unreachable, log, ctx, cycle);
    for i := 0 to |log|
      invariant candidates == Collect(Unreachable, log, ctx, cycle, i)
    {
      var n := log[i];
      CollectNext(Unreachable, log, ctx, cycle, i);
      UnreachableVerdict(log, ctx, cycle, i);
      if n.cycle > recentCutoff { continue; }
      if HashOf(n) !in referenced { continue; }
      if HashOf(n) in reachable { continue; }
      if !IsPruneEligible(n, ctx) { continue; }
      candidates := candidates + [Candidate(HashOf(n), None)];
    }
  }
}
