/**
 Rule C of substrate/src/prune.rs: one pass that groups nodes in a hash map, then
 drains the map in whatever order it yields and sorts by first position. The result
 does not depend on that order.
 */
module PruneDuplicates {
  import opened Prelude
  import opened Dag
  import opened PruneRules

  datatype Key = Key(kind: NodeType, content: Content)

  datatype Group = Group(firstHash: Hash, firstType: NodeType, firstCycle: nat, firstIndex: nat, survivor: Option<Hash>)

  function KeyOf(n: Node): Key {
    Key(n.kind, n.content)
  }

  /** g describes the first node of its kind among the first k, and its first later copy. */
  ghost predicate Describes(log: Log, k: nat, g: Group) {
    && k <= |log| && g.firstIndex < k
    && var n := log[g.firstIndex];
       && RedundantInScope(n.kind) && IsFirstOccurrence(log, g.firstIndex)
       && g.firstHash == HashOf(n) && g.firstType == n.kind && g.firstCycle == n.cycle
       && (g.survivor.Some? ==> exists j: nat :: IsNextCopy(log, g.firstIndex, j) && HashOf(log[j]) == g.survivor.value)
       && (g.survivor.None? ==>
           forall j :: g.firstIndex < j < k && SameKey(log[j], n) ==> HashOf(log[j]) == g.firstHash)
  }

  ghost predicate Grouped(log: Log, k: nat, groups: map<Key, Group>) {
    && k <= |log|
    && (forall key :: key in groups ==> Describes(log, k, groups[key]) && KeyOf(log[groups[key].firstIndex]) == key)
    && (forall i :: 0 <= i < k && RedundantInScope(log[i].kind) ==> KeyOf(log[i]) in groups)
  }

  /** What one node does to the groups: it opens one, or is the first later copy of one. */
  ghost predicate GroupsMove(log: Log, index: nat, groups: map<Key, Group>, next: map<Key, Group>) {
    && index < |log|
    && var key, later := KeyOf(log[index]), HashOf(log[index]);
       if !RedundantInScope(log[index].kind) then next == groups
       else if key !in groups then next == groups[key := Group(later, log[index].kind, log[index].cycle, index, None)]
       else if groups[key].survivor.None? && later != groups[key].firstHash then
           next == groups[key := groups[key].(survivor := Some(later))]
       else next == groups
  }

  lemma NewGroupDescribes(log: Log, index: nat, groups: map<Key, Group>)
    requires Grouped(log, index, groups) && index < |log| && RedundantInScope(log[index].kind) &&
      KeyOf(log[index]) !in groups
    ensures Describes(log, index + 1, Group(HashOf(log[index]), log[index].kind, log[index].cycle, index, None))
  {
    forall j | 0 <= j < index
      ensures !SameKey(log[j], log[index])
    {
      assert RedundantInScope(log[j].kind) ==> KeyOf(log[j]) in groups;
    }
  }

  lemma CopyDescribes(log: Log, index: nat, g: Group)
    requires index < |log| && Describes(log, index, g) && KeyOf(log[index]) == KeyOf(log[g.firstIndex])
    ensures Describes(log, index + 1,
      if g.survivor.None? && HashOf(log[index]) != g.firstHash then g.(survivor := Some(HashOf(log[index]))) else g)
  {
    if g.survivor.None? && HashOf(log[index]) != g.firstHash {
      assert IsNextCopy(log, g.firstIndex, index);
    }
  }

  lemma MovedGroupDescribes(log: Log, index: nat, groups: map<Key, Group>, next: map<Key, Group>)
    requires Grouped(log, index, groups) && GroupsMove(log, index, groups, next) && RedundantInScope(log[index].kind)
    ensures KeyOf(log[index]) in next && Describes(log, index + 1, next[KeyOf(log[index])])
    ensures KeyOf(log[next[KeyOf(log[index])].firstIndex]) == KeyOf(log[index])
  {
    if KeyOf(log[index]) in groups {
      CopyDescribes(log, index, groups[KeyOf(log[index])]);
    } else {
      NewGroupDescribes(log, index, groups);
    }
  }

  lemma OtherGroupDescribes(log: Log, index: nat, g: Group)
    requires index < |log| && Describes(log, index, g) && KeyOf(log[index]) != KeyOf(log[g.firstIndex])
    ensures Describes(log, index + 1, g)
  {
  }

  lemma GroupsStep(log: Log, index: nat, groups: map<Key, Group>, next: map<Key, Group>)
    requires Grouped(log, index, groups) && GroupsMove(log, index, groups, next)
    ensures Grouped(log, index + 1, next)
  {
    forall key | key in next
      ensures Describes(log, index + 1, next[key]) && KeyOf(log[next[key].firstIndex]) == key
    {
      if key == KeyOf(log[index]) && RedundantInScope(log[index].kind) {
        MovedGroupDescribes(log, index, groups, next);
      } else {
        assert next[key] == groups[key];
        OtherGroupDescribes(log, index, groups[key]);
      }
    }
    if RedundantInScope(log[index].kind) {
      MovedGroupDescribes(log, index, groups, next);
    }
  }

  method GroupByContent(log: Log) returns (groups: map<Key, Group>)
    ensures Grouped(log, |log|, groups)
  {
    groups := map[];
    for index := 0 to |log|
      invariant Grouped(log, index, groups)
    {
      var n := log[index];
      ghost var before := groups;
      if RedundantInScope(n.kind) {
        var key := KeyOf(n);
        if key !in groups {
          groups := groups[key := Group(HashOf(n), n.kind, n.cycle, index, None)];
        } else if groups[key].survivor.None? {
          var later := HashOf(n);
          if later != groups[key].firstHash {
            groups := groups[key := groups[key].(survivor := Some(later))];
          }
        }
      }
      GroupsStep(log, index, before, groups);
    }
  }

  predicate Emittable(g: Group, ctx: ScanCtx, cutoff: nat) {
    && g.survivor.Some?
    && g.firstCycle <= cutoff
    && !IsProtected(g.firstType) && Some(g.firstHash) != ctx.tip && g.firstHash !in ctx.alreadyTombstoned
  }

  ghost predicate Increasing(gs: seq<Group>) {
    forall i, j :: 0 <= i < j < |gs| ==> gs[i].firstIndex < gs[j].firstIndex
  }

  ghost predicate DistinctIndices(gs: seq<Group>) {
    forall i, j :: 0 <= i < j < |gs| ==> gs[i].firstIndex != gs[j].firstIndex
  }

  /** into_values().filter(..): the map is drained in an arbitrary order. */
  method DrainEmittable(groups: map<Key, Group>, ctx: ScanCtx, cutoff: nat) returns (out: seq<Group>)
    requires forall k, k' :: k in groups && k' in groups && k != k' ==> groups[k].firstIndex != groups[k'].firstIndex
    ensures DistinctIndices(out)
    ensures forall g :: g in out <==> Emittable(g, ctx, cutoff) && exists k :: k in groups && groups[k] == g
  {
    out := [];
    var left := groups.Keys;
    while left != {}
      invariant left <= groups.Keys
      invariant DistinctIndices(out)
      invariant forall g :: g in out <==>
        Emittable(g, ctx, cutoff) && exists k :: k in groups && k !in left && groups[k] == g
      decreases left
    {
      var k :| k in left;
      left := left - {k};
      if Emittable(groups[k], ctx, cutoff) {
        assert forall g :: g in out ==> g.firstIndex != groups[k].firstIndex;
        out := out + [groups[k]];
      }
    }
  }

  lemma InsertionIncreases(gs: seq<Group>, g: Group, i: nat)
    requires Increasing(gs) && i <= |gs|
    requires forall j :: 0 <= j < i ==> gs[j].firstIndex < g.firstIndex
    requires i < |gs| ==> g.firstIndex < gs[i].firstIndex
    ensures Increasing(gs[..i] + [g] + gs[i..])
  {
    assert forall j :: i <= j < |gs| ==> gs[i].firstIndex <= gs[j].firstIndex;
  }

  lemma InsertionAdds(gs: seq<Group>, g: Group, i: nat)
    requires i <= |gs|
    ensures forall x :: x in gs[..i] + [g] + gs[i..] <==> x in gs || x == g
  {
    assert gs == gs[..i] + gs[i..];
  }

  method InsertSorted(gs: seq<Group>, g: Group) returns (out: seq<Group>)
    requires Increasing(gs)
    requires forall x :: x in gs ==> x.firstIndex != g.firstIndex
    ensures Increasing(out)
    ensures forall x :: x in out <==> x in gs || x == g
  {
    var i := 0;
    while i < |gs| && gs[i].firstIndex < g.firstIndex
      invariant i <= |gs|
      invariant forall j :: 0 <= j < i ==> gs[j].firstIndex < g.firstIndex
    {
      i := i + 1;
    }
    out := gs[..i] + [g] + gs[i..];
    InsertionIncreases(gs, g, i);
    InsertionAdds(gs, g, i);
  }

  method SortByFirstIndex(gs: seq<Group>) returns (out: seq<Group>)
    requires DistinctIndices(gs)
    ensures Increasing(out)
    ensures forall x :: x in out <==> x in gs
  {
    out := [];
    for i := 0 to |gs|
      invariant Increasing(out)
      invariant forall x :: x in out <==> x in gs[..i]
    {
      assert gs[..i + 1] == gs[..i] + [gs[i]];
      out := InsertSorted(out, gs[i]);
    }
    assert gs[..|gs|] == gs;
  }

  /** g stands for a hit of the rule and carries its verdict. */
  ghost predicate StandsForHit(log: Log, ctx: ScanCtx, cycle: nat, g: Group) {
    IsVerdictOn(Candidate(g.firstHash, g.survivor), DuplicateContent, log, ctx, cycle, g.firstIndex)
  }

  lemma NextCopyIsUnique(log: Log, i: nat, j: nat, k: nat)
    requires IsNextCopy(log, i, j) && IsNextCopy(log, i, k)
    ensures j == k
  {
  }

  lemma EmittableStandsForHit(log: Log, ctx: ScanCtx, cycle: nat, g: Group)
    requires cycle > REDUNDANT_GRACE_CYCLES && Describes(log, |log|, g) &&
      Emittable(g, ctx, cycle - REDUNDANT_GRACE_CYCLES)
    ensures StandsForHit(log, ctx, cycle, g)
  {
    var i := g.firstIndex;
    var j: nat :| IsNextCopy(log, i, j) && HashOf(log[j]) == g.survivor.value;
    forall k: nat | IsNextCopy(log, i, k)
      ensures k == j
    {
      NextCopyIsUnique(log, i, j, k);
    }
  }

  lemma HitIsEmittable(log: Log, groups: map<Key, Group>, ctx: ScanCtx, cycle: nat, i: nat)
    requires Grouped(log, |log|, groups) && Hit(DuplicateContent, log, ctx, cycle, i)
    ensures KeyOf(log[i]) in groups && groups[KeyOf(log[i])].firstIndex == i
    ensures Emittable(groups[KeyOf(log[i])], ctx, cycle - REDUNDANT_GRACE_CYCLES)
  {
    var g := groups[KeyOf(log[i])];
    assert SameKey(log[g.firstIndex], log[i]);
    assert g.firstIndex == i;
    var j: nat :| IsNextCopy(log, i, j);
  }

  function CandidatesOf(gs: seq<Group>): seq<Candidate> {
    if |gs| == 0 then []
    else CandidatesOf(gs[..|gs| - 1]) + [Candidate(gs[|gs| - 1].firstHash, gs[|gs| - 1].survivor)]
  }

  ghost predicate HasIndex(gs: seq<Group>, i: nat) {
    exists k :: 0 <= k < |gs| && gs[k].firstIndex == i
  }

  /** gs stands for exactly the hits among the first n nodes. */
  ghost predicate StandsForHits(log: Log, ctx: ScanCtx, cycle: nat, gs: seq<Group>, n: nat) {
    && (forall k :: 0 <= k < |gs| ==> StandsForHit(log, ctx, cycle, gs[k]) && gs[k].firstIndex < n)
    && (forall i: nat :: i < n && Hit(DuplicateContent, log, ctx, cycle, i) ==> HasIndex(gs, i))
  }

  function Flatten(verdicts: seq<Option<Candidate>>): seq<Candidate> {
    if |verdicts| == 0 then []
    else
      var rest := Flatten(verdicts[..|verdicts| - 1]);
      match verdicts[|verdicts| - 1] case Some(c) => rest + [c] case None => rest
  }

  ghost function Verdicts(log: Log, ctx: ScanCtx, cycle: nat, n: nat): (r: seq<Option<Candidate>>)
    requires n <= |log|
    ensures |r| == n
  {
    if n == 0 then []
    else
      Verdicts(log, ctx, cycle, n - 1) +
      [if Hit(DuplicateContent, log, ctx, cycle, n - 1) then
          Some(Verdict(DuplicateContent, log, ctx, cycle, n - 1).value) else None]
  }

  lemma {:induction false} VerdictsAt(log: Log, ctx: ScanCtx, cycle: nat, n: nat, i: nat)
    requires i < n <= |log|
    ensures Verdicts(log, ctx, cycle, n)[i].Some? <==> Hit(DuplicateContent, log, ctx, cycle, i)
    ensures forall c :: Verdicts(log, ctx, cycle, n)[i] == Some(c) <==>
      IsVerdictOn(c, DuplicateContent, log, ctx, cycle, i)
  {
    if i < n - 1 {
      VerdictsAt(log, ctx, cycle, n - 1, i);
    }
  }

  lemma {:induction false} CollectIsFlatten(log: Log, ctx: ScanCtx, cycle: nat, n: nat)
    requires n <= |log|
    ensures Collect(DuplicateContent, log, ctx, cycle, n) == Flatten(Verdicts(log, ctx, cycle, n))
  {
    if n > 0 {
      CollectIsFlatten(log, ctx, cycle, n - 1);
      assert Verdicts(log, ctx, cycle, n)[..n - 1] == Verdicts(log, ctx, cycle, n - 1);
    }
  }

  function CandidateOf(g: Group): Candidate {
    Candidate(g.firstHash, g.survivor)
  }

  lemma LargestIsLast(gs: seq<Group>, n: nat)
    requires Increasing(gs) && HasIndex(gs, n)
    requires forall k :: 0 <= k < |gs| ==> gs[k].firstIndex <= n
    ensures |gs| > 0 && gs[|gs| - 1].firstIndex == n
    ensures Increasing(gs[..|gs| - 1]) && forall k :: 0 <= k < |gs| - 1 ==> gs[k].firstIndex < n
  {
    var at :| 0 <= at < |gs| && gs[at].firstIndex == n;
  }

  lemma DropKeepsIndex(gs: seq<Group>, i: nat)
    requires HasIndex(gs, i) && gs[|gs| - 1].firstIndex != i
    ensures HasIndex(gs[..|gs| - 1], i)
  {
    var k :| 0 <= k < |gs| && gs[k].firstIndex == i;
    assert gs[..|gs| - 1][k].firstIndex == i;
  }

  /** A list sorted by position, holding every position that has a verdict, lists the verdicts in order. */
  lemma {:induction false} SortedIsFlatten(verdicts: seq<Option<Candidate>>, gs: seq<Group>)
    requires Increasing(gs)
    requires forall k :: 0 <= k < |gs| ==>
               gs[k].firstIndex < |verdicts| && verdicts[gs[k].firstIndex] == Some(CandidateOf(gs[k]))
    requires forall i: nat :: i < |verdicts| && verdicts[i].Some? ==> HasIndex(gs, i)
    ensures CandidatesOf(gs) == Flatten(verdicts)
    decreases |verdicts|
  {
    hide Increasing, HasIndex;
    if |verdicts| > 0 {
      var last := |verdicts| - 1;
      var rest := verdicts[..last];
      if verdicts[last].Some? {
        LargestIsLast(gs, last);
        var front := gs[..|gs| - 1];
        assert |front| == |gs| - 1 && forall k :: 0 <= k < |front| ==> front[k] == gs[k];
        forall i: nat | i < last && HasIndex(gs, i)
          ensures HasIndex(front, i)
        {
          DropKeepsIndex(gs, i);
        }
        SortedIsFlatten(rest, front);
      } else {
        SortedIsFlatten(rest, gs);
      }
    }
  }

  lemma SortedHitsAreDetected(log: Log, ctx: ScanCtx, cycle: nat, gs: seq<Group>)
    requires Increasing(gs) && StandsForHits(log, ctx, cycle, gs, |log|)
    ensures CandidatesOf(gs) == Detect(DuplicateContent, log, ctx, cycle)
  {
    var verdicts := Verdicts(log, ctx, cycle, |log|);
    forall i: nat | i < |log|
      ensures verdicts[i].Some? ==> HasIndex(gs, i)
    {
      VerdictsAt(log, ctx, cycle, |log|, i);
    }
    forall k | 0 <= k < |gs|
      ensures verdicts[gs[k].firstIndex] == Some(CandidateOf(gs[k]))
    {
      VerdictsAt(log, ctx, cycle, |log|, gs[k].firstIndex);
    }
    SortedIsFlatten(verdicts, gs);
    CollectIsFlatten(log, ctx, cycle, |log|);
  }

  method ToCandidates(sorted: seq<Group>) returns (candidates: seq<Candidate>)
    ensures candidates == CandidatesOf(sorted)
  {
    candidates := [];
    for i := 0 to |sorted|
      invariant candidates == CandidatesOf(sorted[..i])
    {
      assert sorted[..i + 1][..i] == sorted[..i];
      candidates := candidates + [Candidate(sorted[i].firstHash, sorted[i].survivor)];
    }
    assert sorted[..|sorted|] == sorted;
  }

  method DetectDuplicateContentSubsumed(log: Log, ctx: ScanCtx, cycle: nat) returns (candidates: seq<Candidate>)
    ensures candidates == Detect(DuplicateContent, log, ctx, cycle)
  {
    hide Grouped, Verdict;
    candidates := [];
    if cycle <= REDUNDANT_GRACE_CYCLES {
      NothingBeforeGrace(DuplicateContent, log, ctx, cycle, |log|);
      return;
    }
    var groups := GroupByContent(log);
    var cutoff := cycle - REDUNDANT_GRACE_CYCLES;
    var emittable := DrainEmittable(groups, ctx, cutoff);
    var sorted := SortByFirstIndex(emittable);
    DrainedStandForHits(log, groups, ctx, cycle, sorted);
    SortedHitsAreDetected(log, ctx, cycle, sorted);
    candidates := ToCandidates(sorted);
  }

  lemma DrainedStandForHits(log: Log, groups: map<Key, Group>, ctx: ScanCtx, cycle: nat, gs: seq<Group>)
    requires cycle > REDUNDANT_GRACE_CYCLES && Grouped(log, |log|, groups)
    requires forall g :: g in gs <==>
      Emittable(g, ctx, cycle - REDUNDANT_GRACE_CYCLES) && exists k :: k in groups && groups[k] == g
    ensures StandsForHits(log, ctx, cycle, gs, |log|)
  {
    forall k | 0 <= k < |gs|
      ensures StandsForHit(log, ctx, cycle, gs[k]) && gs[k].firstIndex < |log|
    {
      assert gs[k] in gs;
      EmittableStandsForHit(log, ctx, cycle, gs[k]);
    }
    forall i: nat | i < |log| && Hit(DuplicateContent, log, ctx, cycle, i)
      ensures HasIndex(gs, i)
    {
      HitIsEmittable(log, groups, ctx, cycle, i);
      assert groups[KeyOf(log[i])] in gs;
    }
  }
}
