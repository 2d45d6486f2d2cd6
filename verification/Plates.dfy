/** The live plates (substrate/src/dag_query.rs), and why supersession always leaves some. */
module Plates {
  import opened Prelude
  import opened Dag
  import opened PruneRules
  import opened Ingest
  import opened Invariants
  import opened Server
  import opened RunLoop
  import opened Steps
  import opened RunTheorems

  // -------------------------------------------------------------------------
  // Supersession
  // -------------------------------------------------------------------------

  /** n is a plate that declares it supersedes h. */
  predicate Supersedes(n: Node, h: Hash) {
    n.kind.ForgedUnderstanding? && n.content.PlateBody? && n.content.supersedes.Some? && h in n.content.supersedes.value
  }

  predicate IsSuperseded(log: Log, h: Hash) {
    exists j :: 0 <= j < |log| && Supersedes(log[j], h)
  }

  predicate IsLivePlate(log: Log, i: nat) {
    i < |log| && log[i].kind.ForgedUnderstanding? && !IsSuperseded(log, HashOf(log[i]))
  }

  // -------------------------------------------------------------------------
  // The listing
  // -------------------------------------------------------------------------

  datatype Entry = Entry(hash: Hash, name: string, worth: Option<nat>)

  function EntryOf(n: Node): Entry
    requires n.kind.ForgedUnderstanding?
  {
    Entry(HashOf(n), n.kind.name, if n.content.PlateBody? then n.content.worth else None)
  }

  /** An absent value sorts as zero. */
  function Rank(e: Entry): nat {
    match e.worth case Some(w) => w case None => 0
  }

  /** The live plates among the first n nodes, in insertion order. */
  function LiveEntries(log: Log, n: nat): seq<Entry>
    requires n <= |log|
  {
    if n == 0 then []
    else if IsLivePlate(log, n - 1) then LiveEntries(log, n - 1) + [EntryOf(log[n - 1])]
    else LiveEntries(log, n - 1)
  }

  /** Put e before the first entry of lower rank: after its equals. */
  function Place(e: Entry, sorted: seq<Entry>): seq<Entry> {
    if |sorted| == 0 || Rank(sorted[0]) < Rank(e) then [e] + sorted else [sorted[0]] + Place(e, sorted[1..])
  }

  /** The stable descending sort the listing uses. */
  function SortByWorth(entries: seq<Entry>): seq<Entry> {
    if |entries| == 0 then [] else Place(entries[|entries| - 1], SortByWorth(entries[..|entries| - 1]))
  }

  predicate Descending(entries: seq<Entry>) {
    forall i, j :: 0 <= i < j < |entries| ==> Rank(entries[i]) >= Rank(entries[j])
  }

  /** The entries of one rank, in order. */
  function OfRank(entries: seq<Entry>, rank: nat): seq<Entry> {
    if |entries| == 0 then [] else (if Rank(entries[0]) == rank then [entries[0]] else []) + OfRank(entries[1..], rank)
  }

  method CollectSuperseded(log: Log) returns (superseded: set<Hash>)
    ensures forall h :: h in superseded <==> IsSuperseded(log, h)
  {
    superseded := {};
    for i := 0 to |log|
      invariant forall h :: h in superseded <==> exists j :: 0 <= j < i && Supersedes(log[j], h)
    {
      var n := log[i];
      if n.kind.ForgedUnderstanding? && n.content.PlateBody? && n.content.supersedes.Some? {
        superseded := superseded + set h | h in n.content.supersedes.value;
      }
    }
  }

  /** The plates among the first n nodes, live or not. */
  function PlateCount(log: Log, n: nat): nat
    requires n <= |log|
  {
    if n == 0 then 0 else PlateCount(log, n - 1) + if log[n - 1].kind.ForgedUnderstanding? then 1 else 0
  }

  lemma {:induction false} CountIsPlates(log: Log, n: nat)
    requires n <= |log|
    ensures PlateCount(log, n) == |set i: nat | i < n && log[i].kind.ForgedUnderstanding?|
  {
    var plates := set i: nat | i < n && log[i].kind.ForgedUnderstanding?;
    if n > 0 {
      CountIsPlates(log, n - 1);
      var front := set i: nat | i < n - 1 && log[i].kind.ForgedUnderstanding?;
      assert plates == front + if log[n - 1].kind.ForgedUnderstanding? then {n - 1} else {};
    } else {
      assert plates == {};
    }
  }

  method HandleListPlates(log: Log) returns (listing: seq<Entry>, total: nat)
    ensures listing == SortByWorth(LiveEntries(log, |log|)) && |listing| <= total
    ensures total == PlateCount(log, |log|)
  {
    var superseded := CollectSuperseded(log);
    var live: seq<Entry> := [];
    total := 0;
    for i := 0 to |log|
      invariant live == LiveEntries(log, i) && |live| <= total && total == PlateCount(log, i)
    {
      if log[i].kind.ForgedUnderstanding? {
        total := total + 1;
        if HashOf(log[i]) !in superseded {
          live := live + [EntryOf(log[i])];
        }
      }
    }
    SortIsPermutation(live);
    listing := SortByWorth(live);
  }

  lemma {:induction false} PlaceAdds(e: Entry, sorted: seq<Entry>)
    ensures multiset(Place(e, sorted)) == multiset(sorted) + multiset{e}
    decreases |sorted|
  {
    if |sorted| > 0 && Rank(sorted[0]) >= Rank(e) {
      PlaceAdds(e, sorted[1..]);
      assert sorted == [sorted[0]] + sorted[1..];
    }
  }

  lemma {:induction false} PlaceDescends(e: Entry, sorted: seq<Entry>)
    requires Descending(sorted)
    ensures Descending(Place(e, sorted))
    decreases |sorted|
  {
    hide Rank;
    if |sorted| > 0 && Rank(sorted[0]) >= Rank(e) {
      var tail := Place(e, sorted[1..]);
      PlaceDescends(e, sorted[1..]);
      PlaceAdds(e, sorted[1..]);
      forall k | 0 <= k < |tail|
        ensures Rank(tail[k]) <= Rank(sorted[0])
      {
        assert tail[k] in multiset(tail);
        assert tail[k] == e || tail[k] in sorted[1..];
      }
    }
  }

  /** The listing holds exactly the live plates, each as often. */
  lemma {:induction false} SortIsPermutation(entries: seq<Entry>)
    ensures Descending(SortByWorth(entries)) && multiset(SortByWorth(entries)) == multiset(entries)
    ensures |SortByWorth(entries)| == |entries|
    decreases |entries|
  {
    hide Place;
    if |entries| > 0 {
      var last := |entries| - 1;
      SortIsPermutation(entries[..last]);
      PlaceAdds(entries[last], SortByWorth(entries[..last]));
      PlaceDescends(entries[last], SortByWorth(entries[..last]));
      assert entries == entries[..last] + [entries[last]];
      assert multiset(SortByWorth(entries)) == multiset(SortByWorth(entries[..last])) + multiset{entries[last]};
    }
    SameMultisetSameLength(SortByWorth(entries), entries);
  }

  lemma SameMultisetSameLength(a: seq<Entry>, b: seq<Entry>)
    requires multiset(a) == multiset(b)
    ensures |a| == |b|
  {
    assert |multiset(a)| == |a| && |multiset(b)| == |b|;
  }

  lemma {:induction false} OfRankSnoc(entries: seq<Entry>, e: Entry, rank: nat)
    ensures OfRank(entries + [e], rank) == OfRank(entries, rank) + if Rank(e) == rank then [e] else []
    decreases |entries|
  {
    if |entries| > 0 {
      OfRankSnoc(entries[1..], e, rank);
      assert (entries + [e])[1..] == entries[1..] + [e];
    } else {
      assert ([] + [e])[1..] == [];
    }
  }

  lemma {:induction false} BelowHasNone(entries: seq<Entry>, rank: nat)
    requires forall k :: 0 <= k < |entries| ==> Rank(entries[k]) < rank
    ensures OfRank(entries, rank) == []
    decreases |entries|
  {
    if |entries| > 0 {
      BelowHasNone(entries[1..], rank);
    }
  }

  lemma {:induction false} PlaceIsStable(e: Entry, sorted: seq<Entry>, rank: nat)
    requires Descending(sorted)
    ensures OfRank(Place(e, sorted), rank) == OfRank(sorted, rank) + if Rank(e) == rank then [e] else []
    decreases |sorted|
  {
    if |sorted| == 0 || Rank(sorted[0]) < Rank(e) {
      assert ([e] + sorted)[1..] == sorted;
      if Rank(e) == rank {
        forall k | 0 <= k < |sorted|
          ensures Rank(sorted[k]) < rank
        {
          assert k > 0 ==> Rank(sorted[0]) >= Rank(sorted[k]);
        }
        BelowHasNone(sorted, rank);
      }
    } else {
      PlaceIsStable(e, sorted[1..], rank);
      assert ([sorted[0]] + Place(e, sorted[1..]))[1..] == Place(e, sorted[1..]);
    }
  }

  /** Plates of one value keep their insertion order. */
  lemma {:induction false} SortIsStable(entries: seq<Entry>, rank: nat)
    ensures OfRank(SortByWorth(entries), rank) == OfRank(entries, rank)
    decreases |entries|
  {
    if |entries| > 0 {
      var last := |entries| - 1;
      SortIsStable(entries[..last], rank);
      SortIsPermutation(entries[..last]);
      PlaceIsStable(entries[last], SortByWorth(entries[..last]), rank);
      OfRankSnoc(entries[..last], entries[last], rank);
      assert entries == entries[..last] + [entries[last]];
    }
  }

  lemma {:induction false} EntriesAreLive(log: Log, n: nat, h: Hash)
    requires WellFormed(log) && n <= |log|
    ensures (exists e :: e in LiveEntries(log, n) && e.hash == h) <==>
      exists i: nat :: i < n && HashOf(log[i]) == h && IsLivePlate(log, i)
  {
    if n > 0 {
      EntriesAreLive(log, n - 1, h);
      var front := LiveEntries(log, n - 1);
      if IsLivePlate(log, n - 1) && HashOf(log[n - 1]) == h {
        assert EntryOf(log[n - 1]) in LiveEntries(log, n);
      }
      if exists e :: e in front && e.hash == h {
        var e :| e in front && e.hash == h;
        assert e in LiveEntries(log, n);
      }
    }
  }

  predicate Listed(listing: seq<Entry>, h: Hash) {
    exists k :: 0 <= k < |listing| && listing[k].hash == h
  }

  lemma SortKeepsElements(entries: seq<Entry>, e: Entry)
    ensures e in SortByWorth(entries) <==> e in entries
  {
    SortIsPermutation(entries);
    assert e in SortByWorth(entries) <==> e in multiset(SortByWorth(entries));
  }

  lemma LiveIsListed(log: Log, i: nat)
    requires WellFormed(log) && IsLivePlate(log, i)
    ensures Listed(SortByWorth(LiveEntries(log, |log|)), HashOf(log[i]))
  {
    EntriesAreLive(log, |log|, HashOf(log[i]));
    var e :| e in LiveEntries(log, |log|) && e.hash == HashOf(log[i]);
    SortKeepsElements(LiveEntries(log, |log|), e);
  }

  /** A node is listed exactly when it is a plate no plate supersedes. */
  lemma ListedIffLive(log: Log, i: nat)
    requires WellFormed(log) && i < |log|
    ensures Listed(SortByWorth(LiveEntries(log, |log|)), HashOf(log[i])) <==> IsLivePlate(log, i)
  {
    var listing := SortByWorth(LiveEntries(log, |log|));
    if Listed(listing, HashOf(log[i])) {
      var k :| 0 <= k < |listing| && listing[k].hash == HashOf(log[i]);
      SortKeepsElements(LiveEntries(log, |log|), listing[k]);
      EntriesAreLive(log, |log|, HashOf(log[i]));
      var m: nat :| m < |log| && HashOf(log[m]) == HashOf(log[i]) && IsLivePlate(log, m);
      assert m == i;
    }
    if IsLivePlate(log, i) {
      LiveIsListed(log, i);
    }
  }

  // -------------------------------------------------------------------------
  // The order of the listing
  // -------------------------------------------------------------------------

  /** The value a plate's body declares, 0 when it declares none. */
  function DeclaredValue(n: Node): nat {
    if n.content.PlateBody? && n.content.worth.Some? then n.content.worth.value else 0
  }

  /** The listing puts p before q: the one of larger value first, of equals the older. */
  predicate Precedes(log: Log, p: nat, q: nat)
    requires p < |log| && q < |log|
  {
    DeclaredValue(log[p]) > DeclaredValue(log[q]) || (DeclaredValue(log[p]) == DeclaredValue(log[q]) && p < q)
  }

  /** Placing inserts: what comes before ranks at least as high, what comes next ranks lower. */
  lemma {:induction false} PlaceInserts(e: Entry, sorted: seq<Entry>) returns (k: nat)
    ensures k <= |sorted| && Place(e, sorted) == sorted[..k] + [e] + sorted[k..]
    ensures forall m :: 0 <= m < k ==> Rank(sorted[m]) >= Rank(e)
    ensures k < |sorted| ==> Rank(sorted[k]) < Rank(e)
    decreases |sorted|
  {
    hide Rank;
    k := 0;
    if |sorted| > 0 && Rank(sorted[0]) >= Rank(e) {
      var rest := PlaceInserts(e, sorted[1..]);
      k := rest + 1;
    }
  }

  /** Where the sort puts two entries: the earlier one first exactly when the later does not outrank it. */
  lemma {:induction false} SortOrders(entries: seq<Entry>, x: nat, y: nat) returns (i: nat, j: nat)
    requires x < y < |entries|
    ensures i < |entries| && j < |entries| && |SortByWorth(entries)| == |entries|
    ensures SortByWorth(entries)[i] == entries[x] && SortByWorth(entries)[j] == entries[y]
    ensures i < j <==> Rank(entries[x]) >= Rank(entries[y])
    ensures i != j
    decreases |entries|
  {
    hide Rank, Place;
    var last, front := |entries| - 1, entries[..|entries| - 1];
    var sorted := SortByWorth(front);
    SortIsPermutation(front);
    SortIsPermutation(entries);
    var k := PlaceInserts(entries[last], sorted);
    if y < last {
      i, j := SortOrders(front, x, y);
      j := if j < k then j else j + 1;
    } else {
      SortKeepsElements(front, front[x]);
      i :| i < |sorted| && sorted[i] == front[x];
      j := k;
      if i >= k {
        assert k < i ==> Rank(sorted[k]) >= Rank(sorted[i]);
      }
    }
    i := if i < k then i else i + 1;
  }

  /** A live plate's entry stands after those of the live plates inserted before it. */
  lemma {:induction false} LiveEntryAt(log: Log, n: nat, i: nat)
    requires i < n <= |log| && IsLivePlate(log, i)
    ensures |LiveEntries(log, i)| < |LiveEntries(log, n)|
    ensures LiveEntries(log, n)[|LiveEntries(log, i)|] == EntryOf(log[i])
  {
    if i < n - 1 {
      LiveEntryAt(log, n - 1, i);
    }
  }

  /** Every entry of the listing belongs to a live plate and shows its hash, its name and its declared value. */
  lemma {:induction false} EntriesShow(log: Log, n: nat, k: nat) returns (i: nat)
    requires n <= |log| && k < |LiveEntries(log, n)|
    ensures i < n && IsLivePlate(log, i) && k == |LiveEntries(log, i)|
    ensures var e := LiveEntries(log, n)[k];
            && e.hash == HashOf(log[i]) && e.name == log[i].kind.name
            && (e.worth.Some? <==> log[i].content.PlateBody? && log[i].content.worth.Some?)
            && (e.worth.Some? ==> e.worth == log[i].content.worth)
  {
    if k < |LiveEntries(log, n - 1)| {
      i := EntriesShow(log, n - 1, k);
    } else {
      i := n - 1;
    }
  }

  lemma ListingShows(log: Log, k: nat) returns (i: nat)
    requires k < |SortByWorth(LiveEntries(log, |log|))|
    ensures IsLivePlate(log, i)
    ensures var e := SortByWorth(LiveEntries(log, |log|))[k];
            && e.hash == HashOf(log[i]) && e.name == log[i].kind.name
            && (e.worth.Some? <==> log[i].content.PlateBody? && log[i].content.worth.Some?)
            && (e.worth.Some? ==> e.worth == log[i].content.worth)
  {
    var entries := LiveEntries(log, |log|);
    SortKeepsElements(entries, SortByWorth(entries)[k]);
    var m: nat :| m < |entries| && entries[m] == SortByWorth(entries)[k];
    i := EntriesShow(log, |log|, m);
  }

  /** Each hash is listed once. */
  lemma ListedOnce(log: Log, k: nat, m: nat)
    requires WellFormed(log) && k < m < |SortByWorth(LiveEntries(log, |log|))|
    ensures SortByWorth(LiveEntries(log, |log|))[k].hash != SortByWorth(LiveEntries(log, |log|))[m].hash
  {
    var entries := LiveEntries(log, |log|);
    var listing := SortByWorth(entries);
    SortIsPermutation(entries);
    if listing[k].hash == listing[m].hash {
      var i := ListingShows(log, k);
      var j := ListingShows(log, m);
      assert i == j;
      assert listing[k] == listing[m];
      OccursTwice(listing, k, m);
      TwiceHasTwo(entries, listing[k]);
      var x, y :| 0 <= x < y < |entries| && entries[x] == listing[k] && entries[y] == listing[k];
      var p := EntriesShow(log, |log|, x);
      var q := EntriesShow(log, |log|, y);
    }
  }

  lemma OccursTwice(entries: seq<Entry>, k: nat, m: nat)
    requires k < m < |entries| && entries[k] == entries[m]
    ensures multiset(entries)[entries[k]] >= 2
  {
    assert entries == entries[..m] + entries[m..];
    assert entries[k] in entries[..m];
    assert entries[m] in entries[m..];
    assert multiset(entries) == multiset(entries[..m]) + multiset(entries[m..]);
    assert multiset(entries[..m])[entries[k]] >= 1 && multiset(entries[m..])[entries[k]] >= 1;
  }

  lemma {:induction false} TwiceHasTwo(entries: seq<Entry>, e: Entry)
    requires multiset(entries)[e] >= 2
    ensures exists x, y :: 0 <= x < y < |entries| && entries[x] == e && entries[y] == e
    decreases |entries|
  {
    var last := |entries| - 1;
    assert entries == entries[..last] + [entries[last]];
    if entries[last] == e {
      assert multiset(entries[..last])[e] >= 1;
      assert e in entries[..last];
    } else {
      TwiceHasTwo(entries[..last], e);
    }
  }

  /**
   Of two live plates the one whose body declares the larger value stands first in the listing, and
   of two that declare the same value (or none, which counts as 0) the one inserted first.
   */
  lemma ListedInOrder(log: Log, p: nat, q: nat, i: nat, j: nat)
    requires WellFormed(log) && IsLivePlate(log, p) && IsLivePlate(log, q) && Precedes(log, p, q)
    requires i < |SortByWorth(LiveEntries(log, |log|))| && j < |SortByWorth(LiveEntries(log, |log|))|
    requires SortByWorth(LiveEntries(log, |log|))[i].hash == HashOf(log[p])
    requires SortByWorth(LiveEntries(log, |log|))[j].hash == HashOf(log[q])
    ensures i < j
  {
    var entries := LiveEntries(log, |log|);
    LiveEntryAt(log, |log|, p);
    LiveEntryAt(log, |log|, q);
    var first, second: nat;
    if p < q {
      LiveEntryAt(log, q, p);
      first, second := SortOrders(entries, |LiveEntries(log, p)|, |LiveEntries(log, q)|);
    } else {
      LiveEntryAt(log, p, q);
      second, first := SortOrders(entries, |LiveEntries(log, q)|, |LiveEntries(log, p)|);
    }
    if first != i {
      ListedOnce(log, if first < i then first else i, if first < i then i else first);
    }
    if second != j {
      ListedOnce(log, if second < j then second else j, if second < j then j else second);
    }
  }

  // -------------------------------------------------------------------------
  // Supersession is well founded
  // -------------------------------------------------------------------------

  /** Plate i is live, or superseded by a plate that leads to a live one. */
  ghost predicate LeadsTo(log: Log, i: nat, live: nat)
    requires i <= |log|
    decreases |log| - i
  {
    i < |log| && (i == live ||
        exists j: nat :: i < j < |log| && Supersedes(log[j], HashOf(log[i])) && LeadsTo(log, j, live))
  }

  lemma {:induction false} GroundedAt(log: Log, j: nat)
    requires PlatesGrounded(log) && j < |log|
    ensures IsGrounded(log[..j], log[j])
    decreases |log|
  {
    if j < |log| - 1 {
      GroundedAt(log[..|log| - 1], j);
      assert log[..|log| - 1][..j] == log[..j];
    }
  }

  /** A superseding plate comes after what it supersedes. */
  lemma SupersededEarlier(log: Log, i: nat, j: nat)
    requires WellFormed(log) && PlatesGrounded(log) && i < |log| && j < |log| && Supersedes(log[j], HashOf(log[i]))
    ensures i < j
  {
    GroundedAt(log, j);
    NodeIsIn(log[..j], HashOf(log[i]), true);
    var k :| 0 <= k < j && HashOf(log[..j][k]) == HashOf(log[i]);
    assert HashOf(log[k]) == HashOf(log[i]);
    assert k == i;
  }

  /** Every plate leads to a live plate along superseded-by edges. */
  lemma {:induction false} PlateLeadsToLive(log: Log, i: nat) returns (live: nat)
    requires WellFormed(log) && PlatesGrounded(log) && i < |log| && log[i].kind.ForgedUnderstanding?
    ensures IsLivePlate(log, live) && LeadsTo(log, i, live)
    decreases |log| - i
  {
    if IsSuperseded(log, HashOf(log[i])) {
      var j: nat :| j < |log| && Supersedes(log[j], HashOf(log[i]));
      SupersededEarlier(log, i, j);
      live := PlateLeadsToLive(log, j);
    } else {
      live := i;
    }
  }

  /** So in any reachable log with a plate, the listing is not empty and shows what replaced it. */
  lemma ReachablePlatesAreCovered(s: Live, i: nat) returns (live: nat)
    requires Reachable(s) && i < |s.dag| && s.dag[i].kind.ForgedUnderstanding?
    ensures IsLivePlate(s.dag, live) && LeadsTo(s.dag, i, live)
    ensures Listed(SortByWorth(LiveEntries(s.dag, |s.dag|)), HashOf(s.dag[live]))
  {
    ReachableIsReady(s);
    live := PlateLeadsToLive(s.dag, i);
    ListedIffLive(s.dag, live);
  }

  // -------------------------------------------------------------------------
  // Rule E and the listing
  // -------------------------------------------------------------------------

  /** What rule E retires is superseded, so no later listing shows it. */
  lemma RuleERetiredIsNeverListed(log: Log, ctx: ScanCtx, cycle: nat, i: nat, later: Log)
    requires Hit(PlateSuperseded, log, ctx, cycle, i) && log <= later && WellFormed(later)
    ensures !Listed(SortByWorth(LiveEntries(later, |later|)), HashOf(log[i]))
  {
    var n := log[i];
    var j: nat :| Outdone(log, PlateSuperseding(HashOf(n)), n, cycle, Grace(PlateSuperseded), j);
    assert later[i] == log[i] && later[j] == log[j];
    assert Supersedes(later[j], HashOf(later[i]));
    ListedIffLive(later, i);
  }
}
