/**
 The process-global wall clock (substrate/src/wall_clock.rs): threads that load and
 compare-exchange the same atomics. A step is one atomic access; a load may see any value
 stored so far, and a weak compare-exchange may fail for no reason.
 */
module WallClock {
  const I64_MAX: int := 0x7FFF_FFFF_FFFF_FFFF
  const SKEW_THRESHOLD_NS: int := 1_000_000

  /** Where a thread is inside monotonic_unix_ns; `since` counts the calls that had returned when it began. */
  datatype Phase =
    | Idle
    | Sampled(observed: int, since: nat)
    | Raising(observed: int, since: nat, seen: int, jump: int)
    | Loaded(observed: int, since: nat, seen: int)

  /** A call that has returned: the calls that had when it began, its sample, its result. */
  datatype Returned = Returned(since: nat, observed: int, value: int)

  /**
   `stored` holds every value LAST_OBSERVED_UNIX_NS ever had, newest last; `raised` the same for
   the largest jump; `count` is the detection counter. `taken` and `takenJumps` are what takes have
   read and reset: the sum of the counts, and every jump.
   */
  datatype Clock = Clock(
    stored: seq<int>,
    raised: seq<int>,
    count: nat,
    taken: nat,
    takenJumps: seq<int>,
    detected: seq<int>,
    threads: map<nat, Phase>,
    returned: seq<Returned>)

  datatype Event =
    | Begin(thread: nat, observed: int)
    | Load(thread: nat, seen: int)
    | Raise(thread: nat, prior: int, spurious: bool)
    | Exchange(thread: nat, spurious: bool)
    | TakeCount  // the two swaps of take_skew_observation
    | TakeJump

  function PhaseOf(c: Clock, t: nat): Phase {
    if t in c.threads then c.threads[t] else Idle
  }

  /** The current value of an atomic, given every value it ever had. */
  function Last(stored: seq<int>): int {
    if |stored| == 0 then 0 else stored[|stored| - 1]
  }

  function Saturate(x: int): int {
    if x > I64_MAX then I64_MAX else if x < -I64_MAX - 1 then -I64_MAX - 1 else x
  }

  /** The value to store: what was observed if it is ahead, else one more than was seen. */
  function Next(observed: int, seen: int): int {
    if observed > seen then observed else Saturate(seen + 1)
  }

  predicate IsSkew(observed: int, seen: int) {
    seen > 0 && observed < Saturate(seen - SKEW_THRESHOLD_NS)
  }

  /** One atomic step; an event that does not fit the thread's phase changes nothing. */
  function Step(c: Clock, e: Event): Clock {
    match e
    case Begin(t, observed) =>
      if PhaseOf(c, t).Idle? && 0 <= observed <= I64_MAX
      then c.(threads := c.threads[t := Sampled(observed, |c.returned|)]) else c
    case Load(t, seen) =>
      (match PhaseOf(c, t)
       case Sampled(observed, since) =>
         if seen !in c.stored then c
         else if IsSkew(observed, seen) then
           var jump := Saturate(seen - observed);
           c.(count := c.count + 1, detected := c.detected + [jump],
              threads := c.threads[t := Raising(observed, since, seen, jump)])
         else c.(threads := c.threads[t := Loaded(observed, since, seen)])
       case _ => c)
    case Raise(t, prior, spurious) =>
      (match PhaseOf(c, t)
       case Raising(observed, since, seen, jump) =>
         if prior !in c.raised then c
         else if jump <= prior then c.(threads := c.threads[t := Loaded(observed, since, seen)])
         else if !spurious && prior == Last(c.raised)
         then c.(raised := c.raised + [jump], threads := c.threads[t := Loaded(observed, since, seen)])
         else c
       case _ => c)
    case Exchange(t, spurious) =>
      (match PhaseOf(c, t)
       case Loaded(observed, since, seen) =>
         if !spurious && Last(c.stored) == seen then
           var next := Next(observed, seen);
           c.(stored := c.stored + [next], returned := c.returned + [Returned(since, observed, next)],
              threads := c.threads[t := Idle])
         else c.(threads := c.threads[t := Sampled(observed, since)])
       case _ => c)
    case TakeCount => c.(taken := c.taken + c.count, count := 0)
    case TakeJump => c.(takenJumps := c.takenJumps + [Last(c.raised)], raised := c.raised + [0])
  }

  // -------------------------------------------------------------------------
  // What every interleaving keeps
  // -------------------------------------------------------------------------

  predicate InRange(x: int) {
    0 <= x <= I64_MAX
  }

  /** Once below the maximum, all that is stored later is larger; at the maximum, nothing changes any more. */
  predicate Climbs(stored: seq<int>) {
    forall i, j :: 0 <= i < j < |stored| ==> if stored[i] < I64_MAX then stored[i] < stored[j] else stored[j] == I64_MAX
  }

  predicate PhaseOk(c: Clock, p: Phase) {
    match p
    case Idle => true
    case Sampled(observed, since) => InRange(observed) && since <= |c.returned|
    case Raising(observed, since, seen, jump) => InRange(observed) && since <= |c.returned| && InRange(seen) &&
        jump in c.detected
    case Loaded(observed, since, seen) => InRange(observed) && since <= |c.returned| && InRange(seen)
  }

  /** The calls returned in the order their values were stored. */
  predicate ReturnsAreStored(c: Clock) {
    && |c.stored| == |c.returned| + 1 && c.stored[0] == 0
    && forall k :: 0 <= k < |c.returned| ==> c.returned[k].value == c.stored[k + 1] && c.returned[k].since <= k
  }

  ghost predicate Ok(c: Clock) {
    && |c.stored| > 0 && |c.raised| > 0 && Climbs(c.stored)
    && (forall i :: 0 <= i < |c.stored| ==> InRange(c.stored[i]))
    && (forall t :: t in c.threads ==> PhaseOk(c, c.threads[t]))
    && ReturnsAreStored(c)
    && c.taken + c.count == |c.detected|
  }

  lemma ExchangeKeepsOk(c: Clock, t: nat, spurious: bool)
    requires Ok(c)
    ensures Ok(Step(c, Exchange(t, spurious)))
  {
  }

  lemma StepKeepsOk(c: Clock, e: Event)
    requires Ok(c)
    ensures Ok(Step(c, e))
  {
    if e.Exchange? {
      ExchangeKeepsOk(c, e.thread, e.spurious);
    }
  }

  /** A process after some events, in the order the atomics saw them. */
  function Run(events: seq<Event>): Clock {
    if |events| == 0 then Clock([0], [0], 0, 0, [], [], map[], [])
        else Step(Run(events[..|events| - 1]), events[|events| - 1])
  }

  lemma {:induction false} RunIsOk(events: seq<Event>)
    ensures Ok(Run(events))
    decreases |events|
  {
    if |events| > 0 {
      RunIsOk(events[..|events| - 1]);
      StepKeepsOk(Run(events[..|events| - 1]), events[|events| - 1]);
    }
  }

  /** The later of two returns is larger exactly when the earlier is below the maximum. */
  predicate IsOrdered(r: seq<Returned>, i: nat, j: nat)
    requires i < j < |r|
  {
    && (r[i].value < r[j].value <==> r[i].value < I64_MAX)
    && (r[i].value == r[j].value <==> r[i].value == I64_MAX)
  }

  lemma ReturnsAreOrdered(c: Clock, i: nat, j: nat)
    requires Ok(c) && i < j < |c.returned|
    ensures IsOrdered(c.returned, i, j)
  {
    assert c.returned[i].value == c.stored[i + 1] && c.returned[j].value == c.stored[j + 1];
  }

  /**
   Under every interleaving, with stale loads and spurious failures, of two calls the later to
   return gets a strictly larger value exactly when the earlier value is below the i64 maximum;
   past it every call returns the maximum.
   */
  lemma LaterIsLargerIff(events: seq<Event>, i: nat, j: nat)
    requires i < j < |Run(events).returned|
    ensures IsOrdered(Run(events).returned, i, j)
  {
    RunIsOk(events);
    ReturnsAreOrdered(Run(events), i, j);
  }

  /** A call that begins after another has returned gets a larger value, whatever the system clock said. */
  lemma StartedAfterReturnIsLarger(events: seq<Event>, i: nat, j: nat)
    requires j < |Run(events).returned| && i < Run(events).returned[j].since
    ensures i < j && IsOrdered(Run(events).returned, i, j)
  {
    RunIsOk(events);
    ReturnsAreOrdered(Run(events), i, j);
  }

  /** A call gets its sample if that is ahead of the value before, else one more than it, up to the maximum. */
  predicate Follows(before: int, r: Returned) {
    if r.observed > before then r.value == r.observed
    else r.value == if before < I64_MAX then before + 1 else I64_MAX
  }

  predicate EachFollows(c: Clock)
    requires |c.stored| > |c.returned|
  {
    forall k :: 0 <= k < |c.returned| ==> Follows(c.stored[k], c.returned[k])
  }

  lemma StepFollows(c: Clock, e: Event)
    requires Ok(c) && EachFollows(c)
    ensures |Step(c, e).stored| > |Step(c, e).returned| && EachFollows(Step(c, e))
  {
    hide Climbs;
  }

  lemma {:induction false} RunFollows(events: seq<Event>)
    ensures |Run(events).stored| > |Run(events).returned| && EachFollows(Run(events))
    decreases |events|
  {
    if |events| > 0 {
      RunIsOk(events[..|events| - 1]);
      RunFollows(events[..|events| - 1]);
      StepFollows(Run(events[..|events| - 1]), events[|events| - 1]);
    }
  }

  /**
   Under every interleaving a call returns its own sample exactly when that is ahead of what the
   call before returned (zero before the first), and otherwise one more than that.
   */
  lemma SampleOrSuccessor(events: seq<Event>, k: nat)
    requires k < |Run(events).returned|
    ensures var r, before := Run(events).returned[k], if k == 0 then 0 else Run(events).returned[k - 1].value;
            && (r.observed > before ==> r.value == r.observed)
            && (r.observed <= before < I64_MAX ==> r.value == before + 1)
            && (before == I64_MAX ==> r.value == I64_MAX)
  {
    var c := Run(events);
    hide Run;
    RunIsOk(events);
    RunFollows(events);
    assert Follows(c.stored[k], c.returned[k]);
    assert k > 0 ==> c.returned[k - 1].value == c.stored[k];
  }

  /** The exception is real: one sample at the maximum drives the clock there. */
  lemma MaximumIsReachable()
    ensures var c := Clock([0], [0], 0, 0, [], [], map[], []);
            Last(Step(Step(Step(c, Begin(0, I64_MAX)), Load(0, 0)), Exchange(0, false)).stored) == I64_MAX
  {
    var c := Clock([0], [0], 0, 0, [], [], map[], []);
    assert PhaseOf(Step(Step(c, Begin(0, I64_MAX)), Load(0, 0)), 0) == Loaded(I64_MAX, 0, 0);
  }

  // -------------------------------------------------------------------------
  // Skew observations
  // -------------------------------------------------------------------------

  /** The call's own sample is more than a millisecond behind the value it loads. */
  predicate FindsSkew(c: Clock, e: Event) {
    && e.Load? && e.seen in c.stored && PhaseOf(c, e.thread).Sampled?
    && e.seen - PhaseOf(c, e.thread).observed > 1_000_000
  }

  lemma StepDetects(c: Clock, e: Event)
    requires Ok(c)
    ensures Step(c, e).detected ==
            c.detected + if FindsSkew(c, e) then [e.seen - PhaseOf(c, e.thread).observed] else []
  {
    hide Climbs, ReturnsAreStored;
  }

  /** A skew is detected exactly by such a load, as the distance; no other access adds or drops a detection. */
  lemma DetectedIff(events: seq<Event>, e: Event)
    ensures Run(events + [e]).detected ==
            Run(events).detected +
            if FindsSkew(Run(events), e) then [e.seen - PhaseOf(Run(events), e.thread).observed] else []
  {
    RunIsOk(events);
    assert (events + [e])[..|events|] == events;
    StepDetects(Run(events), e);
  }

  /** No detection is lost or counted twice by the counter, however takes interleave. */
  lemma DetectionsAreConserved(events: seq<Event>)
    ensures Run(events).taken + Run(events).count == |Run(events).detected|
  {
    RunIsOk(events);
  }

  /** The jump is at most the recorded one, or at most one that was taken. */
  predicate Remembered(c: Clock, jump: int) {
    jump <= Last(c.raised) || exists k :: 0 <= k < |c.takenJumps| && jump <= c.takenJumps[k]
  }

  /** Or some thread is still raising it. */
  predicate Covered(c: Clock, jump: int) {
    Remembered(c, jump) || exists t :: t in c.threads && c.threads[t].Raising? && c.threads[t].jump == jump
  }

  /** Nothing the record ever held is lost, and so no jump: a stale load may well see a value taken since. */
  ghost predicate AllCovered(c: Clock) {
    && (forall i :: 0 <= i < |c.raised| ==> Remembered(c, c.raised[i]))
    && (forall k :: 0 <= k < |c.detected| ==> Covered(c, c.detected[k]))
  }

  /** The record holds nothing but detected jumps, or zero. */
  ghost predicate AllDetected(c: Clock) {
    && (forall i :: 0 <= i < |c.raised| ==> c.raised[i] == 0 || c.raised[i] in c.detected)
    && (forall k :: 0 <= k < |c.takenJumps| ==> c.takenJumps[k] == 0 || c.takenJumps[k] in c.detected)
  }

  lemma RememberedStays(c: Clock, e: Event, jump: int)
    requires Ok(c) && Remembered(c, jump)
    ensures Remembered(Step(c, e), jump)
  {
    var d := Step(c, e);
    if jump <= Last(c.raised) {
      if e.TakeJump? {
        assert d.takenJumps[|c.takenJumps|] == Last(c.raised);
      }
    } else {
      var k :| 0 <= k < |c.takenJumps| && jump <= c.takenJumps[k];
      assert d.takenJumps[k] == c.takenJumps[k];
    }
  }

  lemma RaisedStays(c: Clock, e: Event)
    requires Ok(c) && AllCovered(c)
    ensures forall i :: 0 <= i < |Step(c, e).raised| ==> Remembered(Step(c, e), Step(c, e).raised[i])
  {
    var d := Step(c, e);
    forall i | 0 <= i < |d.raised|
      ensures Remembered(d, d.raised[i])
    {
      if i < |c.raised| {
        RememberedStays(c, e, c.raised[i]);
      }
    }
  }

  lemma CoveredStays(c: Clock, e: Event, jump: int)
    requires Ok(c) && AllCovered(c) && Covered(c, jump)
    ensures Covered(Step(c, e), jump)
  {
    var d := Step(c, e);
    RaisedStays(c, e);
    if Remembered(c, jump) {
      RememberedStays(c, e, jump);
    } else {
      var t :| t in c.threads && c.threads[t].Raising? && c.threads[t].jump == jump;
      assert forall i :: 0 <= i < |c.raised| ==> c.raised[i] < jump;
      if t !in d.threads || !d.threads[t].Raising? {
        assert Last(d.raised) == jump;
      }
    }
  }

  lemma StepKeepsCovered(c: Clock, e: Event)
    requires Ok(c) && AllCovered(c)
    ensures AllCovered(Step(c, e))
  {
    var d := Step(c, e);
    RaisedStays(c, e);
    forall k | 0 <= k < |d.detected|
      ensures Covered(d, d.detected[k])
    {
      if k < |c.detected| {
        CoveredStays(c, e, c.detected[k]);
      } else {
        assert e.thread in d.threads && d.threads[e.thread].Raising?;
      }
    }
  }

  lemma StepKeepsDetected(c: Clock, e: Event)
    requires Ok(c) && AllDetected(c)
    ensures AllDetected(Step(c, e))
  {
  }

  lemma {:induction false} RunIsCovered(events: seq<Event>)
    ensures AllCovered(Run(events)) && AllDetected(Run(events))
    decreases |events|
  {
    if |events| > 0 {
      RunIsOk(events[..|events| - 1]);
      RunIsCovered(events[..|events| - 1]);
      StepKeepsCovered(Run(events[..|events| - 1]), events[|events| - 1]);
      StepKeepsDetected(Run(events[..|events| - 1]), events[|events| - 1]);
    }
  }

  /**
   When no thread is mid-update, every jump ever detected is at most the recorded one or at most
   one that a take has handed out, however takes, stale loads and failures interleave.
   */
  lemma QuiescentMaximum(events: seq<Event>, k: nat)
    requires k < |Run(events).detected|
    requires forall t :: t in Run(events).threads ==> !Run(events).threads[t].Raising?
    ensures Remembered(Run(events), Run(events).detected[k])
  {
    RunIsCovered(events);
    assert Covered(Run(events), Run(events).detected[k]);
  }

  /** What is recorded, and what takes hand out, is zero or a jump that was detected. */
  lemma RecordedIsDetected(events: seq<Event>, jump: int)
    requires jump == Last(Run(events).raised) || jump in Run(events).takenJumps
    ensures jump == 0 || jump in Run(events).detected
  {
    RunIsCovered(events);
  }
}
