/** The process: it boots, then serves one command after another (substrate/src/server/mod.rs). */
module Serving {
  import opened Dag
  import opened Derived
  import opened Server
  import opened RunLoop
  import opened Observatory
  import opened StageRuns
  import opened Ingest
  import opened Runs
  import opened RunTheorems

  /** A live state and the samples taken since the last boot. */
  datatype Process = Process(live: Live, samples: seq<Sample>)

  /** What a process becomes by serving the commands, with the intake refusals and the stage machine its own. */
  ghost function Served(p: Process, b: CostBudgets, cs: seq<Command>): Process
    decreases |cs|
  {
    if |cs| == 0 then p
    else
      var before, c := Served(p, b, cs[..|cs| - 1]), cs[|cs| - 1];
      Process(Step(before.live, Realised(c, before.live, b, before.samples)),
              SamplesAfter(c, before.live, before.samples))
  }

  lemma ServedNext(p: Process, b: CostBudgets, cs: seq<Command>, i: nat)
    requires i < |cs|
    ensures Served(p, b, cs[..i + 1]) ==
            Process(Step(Served(p, b, cs[..i]).live,
                         Realised(cs[i], Served(p, b, cs[..i]).live, b, Served(p, b, cs[..i]).samples)),
                    SamplesAfter(cs[i], Served(p, b, cs[..i]).live, Served(p, b, cs[..i]).samples))
  {
    hide Step, Realised, SamplesAfter;
    assert cs[..i + 1][..i] == cs[..i];
  }

  /** The run loop. The machine, its counters and its alarm memory stay those of the samples since boot. */
  method Serve(state: ServerState, cs: seq<Command>) returns (next: ServerState)
    requires WellFormed(state.dag) && Tracks(state)
    modifies state
    ensures WellFormed(next.dag) && Tracks(next) && next.budgets == old(state.budgets)
    ensures Process(next.View(), next.samples) ==
            Served(old(Process(state.View(), state.samples)), old(state.budgets), cs)
  {
    hide Tracks, Step, Realised, SamplesAfter;
    next := state;
    ghost var p, b := Process(state.View(), state.samples), state.budgets;
    for i := 0 to |cs|
      invariant next == state || fresh(next)
      invariant WellFormed(next.dag) && Tracks(next) && next.budgets == b
      invariant Process(next.View(), next.samples) == Served(p, b, cs[..i])
    {
      ServedNext(p, b, cs, i);
      next := Execute(next, cs[i]);
    }
    assert cs[..|cs|] == cs;
  }

  /** What it served is a run, so all that holds of reachable states holds of every process. */
  lemma {:induction false} ServedIsRun(p: Process, b: CostBudgets, cs: seq<Command>) returns (done: seq<Command>)
    ensures |done| == |cs| && Served(p, b, cs).live == Run(p.live, done)
    decreases |cs|
  {
    hide Step, Realised, SamplesAfter;
    if |cs| == 0 {
      done := [];
    } else {
      var before := Served(p, b, cs[..|cs| - 1]);
      var front := ServedIsRun(p, b, cs[..|cs| - 1]);
      done := front + [Realised(cs[|cs| - 1], before.live, b, before.samples)];
      RunSnoc(p.live, front, done[|front|]);
    }
  }

  lemma {:induction false} RunConcat(s: Live, a: seq<Command>, b: seq<Command>)
    ensures Run(s, a + b) == Run(Run(s, a), b)
    decreases |b|
  {
    hide Step;
    if |b| == 0 {
      assert a + b == a;
    } else {
      RunConcat(s, a, b[..|b| - 1]);
      assert (a + b)[..|a + b| - 1] == a + b[..|b| - 1];
    }
  }

  lemma RunIsReachable(s: Live, cs: seq<Command>)
    requires Reachable(s)
    ensures Reachable(Run(s, cs))
  {
    var id: Id, time: int, depth: nat, earlier: seq<Command> :|
      !IsZero(id) && s == Run(Born(id, time, depth), earlier);
    RunConcat(Born(id, time, depth), earlier, cs);
  }

  lemma ServedIsReachable(p: Process, b: CostBudgets, cs: seq<Command>)
    requires Reachable(p.live)
    ensures Reachable(Served(p, b, cs).live)
  {
    var done := ServedIsRun(p, b, cs);
    RunIsReachable(p.live, done);
  }

  /**
   In every run, with failed cycles, idle batches and reboots: new material is refused exactly when
   three cycles were completed since boot and the last three were each over budget on some axis.
   */
  lemma IntakeAfterServing(p: Process, b: CostBudgets, cs: seq<Command>, refused: bool, kind: string, bytes: Bytes)
    requires |kind| > 0 && |bytes| <= MAX_INGESTION_BYTES
    ensures var q := Served(p, b, cs);
            Served(p, b, cs + [IngestRaw(refused, kind, bytes)]).live ==
            if LastOver(b, q.samples, 3) then Flushed(q.live) else Ingested(Flushed(q.live), kind, bytes)
  {
    OverRunIs(b, Served(p, b, cs).samples, 3);
    assert (cs + [IngestRaw(refused, kind, bytes)])[..|cs|] == cs;
  }
}
