/** What becomes of votes: recorded once, counted when they verify, over whole runs of proposals and votes. */
module VoteRuns {
  import opened Prelude
  import opened Dag
  import opened Derived
  import opened Server
  import opened Ingest
  import opened Consensus
  import opened ConsensusRounds
  import opened CertificateRuns

  // -------------------------------------------------------------------------
  // Who is counted
  // -------------------------------------------------------------------------

  /** The key a peer's last readable pin gives it. */
  ghost predicate IsLastPin(log: Log, id: Bytes, i: nat) {
    && i < |log| && PinsKeyOf(log[i], id)
    && forall k :: i < k < |log| ==> !PinsKeyOf(log[k], id)
  }

  /** A readable pin of this peer's key. */
  predicate PinsKeyOf(n: Node, id: Bytes) {
    n.kind.PeerPinned? && n.content.PinBody? && n.content.pinnedKey.Some? && n.content.peer == id
  }

  /** A peer has a key exactly when it is not revoked and was pinned; the key is the last one pinned. */
  lemma {:induction false} PinIsLast(env: Env, log: Log, id: Bytes)
    ensures PinOf(env, log, id).Some? <==> id !in env.revoked && exists i: nat :: IsLastPin(log, id, i)
    ensures forall i: nat :: IsLastPin(log, id, i) && id !in env.revoked ==>
      PinOf(env, log, id) == log[i].content.pinnedKey
    decreases |log|
  {
    if |log| > 0 {
      var last, front := |log| - 1, log[..|log| - 1];
      PinIsLast(env, front, id);
      if PinsKeyOf(log[last], id) {
        assert IsLastPin(log, id, last);
      } else {
        forall i: nat
          ensures IsLastPin(log, id, i) <==> IsLastPin(front, id, i)
        {
          assert i < last ==> front[i] == log[i];
        }
      }
    }
  }

  /** The participants besides this substrate: every connected peer that said who it is and is not revoked. */
  lemma {:induction false} LivePeersAre(env: Env, n: nat, id: Bytes)
    requires n <= |env.peers|
    ensures id in LivePeers(env, n) <==> id !in env.revoked && exists k :: 0 <= k < n && env.peers[k] == Some(id)
  {
    if n > 0 {
      LivePeersAre(env, n - 1, id);
    }
  }

  /** At most f of n participants may be faulty for the largest f with 3f < n; a quorum is all but f. */
  lemma QuorumIsAllButFaulty(n: nat)
    requires n > 0
    ensures 3 * FTolerated(n) < n <= 3 * FTolerated(n) + 3
    ensures QuorumThreshold(n) + FTolerated(n) == n
  {
  }

  /**
   Node i is a vote in this round, by a voter with a key (its own substrate's, or the pinned one),
   with a signature by that key over the claim, the voter, the round and the tip it names.
   */
  ghost predicate IsGoodVote(env: Env, log: Log, c: Claim, round: nat, id: Bytes, i: nat) {
    && i < |log| && log[i].kind == PopulationVote(c.kind) && log[i].content.VoteBody?
    && var v := log[i].content;
       && v.voteHash == c.hash && v.voteRound == round && v.voter == id
       && (id != env.selfId ==> PinOf(env, log, id).Some?)
       && env.verify(if id == env.selfId then env.selfKey else PinOf(env, log, id).value, v.signature,
                     VoteMessage(v.voteClaim, c.hash, id, round, v.voterTip))
  }

  /** A voter is counted exactly when it has a good vote. */
  lemma {:induction false} CountedIff(env: Env, log: Log, c: Claim, round: nat, n: nat, id: Bytes)
    requires n <= |log|
    ensures id in VerifiedVoters(env, log, c, round, n) <==>
            exists i: nat :: i < n && IsGoodVote(env, log, c, round, id, i)
  {
    if n > 0 {
      CountedIff(env, log, c, round, n - 1, id);
      assert IsVerifiedVote(env, log, log[n - 1], c, round) && log[n - 1].content.voter == id <==>
             IsGoodVote(env, log, c, round, id, n - 1);
    }
  }

  // -------------------------------------------------------------------------
  // One accepted vote
  // -------------------------------------------------------------------------

  /** Node i is a vote of this claim, round and voter. */
  predicate IsVoteOf(log: Log, i: nat, claim: string, hash: Bytes, round: nat, voter: Bytes) {
    && i < |log| && log[i].kind == PopulationVote(claim) && log[i].content.VoteBody?
    && log[i].content.voteHash == hash && log[i].content.voteRound == round && log[i].content.voter == voter
  }

  /** A vote is accepted exactly when its voter is pinned, not revoked, and signed it with the key last pinned. */
  lemma AcceptsIff(env: Env, log: Log, body: Vote)
    ensures AcceptsVote(env, log, body) <==>
            && body.voter !in env.revoked
            && exists i: nat ::
                 IsLastPin(log, body.voter, i) &&
                 env.verify(log[i].content.pinnedKey.value, body.signature,
                            VoteMessage(body.voteClaim, body.voteHash, body.voter, body.voteRound, body.voterTip))
  {
    PinIsLast(env, log, body.voter);
  }

  lemma RecheckedExtends(env: Env, s: Live, c: Claim, payload: Bytes, round: nat)
    ensures s.dag <= Rechecked(env, s, c, payload, round).dag
    ensures forall i :: |s.dag| <= i < |Rechecked(env, s, c, payload, round).dag| ==>
      !Rechecked(env, s, c, payload, round).dag[i].kind.PopulationVote?
  {
  }

  /** An accepted vote is in the log afterwards. */
  lemma AcceptedIsRecorded(env: Env, s: Live, body: Vote) returns (i: nat)
    requires AcceptsVote(env, s.dag, body)
    ensures IsVoteOf(Submitted(env, s, body).dag, i, body.voteClaim, body.voteHash, body.voteRound, body.voter)
  {
    var c := Claim(body.voteClaim, body.voteHash);
    if IsRecorded(s.dag, body) {
      i :| 0 <= i < |s.dag| && IsVoteOn(s.dag[i], c) && s.dag[i].content.voteRound == body.voteRound &&
           s.dag[i].content.voter == body.voter;
      RecheckedExtends(env, s, c, body.votePayload, body.voteRound);
    } else {
      i := |s.dag|;
      RecheckedExtends(env, Emit(s, PopulationVote(body.voteClaim), body), c, body.votePayload, body.voteRound);
    }
  }

  // -------------------------------------------------------------------------
  // Runs
  // -------------------------------------------------------------------------

  /** No two votes of one claim, round and voter. */
  ghost predicate VotesDistinct(log: Log) {
    forall i: nat, j: nat, claim, hash, round, voter ::
      IsVoteOf(log, i, claim, hash, round, voter) && IsVoteOf(log, j, claim, hash, round, voter) ==> i == j
  }

  /** Every vote counts. */
  ghost predicate VotesGood(env: Env, log: Log) {
    forall i: nat, claim, hash, round, voter ::
      IsVoteOf(log, i, claim, hash, round, voter) ==> IsGoodVote(env, log, Claim(claim, hash), round, voter, i)
  }

  /** This substrate verifies what it signs, and is pinned, if at all, with its own key. */
  ghost predicate SignsForItself(env: Env, log: Log) {
    && (PinOf(env, log, env.selfId).Some? ==> PinOf(env, log, env.selfId).value == env.selfKey)
    && forall m :: env.verify(env.selfKey, env.sign(m), m)
  }

  lemma NonVotesKeepDistinct(a: Log, b: Log)
    requires a <= b && forall i :: |a| <= i < |b| ==> !b[i].kind.PopulationVote?
    ensures VotesDistinct(a) ==> VotesDistinct(b)
  {
    if VotesDistinct(a) {
      forall i: nat, claim, hash, round, voter | IsVoteOf(b, i, claim, hash, round, voter)
        ensures IsVoteOf(a, i, claim, hash, round, voter)
      {
      }
    }
  }

  lemma VotedKeepsDistinct(env: Env, s: Live, step: ConsensusStep)
    requires VotesDistinct(s.dag)
    ensures VotesDistinct(Voted(env, s, step).dag)
  {
    var voted := Voted(env, s, step).dag;
    forall i: nat, j: nat, claim, hash, round, voter |
      IsVoteOf(voted, i, claim, hash, round, voter) && IsVoteOf(voted, j, claim, hash, round, voter)
      ensures i == j
    {
      if i < |s.dag| && j < |s.dag| {
        assert IsVoteOf(s.dag, i, claim, hash, round, voter) && IsVoteOf(s.dag, j, claim, hash, round, voter);
      } else if i != j {
        var first := if i < j then i else j;
        assert IsVoteOn(s.dag[first], Claim(claim, hash));
      }
    }
  }

  /** Over every run of proposals and votes, each claim gets at most one vote a round from each voter. */
  lemma {:induction false} OneVoteEach(env: Env, s: Live, steps: seq<ConsensusStep>)
    requires VotesDistinct(s.dag)
    ensures VotesDistinct(RunConsensus(env, s, steps).dag)
    decreases |steps|
  {
    if |steps| > 0 {
      var before, step := RunConsensus(env, s, steps[..|steps| - 1]), steps[|steps| - 1];
      OneVoteEach(env, s, steps[..|steps| - 1]);
      assert steps == steps[..|steps| - 1] + [step];
      RunTakes(env, s, steps[..|steps| - 1], step);
      TakenUnfolds(env, before, step);
      VotedKeepsDistinct(env, before, step);
      if RecheckedClaim(env, before, step).Some? {
        var c, payload := RecheckedClaim(env, before, step).value, Payload(step);
        var round, voted := RecheckedRound(env, before, step), Voted(env, before, step);
        RecheckedExtends(env, voted, c, payload, round);
        NonVotesKeepDistinct(voted.dag, Rechecked(env, voted, c, payload, round).dag);
      }
    }
  }

  lemma QuietKeepsGood(env: Env, a: Log, b: Log)
    requires IsQuietExtension(a, b) && VotesGood(env, a)
    requires forall i :: |a| <= i < |b| ==> !b[i].kind.PopulationVote?
    ensures VotesGood(env, b)
  {
    forall i: nat, claim, hash, round, voter | IsVoteOf(b, i, claim, hash, round, voter)
      ensures IsGoodVote(env, b, Claim(claim, hash), round, voter, i)
    {
      assert IsVoteOf(a, i, claim, hash, round, voter);
      SamePin(env, a, b, voter);
    }
  }

  lemma VotedKeepsGood(env: Env, s: Live, step: ConsensusStep)
    requires VotesGood(env, s.dag) && SignsForItself(env, s.dag)
    ensures VotesGood(env, Voted(env, s, step).dag)
  {
    var voted := Voted(env, s, step).dag;
    VotedIsQuiet(env, s, step);
    forall i: nat, claim, hash, round, voter | IsVoteOf(voted, i, claim, hash, round, voter)
      ensures IsGoodVote(env, voted, Claim(claim, hash), round, voter, i)
    {
      SamePin(env, s.dag, voted, voter);
      if i < |s.dag| {
        assert IsVoteOf(s.dag, i, claim, hash, round, voter);
      }
    }
  }

  lemma {:induction false} RunIsQuiet(env: Env, s: Live, steps: seq<ConsensusStep>)
    ensures IsQuietExtension(s.dag, RunConsensus(env, s, steps).dag)
    decreases |steps|
  {
    if |steps| > 0 {
      var before, step := RunConsensus(env, s, steps[..|steps| - 1]), steps[|steps| - 1];
      RunIsQuiet(env, s, steps[..|steps| - 1]);
      assert steps == steps[..|steps| - 1] + [step];
      RunTakes(env, s, steps[..|steps| - 1], step);
      TakenUnfolds(env, before, step);
      VotedIsQuiet(env, before, step);
      if RecheckedClaim(env, before, step).Some? {
        RecheckedIsQuiet(env, Voted(env, before, step), RecheckedClaim(env, before, step).value, Payload(step),
            RecheckedRound(env, before, step));
      }
    }
  }

  /** Over every run of proposals and votes, every vote recorded is one that counts. */
  lemma {:induction false} EveryVoteIsGood(env: Env, s: Live, steps: seq<ConsensusStep>)
    requires VotesGood(env, s.dag) && SignsForItself(env, s.dag)
    ensures VotesGood(env, RunConsensus(env, s, steps).dag)
    decreases |steps|
  {
    if |steps| > 0 {
      var before, step := RunConsensus(env, s, steps[..|steps| - 1]), steps[|steps| - 1];
      EveryVoteIsGood(env, s, steps[..|steps| - 1]);
      assert steps == steps[..|steps| - 1] + [step];
      RunTakes(env, s, steps[..|steps| - 1], step);
      TakenUnfolds(env, before, step);
      RunIsQuiet(env, s, steps[..|steps| - 1]);
      SamePin(env, s.dag, before.dag, env.selfId);
      VotedKeepsGood(env, before, step);
      if RecheckedClaim(env, before, step).Some? {
        var c, payload := RecheckedClaim(env, before, step).value, Payload(step);
        var round, voted := RecheckedRound(env, before, step), Voted(env, before, step);
        RecheckedIsQuiet(env, voted, c, payload, round);
        RecheckedExtends(env, voted, c, payload, round);
        QuietKeepsGood(env, voted.dag, Rechecked(env, voted, c, payload, round).dag);
      }
    }
  }

  /**
   At any point of any run, a vote that is accepted counts from then on: its voter is among those
   counted for its claim and round in the log the submission leaves.
   */
  lemma AcceptedCounts(env: Env, s: Live, steps: seq<ConsensusStep>, body: Vote)
    requires VotesGood(env, s.dag) && SignsForItself(env, s.dag)
    requires AcceptsVote(env, RunConsensus(env, s, steps).dag, body)
    ensures var after := RunConsensus(env, s, steps + [Submit(body)]).dag;
            body.voter in
              VerifiedVoters(env, after, Claim(body.voteClaim, body.voteHash), body.voteRound, |after|)
  {
    var before := RunConsensus(env, s, steps);
    var after := RunConsensus(env, s, steps + [Submit(body)]).dag;
    RunTakes(env, s, steps, Submit(body));
    EveryVoteIsGood(env, s, steps + [Submit(body)]);
    var i := AcceptedIsRecorded(env, before, body);
    CountedIff(env, after, Claim(body.voteClaim, body.voteHash), body.voteRound, |after|, body.voter);
  }

  /** An accepted vote adds its voter to those counted for its claim and round, and no one else. */
  lemma AcceptedAddsOne(env: Env, s: Live, body: Vote)
    requires VotesGood(env, s.dag) && SignsForItself(env, s.dag) && AcceptsVote(env, s.dag, body)
    ensures var voted, c := Voted(env, s, Submit(body)).dag, Claim(body.voteClaim, body.voteHash);
            VerifiedVoters(env, voted, c, body.voteRound, |voted|) ==
            VerifiedVoters(env, s.dag, c, body.voteRound, |s.dag|) + {body.voter}
  {
    var voted, c, round := Voted(env, s, Submit(body)).dag, Claim(body.voteClaim, body.voteHash), body.voteRound;
    VotedIsQuiet(env, s, Submit(body));
    VotedKeepsGood(env, s, Submit(body));
    SameVoters(env, s.dag, voted, c, round, |s.dag|);
    if IsRecorded(s.dag, body) {
      var i :| 0 <= i < |s.dag| && IsVoteOn(s.dag[i], c) && s.dag[i].content.voteRound == round &&
               s.dag[i].content.voter == body.voter;
      assert IsVoteOf(s.dag, i, c.kind, c.hash, round, body.voter);
      CountedIff(env, s.dag, c, round, |s.dag|, body.voter);
    } else {
      assert IsVoteOf(voted, |s.dag|, c.kind, c.hash, round, body.voter);
      assert IsVerifiedVote(env, voted, voted[|s.dag|], c, round);
    }
  }

  /**
   At any point of any run, an accepted vote on a claim without a valid certificate brings one more
   certificate exactly when those counted for its round and its own voter are all but at most the
   faulty of the participants.
   */
  lemma CompletingVoteMints(env: Env, s: Live, steps: seq<ConsensusStep>, body: Vote)
    requires VotesGood(env, s.dag) && SignsForItself(env, s.dag)
    requires AcceptsVote(env, RunConsensus(env, s, steps).dag, body)
    requires !HasCert(env, RunConsensus(env, s, steps).dag, Claim(body.voteClaim, body.voteHash))
    ensures var before, after := RunConsensus(env, s, steps).dag, RunConsensus(env, s, steps + [Submit(body)]).dag;
            var c, n := Claim(body.voteClaim, body.voteHash), PeerSetSize(env);
            var voters := VerifiedVoters(env, before, c, body.voteRound, |before|) + {body.voter};
            CertCount(after, c) == CertCount(before, c) + if |voters| + FTolerated(n) >= n then 1 else 0
  {
    var t, c := RunConsensus(env, s, steps), Claim(body.voteClaim, body.voteHash);
    EveryVoteIsGood(env, s, steps);
    RunIsQuiet(env, s, steps);
    SamePin(env, s.dag, t.dag, env.selfId);
    RunTakes(env, s, steps, Submit(body));
    TakenUnfolds(env, t, Submit(body));
    AcceptedAddsOne(env, t, body);
    VotedIsQuiet(env, t, Submit(body));
    SameCerts(env, t.dag, Voted(env, t, Submit(body)).dag, c);
    RecheckedCount(env, Voted(env, t, Submit(body)), c, body.votePayload, body.voteRound, c);
  }

  // -------------------------------------------------------------------------
  // What proposals and certificates say
  // -------------------------------------------------------------------------

  /** The round after all of the claim's earlier ones. */
  ghost predicate IsNextRound(log: Log, c: Claim, round: nat) {
    && (forall i :: 0 <= i < |log| && IsVoteOn(log[i], c) ==> log[i].content.voteRound < round)
    && (round > 0 ==> exists i :: 0 <= i < |log| && IsVoteOn(log[i], c) && log[i].content.voteRound + 1 == round)
  }

  /** A proposal records this substrate's own vote, in the round after all of the claim's earlier ones. */
  lemma ProposalVotes(env: Env, s: Live, kind: string, payload: Bytes) returns (round: nat)
    ensures IsNextRound(s.dag, Claim(kind, env.digest(payload)), round)
    ensures IsVoteOf(Proposed(env, s, kind, payload).dag, |s.dag|, kind, env.digest(payload), round, env.selfId)
    ensures Proposed(env, s, kind, payload).dag[|s.dag|].content.votePayload == payload
  {
    var voted := Emit(s, PopulationVote(kind), OwnVote(env, s.dag, kind, payload));
    round := NextRound(s.dag, Claim(kind, env.digest(payload)));
    RecheckedExtends(env, voted, Claim(kind, env.digest(payload)), payload, round);
    assert Proposed(env, s, kind, payload).dag[|s.dag|] == voted.dag[|s.dag|];
  }

  /** An embedded vote is some good vote of the log, with its signature and the tip it names. */
  ghost predicate IsEmbedded(env: Env, log: Log, c: Claim, round: nat, v: CertVote) {
    exists i: nat :: IsGoodVote(env, log, c, round, v.voter, i) && v.signature == log[i].content.signature &&
                     v.tip == log[i].content.voterTip
  }

  lemma {:induction false} CertVoteIsEmbedded(env: Env, log: Log, c: Claim, round: nat, n: nat, k: nat)
    requires n <= |log| && k < |CertVotes(env, log, c, round, n)|
    ensures IsEmbedded(env, log, c, round, CertVotes(env, log, c, round, n)[k])
  {
    var front := CertVotes(env, log, c, round, n - 1);
    if k < |front| {
      CertVoteIsEmbedded(env, log, c, round, n - 1, k);
    } else {
      assert IsGoodVote(env, log, c, round, log[n - 1].content.voter, n - 1);
    }
  }

  /** A certificate for the claim and round, with this payload and number of participants. */
  predicate IsCertFor(n: Node, c: Claim, payload: Bytes, round: nat, participants: nat) {
    && n.kind == ConsensusReached(c.kind) && n.content.CertBody? && n.content.certClaim == c.kind
    && n.content.certHash == c.hash && n.content.certPayload == payload && n.content.certRound == round
    && n.content.certN == participants
  }

  /**
   The certificate a recheck mints: for the claim and round, with the payload at hand and the number of
   participants, and one embedded vote for every voter counted, taken from a good vote of the log.
   */
  lemma MintedSays(env: Env, s: Live, c: Claim, payload: Bytes, round: nat)
    requires Mints(env, s.dag, c, round)
    ensures var log := Rechecked(env, s, c, payload, round).dag;
            && |log| == |s.dag| + 2
            && IsCertFor(log[|s.dag| + 1], c, payload, round, |LivePeers(env, |env.peers|)| + 1)
            && var votes := log[|s.dag| + 1].content.certVotes;
               && DistinctVoters(votes) && VotersOf(votes) == VerifiedVoters(env, s.dag, c, round, |s.dag|)
               && forall v :: v in votes ==> IsEmbedded(env, Witnessed(s, c).dag, c, round, v)
  {
    hide CertVotes, VerifiedVoters, LivePeers, VotersOf, DistinctVoters, IsEmbedded, HasCert, QuorumReached;
    var witnessed := Witnessed(s, c).dag;
    forall v | v in CertVotes(env, witnessed, c, round, |witnessed|)
      ensures IsEmbedded(env, witnessed, c, round, v)
    {
      var k :| 0 <= k < |CertVotes(env, witnessed, c, round, |witnessed|)| &&
               CertVotes(env, witnessed, c, round, |witnessed|)[k] == v;
      CertVoteIsEmbedded(env, witnessed, c, round, |witnessed|, k);
    }
    WitnessIsNotCounted(env, s, c, round);
  }

  /** Otherwise a recheck writes nothing for a certified claim, and a witness and a pending marker for any other. */
  lemma UnmintedSays(env: Env, s: Live, c: Claim, payload: Bytes, round: nat)
    requires !Mints(env, s.dag, c, round)
    ensures var log := Rechecked(env, s, c, payload, round).dag;
            if HasCert(env, s.dag, c) then log == s.dag
            else
              && s.dag <= log && |log| == |s.dag| + 2 && log[|s.dag|].kind == ByzantineThresholdCheck(c.kind)
              && log[|s.dag| + 1].kind == ConsensusPending(c.kind)
  {
    hide HasCert, QuorumReached;
  }

  /** Where the votes of a round are, verified or not, among the first n nodes. */
  function VotesAt(log: Log, c: Claim, round: nat, n: nat): set<nat> {
    set i: nat | i < n && i < |log| && IsVoteOn(log[i], c) && log[i].content.voteRound == round
  }

  lemma {:induction false} SeenAreVotes(log: Log, c: Claim, round: nat, n: nat)
    requires n <= |log|
    ensures VotesSeen(log, c, round, n) == |VotesAt(log, c, round, n)|
  {
    hide IsVoteOn;
    if n > 0 {
      SeenAreVotes(log, c, round, n - 1);
      VotesAtNext(log, c, round, n - 1);
    } else {
      assert VotesAt(log, c, round, 0) == {};
    }
  }

  lemma VotesAtNext(log: Log, c: Claim, round: nat, n: nat)
    requires n < |log|
    ensures n !in VotesAt(log, c, round, n)
    ensures VotesAt(log, c, round, n + 1) ==
            if IsVoteOn(log[n], c) && log[n].content.voteRound == round then VotesAt(log, c, round, n) + {n}
            else VotesAt(log, c, round, n)
  {
  }

  lemma WitnessIsNotCounted(env: Env, s: Live, c: Claim, round: nat)
    ensures var witnessed := Witnessed(s, c).dag;
            VerifiedVoters(env, witnessed, c, round, |witnessed|) ==
            VerifiedVoters(env, s.dag, c, round, |s.dag|)
  {
    var witnessed := Witnessed(s, c).dag;
    SameVoters(env, s.dag, witnessed, c, round, |s.dag|);
    assert !IsVerifiedVote(env, witnessed, witnessed[|s.dag|], c, round);
  }
}
