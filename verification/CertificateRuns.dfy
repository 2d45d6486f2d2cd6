/** Exactly when a recheck mints, over whole runs of proposals and votes, and a run that certifies one claim twice. */
module CertificateRuns {
  import opened Prelude
  import opened Dag
  import opened Derived
  import opened Server
  import opened Ingest
  import opened Runs
  import opened Consensus
  import opened ConsensusRounds

  // -------------------------------------------------------------------------
  // What certificates of a run are
  // -------------------------------------------------------------------------

  /** The payload a certificate carries hashes to the claim it certifies; no signature says so. */
  predicate CarriesClaim(env: Env, n: Node)
    requires n.content.CertBody?
  {
    env.digest(n.content.certPayload) == n.content.certHash
  }

  /** Enough distinct voters vouch for a certificate, by the bar it claims and by the local one. */
  predicate MeetsBars(env: Env, log: Log, cert: Content)
    requires cert.CertBody?
  {
    && |AllVouchers(env, log, cert)| >= QuorumThreshold(cert.certN)
    && |AllVouchers(env, log, cert)| >= QuorumThreshold(PeerSetSize(env))
  }

  predicate IsCert(n: Node) {
    n.kind.ConsensusReached? && n.content.CertBody?
  }

  predicate SameClaim(a: Node, b: Node)
    requires IsCert(a) && IsCert(b)
  {
    a.kind == b.kind && a.content.certHash == b.content.certHash
  }

  /** Every certificate meets its bars, and none follows one for the same claim that carries it. */
  ghost predicate CertsSound(env: Env, log: Log) {
    && VotesTyped(log)
    && (forall i :: 0 <= i < |log| && IsCert(log[i]) ==> MeetsBars(env, log, log[i].content))
    && (forall i, j :: 0 <= i < j < |log| && IsCert(log[i]) && IsCert(log[j]) && SameClaim(log[i], log[j]) ==>
          !CarriesClaim(env, log[i]))
  }

  /** In such a log a claim is certified exactly when some certificate for it carries it. */
  lemma CertifiedIff(env: Env, log: Log, c: Claim)
    requires CertsSound(env, log)
    ensures HasCert(env, log, c) <==> exists i :: 0 <= i < |log| && IsCertOn(log[i], c) && CarriesClaim(env, log[i])
  {
    forall i | 0 <= i < |log| && IsCertOn(log[i], c)
      ensures IsAuthoritative(env, log, log[i], c) <==> CarriesClaim(env, log[i])
    {
      assert IsCert(log[i]);
    }
  }

  /** Nodes that are neither pins nor certificates keep the certificates sound. */
  lemma QuietNodeKeepsSound(env: Env, log: Log, n: Node)
    requires CertsSound(env, log) && !n.kind.PeerPinned? && !IsCert(n)
    requires n.kind.PopulationVote? && n.content.VoteBody? ==> n.content.voteClaim == n.kind.claimType
    ensures CertsSound(env, log + [n])
  {
    var longer := log + [n];
    forall i | 0 <= i < |longer| && IsCert(longer[i])
      ensures MeetsBars(env, longer, longer[i].content)
    {
      assert longer[i] == log[i];
      SameVouchers(env, log, longer, log[i].content, |log[i].content.certVotes|);
    }
  }

  /** A certificate keeps them sound if it meets its bars and its claim was not certified. */
  lemma CertKeepsSound(env: Env, log: Log, n: Node, c: Claim)
    requires CertsSound(env, log) && IsCertOn(n, c) && MeetsBars(env, log, n.content) && !HasCert(env, log, c)
    ensures CertsSound(env, log + [n])
  {
    var longer := log + [n];
    forall i | 0 <= i < |longer| && IsCert(longer[i])
      ensures MeetsBars(env, longer, longer[i].content)
    {
      SameVouchers(env, log, longer, longer[i].content, |longer[i].content.certVotes|);
    }
    CertifiedIff(env, log, c);
    forall i, j | 0 <= i < j < |longer| && IsCert(longer[i]) && IsCert(longer[j]) && SameClaim(longer[i], longer[j])
      ensures !CarriesClaim(env, longer[i])
    {
      assert longer[i] == log[i];
      assert j == |log| ==> IsCertOn(log[i], c);
    }
  }

  /** The certificate a recheck mints is vouched for by the quorum that called for it. */
  lemma MintedMeetsBars(env: Env, s: Live, c: Claim, payload: Bytes, round: nat)
    requires VotesTyped(s.dag) && QuorumReached(env, s.dag, c, round)
    ensures MeetsBars(env, Witnessed(s, c).dag, CertOn(env, Witnessed(s, c).dag, c, payload, round))
  {
    var log := Witnessed(s, c).dag;
    MintedVouchers(env, log, c, payload, round);
    SameVoters(env, s.dag, log, c, round, |s.dag|);
    assert !IsVerifiedVote(env, log, log[|s.dag|], c, round);
  }

  lemma RecheckedKeepsSound(env: Env, s: Live, c: Claim, payload: Bytes, round: nat)
    requires CertsSound(env, s.dag)
    ensures CertsSound(env, Rechecked(env, s, c, payload, round).dag)
  {
    if !HasCert(env, s.dag, c) {
      var witnessed := Witnessed(s, c);
      var n := Rechecked(env, s, c, payload, round).dag[|witnessed.dag|];
      QuietNodeKeepsSound(env, s.dag, witnessed.dag[|s.dag|]);
      assert Rechecked(env, s, c, payload, round).dag == witnessed.dag + [n];
      if QuorumReached(env, s.dag, c, round) {
        MintedMeetsBars(env, s, c, payload, round);
        WitnessCertifiesNothing(env, s, c);
        CertKeepsSound(env, witnessed.dag, n, c);
      } else {
        QuietNodeKeepsSound(env, witnessed.dag, n);
      }
    }
  }

  lemma WitnessCertifiesNothing(env: Env, s: Live, c: Claim)
    requires !HasCert(env, s.dag, c)
    ensures !HasCert(env, Witnessed(s, c).dag, c)
  {
    if HasCert(env, Witnessed(s, c).dag, c) {
      NewCertIsAmongNew(env, s.dag, Witnessed(s, c).dag, c);
    }
  }

  // -------------------------------------------------------------------------
  // Runs
  // -------------------------------------------------------------------------

  /** The claim a step rechecks, if it does. */
  ghost function RecheckedClaim(env: Env, s: Live, step: ConsensusStep): Option<Claim> {
    match step
    case Propose(kind, payload) => Some(Claim(kind, env.digest(payload)))
    case Submit(body) => if AcceptsVote(env, s.dag, body) then Some(Claim(body.voteClaim, body.voteHash)) else None
    case Happen(_) => None
  }

  ghost function RecheckedRound(env: Env, s: Live, step: ConsensusStep): nat {
    match step
    case Propose(kind, payload) => NextRound(s.dag, Claim(kind, env.digest(payload)))
    case Submit(body) => body.voteRound
    case Happen(_) => 0
  }

  /** The state the recheck sees: with the vote recorded, if it is new. */
  ghost function Voted(env: Env, s: Live, step: ConsensusStep): Live {
    match step
    case Propose(kind, payload) => Emit(s, PopulationVote(kind), OwnVote(env, s.dag, kind, payload))
    case Submit(body) =>
      if AcceptsVote(env, s.dag, body) && !IsRecorded(s.dag, body) then Emit(s, PopulationVote(body.voteClaim), body)
      else s
    case Happen(note) => Emit(s, note.kind, note.content)
  }

  ghost function Payload(step: ConsensusStep): Bytes {
    match step
    case Propose(_, payload) => payload
    case Submit(body) => body.votePayload
    case Happen(_) => []
  }

  /** What one step does, in the handlers' own terms. */
  ghost function Taken(env: Env, s: Live, step: ConsensusStep): Live {
    match step
    case Propose(kind, payload) => Proposed(env, s, kind, payload)
    case Submit(body) => Submitted(env, s, body)
    case Happen(note) => Emit(s, note.kind, note.content)
  }

  lemma RunTakes(env: Env, s: Live, steps: seq<ConsensusStep>, step: ConsensusStep)
    ensures RunConsensus(env, s, steps + [step]) == Taken(env, RunConsensus(env, s, steps), step)
  {
    assert (steps + [step])[..|steps|] == steps;
  }

  /** A step records, then rechecks. */
  lemma TakenUnfolds(env: Env, s: Live, step: ConsensusStep)
    ensures Taken(env, s, step) ==
            match RecheckedClaim(env, s, step)
            case Some(c) => Rechecked(env, Voted(env, s, step), c, Payload(step), RecheckedRound(env, s, step))
            case None => Voted(env, s, step)
  {
  }

  lemma VotedIsQuiet(env: Env, s: Live, step: ConsensusStep)
    ensures IsQuietExtension(s.dag, Voted(env, s, step).dag) && |Voted(env, s, step).dag| <= |s.dag| + 1
    ensures forall i :: |s.dag| <= i < |Voted(env, s, step).dag| ==> !Voted(env, s, step).dag[i].kind.ConsensusReached?
  {
  }

  lemma VotedKeepsSound(env: Env, s: Live, step: ConsensusStep)
    requires CertsSound(env, s.dag)
    ensures CertsSound(env, Voted(env, s, step).dag)
  {
    var voted := Voted(env, s, step).dag;
    VotedIsQuiet(env, s, step);
    if |voted| > |s.dag| {
      assert voted == s.dag + [voted[|s.dag|]];
      QuietNodeKeepsSound(env, s.dag, voted[|s.dag|]);
    } else {
      assert voted == s.dag;
    }
  }

  lemma {:induction false} RunKeepsSound(env: Env, s: Live, steps: seq<ConsensusStep>)
    requires CertsSound(env, s.dag)
    ensures CertsSound(env, RunConsensus(env, s, steps).dag)
    decreases |steps|
  {
    if |steps| > 0 {
      var before, step := RunConsensus(env, s, steps[..|steps| - 1]), steps[|steps| - 1];
      RunKeepsSound(env, s, steps[..|steps| - 1]);
      assert steps == steps[..|steps| - 1] + [step];
      RunTakes(env, s, steps[..|steps| - 1], step);
      TakenUnfolds(env, before, step);
      VotedKeepsSound(env, before, step);
      if RecheckedClaim(env, before, step).Some? {
        RecheckedKeepsSound(env, Voted(env, before, step), RecheckedClaim(env, before, step).value, Payload(step),
            RecheckedRound(env, before, step));
      }
    }
  }

  /** No certificate for the claim carries it. */
  ghost predicate NoneCarries(env: Env, log: Log, c: Claim) {
    forall i :: 0 <= i < |log| && IsCertOn(log[i], c) ==> !CarriesClaim(env, log[i])
  }

  /** The step mints a certificate for c. */
  ghost predicate MintsAt(env: Env, s: Live, step: ConsensusStep, c: Claim) {
    && RecheckedClaim(env, s, step) == Some(c) && NoneCarries(env, s.dag, c)
    && QuorumReached(env, Voted(env, s, step).dag, c, RecheckedRound(env, s, step))
  }

  /** One node that is no certificate changes neither the count nor what is certified. */
  lemma SameCerts(env: Env, a: Log, b: Log, c: Claim)
    requires IsQuietExtension(a, b) && |b| <= |a| + 1
    requires forall i :: |a| <= i < |b| ==> !b[i].kind.ConsensusReached?
    ensures CertCount(b, c) == CertCount(a, c) && (HasCert(env, b, c) <==> HasCert(env, a, c))
  {
    if |b| > |a| {
      assert b == a + [b[|a|]];
      CertCountStep(a, b[|a|], c);
    } else {
      assert a == b;
    }
    if HasCert(env, a, c) {
      CertPersists(env, a, b, c);
    } else if HasCert(env, b, c) {
      NewCertIsAmongNew(env, a, b, c);
    }
  }

  lemma VotedCerts(env: Env, s: Live, step: ConsensusStep, c: Claim)
    requires CertsSound(env, s.dag)
    ensures CertCount(Voted(env, s, step).dag, c) == CertCount(s.dag, c)
    ensures HasCert(env, Voted(env, s, step).dag, c) <==> !NoneCarries(env, s.dag, c)
  {
    VotedIsQuiet(env, s, step);
    SameCerts(env, s.dag, Voted(env, s, step).dag, c);
    CertifiedIff(env, s.dag, c);
  }

  /**
   With membership, pins and revocations fixed, over every run of proposals and votes: a step gives
   a claim one more certificate exactly when it rechecks that claim, every certificate the claim
   already has carries a payload that does not hash to it, and the round meets the quorum.
   */
  lemma MintsExactly(env: Env, s: Live, steps: seq<ConsensusStep>, step: ConsensusStep, c: Claim)
    requires CertsSound(env, s.dag)
    ensures var t := RunConsensus(env, s, steps);
            CertCount(RunConsensus(env, s, steps + [step]).dag, c) ==
            CertCount(t.dag, c) + if MintsAt(env, t, step, c) then 1 else 0
  {
    var t := RunConsensus(env, s, steps);
    RunKeepsSound(env, s, steps);
    RunTakes(env, s, steps, step);
    TakenUnfolds(env, t, step);
    VotedCerts(env, t, step, c);
    if RecheckedClaim(env, t, step).Some? {
      RecheckedCount(env, Voted(env, t, step), RecheckedClaim(env, t, step).value, Payload(step),
          RecheckedRound(env, t, step), c);
    }
  }

  /** So of all the certificates a claim gets, at most one carries it, and that one is the last. */
  lemma OnlyLastCarries(env: Env, s: Live, steps: seq<ConsensusStep>, i: nat, j: nat)
    requires CertsSound(env, s.dag)
    requires var log := RunConsensus(env, s, steps).dag;
             i < j < |log| && IsCert(log[i]) && IsCert(log[j]) && SameClaim(log[i], log[j])
    ensures !CarriesClaim(env, RunConsensus(env, s, steps).dag[i])
  {
    RunKeepsSound(env, s, steps);
  }

  // -------------------------------------------------------------------------
  // Two certificates for one claim
  // -------------------------------------------------------------------------

  /** A vote that completes a quorum with the wrong payload, sent again, mints again. */
  lemma ResentVoteMintsTwice(env: Env, s: Live, body: Vote)
    requires VotesTyped(s.dag) && AcceptsVote(env, s.dag, body) && !IsRecorded(s.dag, body)
    requires var c := Claim(body.voteClaim, body.voteHash);
             && CertCount(s.dag, c) == 0 && !HasCert(env, s.dag, c)
             && QuorumReached(env, Voted(env, s, Submit(body)).dag, c, body.voteRound)
    requires env.digest(body.votePayload) != body.voteHash
    ensures CertCount(Submitted(env, Submitted(env, s, body), body).dag, Claim(body.voteClaim, body.voteHash)) == 2
  {
    var c, voted := Claim(body.voteClaim, body.voteHash), Voted(env, s, Submit(body));
    var t := Submitted(env, s, body);
    VotedIsQuiet(env, s, Submit(body));
    SameCerts(env, s.dag, voted.dag, c);
    RecheckedIsQuiet(env, voted, c, body.votePayload, body.voteRound);
    assert IsVoteOn(t.dag[|s.dag|], c);
    SamePin(env, s.dag, t.dag, body.voter);
    MismatchedPayloadMintsAgain(env, voted, c, body.votePayload, body.voteRound);
  }

  /** Peer [1] is connected; a signature verifies under a key exactly when it equals the key. */
  function Pair(): Env {
    Env([0], [7], [Some([1])], {}, (key, signature, message) => key == signature, message => [7], bytes => bytes)
  }

  /** Its key [9] is pinned. */
  ghost function Paired(id: Id): Live {
    Emit(Born(id, 0, 0), PeerPinned("1"), PinBody([1], Some([9])))
  }

  /** The peer's vote for the claim with hash [5], with the payload [6] sent along. */
  const PEER_VOTE: Vote := VoteBody("k", [5], [6], 0, [1], [9], None)

  const CLAIM: Claim := Claim("k", [5])

  /** A proposal, the peer's vote, and the same vote again. */
  function VoteTwice(): seq<ConsensusStep> {
    [Propose("k", [5])] + [Submit(PEER_VOTE)] + [Submit(PEER_VOTE)]
  }

  lemma PairNeedsBoth()
    ensures QuorumThreshold(PeerSetSize(Pair())) == 2
  {
    assert LivePeers(Pair(), 0) == {};
    assert LivePeers(Pair(), 1) == {[1]};
  }

  /** Genesis, pin, own vote, witness, pending: nothing certified, the peer's vote still missing. */
  ghost predicate AwaitsPeer(log: Log) {
    && |log| == 5 && log[0].kind.GenesisEvent? && log[1].kind.PeerPinned? && log[1].content == PinBody([1], Some([9]))
    && log[2].kind == PopulationVote("k") && log[2].content.VoteBody? && log[2].content.voteClaim == "k"
    && log[2].content.voteHash == [5] && log[2].content.voteRound == 0 && log[2].content.voter == [0]
    && log[2].content.signature == [7] && log[3].kind.ByzantineThresholdCheck? && log[4].kind.ConsensusPending?
  }

  /** The start of Paired's log. */
  ghost predicate IsPaired(log: Log) {
    && |log| >= 2 && log[0].kind.GenesisEvent? && log[1].kind.PeerPinned? && log[1].content == PinBody([1], Some([9]))
    && forall i :: 2 <= i < |log| ==> !log[i].kind.PeerPinned? && !log[i].kind.ConsensusReached?
  }

  lemma PairedPins(log: Log)
    requires IsPaired(log)
    ensures PinOf(Pair(), log, [1]) == Some([9]) && CertCount(log, CLAIM) == 0 && !HasCert(Pair(), log, CLAIM)
  {
    assert log[..2][..1] == log[..1];
    assert PinOf(Pair(), log[..2], [1]) == Some([9]);
    assert IsQuietExtension(log[..2], log);
    SamePin(Pair(), log[..2], log, [1]);
    NoCertCounts(log, CLAIM);
  }

  lemma {:induction false} NoCertCounts(log: Log, c: Claim)
    requires forall i :: 0 <= i < |log| ==> !log[i].kind.ConsensusReached?
    ensures CertCount(log, c) == 0
    decreases |log|
  {
    if |log| > 0 {
      NoCertCounts(log[..|log| - 1], c);
    }
  }

  lemma OwnVoteAlone(log: Log)
    requires IsPaired(log) && |log| == 3 && log[2].kind == PopulationVote("k")
    requires log[2].content.VoteBody? && log[2].content.voter == [0] && log[2].content.signature == [7]
    requires log[2].content.voteHash == [5] && log[2].content.voteRound == 0
    ensures VerifiedVoters(Pair(), log, CLAIM, 0, 3) == {[0]}
  {
    assert VerifiedVoters(Pair(), log, CLAIM, 0, 0) == {};
    assert VerifiedVoters(Pair(), log, CLAIM, 0, 1) == {};
    assert VerifiedVoters(Pair(), log, CLAIM, 0, 2) == {};
  }

  lemma ProposalAwaitsPeer(id: Id)
    ensures AwaitsPeer(Proposed(Pair(), Paired(id), "k", [5]).dag)
  {
    var s := Paired(id);
    var voted := Emit(s, PopulationVote("k"), OwnVote(Pair(), s.dag, "k", [5]));
    assert s.dag[..1] == Born(id, 0, 0).dag;
    assert NextRound(s.dag, CLAIM) == 0;
    PairNeedsBoth();
    OwnVoteAlone(voted.dag);
    PairedPins(voted.dag);
    assert !QuorumReached(Pair(), voted.dag, CLAIM, 0);
  }

  lemma PeerCompletes(log: Log)
    requires |log| == 6 && AwaitsPeer(log[..5]) && log[5].kind == PopulationVote("k") && log[5].content == PEER_VOTE
    ensures VerifiedVoters(Pair(), log, CLAIM, 0, 6) == {[0], [1]}
  {
    var env := Pair();
    assert IsPaired(log);
    PairedPins(log);
    assert VerifiedVoters(env, log, CLAIM, 0, 0) == {};
    assert VerifiedVoters(env, log, CLAIM, 0, 1) == {};
    assert VerifiedVoters(env, log, CLAIM, 0, 2) == {};
    assert VerifiedVoters(env, log, CLAIM, 0, 3) == {[0]};
    assert VerifiedVoters(env, log, CLAIM, 0, 4) == {[0]};
    assert VerifiedVoters(env, log, CLAIM, 0, 5) == {[0]};
  }

  lemma PeerVotesTwice(s: Live)
    requires AwaitsPeer(s.dag)
    ensures CertCount(Submitted(Pair(), Submitted(Pair(), s, PEER_VOTE), PEER_VOTE).dag, CLAIM) == 2
  {
    var voted := Voted(Pair(), s, Submit(PEER_VOTE));
    assert IsPaired(s.dag);
    PairedPins(s.dag);
    assert voted.dag[..5] == s.dag;
    PeerCompletes(voted.dag);
    PairNeedsBoth();
    ResentVoteMintsTwice(Pair(), s, PEER_VOTE);
  }

  lemma RunsThree(env: Env, s: Live, a: ConsensusStep, b: ConsensusStep, c: ConsensusStep)
    ensures RunConsensus(env, s, [a] + [b] + [c]) == Taken(env, Taken(env, Taken(env, s, a), b), c)
  {
    assert [] + [a] == [a];
    RunTakes(env, s, [], a);
    RunTakes(env, s, [a], b);
    RunTakes(env, s, [a] + [b], c);
  }

  /** Not "one certificate per claim": one quorum, one wrong payload, one resent vote. */
  lemma TwoCertificates(id: Id)
    ensures CertCount(RunConsensus(Pair(), Paired(id), VoteTwice()).dag, CLAIM) == 2
  {
    ProposalAwaitsPeer(id);
    PeerVotesTwice(Proposed(Pair(), Paired(id), "k", [5]));
    RunsThree(Pair(), Paired(id), Propose("k", [5]), Submit(PEER_VOTE), Submit(PEER_VOTE));
  }
}
