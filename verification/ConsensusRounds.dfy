/** Minting certificates (substrate/src/consensus.rs): what one recheck does,
    and how many certificates a claim can get. */
module ConsensusRounds {
  import opened Prelude
  import opened Dag
  import opened Derived
  import opened Server
  import opened Ingest
  import opened Consensus

  // -------------------------------------------------------------------------
  // One recheck
  // -------------------------------------------------------------------------

  ghost function Witnessed(s: Live, c: Claim): Live {
    Emit(s, ByzantineThresholdCheck(c.kind), Opaque([]))
  }

  function CertOn(env: Env, log: Log, c: Claim, payload: Bytes, round: nat): Content {
    CertBody(c.kind, c.hash, payload, round, PeerSetSize(env), CertVotes(env, log, c, round, |log|))
  }

  /** Distinct verified voters meet the local threshold. */
  predicate QuorumReached(env: Env, log: Log, c: Claim, round: nat) {
    |VerifiedVoters(env, log, c, round, |log|)| >= QuorumThreshold(PeerSetSize(env))
  }

  /** Nothing if the claim is certified; else a witness, then a pending marker or a certificate. */
  ghost function Rechecked(env: Env, s: Live, c: Claim, payload: Bytes, round: nat): Live {
    if HasCert(env, s.dag, c) then s
    else
      var witnessed := Witnessed(s, c);
      if QuorumReached(env, s.dag, c, round)
      then Emit(witnessed, ConsensusReached(c.kind), CertOn(env, witnessed.dag, c, payload, round))
      else Emit(witnessed, ConsensusPending(c.kind), Opaque([]))
  }

  method RecheckQuorumAndMaybeEmitCert(state: ServerState, env: Env, c: Claim, payload: Bytes, round: nat)
      returns (cert: Option<Hash>)
    requires WellFormed(state.dag)
    modifies state`dag, state`cultivation
    ensures WellFormed(state.dag) && state.View() == Rechecked(env, old(state.View()), c, payload, round)
    ensures cert.Some? <==> HasCert(env, old(state.dag), c) || QuorumReached(env, old(state.dag), c, round)
  {
    var found := FindValidQuorumCert(env, state.dag, c);
    if found.Some? { return Some(found.value.0); }
    var pins := DerivePinnedSignerPubkeys(env, state.dag);
    var distinct, total := TallyVotes(env, state.dag, c, round, pins);
    state.EmitSubstrateEvent(ByzantineThresholdCheck(c.kind), Opaque([]));
    SamePinsAfter(env, old(state.dag), state.dag);
    if distinct < QuorumThreshold(PeerSetSize(env)) {
      state.EmitSubstrateEvent(ConsensusPending(c.kind), Opaque([]));
      return None;
    }
    var votes := CollectCertVotes(env, state.dag, c, round, pins);
    var content := CertBody(c.kind, c.hash, payload, round, PeerSetSize(env), votes);
    state.EmitSubstrateEvent(ConsensusReached(c.kind), content);
    cert := Tip(state.dag);
  }

  // -------------------------------------------------------------------------
  // Quiet extensions: no new pins
  // -------------------------------------------------------------------------

  ghost predicate IsQuietExtension(a: Log, b: Log) {
    a <= b && forall i :: |a| <= i < |b| ==> !b[i].kind.PeerPinned?
  }

  lemma {:induction false} SamePin(env: Env, a: Log, b: Log, id: Bytes)
    requires IsQuietExtension(a, b)
    ensures PinOf(env, b, id) == PinOf(env, a, id)
    decreases |b|
  {
    if |a| == |b| {
      assert a == b;
    } else {
      SamePin(env, a, b[..|b| - 1], id);
    }
  }

  lemma SamePinsAfter(env: Env, a: Log, b: Log)
    requires IsQuietExtension(a, b)
    ensures forall id :: PinOf(env, b, id) == PinOf(env, a, id)
  {
    forall id
      ensures PinOf(env, b, id) == PinOf(env, a, id)
    {
      SamePin(env, a, b, id);
    }
  }

  lemma {:induction false} SameVouchers(env: Env, a: Log, b: Log, cert: Content, k: nat)
    requires IsQuietExtension(a, b) && cert.CertBody? && k <= |cert.certVotes|
    ensures Vouchers(env, b, cert, k) == Vouchers(env, a, cert, k)
  {
    if k > 0 {
      SameVouchers(env, a, b, cert, k - 1);
      SamePin(env, a, b, cert.certVotes[k - 1].voter);
    }
  }

  lemma SameAuthority(env: Env, a: Log, b: Log, n: Node, c: Claim)
    requires IsQuietExtension(a, b)
    ensures IsAuthoritative(env, b, n, c) <==> IsAuthoritative(env, a, n, c)
  {
    if n.content.CertBody? {
      SameVouchers(env, a, b, n.content, |n.content.certVotes|);
    }
  }

  /** A certified claim stays certified while the pins do. */
  lemma CertPersists(env: Env, a: Log, b: Log, c: Claim)
    requires IsQuietExtension(a, b) && HasCert(env, a, c)
    ensures HasCert(env, b, c)
  {
    var i :| 0 <= i < |a| && IsAuthoritative(env, a, a[i], c);
    SameAuthority(env, a, b, a[i], c);
    assert b[i] == a[i];
  }

  lemma NewCertIsAmongNew(env: Env, a: Log, b: Log, c: Claim)
    requires IsQuietExtension(a, b) && !HasCert(env, a, c) && HasCert(env, b, c)
    ensures exists i :: |a| <= i < |b| && IsAuthoritative(env, b, b[i], c)
  {
    var i :| 0 <= i < |b| && IsAuthoritative(env, b, b[i], c);
    if i < |a| {
      assert b[i] == a[i];
      SameAuthority(env, a, b, a[i], c);
    }
  }

  // -------------------------------------------------------------------------
  // A fresh certificate
  // -------------------------------------------------------------------------

  /** A vote node is filed under the claim type its body signs. */
  ghost predicate VotesTyped(log: Log) {
    forall i :: 0 <= i < |log| && log[i].kind.PopulationVote? && log[i].content.VoteBody? ==>
      log[i].content.voteClaim == log[i].kind.claimType
  }

  lemma {:induction false} CertVotesVouch(env: Env, log: Log, c: Claim, round: nat, n: nat, cert: Content)
    requires VotesTyped(log) && n <= |log|
    requires cert.CertBody? && cert.certClaim == c.kind && cert.certHash == c.hash && cert.certRound == round
    ensures forall v :: v in CertVotes(env, log, c, round, n) ==> Vouches(env, log, cert, v)
  {
    if n > 0 {
      CertVotesVouch(env, log, c, round, n - 1, cert);
    }
  }

  lemma {:induction false} AllVouch(env: Env, log: Log, cert: Content, k: nat)
    requires cert.CertBody? && k <= |cert.certVotes|
    requires forall v :: v in cert.certVotes ==> Vouches(env, log, cert, v)
    ensures Vouchers(env, log, cert, k) == VotersOf(cert.certVotes[..k])
  {
    if k > 0 {
      AllVouch(env, log, cert, k - 1);
      assert cert.certVotes[..k] == cert.certVotes[..k - 1] + [cert.certVotes[k - 1]];
      VotersGrow(cert.certVotes[..k - 1], cert.certVotes[k - 1]);
    }
  }

  /** The certificate minted over a log is vouched for by exactly the verified voters. */
  lemma MintedVouchers(env: Env, log: Log, c: Claim, payload: Bytes, round: nat)
    requires VotesTyped(log)
    ensures AllVouchers(env, log, CertOn(env, log, c, payload, round)) == VerifiedVoters(env, log, c, round, |log|)
  {
    var cert := CertOn(env, log, c, payload, round);
    CertVotesVouch(env, log, c, round, |log|, cert);
    AllVouch(env, log, cert, |cert.certVotes|);
    assert cert.certVotes[..|cert.certVotes|] == cert.certVotes;
  }

  lemma {:induction false} SameVoters(env: Env, a: Log, b: Log, c: Claim, round: nat, n: nat)
    requires IsQuietExtension(a, b) && n <= |a|
    ensures VerifiedVoters(env, b, c, round, n) == VerifiedVoters(env, a, c, round, n)
  {
    if n > 0 {
      SameVoters(env, a, b, c, round, n - 1);
      assert b[n - 1] == a[n - 1];
      if a[n - 1].content.VoteBody? {
        SamePin(env, a, b, a[n - 1].content.voter);
      }
    }
  }

  function CertCount(log: Log, c: Claim): nat {
    if |log| == 0 then 0 else CertCount(log[..|log| - 1], c) + if IsCertOn(log[|log| - 1], c) then 1 else 0
  }

  lemma CertCountStep(log: Log, n: Node, c: Claim)
    ensures CertCount(log + [n], c) == CertCount(log, c) + if IsCertOn(n, c) then 1 else 0
  {
    assert (log + [n])[..|log|] == log;
  }

  predicate Mints(env: Env, log: Log, c: Claim, round: nat) {
    !HasCert(env, log, c) && QuorumReached(env, log, c, round)
  }

  lemma RecheckedIsQuiet(env: Env, s: Live, c: Claim, payload: Bytes, round: nat)
    ensures IsQuietExtension(s.dag, Rechecked(env, s, c, payload, round).dag)
    ensures VotesTyped(s.dag) ==> VotesTyped(Rechecked(env, s, c, payload, round).dag)
  {
    hide HasCert, QuorumReached, CertOn;
  }

  lemma EmitCounts(s: Live, kind: NodeType, content: Content, d: Claim)
    ensures CertCount(Emit(s, kind, content).dag, d) ==
            CertCount(s.dag, d) + if kind == ConsensusReached(d.kind) && content.CertBody? &&
                content.certHash == d.hash then 1 else 0
  {
    CertCountStep(s.dag, Node(WithTip(s.dag, []), kind, s.facts.cycleCounter, content), d);
  }

  lemma RecheckedCount(env: Env, s: Live, c: Claim, payload: Bytes, round: nat, d: Claim)
    ensures CertCount(Rechecked(env, s, c, payload, round).dag, d) ==
            CertCount(s.dag, d) + if d == c && Mints(env, s.dag, c, round) then 1 else 0
  {
    var witnessed := Witnessed(s, c);
    EmitCounts(s, ByzantineThresholdCheck(c.kind), Opaque([]), d);
    EmitCounts(witnessed, ConsensusPending(c.kind), Opaque([]), d);
    EmitCounts(witnessed, ConsensusReached(c.kind), CertOn(env, witnessed.dag, c, payload, round), d);
  }

  lemma MintedIsAuthoritative(env: Env, a: Log, log: Log, n: Node, c: Claim, payload: Bytes, round: nat)
    requires VotesTyped(log) && IsQuietExtension(a, log) && |log| == |a| + 1 && !log[|a|].kind.PopulationVote?
    requires QuorumReached(env, a, c, round)
    requires n.kind == ConsensusReached(c.kind) && n.content == CertOn(env, log, c, payload, round)
    ensures IsAuthoritative(env, log, n, c) <==> env.digest(payload) == c.hash
  {
    MintedVouchers(env, log, c, payload, round);
    SameVoters(env, a, log, c, round, |a|);
    assert !IsVerifiedVote(env, log, log[|a|], c, round);
  }

  /**
   A freshly minted certificate is found valid in the state it leaves exactly when the payload it
   carries hashes to the claim. The vote that completes a quorum supplies that payload, and no
   signature covers it.
   */
  lemma FreshCertIsValidIff(env: Env, s: Live, c: Claim, payload: Bytes, round: nat)
    requires VotesTyped(s.dag) && Mints(env, s.dag, c, round)
    ensures HasCert(env, Rechecked(env, s, c, payload, round).dag, c) <==> env.digest(payload) == c.hash
  {
    hide CertOn;
    var a, log, b := s.dag, Witnessed(s, c).dag, Rechecked(env, s, c, payload, round).dag;
    var n := b[|log|];
    MintedIsAuthoritative(env, a, log, n, c, payload, round);
    SameAuthority(env, log, b, n, c);
    if HasCert(env, b, c) {
      NewCertIsAmongNew(env, a, b, c);
      assert !IsAuthoritative(env, b, b[|a|], c);
    }
  }

  /** A mismatched payload certifies nothing, so the next recheck with a quorum mints again. */
  lemma MismatchedPayloadMintsAgain(env: Env, s: Live, c: Claim, payload: Bytes, round: nat)
    requires VotesTyped(s.dag) && Mints(env, s.dag, c, round) && env.digest(payload) != c.hash
    ensures var t := Rechecked(env, s, c, payload, round);
            Mints(env, t.dag, c, round) &&
                CertCount(Rechecked(env, t, c, payload, round).dag, c) == CertCount(s.dag, c) + 2
  {
    var t := Rechecked(env, s, c, payload, round);
    FreshCertIsValidIff(env, s, c, payload, round);
    RecheckedIsQuiet(env, s, c, payload, round);
    RecheckedCount(env, s, c, payload, round, c);
    RecheckedCount(env, t, c, payload, round, c);
    SameVoters(env, s.dag, t.dag, c, round, |s.dag|);
    assert !IsVoteOn(t.dag[|s.dag|], c) && !IsVoteOn(t.dag[|s.dag| + 1], c);
    assert VerifiedVoters(env, t.dag, c, round, |s.dag| + 1) == VerifiedVoters(env, t.dag, c, round, |s.dag|);
  }

  // -------------------------------------------------------------------------
  // At most one certificate
  // -------------------------------------------------------------------------

  /** A claim has one certificate at most, and a claim with one is certified. */
  ghost predicate OneCertEach(env: Env, log: Log) {
    VotesTyped(log) && forall c :: CertCount(log, c) == 0 || (CertCount(log, c) == 1 && HasCert(env, log, c))
  }

  lemma RecheckedKeepsOne(env: Env, s: Live, c: Claim, payload: Bytes, round: nat)
    requires OneCertEach(env, s.dag) && env.digest(payload) == c.hash
    ensures OneCertEach(env, Rechecked(env, s, c, payload, round).dag)
  {
    var t := Rechecked(env, s, c, payload, round);
    RecheckedIsQuiet(env, s, c, payload, round);
    if Mints(env, s.dag, c, round) {
      FreshCertIsValidIff(env, s, c, payload, round);
    }
    forall d
      ensures CertCount(t.dag, d) == 0 || (CertCount(t.dag, d) == 1 && HasCert(env, t.dag, d))
    {
      RecheckedCount(env, s, c, payload, round, d);
      if HasCert(env, s.dag, d) {
        CertPersists(env, s.dag, t.dag, d);
      }
    }
  }

  lemma OtherNodeKeepsOne(env: Env, log: Log, n: Node)
    requires OneCertEach(env, log) && !n.kind.PeerPinned? && !n.kind.ConsensusReached?
    requires n.kind.PopulationVote? && n.content.VoteBody? ==> n.content.voteClaim == n.kind.claimType
    ensures OneCertEach(env, log + [n])
  {
    forall c
      ensures CertCount(log + [n], c) == 0 || (CertCount(log + [n], c) == 1 && HasCert(env, log + [n], c))
    {
      CertCountStep(log, n, c);
      if HasCert(env, log, c) {
        CertPersists(env, log, log + [n], c);
      }
    }
  }

  // -------------------------------------------------------------------------
  // Proposing and voting
  // -------------------------------------------------------------------------

  function OwnVote(env: Env, log: Log, kind: string, payload: Bytes): Content {
    var c := Claim(kind, env.digest(payload));
    var round := NextRound(log, c);
    VoteBody(kind, c.hash, payload, round, env.selfId, env.sign(VoteMessage(kind, c.hash, env.selfId, round, Tip(log))),
        Tip(log))
  }

  /** This substrate's own vote at a fresh round, then a recheck. */
  ghost function Proposed(env: Env, s: Live, kind: string, payload: Bytes): Live {
    var c := Claim(kind, env.digest(payload));
    Rechecked(env, Emit(s, PopulationVote(kind), OwnVote(env, s.dag, kind, payload)), c, payload, NextRound(s.dag, c))
  }

  method HandleFederationProposePopulationClaim(state: ServerState, env: Env, kind: string, payload: Bytes)
      returns (cert: Option<Hash>)
    requires WellFormed(state.dag)
    modifies state`dag, state`cultivation
    ensures WellFormed(state.dag) && state.View() == Proposed(env, old(state.View()), kind, payload)
  {
    var c := Claim(kind, env.digest(payload));
    var round := NextRoundId(state.dag, c);
    var tip := Tip(state.dag);
    var signature := env.sign(VoteMessage(kind, c.hash, env.selfId, round, tip));
    state.EmitSubstrateEvent(PopulationVote(kind), VoteBody(kind, c.hash, payload, round, env.selfId, signature, tip));
    cert := RecheckQuorumAndMaybeEmitCert(state, env, c, payload, round);
  }

  /** The voter is pinned and the signature verifies against the pin. */
  predicate AcceptsVote(env: Env, log: Log, body: Content)
    requires body.VoteBody?
  {
    PinOf(env, log, body.voter).Some? &&
    env.verify(PinOf(env, log, body.voter).value, body.signature,
               VoteMessage(body.voteClaim, body.voteHash, body.voter, body.voteRound, body.voterTip))
  }

  predicate IsRecorded(log: Log, body: Content)
    requires body.VoteBody?
  {
    exists i :: 0 <= i < |log| && IsVoteOn(log[i], Claim(body.voteClaim, body.voteHash)) &&
                log[i].content.voteRound == body.voteRound && log[i].content.voter == body.voter
  }

  /** A verified vote is recorded once per claim, round and voter, then rechecked. */
  ghost function Submitted(env: Env, s: Live, body: Content): Live
    requires body.VoteBody?
  {
    if !AcceptsVote(env, s.dag, body) then s
    else
      var recorded := if IsRecorded(s.dag, body) then s else Emit(s, PopulationVote(body.voteClaim), body);
      Rechecked(env, recorded, Claim(body.voteClaim, body.voteHash), body.votePayload, body.voteRound)
  }

  method HandleFederationSubmitPeerVote(state: ServerState, env: Env, body: Content)
      returns (accepted: bool, cert: Option<Hash>)
    requires WellFormed(state.dag) && body.VoteBody?
    modifies state`dag, state`cultivation
    ensures WellFormed(state.dag) && state.View() == Submitted(env, old(state.View()), body)
    ensures accepted <==> AcceptsVote(env, old(state.dag), body)
  {
    var pins := DerivePinnedSignerPubkeys(env, state.dag);
    if body.voter !in pins { return false, None; }
    var message := VoteMessage(body.voteClaim, body.voteHash, body.voter, body.voteRound, body.voterTip);
    if !env.verify(pins[body.voter], body.signature, message) { return false, None; }
    if !IsRecorded(state.dag, body) {
      state.EmitSubstrateEvent(PopulationVote(body.voteClaim), body);
    }
    cert := RecheckQuorumAndMaybeEmitCert(state, env, Claim(body.voteClaim, body.voteHash), body.votePayload,
        body.voteRound);
    accepted := true;
  }

  // -------------------------------------------------------------------------
  // Runs
  // -------------------------------------------------------------------------

  /** Other events change neither pins, votes nor certificates. */
  predicate IsBystander(n: RawNote) {
    !n.kind.PeerPinned? && !n.kind.ConsensusReached? && !n.kind.PopulationVote?
  }

  type Bystander = n: RawNote | IsBystander(n) witness RawNote(Other(""), Opaque([]))

  type Vote = c: Content | c.VoteBody? witness VoteBody("", [], [], 0, [], [], None)

  datatype ConsensusStep = Propose(kind: string, payload: Bytes) | Submit(body: Vote) | Happen(note: Bystander)

  /** A submitted vote carries the payload its claim hash names. */
  predicate CarriesItsPayload(env: Env, step: ConsensusStep) {
    step.Submit? ==> env.digest(step.body.votePayload) == step.body.voteHash
  }

  ghost function RunConsensus(env: Env, s: Live, steps: seq<ConsensusStep>): Live
    decreases |steps|
  {
    if |steps| == 0 then s
    else
      var before := RunConsensus(env, s, steps[..|steps| - 1]);
      match steps[|steps| - 1]
      case Propose(kind, payload) => Proposed(env, before, kind, payload)
      case Submit(body) => Submitted(env, before, body)
      case Happen(note) => Emit(before, note.kind, note.content)
  }

  lemma ProposedKeepsOne(env: Env, s: Live, kind: string, payload: Bytes)
    requires OneCertEach(env, s.dag)
    ensures OneCertEach(env, Proposed(env, s, kind, payload).dag)
  {
    var voted := Emit(s, PopulationVote(kind), OwnVote(env, s.dag, kind, payload));
    OtherNodeKeepsOne(env, s.dag, voted.dag[|s.dag|]);
    var c := Claim(kind, env.digest(payload));
    RecheckedKeepsOne(env, voted, c, payload, NextRound(s.dag, c));
  }

  lemma SubmittedKeepsOne(env: Env, s: Live, body: Content)
    requires OneCertEach(env, s.dag) && body.VoteBody? && env.digest(body.votePayload) == body.voteHash
    ensures OneCertEach(env, Submitted(env, s, body).dag)
  {
    if AcceptsVote(env, s.dag, body) {
      var recorded := if IsRecorded(s.dag, body) then s else Emit(s, PopulationVote(body.voteClaim), body);
      if !IsRecorded(s.dag, body) {
        OtherNodeKeepsOne(env, s.dag, recorded.dag[|s.dag|]);
      }
      RecheckedKeepsOne(env, recorded, Claim(body.voteClaim, body.voteHash), body.votePayload, body.voteRound);
    }
  }

  /**
   With membership, pins and revocations fixed, and votes that carry the payload they vote on,
   no sequence of proposals and votes ever gives a claim two certificates.
   */
  lemma {:induction false} AtMostOneCertificate(env: Env, s: Live, steps: seq<ConsensusStep>, c: Claim)
    requires OneCertEach(env, s.dag) && forall k :: 0 <= k < |steps| ==> CarriesItsPayload(env, steps[k])
    ensures OneCertEach(env, RunConsensus(env, s, steps).dag) && CertCount(RunConsensus(env, s, steps).dag, c) <= 1
    decreases |steps|
  {
    if |steps| > 0 {
      var before := RunConsensus(env, s, steps[..|steps| - 1]);
      AtMostOneCertificate(env, s, steps[..|steps| - 1], c);
      match steps[|steps| - 1]
      case Propose(kind, payload) => ProposedKeepsOne(env, before, kind, payload);
      case Submit(body) => SubmittedKeepsOne(env, before, body);
      case Happen(note) => OtherNodeKeepsOne(env, before.dag, Emit(before, note.kind, note.content).dag[|before.dag|]);
    }
  }
}
