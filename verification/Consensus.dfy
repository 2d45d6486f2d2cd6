/**
 The population-consensus floor (substrate/src/consensus.rs, substrate/src/events/consensus.rs):
 votes and certificates live in the log and are re-derived from it on demand. Hashing and
 signature checks are parameters.
 */
module Consensus {
  import opened Prelude
  import opened Dag
  import opened Derived
  import opened Ingest

  const CONSENSUS_FLOOR_MIN_PEERS: nat := 3

  /** The canonical message a voter signs. */
  datatype Message = VoteMessage(claim: string, hash: Bytes, voter: Bytes, round: nat, tip: Option<Hash>)

  /** Who is here: this substrate, its live connections and the revocation list; and the foreign primitives. */
  datatype Env = Env(
    selfId: Bytes,
    selfKey: Bytes,
    peers: seq<Option<Bytes>>,
    revoked: set<Bytes>,
    verify: (Bytes, Bytes, Message) -> bool,
    sign: Message -> Bytes,
    digest: Bytes -> Bytes)

  // -------------------------------------------------------------------------
  // Thresholds
  // -------------------------------------------------------------------------

  function FTolerated(n: nat): nat {
    SatSub(n, 1) / 3
  }

  function QuorumThreshold(n: nat): nat {
    n - FTolerated(n)
  }

  lemma SetCardinality<T>(a: set<T>, b: set<T>)
    ensures |a + b| == |a| + |b| - |a * b|
  {
    assert a + b == a + (b - a * b);
    assert a !! (b - a * b);
  }

  lemma SubsetCardinality<T>(a: set<T>, b: set<T>)
    requires a <= b
    ensures |a| <= |b|
  {
    assert b == a + (b - a);
  }

  /** Any two quorums of the same participants share more voters than can be faulty. */
  lemma QuorumsIntersect(all: set<Bytes>, a: set<Bytes>, b: set<Bytes>)
    requires |all| > 0 && a <= all && b <= all
    requires |a| >= QuorumThreshold(|all|) && |b| >= QuorumThreshold(|all|)
    ensures |a * b| > FTolerated(|all|)
  {
    SetCardinality(a, b);
    SubsetCardinality(a + b, all);
  }

  // -------------------------------------------------------------------------
  // Pins and membership
  // -------------------------------------------------------------------------

  predicate IsPin(n: Node) {
    n.kind.PeerPinned? && n.content.PinBody? && n.content.pinnedKey.Some?
  }

  /** The key last pinned for a peer; a revoked peer has none. */
  function PinOf(env: Env, log: Log, id: Bytes): Option<Bytes> {
    if id in env.revoked || |log| == 0 then None
    else
      var n := log[|log| - 1];
      if IsPin(n) && n.content.peer == id then n.content.pinnedKey else PinOf(env, log[..|log| - 1], id)
  }

  ghost predicate ArePins(env: Env, log: Log, pins: map<Bytes, Bytes>) {
    forall id :: (id in pins <==> PinOf(env, log, id).Some?) && (id in pins ==> pins[id] == PinOf(env, log, id).value)
  }

  method DerivePinnedSignerPubkeys(env: Env, log: Log) returns (pins: map<Bytes, Bytes>)
    ensures ArePins(env, log, pins)
  {
    pins := map[];
    for i := 0 to |log|
      invariant ArePins(env, log[..i], pins)
    {
      assert log[..i + 1][..i] == log[..i];
      var n := log[i];
      if !n.kind.PeerPinned? || !n.content.PinBody? || n.content.pinnedKey.None? { continue; }
      if n.content.peer in env.revoked { continue; }
      pins := pins[n.content.peer := n.content.pinnedKey.value];
    }
    assert log[..|log|] == log;
  }

  /** The key a vote is checked against: this substrate's own, or the pin. */
  function Resolve(env: Env, log: Log, id: Bytes): Option<Bytes> {
    if id == env.selfId then Some(env.selfKey) else PinOf(env, log, id)
  }

  function LivePeers(env: Env, n: nat): set<Bytes>
    requires n <= |env.peers|
  {
    if n == 0 then {}
    else
      match env.peers[n - 1]
      case Some(id) => if id in env.revoked then LivePeers(env, n - 1) else LivePeers(env, n - 1) + {id}
      case None => LivePeers(env, n - 1)
  }

  /** N: this substrate and every distinct live peer that is not revoked. */
  function PeerSetSize(env: Env): nat {
    |LivePeers(env, |env.peers|)| + 1
  }

  // -------------------------------------------------------------------------
  // Votes
  // -------------------------------------------------------------------------

  datatype Claim = Claim(kind: string, hash: Bytes)

  predicate IsVoteOn(n: Node, c: Claim) {
    n.kind == PopulationVote(c.kind) && n.content.VoteBody? && n.content.voteHash == c.hash
  }

  function MessageOf(n: Node): Message
    requires n.content.VoteBody?
  {
    VoteMessage(n.content.voteClaim, n.content.voteHash, n.content.voter, n.content.voteRound, n.content.voterTip)
  }

  /** A vote of this round by a voter whose key is known, with a signature that verifies. */
  predicate IsVerifiedVote(env: Env, log: Log, n: Node, c: Claim, round: nat) {
    && IsVoteOn(n, c) && n.content.voteRound == round
    && Resolve(env, log, n.content.voter).Some?
    && env.verify(Resolve(env, log, n.content.voter).value, n.content.signature, MessageOf(n))
  }

  /** The voters with a verified vote among the first n nodes. */
  function VerifiedVoters(env: Env, log: Log, c: Claim, round: nat, n: nat): set<Bytes>
    requires n <= |log|
  {
    if n == 0 then {}
    else if IsVerifiedVote(env, log, log[n - 1], c, round) then
        VerifiedVoters(env, log, c, round, n - 1) + {log[n - 1].content.voter}
    else VerifiedVoters(env, log, c, round, n - 1)
  }

  /** Look up the voter's key, then check the signature; without a key the vote does not count. */
  method VoteVerifies(env: Env, log: Log, n: Node, c: Claim, round: nat, pins: map<Bytes, Bytes>) returns (ok: bool)
    requires ArePins(env, log, pins) && IsVoteOn(n, c) && n.content.voteRound == round
    ensures ok <==> IsVerifiedVote(env, log, n, c, round)
  {
    var key: Option<Bytes> := None;
    if n.content.voter == env.selfId {
      key := Some(env.selfKey);
    } else if n.content.voter in pins {
      key := Some(pins[n.content.voter]);
    }
    ok := key.Some? && env.verify(key.value, n.content.signature, MessageOf(n));
  }

  /** The votes of this round among the first n nodes, verified or not, repeated or not. */
  function VotesSeen(log: Log, c: Claim, round: nat, n: nat): nat
    requires n <= |log|
  {
    if n == 0 then 0
    else
      VotesSeen(log, c, round, n - 1) +
      if IsVoteOn(log[n - 1], c) && log[n - 1].content.voteRound == round then 1 else 0
  }

  method TallyVotes(env: Env, log: Log, c: Claim, round: nat, pins: map<Bytes, Bytes>)
      returns (distinct: nat, total: nat)
    requires ArePins(env, log, pins)
    ensures distinct == |VerifiedVoters(env, log, c, round, |log|)| && total == VotesSeen(log, c, round, |log|)
    ensures distinct <= total
  {
    var verified: set<Bytes> := {};
    total := 0;
    for i := 0 to |log|
      invariant verified == VerifiedVoters(env, log, c, round, i) && |verified| <= total
      invariant total == VotesSeen(log, c, round, i)
    {
      var n := log[i];
      if n.kind != PopulationVote(c.kind) || !n.content.VoteBody? { continue; }
      if n.content.voteHash != c.hash || n.content.voteRound != round { continue; }
      total := total + 1;
      var ok := VoteVerifies(env, log, n, c, round, pins);
      if ok {
        verified := verified + {n.content.voter};
      }
    }
    distinct := |verified|;
  }

  function VotersOf(votes: seq<CertVote>): set<Bytes> {
    set k | 0 <= k < |votes| :: votes[k].voter
  }

  predicate DistinctVoters(votes: seq<CertVote>) {
    forall j, k :: 0 <= j < k < |votes| ==> votes[j].voter != votes[k].voter
  }

  lemma VotersGrow(votes: seq<CertVote>, v: CertVote)
    ensures VotersOf(votes + [v]) == VotersOf(votes) + {v.voter}
  {
    var longer := votes + [v];
    assert longer[|votes|] == v;
    forall id | id in VotersOf(votes)
      ensures id in VotersOf(longer)
    {
      var k :| 0 <= k < |votes| && votes[k].voter == id;
      assert longer[k].voter == id;
    }
  }

  lemma {:induction false} DistinctVotersCount(votes: seq<CertVote>)
    requires DistinctVoters(votes)
    ensures |VotersOf(votes)| == |votes|
    decreases |votes|
  {
    if |votes| > 0 {
      var last := |votes| - 1;
      DistinctVotersCount(votes[..last]);
      assert votes == votes[..last] + [votes[last]];
      VotersGrow(votes[..last], votes[last]);
      assert votes[last].voter !in VotersOf(votes[..last]);
    }
  }

  function CertVoteOf(n: Node): CertVote
    requires n.content.VoteBody?
  {
    CertVote(n.content.voter, n.content.signature, n.content.voterTip)
  }

  /** The first verified vote of every verified voter, in insertion order. */
  function CertVotes(env: Env, log: Log, c: Claim, round: nat, n: nat): (votes: seq<CertVote>)
    requires n <= |log|
    ensures DistinctVoters(votes) && VotersOf(votes) == VerifiedVoters(env, log, c, round, n)
  {
    if n == 0 then []
    else
      var front := CertVotes(env, log, c, round, n - 1);
      if IsVerifiedVote(env, log, log[n - 1], c, round) &&
          log[n - 1].content.voter !in VerifiedVoters(env, log, c, round, n - 1)
      then
        VotersGrow(front, CertVoteOf(log[n - 1]));
        front + [CertVoteOf(log[n - 1])]
      else front
  }

  method CollectCertVotes(env: Env, log: Log, c: Claim, round: nat, pins: map<Bytes, Bytes>)
      returns (votes: seq<CertVote>)
    requires ArePins(env, log, pins)
    ensures votes == CertVotes(env, log, c, round, |log|)
  {
    votes := [];
    var seen: set<Bytes> := {};
    for i := 0 to |log|
      invariant seen == VerifiedVoters(env, log, c, round, i) && votes == CertVotes(env, log, c, round, i)
    {
      var n := log[i];
      if n.kind != PopulationVote(c.kind) || !n.content.VoteBody? { continue; }
      if n.content.voteHash != c.hash || n.content.voteRound != round { continue; }
      if n.content.voter in seen { continue; }
      var ok := VoteVerifies(env, log, n, c, round, pins);
      if ok {
        seen := seen + {n.content.voter};
        votes := votes + [CertVoteOf(n)];
      }
    }
  }

  /** The tally and the certificate agree: as many votes as distinct verified voters. */
  lemma TallyMatchesCertificate(env: Env, log: Log, c: Claim, round: nat)
    ensures |CertVotes(env, log, c, round, |log|)| == |VerifiedVoters(env, log, c, round, |log|)|
  {
    DistinctVotersCount(CertVotes(env, log, c, round, |log|));
  }

  // -------------------------------------------------------------------------
  // Certificates
  // -------------------------------------------------------------------------

  predicate IsCertOn(n: Node, c: Claim) {
    n.kind == ConsensusReached(c.kind) && n.content.CertBody? && n.content.certHash == c.hash
  }

  /** An embedded vote whose signature verifies over the certificate's own claim fields. */
  predicate Vouches(env: Env, log: Log, cert: Content, v: CertVote)
    requires cert.CertBody?
  {
    && Resolve(env, log, v.voter).Some?
    && env.verify(Resolve(env, log, v.voter).value, v.signature,
                  VoteMessage(cert.certClaim, cert.certHash, v.voter, cert.certRound, v.tip))
  }

  /** The distinct voters whose embedded votes verify. */
  function Vouchers(env: Env, log: Log, cert: Content, k: nat): set<Bytes>
    requires cert.CertBody? && k <= |cert.certVotes|
  {
    if k == 0 then {}
    else if Vouches(env, log, cert, cert.certVotes[k - 1]) then
        Vouchers(env, log, cert, k - 1) + {cert.certVotes[k - 1].voter}
    else Vouchers(env, log, cert, k - 1)
  }

  function AllVouchers(env: Env, log: Log, cert: Content): set<Bytes>
    requires cert.CertBody?
  {
    Vouchers(env, log, cert, |cert.certVotes|)
  }

  /** verify_quorum_cert: how many distinct voters vouch, if the certificate meets the bar it claims. */
  method VerifyQuorumCert(env: Env, log: Log, cert: Content, pins: map<Bytes, Bytes>) returns (r: Option<nat>)
    requires cert.CertBody? && ArePins(env, log, pins)
    ensures r.Some? <==> env.digest(cert.certPayload) == cert.certHash &&
                         |AllVouchers(env, log, cert)| >= QuorumThreshold(cert.certN)
    ensures r.Some? ==> r.value == |AllVouchers(env, log, cert)|
  {
    if env.digest(cert.certPayload) != cert.certHash { return None; }
    var verified: set<Bytes> := {};
    for k := 0 to |cert.certVotes|
      invariant verified == Vouchers(env, log, cert, k)
    {
      var v := cert.certVotes[k];
      var key: Option<Bytes> := None;
      if v.voter == env.selfId {
        key := Some(env.selfKey);
      } else if v.voter in pins {
        key := Some(pins[v.voter]);
      }
      if key.None? { continue; }
      if env.verify(key.value, v.signature,
          VoteMessage(cert.certClaim, cert.certHash, v.voter, cert.certRound, v.tip)) {
        verified := verified + {v.voter};
      }
    }
    if |verified| < QuorumThreshold(cert.certN) { return None; }
    r := Some(|verified|);
  }

  /** A certificate that meets the bar it claims and this substrate's own. */
  predicate IsAuthoritative(env: Env, log: Log, n: Node, c: Claim) {
    && IsCertOn(n, c)
    && env.digest(n.content.certPayload) == n.content.certHash
    && |AllVouchers(env, log, n.content)| >= QuorumThreshold(n.content.certN)
    && |AllVouchers(env, log, n.content)| >= QuorumThreshold(PeerSetSize(env))
  }

  predicate HasCert(env: Env, log: Log, c: Claim) {
    exists i :: 0 <= i < |log| && IsAuthoritative(env, log, log[i], c)
  }

  ghost predicate IsFirstCert(env: Env, log: Log, c: Claim, i: nat) {
    && i < |log| && IsAuthoritative(env, log, log[i], c)
    && forall k :: 0 <= k < i ==> !IsAuthoritative(env, log, log[k], c)
  }

  method FindValidQuorumCert(env: Env, log: Log, c: Claim) returns (r: Option<(Hash, nat)>)
    ensures r.Some? <==> HasCert(env, log, c)
    ensures r.Some? ==>
      exists i: nat ::
        IsFirstCert(env, log, c, i) && r.value == (HashOf(log[i]), |AllVouchers(env, log, log[i].content)|)
  {
    var pins := DerivePinnedSignerPubkeys(env, log);
    var localThreshold := QuorumThreshold(PeerSetSize(env));
    for i := 0 to |log|
      invariant forall k :: 0 <= k < i ==> !IsAuthoritative(env, log, log[k], c)
    {
      var n := log[i];
      if n.kind != ConsensusReached(c.kind) || !n.content.CertBody? { continue; }
      if n.content.certHash != c.hash { continue; }
      var outcome := VerifyQuorumCert(env, log, n.content, pins);
      if outcome.Some? && outcome.value >= localThreshold {
        assert IsFirstCert(env, log, c, i);
        return Some((HashOf(n), outcome.value));
      }
    }
    r := None;
  }

  // -------------------------------------------------------------------------
  // The C49 gate
  // -------------------------------------------------------------------------

  method CheckC49PopulationActionAllowed(env: Env, log: Log, c: Claim) returns (allowed: bool)
    ensures allowed <==> |env.peers| < 3 || HasCert(env, log, c)
  {
    if |env.peers| < CONSENSUS_FLOOR_MIN_PEERS { return true; }
    var found := FindValidQuorumCert(env, log, c);
    allowed := found.Some?;
  }

  lemma {:induction false} VoucherIsKnown(env: Env, log: Log, cert: Content, k: nat, id: Bytes)
    requires cert.CertBody? && k <= |cert.certVotes| && id in Vouchers(env, log, cert, k)
    ensures id == env.selfId || (id !in env.revoked && PinOf(env, log, id).Some?)
    ensures exists j :: 0 <= j < k && cert.certVotes[j].voter == id && Vouches(env, log, cert, cert.certVotes[j])
  {
    if k > 0 && id in Vouchers(env, log, cert, k - 1) {
      VoucherIsKnown(env, log, cert, k - 1, id);
    }
  }

  /**
   Under an active floor the gate passes only on a certificate that at least a quorum of the
   local participant set vouches for: each of them this substrate or a pinned peer that is
   not revoked, with a signature of its own over the certificate's claim.
   */
  lemma GateNeedsQuorum(env: Env, log: Log, c: Claim) returns (i: nat)
    requires |env.peers| >= 3 && HasCert(env, log, c)
    ensures i < |log| && IsCertOn(log[i], c) && env.digest(log[i].content.certPayload) == c.hash
    ensures |AllVouchers(env, log, log[i].content)| >= QuorumThreshold(PeerSetSize(env))
    ensures forall id :: id in AllVouchers(env, log, log[i].content) ==>
              (id == env.selfId || (id !in env.revoked && PinOf(env, log, id).Some?)) &&
              exists j :: 0 <= j < |log[i].content.certVotes| && log[i].content.certVotes[j].voter == id &&
                          Vouches(env, log, log[i].content, log[i].content.certVotes[j])
  {
    i :| i < |log| && IsAuthoritative(env, log, log[i], c);
    forall id | id in AllVouchers(env, log, log[i].content)
      ensures (id == env.selfId || (id !in env.revoked && PinOf(env, log, id).Some?)) &&
              exists j :: 0 <= j < |log[i].content.certVotes| && log[i].content.certVotes[j].voter == id &&
                          Vouches(env, log, log[i].content, log[i].content.certVotes[j])
    {
      VoucherIsKnown(env, log, log[i].content, |log[i].content.certVotes|, id);
    }
  }

  // -------------------------------------------------------------------------
  // Rounds
  // -------------------------------------------------------------------------

  /** One more than the highest round voted on, zero if none. */
  function NextRound(log: Log, c: Claim): (r: nat)
    ensures forall i :: 0 <= i < |log| && IsVoteOn(log[i], c) ==> log[i].content.voteRound < r
    ensures r > 0 ==> exists i :: 0 <= i < |log| && IsVoteOn(log[i], c) && log[i].content.voteRound == r - 1
  {
    if |log| == 0 then 0
    else
      var n, front := log[|log| - 1], NextRound(log[..|log| - 1], c);
      if IsVoteOn(n, c) && n.content.voteRound >= front then n.content.voteRound + 1 else front
  }

  method NextRoundId(log: Log, c: Claim) returns (r: nat)
    ensures r == NextRound(log, c)
  {
    var maxRound: Option<nat> := None;
    for i := 0 to |log|
      invariant NextRound(log[..i], c) == match maxRound case Some(m) => m + 1 case None => 0
    {
      assert log[..i + 1][..i] == log[..i];
      var n := log[i];
      if n.kind != PopulationVote(c.kind) || !n.content.VoteBody? { continue; }
      if n.content.voteHash == c.hash {
        maxRound := Some(if maxRound.Some? && maxRound.value > n.content.voteRound then maxRound.value
            else n.content.voteRound);
      }
    }
    assert log[..|log|] == log;
    r := match maxRound case Some(m) => m + 1 case None => 0;
  }
}
