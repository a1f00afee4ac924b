/**
 The pairing manager's state after any run, from the calls of the run alone: which challenges
 are pending, which responses earn a certificate, and which nodes are registered.
 */
module PairingRuns {
  import opened Wrappers
  import opened Integers
  import opened CertificateText
  import opened Pairing
  import opened PairingProofs

  // ----- pending challenges -----

  /** The call generates or answers a challenge for the node that begins with the eight bytes. */
  predicate Concerns(e: Call, nodeId: Uuid, head: Bytes) {
    || (e.Generate? && e.nodeId == nodeId && e.challenge[..8] == head)
    || (e.Verify? && |e.response.challengeResponse| >= 8 && e.response.nodeId == nodeId
        && e.response.challengeResponse[..8] == head)
  }

  lemma ConcernsIff(e: Call, nodeId: Uuid, head: Bytes)
    ensures Touches(e, ChallengeId(nodeId, head)) <==> Concerns(e, nodeId, head)
  {
    hide ChallengeId;
    if e.Generate? && GenerateId(e) == ChallengeId(nodeId, head) {
      ChallengeIdIsInjective(e.nodeId, e.challenge[..8], nodeId, head);
    }
    if e.Verify? && |e.response.challengeResponse| >= 8 && ResponseId(e.response) == ChallengeId(nodeId, head) {
      ChallengeIdIsInjective(e.response.nodeId, e.response.challengeResponse[..8], nodeId, head);
    }
  }

  /** Call `g` generated the challenge; it was not answered or replaced since, and no cleanup found it overdue. */
  ghost predicate LastGenerated(es: seq<Call>, g: nat, nodeId: Uuid, head: Bytes) {
    && g < |es| && es[g].Generate? && es[g].nodeId == nodeId && es[g].challenge[..8] == head
    && forall l :: g < l < |es| ==>
         !Concerns(es[l], nodeId, head) && (es[l].Cleanup? ==> es[l].cleanedAt - es[g].at <= 300)
  }

  lemma StaysPending(m: Identity, s: State, e: Call, nodeId: Uuid, head: Bytes)
    requires ChallengeId(nodeId, head) in s.pending && !Concerns(e, nodeId, head)
    ensures var id, s' := ChallengeId(nodeId, head), Step(m, s, e).0;
            && (id in s'.pending <==>
                  (e.Cleanup? ==> e.cleanedAt - s.pending[id].timestamp <= s.pending[id].expiresInSeconds))
            && (id in s'.pending ==> s'.pending[id] == s.pending[id])
  {
    hide ChallengeId, CheckSignature, Issue, Judge;
    ConcernsIff(e, nodeId, head);
  }

  lemma {:induction false} GeneratedIsPending(m: Identity, es: seq<Call>, g: nat, nodeId: Uuid, head: Bytes)
    requires LastGenerated(es, g, nodeId, head)
    ensures ChallengeId(nodeId, head) in After(m, Empty, es).pending
    ensures After(m, Empty, es).pending[ChallengeId(nodeId, head)] == PendingChallenge(es[g].challenge, es[g].at, 300)
  {
    hide Step, ChallengeId, Concerns;
    var front, e := es[..|es| - 1], es[|es| - 1];
    if g == |front| {
      GeneratedIs(m, After(m, Empty, front), e);
    } else {
      GeneratedIsPending(m, front, g, nodeId, head);
      StaysPending(m, After(m, Empty, front), e, nodeId, head);
    }
  }

  lemma {:induction false} PendingWasGenerated(m: Identity, es: seq<Call>, nodeId: Uuid, head: Bytes) returns (g: nat)
    requires ChallengeId(nodeId, head) in After(m, Empty, es).pending
    ensures LastGenerated(es, g, nodeId, head)
  {
    hide Step, ChallengeId, Concerns;
    var front, e := es[..|es| - 1], es[|es| - 1];
    var id := ChallengeId(nodeId, head);
    ConcernsIff(e, nodeId, head);
    StepKeepsPending(m, After(m, Empty, front), e, id);
    if e.Generate? && GenerateId(e) == id {
      ChallengeIdIsInjective(e.nodeId, e.challenge[..8], nodeId, head);
      g := |front|;
    } else {
      g := PendingWasGenerated(m, front, nodeId, head);
      GeneratedIsPending(m, front, g, nodeId, head);
      StaysPending(m, After(m, Empty, front), e, nodeId, head);
    }
  }

  /**
   A challenge is pending if and only if some call of the run generated it, it was neither
   answered nor generated again since, and no cleanup since came more than 300 seconds later.
   */
  lemma PendingIff(m: Identity, es: seq<Call>, nodeId: Uuid, head: Bytes)
    ensures ChallengeId(nodeId, head) in After(m, Empty, es).pending <==>
              exists g :: LastGenerated(es, g, nodeId, head)
  {
    hide After, ChallengeId, LastGenerated;
    if ChallengeId(nodeId, head) in After(m, Empty, es).pending {
      var g := PendingWasGenerated(m, es, nodeId, head);
    }
    if g :| LastGenerated(es, g, nodeId, head) {
      GeneratedIsPending(m, es, g, nodeId, head);
    }
  }

  // ----- certificates -----

  /** The signature is 64 bytes long, and key, signature and message are accepted by the library. */
  predicate SignatureHolds(c: Crypto, key: Bytes, message: Bytes, signature: Bytes) {
    c.isKey(key) && |signature| == 64 && c.isSignature(signature) && c.verifies(key, message, signature)
  }

  /** The replies to a response, one condition each; the checks come in this order. */
  lemma ResponseReplies(m: Identity, s: State, e: Call)
    requires e.Verify? && |e.response.challengeResponse| >= 8
    ensures Step(m, s, e).1.Verified?
    ensures var r, sig, c := Step(m, s, e).1.result, e.response.signature, m.crypto;
            var id := ChallengeId(e.response.nodeId, e.response.challengeResponse[..8]);
            if id !in s.pending then r == Failure(ChallengeNotFound)
            else
              var p := s.pending[id];
              if e.checkedAt - p.timestamp > p.expiresInSeconds then r == Failure(ChallengeExpired)
              else if !c.isKey(e.publicKey) then r == Failure(InvalidKey)
              else if |sig| != 64 then r == Failure(InvalidSignatureLength)
              else if !c.isSignature(sig) then r == Failure(InvalidSignature)
              else if !c.verifies(e.publicKey, p.challenge, sig) then r == Failure(SignatureMismatch)
              else r.Success?
  {
    hide ChallengeId, Issue;
  }

  /** A generated challenge is sent back with the node id it is for, and registers nobody. */
  lemma GenerateReplies(m: Identity, s: State, e: Call)
    requires e.Generate?
    ensures Step(m, s, e).1 == Challenged(e.nodeId, e.challenge) && Step(m, s, e).0.nodeKeys == s.nodeKeys
  {
    hide ChallengeId;
  }

  /** A response too short for its first eight bytes is no reply to any challenge, and changes nothing. */
  lemma ShortResponse(m: Identity, s: State, e: Call)
    requires e.Verify? && |e.response.challengeResponse| < 8
    ensures Step(m, s, e) == (s, Verified(Failure(ResponseTooShort)))
  {
  }

  /** The fields of an issued certificate: it is valid for 365 days. */
  lemma CertificateIs(m: Identity, s: State, e: Call)
    requires e.Verify? && IsCertificate(Step(m, s, e).1)
    ensures var cert := Step(m, s, e).1.result.value;
            && cert.nodeId == e.response.nodeId && cert.clusterId == m.clusterId && cert.publicKey == e.publicKey
            && cert.issuedAt == e.issuedAt && cert.expiresAt == e.issuedAt + 31536000
            && var text := CertificateData(cert.nodeId, cert.clusterId, cert.publicKey, cert.issuedAt, cert.expiresAt);
               cert.signature == m.crypto.sign(m.secret, m.crypto.sha256(text))
  {
    hide CertificateData;
    SuccessIs(m, s, e);
  }

  /** Call `j` answers, within 300 seconds and with a good signature of all its bytes, the challenge of call `g`. */
  ghost predicate GoodAnswer(m: Identity, es: seq<Call>, g: nat, j: nat, n: Uuid) {
    && j < |es| && es[j].Verify? && es[j].response.nodeId == n && |es[j].response.challengeResponse| >= 8
    && LastGenerated(es[..j], g, n, es[j].response.challengeResponse[..8])
    && es[j].checkedAt - es[g].at <= 300
    && SignatureHolds(m.crypto, es[j].publicKey, es[g].challenge, es[j].response.signature)
  }

  /**
   In every run, a response earns a certificate if and only if it is such an answer to a challenge
   generated for its node id.
   */
  lemma CertifiedIff(m: Identity, es: seq<Call>, j: nat, n: Uuid)
    ensures Certifies(m, es, j, n) <==> exists g :: GoodAnswer(m, es, g, j, n)
  {
    hide After, ChallengeId, LastGenerated, Step;
    if Certifies(m, es, j, n) {
      var e := es[j];
      SuccessIs(m, After(m, Empty, es[..j]), e);
      var head := e.response.challengeResponse[..8];
      var g := PendingWasGenerated(m, es[..j], n, head);
      GoodIff(m, es, g, j, n, head);
    }
    if g :| GoodAnswer(m, es, g, j, n) {
      GoodIff(m, es, g, j, n, es[j].response.challengeResponse[..8]);
    }
  }

  lemma GoodIff(m: Identity, es: seq<Call>, g: nat, j: nat, n: Uuid, head: Bytes)
    requires j < |es| && es[j].Verify? && es[j].response.nodeId == n && |es[j].response.challengeResponse| >= 8
    requires head == es[j].response.challengeResponse[..8] && LastGenerated(es[..j], g, n, head)
    ensures Certifies(m, es, j, n) <==> GoodAnswer(m, es, g, j, n)
  {
    hide After, ChallengeId, Step, Concerns;
    GeneratedIsPending(m, es[..j], g, n, head);
    assert es[..j][g] == es[g];
    ResponseReplies(m, After(m, Empty, es[..j]), es[j]);
  }

  // ----- registered nodes -----

  lemma StaysRegistered(m: Identity, s: State, e: Call, n: Uuid)
    requires n in s.nodeKeys && e != Revoke(n)
    ensures n in Step(m, s, e).0.nodeKeys
  {
    hide ChallengeId, Judge;
  }

  predicate NotRevokedSince(es: seq<Call>, j: nat, n: Uuid) {
    forall l :: j < l < |es| ==> es[l] != Revoke(n)
  }

  lemma {:induction false} CertifiedIsRegistered(m: Identity, es: seq<Call>, j: nat, n: Uuid)
    requires Certifies(m, es, j, n) && forall l :: j < l < |es| ==> es[l] != Revoke(n)
    ensures n in After(m, Empty, es).nodeKeys
  {
    hide Step;
    var front, e := es[..|es| - 1], es[|es| - 1];
    if j == |front| {
      assert es[..j] == front;
      CertificateIsStored(m, After(m, Empty, front), e);
    } else {
      CertifiesInPrefix(m, es, |front|, j, n);
      CertifiedIsRegistered(m, front, j, n);
      StaysRegistered(m, After(m, Empty, front), e, n);
    }
  }

  lemma CertificateIsStored(m: Identity, s: State, e: Call)
    requires e.Verify? && IsCertificate(Step(m, s, e).1)
    ensures e.response.nodeId in Step(m, s, e).0.nodeKeys
  {
    hide ChallengeId, Judge;
  }

  /**
   A node is registered if and only if some response of the run earned it a certificate and no
   later call revoked it: nothing else registers a node or takes a registration away.
   */
  lemma RegisteredIff(m: Identity, es: seq<Call>, n: Uuid)
    ensures n in After(m, Empty, es).nodeKeys <==>
              exists j: nat :: Certifies(m, es, j, n) && NotRevokedSince(es, j, n)
  {
    hide After, Certifies;
    if n in After(m, Empty, es).nodeKeys {
      var j := StoredCertificatesWereIssued(m, es, n);
      assert NotRevokedSince(es, j, n);
    }
    if j: nat :| Certifies(m, es, j, n) && NotRevokedSince(es, j, n) {
      CertifiedIsRegistered(m, es, j, n);
    }
  }

  // ----- looking at a certificate -----

  /** A certificate is accepted if and only if it has not expired and its signature of the hashed text holds. */
  lemma CertificateAcceptedIff(c: Crypto, cert: Certificate, key: Bytes, now: int)
    ensures var text := CertificateData(cert.nodeId, cert.clusterId, cert.publicKey, cert.issuedAt, cert.expiresAt);
            CheckCertificate(c, cert, key, now) == Success(true) <==>
              now <= cert.expiresAt && SignatureHolds(c, key, c.sha256(text), cert.signature)
    ensures now > cert.expiresAt ==> CheckCertificate(c, cert, key, now) == Success(false)
  {
    hide CertificateData;
  }
}
