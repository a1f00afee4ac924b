/**
 Pairing of nodes by challenge and response. Times are whole seconds, as the manager
 compares them; random numbers, clock readings and the cryptography are parameters.
 */
module Pairing {
  import opened Wrappers
  import opened Integers
  import opened CertificateText

  /** The functions the manager takes from its libraries. */
  datatype Crypto = Crypto(
    isKey: Bytes -> bool,
    isSignature: Bytes -> bool,
    verifies: (Bytes, Bytes, Bytes) -> bool,
    sign: (Bytes, Bytes) -> Bytes,
    publicKey: Bytes -> Bytes,
    sha256: string -> Bytes)

  /** What the library promises of Ed25519 (section 5.1 of RFC 8032): a genuine signature verifies. */
  ghost predicate Genuine(c: Crypto) {
    forall secret, message ::
      var signature := c.sign(secret, message);
      && c.isKey(c.publicKey(secret)) && |signature| == 64 && c.isSignature(signature)
      && c.verifies(c.publicKey(secret), message, signature)
  }

  type Challenge = s: Bytes | |s| == 32 witness seq(32, _ => 0)

  const LIFETIME := 300
  const YEAR := 365 * 24 * 60 * 60

  datatype PendingChallenge = PendingChallenge(challenge: Challenge, timestamp: int, expiresInSeconds: nat)

  datatype Certificate = Certificate(nodeId: Uuid, clusterId: Uuid, publicKey: Bytes, issuedAt: int, expiresAt: int,
                                     signature: Bytes)

  datatype NodeKeyPair = NodeKeyPair(nodeId: Uuid, publicKey: Bytes, certificate: Certificate)

  datatype Response = Response(nodeId: Uuid, challengeResponse: Bytes, signature: Bytes)

  /** `ResponseTooShort` is the panic of slicing fewer than eight bytes. */
  datatype Error =
    | ResponseTooShort
    | ChallengeNotFound
    | ChallengeExpired
    | InvalidKey
    | InvalidSignatureLength
    | InvalidSignature
    | SignatureMismatch

  /** What never changes: the cluster and the coordinator's secret key. */
  datatype Identity = Identity(clusterId: Uuid, secret: Bytes, crypto: Crypto)

  datatype State = State(pending: map<string, PendingChallenge>, nodeKeys: map<Uuid, NodeKeyPair>)

  const Empty := State(map[], map[])

  datatype Call =
    | Generate(nodeId: Uuid, challenge: Challenge, at: int)
    | Verify(response: Response, publicKey: Bytes, checkedAt: int, issuedAt: int)
    | Revoke(revoked: Uuid)
    | Cleanup(cleanedAt: int)

  datatype Reply = Challenged(nodeId: Uuid, challenge: Challenge) | Verified(result: Result<Certificate, Error>) | Done

  // ----- what one call does -----

  function CheckSignature(c: Crypto, key: Bytes, message: Bytes, signature: Bytes): Result<bool, Error> {
    if !c.isKey(key) then Failure(InvalidKey)
    else if |signature| != 64 then Failure(InvalidSignatureLength)
    else if !c.isSignature(signature) then Failure(InvalidSignature)
    else Success(c.verifies(key, message, signature))
  }

  function Digest(c: Crypto, nodeId: Uuid, clusterId: Uuid, key: Bytes, issuedAt: int, expiresAt: int): Bytes {
    c.sha256(CertificateData(nodeId, clusterId, key, issuedAt, expiresAt))
  }

  function Issue(m: Identity, nodeId: Uuid, key: Bytes, now: int): Certificate {
    Certificate(nodeId, m.clusterId, key, now, now + YEAR,
                m.crypto.sign(m.secret, Digest(m.crypto, nodeId, m.clusterId, key, now, now + YEAR)))
  }

  predicate Expired(p: PendingChallenge, now: int) {
    now - p.timestamp > p.expiresInSeconds
  }

  /** The answer to a response whose challenge was found. */
  function Judge(m: Identity, p: PendingChallenge, r: Response, key: Bytes, checkedAt: int, issuedAt: int)
    : Result<Certificate, Error>
  {
    if Expired(p, checkedAt) then Failure(ChallengeExpired)
    else
      var valid :- CheckSignature(m.crypto, key, p.challenge, r.signature);
      if valid then Success(Issue(m, r.nodeId, key, issuedAt)) else Failure(SignatureMismatch)
  }

  function GenerateId(e: Call): string
    requires e.Generate?
  {
    ChallengeId(e.nodeId, e.challenge[..8])
  }

  function ResponseId(r: Response): string
    requires |r.challengeResponse| >= 8
  {
    ChallengeId(r.nodeId, r.challengeResponse[..8])
  }

  function Step(m: Identity, s: State, e: Call): (State, Reply) {
    match e
    case Generate(nodeId, challenge, at) =>
      (s.(pending := s.pending[GenerateId(e) := PendingChallenge(challenge, at, LIFETIME)]),
       Challenged(nodeId, challenge))
    case Verify(r, key, checkedAt, issuedAt) =>
      if |r.challengeResponse| < 8 then (s, Verified(Failure(ResponseTooShort)))
      else if ResponseId(r) !in s.pending then (s, Verified(Failure(ChallengeNotFound)))
      else
        var result := Judge(m, s.pending[ResponseId(r)], r, key, checkedAt, issuedAt);
        var nodeKeys :=
          if result.Success? then s.nodeKeys[r.nodeId := NodeKeyPair(r.nodeId, key, result.value)] else s.nodeKeys;
        (State(s.pending - {ResponseId(r)}, nodeKeys), Verified(result))
    case Revoke(n) => (s.(nodeKeys := s.nodeKeys - {n}), Done)
    case Cleanup(now) => (s.(pending := Unexpired(s.pending, now)), Done)
  }

  function Unexpired(pending: map<string, PendingChallenge>, now: int): map<string, PendingChallenge> {
    map id | id in pending && !Expired(pending[id], now) :: pending[id]
  }

  function CheckCertificate(c: Crypto, cert: Certificate, key: Bytes, now: int): Result<bool, Error> {
    if now > cert.expiresAt then Success(false)
    else
      CheckSignature(c, key, Digest(c, cert.nodeId, cert.clusterId, cert.publicKey, cert.issuedAt, cert.expiresAt),
                     cert.signature)
  }

  // ----- the manager -----

  class PairingManager {
    const identity: Identity
    var pending: map<string, PendingChallenge>
    var nodeKeys: map<Uuid, NodeKeyPair>

    function Contents(): State
      reads this
    {
      State(pending, nodeKeys)
    }

    constructor (clusterId: Uuid, secret: Bytes, crypto: Crypto)
      ensures identity == Identity(clusterId, secret, crypto) && Contents() == Empty
    {
      identity := Identity(clusterId, secret, crypto);
      pending, nodeKeys := map[], map[];
    }

    method GenerateChallenge(nodeId: Uuid, challenge: Challenge, now: int) returns (reply: Reply)
      modifies this
      ensures (Contents(), reply) == Step(identity, old(Contents()), Generate(nodeId, challenge, now))
    {
      var challengeId := ChallengeId(nodeId, challenge[..8]);
      pending := pending[challengeId := PendingChallenge(challenge, now, LIFETIME)];
      reply := Challenged(nodeId, challenge);
    }

    /** `checkedAt` and `issuedAt` are the two readings of the clock. */
    method VerifyResponse(response: Response, publicKey: Bytes, checkedAt: int, issuedAt: int)
      returns (r: Result<Certificate, Error>)
      modifies this
      ensures (Contents(), Verified(r))
              == Step(identity, old(Contents()), Verify(response, publicKey, checkedAt, issuedAt))
    {
      if |response.challengeResponse| < 8 {
        return Failure(ResponseTooShort);
      }
      var challengeId := ChallengeId(response.nodeId, response.challengeResponse[..8]);
      if challengeId !in pending {
        return Failure(ChallengeNotFound);
      }
      var found := pending[challengeId];
      pending := pending - {challengeId};
      var elapsed := checkedAt - found.timestamp;
      if elapsed > found.expiresInSeconds {
        return Failure(ChallengeExpired);
      }
      var valid :- CheckSignature(identity.crypto, publicKey, found.challenge, response.signature);
      if !valid {
        return Failure(SignatureMismatch);
      }
      var expires := issuedAt + YEAR;
      var data := CertificateData(response.nodeId, identity.clusterId, publicKey, issuedAt, expires);
      var signature := identity.crypto.sign(identity.secret, identity.crypto.sha256(data));
      var certificate := Certificate(response.nodeId, identity.clusterId, publicKey, issuedAt, expires, signature);
      nodeKeys := nodeKeys[response.nodeId := NodeKeyPair(response.nodeId, publicKey, certificate)];
      return Success(certificate);
    }

    method VerifyCertificate(certificate: Certificate, coordinatorKey: Bytes, now: int) returns (r: Result<bool, Error>)
      ensures r == CheckCertificate(identity.crypto, certificate, coordinatorKey, now)
    {
      if now > certificate.expiresAt {
        return Success(false);
      }
      var data := CertificateData(certificate.nodeId, certificate.clusterId, certificate.publicKey,
                                  certificate.issuedAt, certificate.expiresAt);
      r := CheckSignature(identity.crypto, coordinatorKey, identity.crypto.sha256(data), certificate.signature);
    }

    method RevokeNode(nodeId: Uuid)
      modifies this
      ensures Contents() == Step(identity, old(Contents()), Revoke(nodeId)).0
    {
      nodeKeys := nodeKeys - {nodeId};
    }

    method CleanupExpiredChallenges(now: int)
      modifies this
      ensures Contents() == Step(identity, old(Contents()), Cleanup(now)).0
    {
      pending := map id | id in pending && now - pending[id].timestamp <= pending[id].expiresInSeconds :: pending[id];
    }
  }
}
