/** What holds over whole runs of the pairing manager. */
module PairingProofs {
  import opened Wrappers
  import opened Integers
  import opened CertificateText
  import opened Pairing

  // ----- runs -----

  function After(m: Identity, s: State, es: seq<Call>): State {
    if es == [] then s else Step(m, After(m, s, es[..|es| - 1]), es[|es| - 1]).0
  }

  /** The reply to call `i` of a run. */
  function ReplyTo(m: Identity, s: State, es: seq<Call>, i: nat): Reply
    requires i < |es|
  {
    Step(m, After(m, s, es[..i]), es[i]).1
  }

  function Starts(e: Call, clock: int): int {
    match e
    case Generate(_, _, at) => at
    case Verify(_, _, checkedAt, _) => checkedAt
    case Revoke(_) => clock
    case Cleanup(at) => at
  }

  function Ends(e: Call, clock: int): int {
    match e
    case Verify(_, _, _, issuedAt) => issuedAt
    case _ => Starts(e, clock)
  }

  /** The last reading of the clock. */
  function Clock(es: seq<Call>, start: int): int {
    if es == [] then start else Ends(es[|es| - 1], Clock(es[..|es| - 1], start))
  }

  /** The clock never goes back. */
  predicate Monotone(es: seq<Call>, start: int) {
    es == [] ||
    var front, last := es[..|es| - 1], es[|es| - 1];
    && Monotone(front, start)
    && Clock(front, start) <= Starts(last, Clock(front, start)) <= Ends(last, Clock(front, start))
  }

  // ----- cleaning up changes nothing anyone can see -----

  function WithoutCleanups(es: seq<Call>): seq<Call> {
    if es == [] then []
    else
      var front := WithoutCleanups(es[..|es| - 1]);
      if es[|es| - 1].Cleanup? then front else front + [es[|es| - 1]]
  }

  /** The replies to all calls other than cleanups. */
  function Replies(m: Identity, s: State, es: seq<Call>): seq<Reply> {
    if es == [] then []
    else
      var front := es[..|es| - 1];
      if es[|es| - 1].Cleanup? then Replies(m, s, front)
      else Replies(m, s, front) + [Step(m, After(m, s, front), es[|es| - 1]).1]
  }

  /** Equal, except that a challenge past its time may also have been forgotten. */
  predicate SameReply(a: Reply, b: Reply) {
    || a == b
    || (a == Verified(Failure(ChallengeNotFound)) && b == Verified(Failure(ChallengeExpired)))
  }

  /** `cleaned` is `full` without some challenges, all of them past their time. */
  ghost predicate Simulates(cleaned: State, full: State, now: int) {
    && cleaned.nodeKeys == full.nodeKeys
    && (forall id :: id in cleaned.pending ==> id in full.pending && cleaned.pending[id] == full.pending[id])
    && (forall id :: id in full.pending && id !in cleaned.pending ==> Expired(full.pending[id], now))
  }

  lemma StepSimulates(m: Identity, cleaned: State, full: State, e: Call, clock: int)
    requires Simulates(cleaned, full, clock) && clock <= Starts(e, clock) <= Ends(e, clock)
    ensures e.Cleanup? ==> Simulates(Step(m, cleaned, e).0, full, Ends(e, clock))
    ensures !e.Cleanup? ==>
              && Simulates(Step(m, cleaned, e).0, Step(m, full, e).0, Ends(e, clock))
              && SameReply(Step(m, cleaned, e).1, Step(m, full, e).1)
  {
    hide ChallengeId, CheckSignature, Issue;
  }

  ghost predicate SameReplies(a: seq<Reply>, b: seq<Reply>) {
    |a| == |b| && forall i :: 0 <= i < |a| ==> SameReply(a[i], b[i])
  }

  lemma OneMoreReply(a: seq<Reply>, b: seq<Reply>, r: Reply, r': Reply)
    requires SameReplies(a, b) && SameReply(r, r')
    ensures SameReplies(a + [r], b + [r'])
  {
  }

  lemma RunOne(m: Identity, s: State, es: seq<Call>, e: Call)
    ensures After(m, s, es + [e]) == Step(m, After(m, s, es), e).0
    ensures Replies(m, s, es + [e])
            == Replies(m, s, es) + if e.Cleanup? then [] else [Step(m, After(m, s, es), e).1]
    ensures WithoutCleanups(es + [e]) == WithoutCleanups(es) + if e.Cleanup? then [] else [e]
  {
    hide Step;
    assert (es + [e])[..|es|] == es;
  }

  lemma SimulatesItself(s: State, now: int)
    ensures Simulates(s, s, now)
  {
  }

  lemma SameKeys(cleaned: State, full: State, now: int)
    requires Simulates(cleaned, full, now)
    ensures cleaned.nodeKeys == full.nodeKeys
  {
  }

  /**
   With a clock that never goes back, a run and the same run without its cleanups give the
   same replies, up to which of the two errors an overdue challenge gets, and store the same
   certificates.
   */
  lemma {:induction false} CleanupIsTransparent(m: Identity, s: State, es: seq<Call>, start: int)
    requires Monotone(es, start)
    ensures After(m, s, es).nodeKeys == After(m, s, WithoutCleanups(es)).nodeKeys
    ensures SameReplies(Replies(m, s, es), Replies(m, s, WithoutCleanups(es)))
    ensures Simulates(After(m, s, es), After(m, s, WithoutCleanups(es)), Clock(es, start))
  {
    hide Step, Simulates, SameReply, SameReplies;
    if es == [] {
      SimulatesItself(s, start);
      NoReplies();
    } else {
      var front, e := es[..|es| - 1], es[|es| - 1];
      assert es == front + [e];
      CleanupIsTransparent(m, s, front, start);
      CleanupStep(m, s, front, e, Clock(front, start));
    }
    SameKeys(After(m, s, es), After(m, s, WithoutCleanups(es)), Clock(es, start));
  }

  lemma NoReplies()
    ensures SameReplies([], [])
  {
  }

  lemma CleanupStep(m: Identity, s: State, front: seq<Call>, e: Call, clock: int)
    requires Simulates(After(m, s, front), After(m, s, WithoutCleanups(front)), clock)
    requires SameReplies(Replies(m, s, front), Replies(m, s, WithoutCleanups(front)))
    requires clock <= Starts(e, clock) <= Ends(e, clock)
    ensures var es := front + [e];
            && Simulates(After(m, s, es), After(m, s, WithoutCleanups(es)), Ends(e, clock))
            && SameReplies(Replies(m, s, es), Replies(m, s, WithoutCleanups(es)))
  {
    hide Step, Simulates, SameReply, SameReplies, After, Replies, WithoutCleanups, Starts, Ends;
    var without := WithoutCleanups(front);
    RunOne(m, s, front, e);
    StepSimulates(m, After(m, s, front), After(m, s, without), e, clock);
    if e.Cleanup? {
      assert Replies(m, s, front) + [] == Replies(m, s, front) && without + [] == without;
    } else {
      RunOne(m, s, without, e);
      OneMoreReply(Replies(m, s, front), Replies(m, s, without),
                   Step(m, After(m, s, front), e).1, Step(m, After(m, s, without), e).1);
    }
  }

  // ----- where a pending challenge comes from -----

  /** The call generates challenge `id`, or uses it up. */
  predicate Touches(e: Call, id: string) {
    || (e.Generate? && GenerateId(e) == id)
    || (e.Verify? && |e.response.challengeResponse| >= 8 && ResponseId(e.response) == id)
  }

  /** Call `g` generated challenge `id`, and nothing touched it since. */
  ghost predicate Origin(es: seq<Call>, g: nat, id: string, p: PendingChallenge) {
    && g < |es| && es[g].Generate? && GenerateId(es[g]) == id
    && p == PendingChallenge(es[g].challenge, es[g].at, LIFETIME)
    && forall j :: g < j < |es| ==> !Touches(es[j], id)
  }

  lemma StepKeepsPending(m: Identity, s: State, e: Call, id: string)
    requires id in Step(m, s, e).0.pending
    ensures || (e.Generate? && GenerateId(e) == id
                && Step(m, s, e).0.pending[id] == PendingChallenge(e.challenge, e.at, LIFETIME))
            || (!Touches(e, id) && id in s.pending && Step(m, s, e).0.pending[id] == s.pending[id])
  {
    hide ChallengeId, CheckSignature, Issue;
  }

  lemma {:induction false} PendingHasAnOrigin(m: Identity, es: seq<Call>, id: string) returns (g: nat)
    requires id in After(m, Empty, es).pending
    ensures Origin(es, g, id, After(m, Empty, es).pending[id])
  {
    hide Step, ChallengeId;
    var front, e := es[..|es| - 1], es[|es| - 1];
    StepKeepsPending(m, After(m, Empty, front), e, id);
    if e.Generate? && GenerateId(e) == id {
      g := |front|;
    } else {
      g := PendingHasAnOrigin(m, front, id);
    }
  }

  /** Call `j` is a response to challenge `id`, which is pending then. */
  ghost predicate Hits(m: Identity, es: seq<Call>, j: nat, id: string) {
    && j < |es| && es[j].Verify? && |es[j].response.challengeResponse| >= 8
    && ResponseId(es[j].response) == id && id in After(m, Empty, es[..j]).pending
  }

  /** A challenge is used up by the first response to it, successful or not. */
  lemma ChallengesAreSingleUse(m: Identity, es: seq<Call>, i: nat, j: nat, id: string)
    requires i < j && Hits(m, es, i, id) && Hits(m, es, j, id)
    ensures exists g :: i < g < j && es[g].Generate? && GenerateId(es[g]) == id
  {
    hide After, ChallengeId;
    var g := PendingHasAnOrigin(m, es[..j], id);
    assert es[..j][g] == es[g];
    assert es[..j][i] == es[i] && Touches(es[i], id);
    assert i < g < j && es[g].Generate? && GenerateId(es[g]) == id;
  }

  // ----- where a certificate comes from -----

  predicate IsCertificate(r: Reply) {
    r.Verified? && r.result.Success?
  }

  /** Call `j` is answered with a certificate for node `n`. */
  ghost predicate Certifies(m: Identity, es: seq<Call>, j: nat, n: Uuid) {
    j < |es| && es[j].Verify? && es[j].response.nodeId == n && IsCertificate(ReplyTo(m, Empty, es, j))
  }

  /** Call `g` generated, for node `n`, the challenge that call `j` answered in time and with its signature. */
  ghost predicate Answers(m: Identity, es: seq<Call>, g: nat, j: nat, n: Uuid) {
    && g < j < |es| && es[g].Generate? && es[j].Verify? && es[g].nodeId == n
    && |es[j].response.challengeResponse| >= 8 && es[j].response.challengeResponse[..8] == es[g].challenge[..8]
    && es[j].checkedAt - es[g].at <= LIFETIME
    && CheckSignature(m.crypto, es[j].publicKey, es[g].challenge, es[j].response.signature) == Success(true)
    && (forall l :: g < l < j ==> !Touches(es[l], GenerateId(es[g])))
  }

  lemma SuccessIs(m: Identity, s: State, e: Call)
    requires e.Verify? && IsCertificate(Step(m, s, e).1)
    ensures |e.response.challengeResponse| >= 8 && ResponseId(e.response) in s.pending
    ensures var p := s.pending[ResponseId(e.response)];
            && !Expired(p, e.checkedAt)
            && CheckSignature(m.crypto, e.publicKey, p.challenge, e.response.signature) == Success(true)
    ensures Step(m, s, e).1.result.value == Issue(m, e.response.nodeId, e.publicKey, e.issuedAt)
  {
  }

  /** Whoever gets a certificate answered a fresh challenge that was generated for its node id. */
  lemma CertificatesAnswerChallenges(m: Identity, es: seq<Call>, j: nat, n: Uuid) returns (g: nat)
    requires Certifies(m, es, j, n)
    ensures Answers(m, es, g, j, n) && Hits(m, es, j, GenerateId(es[g]))
  {
    var e := es[j];
    SuccessIs(m, After(m, Empty, es[..j]), e);
    var id := ResponseId(e.response);
    g := PendingHasAnOrigin(m, es[..j], id);
    assert es[..j][g] == es[g];
    ChallengeIdIsInjective(es[g].nodeId, es[g].challenge[..8], n, e.response.challengeResponse[..8]);
    forall l | g < l < j ensures !Touches(es[l], id) {
      assert es[..j][l] == es[l];
    }
  }

  lemma StepKeepsKeys(m: Identity, s: State, e: Call, n: Uuid)
    requires n in Step(m, s, e).0.nodeKeys
    ensures if e.Verify? && e.response.nodeId == n && IsCertificate(Step(m, s, e).1) then
              Step(m, s, e).0.nodeKeys[n] == NodeKeyPair(n, e.publicKey, Step(m, s, e).1.result.value)
            else
              e != Revoke(n) && n in s.nodeKeys && Step(m, s, e).0.nodeKeys[n] == s.nodeKeys[n]
  {
    hide ChallengeId, CheckSignature, Issue, Judge;
  }

  /** Every stored certificate was issued by some call, and the node was not revoked since. */
  lemma {:induction false} StoredCertificatesWereIssued(m: Identity, es: seq<Call>, n: Uuid) returns (j: nat)
    requires n in After(m, Empty, es).nodeKeys
    ensures Certifies(m, es, j, n)
    ensures After(m, Empty, es).nodeKeys[n]
            == NodeKeyPair(n, es[j].publicKey, Issue(m, n, es[j].publicKey, es[j].issuedAt))
    ensures forall l :: j < l < |es| ==> es[l] != Revoke(n)
  {
    hide Step, Issue;
    var front, e := es[..|es| - 1], es[|es| - 1];
    StepKeepsKeys(m, After(m, Empty, front), e, n);
    if e.Verify? && e.response.nodeId == n && IsCertificate(Step(m, After(m, Empty, front), e).1) {
      SuccessIs(m, After(m, Empty, front), e);
      j := |front|;
    } else {
      j := StoredCertificatesWereIssued(m, front, n);
      assert es[..j] == front[..j] && es[j] == front[j];
    }
  }

  // ----- revocation -----

  /** No node id is handed out twice (they are random 122-bit numbers). */
  ghost predicate FreshIds(es: seq<Call>) {
    forall i, j :: 0 <= i < j < |es| && es[i].Generate? && es[j].Generate? ==> es[i].nodeId != es[j].nodeId
  }

  /** With fresh ids, a node is certified at most once. */
  lemma CertifiedOnce(m: Identity, es: seq<Call>, i: nat, j: nat, n: Uuid)
    requires FreshIds(es) && Certifies(m, es, i, n) && Certifies(m, es, j, n)
    ensures i == j
  {
    var g := CertificatesAnswerChallenges(m, es, i, n);
    var h := CertificatesAnswerChallenges(m, es, j, n);
    assert g == h;
    var id := GenerateId(es[g]);
    if i < j {
      ChallengesAreSingleUse(m, es, i, j, id);
    } else if j < i {
      ChallengesAreSingleUse(m, es, j, i, id);
    }
  }

  lemma CertifiesInPrefix(m: Identity, es: seq<Call>, k: nat, j: nat, n: Uuid)
    requires j < k <= |es|
    ensures Certifies(m, es[..k], j, n) <==> Certifies(m, es, j, n)
  {
    assert es[..k][..j] == es[..j];
  }

  /** With fresh ids, a registered node that is revoked is never registered again. */
  lemma RevocationIsPermanent(m: Identity, es: seq<Call>, i: nat, k: nat, n: Uuid)
    requires FreshIds(es) && i < k <= |es|
    requires n in After(m, Empty, es[..i]).nodeKeys && es[i] == Revoke(n)
    ensures n !in After(m, Empty, es[..k]).nodeKeys
  {
    assert es[..k][i] == Revoke(n);
    if n in After(m, Empty, es[..k]).nodeKeys {
      var a := StoredCertificatesWereIssued(m, es[..i], n);
      var b := StoredCertificatesWereIssued(m, es[..k], n);
      CertifiesInPrefix(m, es, i, a, n);
      CertifiesInPrefix(m, es, k, b, n);
      CertifiedOnce(m, es, a, b, n);
      assert false;
    }
  }

  // ----- certificates -----

  /** The certificate a response earns is accepted up to its last second, a year later, and never after. */
  lemma IssuedCertificateAcceptedIff(m: Identity, s: State, e: Call, now: int)
    requires Genuine(m.crypto) && e.Verify? && IsCertificate(Step(m, s, e).1)
    ensures var cert := Step(m, s, e).1.result.value;
            && cert.expiresAt == e.issuedAt + YEAR
            && CheckCertificate(m.crypto, cert, m.crypto.publicKey(m.secret), now) == Success(now <= cert.expiresAt)
  {
    SuccessIs(m, s, e);
  }

  // ----- an honest node -----

  lemma StepKeepsChallenge(m: Identity, s: State, e: Call, id: string)
    requires id in s.pending && !Touches(e, id)
    requires e.Cleanup? ==> !Expired(s.pending[id], e.cleanedAt)
    ensures id in Step(m, s, e).0.pending && Step(m, s, e).0.pending[id] == s.pending[id]
  {
    hide ChallengeId, CheckSignature, Issue;
  }

  /** A challenge that nobody answers stays pending until it is overdue. */
  lemma {:induction false} ChallengeStaysPending(m: Identity, s: State, es: seq<Call>, id: string,
                                                start: int, until: int)
    requires Monotone(es, start) && Clock(es, start) <= until
    requires id in s.pending && !Expired(s.pending[id], until) && forall i :: 0 <= i < |es| ==> !Touches(es[i], id)
    ensures id in After(m, s, es).pending && After(m, s, es).pending[id] == s.pending[id]
  {
    if es != [] {
      var front, e := es[..|es| - 1], es[|es| - 1];
      ChallengeStaysPending(m, s, front, id, start, until);
      StepKeepsChallenge(m, After(m, s, front), e, id);
    }
  }

  /** And as long as it is pending it is the same. */
  lemma {:induction false} UntouchedIsUnchanged(m: Identity, s: State, es: seq<Call>, id: string)
    requires id in s.pending && forall i :: 0 <= i < |es| ==> !Touches(es[i], id)
    ensures id in After(m, s, es).pending ==> After(m, s, es).pending[id] == s.pending[id]
  {
    if es != [] {
      var front, e := es[..|es| - 1], es[|es| - 1];
      UntouchedIsUnchanged(m, s, front, id);
      if id in After(m, s, es).pending {
        StepKeepsPending(m, After(m, s, front), e, id);
      }
    }
  }

  /** The response of a node that signs the challenge it was sent. */
  function Honest(m: Identity, g: Call, secret: Bytes): Response
    requires g.Generate?
  {
    Response(g.nodeId, g.challenge, m.crypto.sign(secret, g.challenge))
  }

  lemma HonestAnswerIs(m: Identity, s: State, g: Call, secret: Bytes, checkedAt: int, issuedAt: int)
    requires Genuine(m.crypto) && g.Generate?
    requires GenerateId(g) in s.pending ==> s.pending[GenerateId(g)] == PendingChallenge(g.challenge, g.at, LIFETIME)
    requires checkedAt - g.at <= LIFETIME ==> GenerateId(g) in s.pending
    ensures var key := m.crypto.publicKey(secret);
            var reply := Step(m, s, Verify(Honest(m, g, secret), key, checkedAt, issuedAt)).1;
            && (checkedAt - g.at <= LIFETIME ==> reply == Verified(Success(Issue(m, g.nodeId, key, issuedAt))))
            && (checkedAt - g.at > LIFETIME ==> !IsCertificate(reply))
  {
    hide ChallengeId, Issue;
  }

  /**
   A node that signs its challenge is certified if and only if its response is looked at
   within 300 seconds, whatever other calls come in between: challenges for and responses of
   other nodes, revocations, and cleanups under a clock that never goes back.
   */
  lemma HonestNodeIsCertified(m: Identity, s: State, g: Call, between: seq<Call>,
                              secret: Bytes, checkedAt: int, issuedAt: int)
    requires Genuine(m.crypto) && g.Generate?
    requires forall i :: 0 <= i < |between| ==> !Touches(between[i], GenerateId(g))
    requires Monotone(between, g.at) && Clock(between, g.at) <= checkedAt
    ensures var key := m.crypto.publicKey(secret);
            var reply := Step(m, After(m, Step(m, s, g).0, between),
                              Verify(Honest(m, g, secret), key, checkedAt, issuedAt)).1;
            && (IsCertificate(reply) <==> checkedAt - g.at <= LIFETIME)
            && (IsCertificate(reply) ==> reply.result.value == Issue(m, g.nodeId, key, issuedAt))
  {
    hide Step, Issue, ChallengeId;
    var id := GenerateId(g);
    GeneratedIs(m, s, g);
    UntouchedIsUnchanged(m, Step(m, s, g).0, between, id);
    if checkedAt - g.at <= LIFETIME {
      ChallengeStaysPending(m, Step(m, s, g).0, between, id, g.at, checkedAt);
    }
    HonestAnswerIs(m, After(m, Step(m, s, g).0, between), g, secret, checkedAt, issuedAt);
  }

  lemma GeneratedIs(m: Identity, s: State, g: Call)
    requires g.Generate?
    ensures GenerateId(g) in Step(m, s, g).0.pending
    ensures Step(m, s, g).0.pending[GenerateId(g)] == PendingChallenge(g.challenge, g.at, LIFETIME)
  {
    hide ChallengeId;
  }

  // ----- certificates that were not issued -----

  function TextOf(cert: Certificate): string {
    CertificateData(cert.nodeId, cert.clusterId, cert.publicKey, cert.issuedAt, cert.expiresAt)
  }

  /**
   What the hash and the signatures are relied on for, among the texts at hand: different
   texts have different hashes, and the coordinator's signature of one hash does not verify
   for another. (Among all texts this cannot hold, as hashes and signatures have fixed sizes.)
   */
  ghost predicate TellsApart(c: Crypto, secret: Bytes, texts: set<string>) {
    forall a, b :: a in texts && b in texts && a != b ==>
      && c.sha256(a) != c.sha256(b)
      && !c.verifies(c.publicKey(secret), c.sha256(a), c.sign(secret, c.sha256(b)))
  }

  /** The certificate that call `j` issued. */
  function Issued(m: Identity, es: seq<Call>, j: nat): Certificate
    requires j < |es| && IsCertificate(ReplyTo(m, Empty, es, j))
  {
    ReplyTo(m, Empty, es, j).result.value
  }

  lemma IssuedIs(m: Identity, es: seq<Call>, j: nat)
    requires j < |es| && IsCertificate(ReplyTo(m, Empty, es, j))
    ensures es[j].Verify? && Issued(m, es, j) == Issue(m, es[j].response.nodeId, es[j].publicKey, es[j].issuedAt)
    ensures Issued(m, es, j).signature == m.crypto.sign(m.secret, m.crypto.sha256(TextOf(Issued(m, es, j))))
  {
    hide CertificateData, ChallengeId;
    SuccessIs(m, After(m, Empty, es[..j]), es[j]);
  }

  /** What is checked is the hash of the certificate's text. */
  lemma CheckedDigestIs(c: Crypto, cert: Certificate)
    ensures Digest(c, cert.nodeId, cert.clusterId, cert.publicKey, cert.issuedAt, cert.expiresAt)
            == c.sha256(TextOf(cert))
  {
  }

  /**
   A certificate that carries a signature the coordinator made for a certificate of the run
   is accepted if and only if it is that certificate, in every field, and has not expired.
   */
  lemma AcceptedCertificatesWereIssued(m: Identity, es: seq<Call>, j: nat, cert: Certificate, now: int)
    requires Genuine(m.crypto) && j < |es| && IsCertificate(ReplyTo(m, Empty, es, j))
    requires cert.signature == Issued(m, es, j).signature
    requires TellsApart(m.crypto, m.secret, {TextOf(cert), TextOf(Issued(m, es, j))})
    ensures CheckCertificate(m.crypto, cert, m.crypto.publicKey(m.secret), now)
            == Success(cert == Issued(m, es, j) && now <= cert.expiresAt)
  {
    hide CertificateData, ReplyTo;
    var issued := Issued(m, es, j);
    IssuedIs(m, es, j);
    CheckedDigestIs(m.crypto, cert);
    if TextOf(cert) == TextOf(issued) {
      CertificateDataIsInjective(cert.nodeId, cert.clusterId, cert.publicKey, cert.issuedAt, cert.expiresAt,
                                 issued.nodeId, issued.clusterId, issued.publicKey, issued.issuedAt, issued.expiresAt);
    }
  }

  // ----- the assumptions are met by some run -----

  /** A crypto for which `text` and every other text are told apart. */
  function Example(text: string): Crypto {
    var sign := (secret: Bytes, digest: Bytes) => seq(64, _ => if digest == [0] then 0 else 1);
    Crypto(_ => true, _ => true, (key, digest, signature) => signature == sign(key, digest), sign, secret => secret,
           t => if t == text then [0] else [1])
  }

  lemma ExampleIsGenuine(text: string, other: string, secret: Bytes)
    ensures Genuine(Example(text)) && TellsApart(Example(text), secret, {text, other})
  {
    var c := Example(text);
    assert c.sign(secret, [0])[0] == 0 && c.sign(secret, [1])[0] == 1;
  }

  /**
   Whatever certificate is made up, there is a run with genuine signatures that issues the
   certificate `fields` and meets all assumptions for the made-up one; so none of them
   contradicts the others.
   */
  lemma SomeRunMeetsTheAssumptions(clusterId: Uuid, secret: Bytes, key: Bytes, nodeId: Uuid, challenge: Challenge,
                                   at: int, madeUp: Certificate)
    returns (m: Identity, es: seq<Call>, cert: Certificate)
    ensures Genuine(m.crypto) && m.clusterId == clusterId && m.secret == secret
    ensures |es| == 2 && IsCertificate(ReplyTo(m, Empty, es, 1))
    ensures Issued(m, es, 1).nodeId == nodeId && Issued(m, es, 1).publicKey == key && Issued(m, es, 1).issuedAt == at
    ensures cert == madeUp.(signature := Issued(m, es, 1).signature)
    ensures TellsApart(m.crypto, m.secret, {TextOf(cert), TextOf(Issued(m, es, 1))})
  {
    hide CertificateData, ChallengeId;
    var text := CertificateData(nodeId, clusterId, key, at, at + YEAR);
    m := Identity(clusterId, secret, Example(text));
    ExampleIsGenuine(text, TextOf(madeUp), secret);
    var g := Generate(nodeId, challenge, at);
    es := [g, Verify(Honest(m, g, key), key, at, at)];
    assert es[..1] == [g] && es[..0] == [] && [g][..0] == [];
    assert After(m, Empty, [g]) == Step(m, Empty, g).0;
    HonestNodeIsCertified(m, Empty, g, [], key, at, at);
    cert := madeUp.(signature := Issued(m, es, 1).signature);
    IssuedIs(m, es, 1);
    assert TextOf(Issued(m, es, 1)) == text && TextOf(cert) == TextOf(madeUp);
  }
}
