/** A concrete run of ten records: a publication that is fenced, suspended, resumed, suspended again, recovered and committed. */
module LifecycleExample {
  import opened Prelude
  import opened Matching
  import opened Evidence
  import opened OneTime
  import opened ForeignPoints
  import opened Lifecycle
  import opened Replay
  import opened Acceptance
  import opened AcceptedRuns
  import opened Overspending
  import opened SpellingExample

  function Decision1(): Sealed<Decision> {
    Published(1, 'a', ZULU)
  }

  function Intent2(): Sealed<Intent> {
    Sealed(2, Digest('b'), Intent(Some(PublishOperation('a')), 1))
  }

  function Fence3(): Sealed<Fence> {
    Sealed(3, Digest('c'), Fence(PublishOperation('a'), Digest('a'), Digest('b'), Some("dispatch"), OnlyDispatch()))
  }

  /** The transport of the fence; every hash is the one that the trusting configuration computes. */
  function Carried(): Transport {
    Transport(
      operation := PublishOperation('a'), at := NEW_YEAR, decisionHash := Digest('a'), intentHash := Digest('b'),
      token := "dispatch", claims := OnlyDispatch(), foreignDispatchHash := Digest('0'), descriptorHash := Digest('0'),
      operationHash := Digest('0'), body := "body", bodyHash := Digest('0'), ack := "ack")
  }

  function AuthenticatedAs(c: char, kind: AuthenticationKind, resume: Option<ResumeRequest>): Authentication {
    var o := PublishOperation('a');
    Authentication(
      operation := Some(o), at := NEW_YEAR, kind := kind, actorId := Some("agent"), requestHash := Digest(c), resume := resume,
      proof := Proof(ZULU, Digest(c, 32)), identifiers := [NonceOf(c)],
      context := AuthenticationContext(o.domainId, o.ledgerId, o.pointId, o.actorFingerprint, Digest(c), "claims.signature"))
  }

  function NonceOf(c: char): Fact {
    Fact(Name(ActorNonce, NonceText(LEDGER, Digest('f'), Digest(c, 32))), NEW_YEAR + 1000000 * PROOF_AGE_SECONDS)
  }

  function Asks(): ResumeRequest {
    ResumeRequest(PublishOperation('a').operationId, PublishOperation('a').requestHash, "ack", "context", "approval")
  }

  function Between(): Detour {
    Detour(
      p := Sealed(4, Digest('d'), Carried()),
      a := Sealed(5, Digest('e'), AuthenticatedAs('b', CounterpartyResume, Some(Asks()))),
      r := Sealed(6, Digest('f'), Resume(Carried(), Digest('d'), Digest('1'), Digest('2'), Digest('0'), Digest('e'))),
      q := Sealed(7, Digest('1'), Carried()),
      b := Sealed(8, Digest('2'), AuthenticatedAs('c', ReconciliationKind, None)),
      v := Sealed(9, Digest('3'), Recovery(PublishOperation('a'), NEW_YEAR, Digest('a'), Digest('b'), Digest('2'), "query", "outcome")))
  }

  function Settlement10(): Sealed<Settlement> {
    Sealed(10, Digest('4'), Settlement(PublishOperation('a'), Digest('a'), Some(Digest('b')), Commit, ResourceReceipt, Some("outcome")))
  }

  lemma DecisionIsFirst()
    ensures IsFirstAuthorization(Trusting(), Decision1())
  {
    hide NextDecision, IsAuthorization, Trusting;
    PublicationIsAccepted(1, 'a', ZULU);
    AuthorizationIsAcceptedExactly(Trusting(), START, Decision1());
  }

  lemma DecisionIsAdmitted()
    ensures AdmittedAs(Trusting(), Decision1().value, OnlyAdmission())
  {
    hide Digest, NonceText, PublishCall, PublishOperation, OnlyDispatch;
  }

  lemma IntentAndFence()
    ensures IsIntentOf(Decision1(), Intent2()) && IsDispatchOf(Trusting(), Decision1(), Intent2(), Fence3())
  {
    DigestIsDigest('b', 64);
    hide Digest, NonceText, PublishCall;
  }

  lemma TransportIsCarried(state: AckState, resume: Option<ResumeExpectation>)
    ensures IsTransportOf(Trusting(), Decision1(), Fence3(), Carried(), state, resume)
  {
    DecisionIsAdmitted();
    hide AdmittedAs, Digest, NonceText, PublishCall, PublishOperation;
    assert Trusting().clock(TOMORROW) == Some(NEW_YEAR + 1000 * DAY_MS);
  }

  lemma ActorAuthenticates(seqNo: nat, hash: string, c: char, kind: AuthenticationKind, resume: Option<ResumeRequest>)
    requires seqNo > 1
    ensures IsAuthenticatedBy(Trusting(), Decision1(), Sealed(seqNo, hash, AuthenticatedAs(c, kind, resume)), kind)
  {
    DecisionIsAdmitted();
    hide AdmittedAs, Digest, NonceText, PublishCall, OnlyDispatch;
    var a := AuthenticatedAs(c, kind, resume);
    assert ProvesHolder(
      Trusting(), OnlyAdmission(), Holder("agent", a.proof, a.requestHash), LEDGER, NEW_YEAR, NonceOf(c), a.context.actorFingerprint);
  }

  lemma RequestIsAsked()
    ensures AsksToResume(Trusting(), Between().a.value, Between().r.value)
  {
    hide Digest, NonceText, OnlyDispatch, PublishOperation;
    assert "context" != "" && "approval" != "";
    assert Between().a.value.resume == Some(ResumeRequest(
      operationId := PublishOperation('a').operationId, originalRequestHash := PublishOperation('a').requestHash,
      ack := "ack", context := "context", approval := "approval"));
  }

  lemma ResumeIsAsked()
    ensures IsResumeOf(Trusting(), Decision1(), Fence3(), Between().p, Between().a, Between().r)
  {
    RequestIsAsked();
    TransportIsCarried(AwaitingApproval, Some(ResumeExpectation(Digest('0'), Digest('1'), Digest('2'))));
    hide Digest, NonceText, OnlyDispatch, PublishOperation, IsTransportOf, AsksToResume, Trusting, Published;
  }

  lemma PointIsAsked()
    ensures AsksThePoint(Trusting(), Fence3().value, Between().v.value)
    ensures AnswersFence(Trusting(), Decision1().value, Fence3().value, Between().v.value)
  {
    DecisionIsAdmitted();
    hide AdmittedAs, Digest, NonceText, OnlyDispatch, PublishOperation, PublishCall;
  }

  lemma RecoveryAnswers()
    ensures IsRecoveryOf(Trusting(), Decision1(), Fence3(), Between().b, Between().v)
  {
    PointIsAsked();
    hide AsksThePoint, AnswersFence, Digest, NonceText, OnlyDispatch, PublishCall;
  }

  lemma AcceptedInTheDay()
    ensures IsWithin(Trusting(), OnlyDispatch(), NEW_YEAR)
  {
    hide Digest, NonceText, PublishOperation, PublishCall;
    assert Trusting().clock(ZULU) == Some(NEW_YEAR) && Trusting().clock(TOMORROW) == Some(NEW_YEAR + 1000 * DAY_MS);
  }

  lemma OutcomeVerifies()
    ensures var outcome := Outcome(OutcomeCommitted, Some(NEW_YEAR), None, None, "");
      && Trusting().outcomeVerifies("outcome", "outcome key") == Some(outcome)
      && Trusting().outcomeJoins(outcome, OnlyDispatch())
      && Trusting().payload(Decision1().value, OnlyDispatch()) == Some(None)
      && Says(outcome, Commit, OnlyDispatch().profile, None)
  {
    hide Digest, NonceText, PublishOperation, Published;
  }

  lemma ReceiptVerifies()
    ensures Receipts(Trusting(), Decision1().value, Fence3().value, "outcome", Commit)
  {
    DecisionIsAdmitted();
    AcceptedInTheDay();
    OutcomeVerifies();
    DecisionNamesGit();
    hide AdmittedAs, IsWithin, Says, Trusting, Digest, NonceText, PublishOperation, PublishCall, OnlyDispatch, Published;
    assert OnlyAdmission().outcomeKey == Some("outcome key") && OnlyAdmission().adapter == Some("git");
  }

  lemma DecisionNamesGit()
    ensures Decision1().value.adapter == Some("git")
  {
    hide Digest, NonceText, PublishOperation, PublishCall;
  }

  lemma ReceiptIsGiven()
    ensures IsReceiptOf(Trusting(), Decision1(), Fence3(), Settlement10(), "outcome")
  {
    ReceiptVerifies();
    hide Receipts, Trusting, Digest, NonceText, PublishOperation, PublishCall;
    assert "outcome" != "";
  }

  lemma NamesDiffer()
    ensures UseDifferentNames(Decision1(), Between())
  {
    NoncesDiffer('a', 'b');
    NoncesDiffer('a', 'c');
    NoncesDiffer('b', 'c');
    hide NonceText, Digest;
    assert Between().a.value.identifiers == [NonceOf('b')] && Between().b.value.identifiers == [NonceOf('c')];
    assert Decision1().value.identifiers == [NonceOf('a')];
  }

  lemma DetourIsTaken()
    ensures IsDetourOf(Trusting(), Decision1(), Fence3(), Between())
  {
    TransportIsCarried(AwaitingReview, None);
    ActorAuthenticates(5, Digest('e'), 'b', CounterpartyResume, Some(Asks()));
    ActorAuthenticates(8, Digest('2'), 'c', ReconciliationKind, None);
    ResumeIsAsked();
    RecoveryAnswers();
    hide IsTransportOf, IsAuthenticatedBy, IsResumeOf, IsRecoveryOf, Trusting, Published, Digest, NonceText, AuthenticatedAs, Carried, Asks;
    hide PublishOperation;
  }

  /** The replay accepts all ten records, and commits the one push that the publication reserved. */
  lemma TenRecordsAreAccepted() returns (after: State)
    ensures var rs := DetouredRun(Decision1(), Intent2(), Fence3(), Between(), Settlement10());
      Accepts(Trusting(), rs) && Run(Trusting(), IntentsOf(rs), rs) == Some(after)
    ensures IsSettledIn(after, Decision1(), Commit)
  {
    DecisionIsFirst();
    IntentAndFence();
    DetourIsTaken();
    NamesDiffer();
    ReceiptIsGiven();
    hide IsFirstAuthorization, IsIntentOf, IsDispatchOf, IsDetourOf, UseDifferentNames, IsReceiptOf, IsSettledIn, Accepts, Run, DetouredRun;
    hide Trusting, Published, Digest, NonceText, PublishOperation;
    after := DetourIsSettled(Trusting(), Decision1(), Intent2(), Fence3(), Between(), Settlement10());
  }
}
