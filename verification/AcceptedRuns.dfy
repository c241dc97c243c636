/**
 Runs that the replay accepts from the first record to the last, for all evidence that verifies: a dispatch that is fenced and
 committed, and one that is suspended, resumed, suspended again, recovered and settled.
 */
module AcceptedRuns {
  import opened Prelude
  import opened Matching
  import opened Evidence
  import opened OneTime
  import opened ForeignPoints
  import opened Lifecycle
  import opened Replay
  import opened Conservation
  import opened Acceptance
  import Books

  // ---------- the evidence of one operation ----------

  ghost predicate IsFirstAuthorization(cfg: Config, e: Sealed<Decision>) {
    e.value.state == IsAuthorized && exists adm, served :: IsAuthorization(cfg, START, e, adm, served)
  }

  /** The intent of the decision, with a digest as its record hash. */
  predicate IsIntentOf(e: Sealed<Decision>, i: Sealed<Intent>) {
    && e.seqNo < i.seqNo && i.value == Intent(Some(e.value.operation), e.seqNo)
    && |i.hash| == 64 && forall c <- i.hash :: '0' <= c <= '9' || 'a' <= c <= 'f'
  }

  /** The signed dispatch of the decision and its intent. */
  ghost predicate IsDispatchOf(cfg: Config, e: Sealed<Decision>, i: Sealed<Intent>, f: Sealed<Fence>) {
    && i.seqNo < f.seqNo && f.value.operation == e.value.operation && f.value.decisionHash == e.hash && f.value.intentHash == i.hash
    && f.value.token != None && ClaimsRepeat(f.value.claims, e.value.operation)
    && f.value.claims.payloadHash == e.value.operation.payloadHash && cfg.payload(e.value, f.value.claims) != None
  }

  /** A settlement on a resource receipt for that dispatch. */
  ghost predicate IsReceiptOf(cfg: Config, e: Sealed<Decision>, f: Sealed<Fence>, t: Sealed<Settlement>, receipt: string) {
    && f.seqNo < t.seqNo && t.value.operation == e.value.operation && t.value.decisionHash == e.hash
    && t.value.intentHash == Some(f.value.intentHash) && t.value.basis == ResourceReceipt
    && t.value.outcome == Some(receipt) && receipt != "" && Receipts(cfg, e.value, f.value, receipt, t.value.ending)
  }

  /** A transport of the fenced dispatch, with the hashes of what it carries and an acknowledgment. */
  ghost predicate IsTransportOf(
    cfg: Config, e: Sealed<Decision>, f: Sealed<Fence>, t: Transport, state: AckState, resume: Option<ResumeExpectation>)
  {
    && t.operation == e.value.operation && t.decisionHash == e.hash && t.intentHash == f.value.intentHash
    && Some(t.token) == f.value.token && t.claims == f.value.claims
    && StatesItsHashes(cfg, t) && Acknowledges(cfg, e.value, t, state, resume)
  }

  /** The actor of the decision authenticates a request for its operation, with a nonce of its own. */
  ghost predicate IsAuthenticatedBy(cfg: Config, e: Sealed<Decision>, a: Sealed<Authentication>, kind: AuthenticationKind) {
    var v, context, o := a.value, a.value.context, e.value.operation;
    && e.seqNo < a.seqNo && v.kind == kind && v.operation == Some(o) && v.requestHash == context.requestHash
    && (context.domainId, context.ledgerId, context.pointId) == (o.domainId, o.ledgerId, o.pointId)
    && context.actorFingerprint == o.actorFingerprint && e.value.admissionToken == Some(context.admissionToken)
    && exists adm, actor, f ::
      && AdmittedAs(cfg, e.value, adm) && adm.adapter == e.value.adapter && v.actorId == Some(actor)
      && ProvesHolder(cfg, adm, Holder(actor, v.proof, v.requestHash), cfg.ledgerId, v.at, f, context.actorFingerprint)
      && v.identifiers == [f]
  }

  /** The resume of a suspension, asked for by the authentication. */
  ghost predicate IsResumeOf(
    cfg: Config, e: Sealed<Decision>, f: Sealed<Fence>, p: Sealed<Transport>, a: Sealed<Authentication>, r: Sealed<Resume>)
  {
    && p.seqNo < r.seqNo && a.seqNo < r.seqNo && r.value.pendingHash == p.hash && r.value.authenticationHash == a.hash
    && Repeats(r.value.transport, p.value) && AsksToResume(cfg, a.value, r.value)
    && IsTransportOf(cfg, e, f, r.value.transport, AwaitingApproval,
                     Some(ResumeExpectation(r.value.contextHash, r.value.requestFingerprint, r.value.escalationHash)))
  }

  /** The recovery of the dispatch at this point, after the authentication. */
  ghost predicate IsRecoveryOf(
    cfg: Config, e: Sealed<Decision>, f: Sealed<Fence>, b: Sealed<Authentication>, v: Sealed<Recovery>)
  {
    && b.seqNo < v.seqNo && v.value.operation == e.value.operation && e.value.operation.pointId == cfg.pointId
    && v.value.decisionHash == e.hash && v.value.intentHash == f.value.intentHash && v.value.authenticationHash == b.hash
    && AsksThePoint(cfg, f.value, v.value) && AnswersFence(cfg, e.value, f.value, v.value)
  }

  // ---------- step by step ----------

  /** The state after some records of one operation: what they wrote, and nothing cancelled. */
  ghost predicate Is(s: State, ops: Operations, auths: Authentications) {
    s.ops == ops && s.auths == auths && s.foreign.cancellations == map[] && Sound(s)
  }

  function OpsOf(
    e: Sealed<Decision>, phase: Phase, f: Option<Fence> := None, p: Option<Sealed<Transport>> := None, v: Option<Recovery> := None): Operations
  {
    var id := e.value.operation.operationId;
    Operations(
      decisions := map[id := e],
      phases := map[id := phase],
      fences := match f { case Some(fence) => map[id := fence] case None => map[] },
      pending := match p { case Some(t) => map[id := t] case None => map[] },
      recovered := match v { case Some(r) => map[id := r] case None => map[] })
  }

  lemma StepsOn(cfg: Config, intents: Intents, rs: seq<Record>, n: nat, s: State, after: State)
    requires n < |rs| && Run(cfg, intents, rs[..n]) == Some(s) && Next(cfg, intents, s, rs[n]) == Some(after)
    ensures Run(cfg, intents, rs[..n + 1]) == Some(after)
  {
    hide Next;
    assert rs[..n + 1][..n] == rs[..n];
  }

  lemma Authorizes(cfg: Config, intents: Intents, e: Sealed<Decision>) returns (s: State)
    requires IsFirstAuthorization(cfg, e)
    ensures Next(cfg, intents, START, Sealed(e.seqNo, e.hash, Decided(e.value))) == Some(s) &&
            Is(s, OpsOf(e, Phase.Authorized), NO_AUTHENTICATIONS)
    ensures Recorded(map[], s.consumed, e.value.identifiers)
    ensures e.value.adapter != None && e.value.adapter.value in cfg.adapters
    ensures ChargesOnly(Books.NO_BOOKS, s.books, e.value.operation.operationId, e.value.accounts)
  {
    hide IsWellFormedDecision, AdmittedAs, DeclaresItsFacts, Serves, ChargesOnly, Sound, NextDecision, Recorded;
    StartIsSound();
    AuthorizationIsAcceptedExactly(cfg, START, e);
    var adm, served :| IsAuthorization(cfg, START, e, adm, served);
    s := NextDecision(cfg, START, e).value;
    AuthorizationKnowsAdapter(cfg, e.value);
    DecisionIsSound(cfg, START, e);
  }

  lemma AuthorizationKnowsAdapter(cfg: Config, d: Decision)
    requires IsWellFormedDecision(cfg, d)
    ensures d.adapter != None && d.adapter.value in cfg.adapters
  {
  }

  lemma Fences(cfg: Config, intents: Intents, s: State, e: Sealed<Decision>, i: Sealed<Intent>, f: Sealed<Fence>) returns (after: State)
    requires Is(s, OpsOf(e, Phase.Authorized), NO_AUTHENTICATIONS) && IsDispatchOf(cfg, e, i, f) && IsIntentOf(e, i)
    requires i.hash in intents && intents[i.hash] == i
    ensures Next(cfg, intents, s, Sealed(f.seqNo, f.hash, FencedDispatch(f.value))) == Some(after)
    ensures Is(after, OpsOf(e, Phase.Fenced, Some(f.value)), NO_AUTHENTICATIONS)
    ensures after.consumed == s.consumed
    ensures after.books.reservations == Moved(s.books.reservations, e.value.operation.operationId, Books.Fenced)
  {
    hide Sound, NextFence, ClaimsRepeat, Moved;
    FenceIsAcceptedExactly(cfg, intents, s, f);
    assert IsFence(cfg, intents, s, f, e);
    after := NextFence(cfg, intents, s, f).value;
    FenceMovesReservations(cfg, intents, s, f);
  }

  lemma Suspends(
    cfg: Config, intents: Intents, s: State, e: Sealed<Decision>, f: Sealed<Fence>, auths: Authentications, p: Sealed<Transport>)
    returns (after: State)
    requires Is(s, OpsOf(e, Phase.Fenced, Some(f.value)), auths)
    requires e.seqNo < p.seqNo && f.value.decisionHash == e.hash && IsTransportOf(cfg, e, f, p.value, AwaitingReview, None)
    ensures Next(cfg, intents, s, Sealed(p.seqNo, p.hash, Pended(p.value))) == Some(after)
    ensures Is(after, OpsOf(e, Phase.Pending, Some(f.value), Some(p)), auths)
    ensures after.consumed == s.consumed && after.books == s.books
  {
    hide Sound, NextPending, StatesItsHashes, Acknowledges;
    SuspensionIsAcceptedExactly(cfg, s, p);
    assert IsSuspension(cfg, s, p, e);
    after := NextPending(cfg, s, p).value;
    PendingIsSound(cfg, s, p);
  }

  lemma Authenticates(
    cfg: Config, intents: Intents, s: State, e: Sealed<Decision>, a: Sealed<Authentication>, kind: AuthenticationKind) returns (after: State)
    requires Sound(s) && s.foreign.cancellations == map[]
    requires e.value.operation.operationId in s.ops.decisions && s.ops.decisions[e.value.operation.operationId] == e
    requires IsAuthenticatedBy(cfg, e, a, kind) && kind in {CounterpartyResume, ReconciliationKind}
    requires forall f <- a.value.identifiers :: f.name !in s.consumed
    ensures Next(cfg, intents, s, Sealed(a.seqNo, a.hash, Authenticated(a.value))) == Some(after)
    ensures Is(after, s.ops, if kind == CounterpartyResume then s.auths.(resumes := s.auths.resumes[a.hash := a])
                             else s.auths.(reconciliations := s.auths.reconciliations[a.hash := a]))
    ensures after.consumed.Keys == s.consumed.Keys + set f <- a.value.identifiers :: f.name
    ensures after.books == s.books
  {
    hide Sound, NextAuthentication, AdmittedAs, ProvesHolder;
    AuthenticationIsAcceptedExactly(cfg, s, a);
    var adm, actor, f :|
      && AdmittedAs(cfg, e.value, adm) && adm.adapter == e.value.adapter && a.value.actorId == Some(actor)
      && ProvesHolder(cfg, adm, Holder(actor, a.value.proof, a.value.requestHash), cfg.ledgerId, a.value.at, f, a.value.context.actorFingerprint)
      && a.value.identifiers == [f];
    assert f in a.value.identifiers;
    assert RestsOn(s, e.value.operation, e.hash, a.seqNo, e);
    assert AuthenticatesOperation(cfg, s, a, adm);
    assert IsAuthentication(cfg, s, a, adm, f);
    after := NextAuthentication(cfg, s, a).value;
    AuthenticationKeepsBooks(cfg, s, a);
  }

  lemma Resumes(
    cfg: Config, intents: Intents, s: State, e: Sealed<Decision>, f: Sealed<Fence>, auths: Authentications, p: Sealed<Transport>,
    a: Sealed<Authentication>, r: Sealed<Resume>) returns (after: State)
    requires Is(s, OpsOf(e, Phase.Pending, Some(f.value), Some(p)), auths) && IsResumeOf(cfg, e, f, p, a, r)
    requires e.seqNo < r.seqNo && a.value.operation == Some(e.value.operation)
    requires a.hash in auths.resumes && auths.resumes[a.hash] == a && a.hash !in auths.usedForResume
    ensures Next(cfg, intents, s, Sealed(r.seqNo, r.hash, Resumed(r.value))) == Some(after)
    ensures after.consumed == s.consumed && after.books == s.books
    ensures Is(after, OpsOf(e, Phase.Fenced, Some(f.value)), auths.(usedForResume := auths.usedForResume + {a.hash}))
  {
    hide Sound, NextResume, StatesItsHashes, Acknowledges, AsksToResume, Repeats;
    ResumeIsAcceptedExactly(cfg, s, r);
    assert IsResume(cfg, s, r, e);
    after := NextResume(cfg, s, r).value;
    ResumeIsSound(cfg, s, r);
  }

  lemma Recovers(
    cfg: Config, intents: Intents, s: State, e: Sealed<Decision>, f: Sealed<Fence>, auths: Authentications, p: Sealed<Transport>,
    b: Sealed<Authentication>, v: Sealed<Recovery>) returns (after: State)
    requires Is(s, OpsOf(e, Phase.Pending, Some(f.value), Some(p)), auths) && IsRecoveryOf(cfg, e, f, b, v)
    requires e.seqNo < v.seqNo && b.value.operation == Some(e.value.operation)
    requires b.hash in auths.reconciliations && auths.reconciliations[b.hash] == b && b.hash !in auths.usedForRecovery
    ensures Next(cfg, intents, s, Sealed(v.seqNo, v.hash, Recovered(v.value))) == Some(after)
    ensures after.books == s.books
    ensures Is(after, OpsOf(e, Phase.Pending, Some(f.value), Some(p), Some(v.value)),
               auths.(usedForRecovery := auths.usedForRecovery + {b.hash}))
  {
    hide Sound, NextRecovery, AsksThePoint, AnswersFence;
    RecoveryIsAcceptedExactly(cfg, s, v);
    assert IsRecovery(cfg, s, v, e);
    after := NextRecovery(cfg, s, v).value;
    RecoveryIsSound(cfg, s, v);
  }

  lemma Settles(
    cfg: Config, intents: Intents, s: State, ops: Operations, auths: Authentications, e: Sealed<Decision>, f: Sealed<Fence>,
    t: Sealed<Settlement>, receipt: string) returns (after: State)
    requires Is(s, ops, auths) && IsReceiptOf(cfg, e, f, t, receipt) && f.value.token != None
    requires e.value.adapter != None && e.value.adapter.value in cfg.adapters && e.seqNo < t.seqNo
    requires var id := e.value.operation.operationId;
      && id in ops.decisions && ops.decisions[id] == e && id in ops.fences && ops.fences[id] == f.value && id in ops.phases
      && (if ops.phases[id].Fenced? then id !in ops.recovered
          else ops.phases[id].Pending? && id in ops.recovered && receipt == ops.recovered[id].outcome)
    ensures Next(cfg, intents, s, Sealed(t.seqNo, t.hash, Settled(t.value))) == Some(after)
    ensures after.ops == ops.(phases := ops.phases[e.value.operation.operationId :=
      if t.value.ending == Commit then Phase.Committed else Phase.Released])
    ensures after.books.reservations == Moved(s.books.reservations, e.value.operation.operationId,
      if t.value.ending == Commit then Books.Committed else Books.Released)
  {
    hide Sound, NextSettlement, Receipts, Moved, Books.CeilingsKept, Books.Conserves;
    SettlementIsAcceptedExactly(cfg, intents, s, t);
    assert IsReceiptedEnd(cfg, s, t.value, e);
    assert IsSettlement(cfg, intents, s, t, e);
    after := NextSettlement(cfg, intents, s, t).value;
  }

  // ---------- the two runs ----------

  function CommittedRun(e: Sealed<Decision>, i: Sealed<Intent>, f: Sealed<Fence>, t: Sealed<Settlement>): seq<Record> {
    [Sealed(e.seqNo, e.hash, Decided(e.value)), Sealed(i.seqNo, i.hash, Intended(i.value)),
     Sealed(f.seqNo, f.hash, FencedDispatch(f.value)), Sealed(t.seqNo, t.hash, Settled(t.value))]
  }

  /** Every reservation of the operation's accounts, and no other, is there with this status. */
  ghost predicate EndsWith(b: Books.Books, e: Sealed<Decision>, status: Books.Status) {
    && (forall a <- e.value.accounts ::
          && a.reservation in b.reservations
          && b.reservations[a.reservation] == Opened(a, e.value.operation.operationId).(status := status))
    && forall r <- b.reservations :: exists a <- e.value.accounts :: a.reservation == r
  }

  lemma OneIntent(rs: seq<Record>, i: Sealed<Intent>)
    requires |rs| > 1 && rs[1] == Sealed(i.seqNo, i.hash, Intended(i.value))
    requires exists e :: IsIntentOf(e, i)
    requires forall j :: 2 <= j < |rs| ==> !rs[j].value.Intended?
    ensures i.hash in IntentsOf(rs) && IntentsOf(rs)[i.hash] == i
  {
    hide IntentsOf;
    assert IsLastIntent(rs, 1, i.hash);
    IntentsAreTheLast(rs, i.hash, i);
  }

  lemma MovedTwice(b: Books.Books, c: Books.Books, d: Books.Books, e: Sealed<Decision>, status: Books.Status)
    requires ChargesOnly(Books.NO_BOOKS, b, e.value.operation.operationId, e.value.accounts)
    requires c.reservations == Moved(b.reservations, e.value.operation.operationId, Books.Fenced)
    requires d.reservations == Moved(c.reservations, e.value.operation.operationId, status)
    ensures EndsWith(d, e, status)
  {
    hide Books.Conserves, Books.CeilingsKept;
  }

  /** Every run of a signed dispatch starts with its authorization, its intent and its fence. */
  lemma StartsFenced(
    cfg: Config, intents: Intents, rs: seq<Record>, e: Sealed<Decision>, i: Sealed<Intent>, f: Sealed<Fence>) returns (s1: State, s2: State)
    requires |rs| > 3 && rs[0] == Sealed(e.seqNo, e.hash, Decided(e.value))
    requires rs[1] == Sealed(i.seqNo, i.hash, Intended(i.value)) && rs[2] == Sealed(f.seqNo, f.hash, FencedDispatch(f.value))
    requires IsFirstAuthorization(cfg, e) && IsIntentOf(e, i) && IsDispatchOf(cfg, e, i, f)
    requires i.hash in intents && intents[i.hash] == i
    ensures Run(cfg, intents, rs[..3]) == Some(s2) && Is(s2, OpsOf(e, Phase.Fenced, Some(f.value)), NO_AUTHENTICATIONS)
    ensures Recorded(map[], s2.consumed, e.value.identifiers)
    ensures e.value.adapter != None && e.value.adapter.value in cfg.adapters
    ensures ChargesOnly(Books.NO_BOOKS, s1.books, e.value.operation.operationId, e.value.accounts)
    ensures s2.books.reservations == Moved(s1.books.reservations, e.value.operation.operationId, Books.Fenced)
  {
    hide Sound, Run, IsFirstAuthorization, IsDispatchOf, Recorded, ChargesOnly, Moved, Next, Is;
    s1 := Authorizes(cfg, intents, e);
    s2 := Fences(cfg, intents, s1, e, i, f);
    RunStarts(cfg, intents, rs);
    StepsOn(cfg, intents, rs, 0, START, s1);
    IntentChangesNothing(cfg, intents, s1, rs[1]);
    StepsOn(cfg, intents, rs, 1, s1, s1);
    StepsOn(cfg, intents, rs, 2, s1, s2);
  }

  lemma IntentChangesNothing(cfg: Config, intents: Intents, s: State, r: Record)
    requires r.value.Intended?
    ensures Next(cfg, intents, s, r) == Some(s)
  {
  }

  /** The operation is settled, and all of its reservations with it. */
  ghost predicate IsSettledIn(s: State, e: Sealed<Decision>, ending: Ending) {
    && PhaseOf(s.ops, e.value.operation.operationId) == Some(if ending == Commit then Phase.Committed else Phase.Released)
    && EndsWith(s.books, e, if ending == Commit then Books.Committed else Books.Released)
  }

  lemma RunIsAccepted(cfg: Config, rs: seq<Record>)
    requires Run(cfg, IntentsOf(rs), rs).Some? && forall r <- rs :: !r.value.Legacy?
    ensures Accepts(cfg, rs)
  {
    hide Run, IntentsOf;
  }

  lemma NoLegacy(e: Sealed<Decision>, i: Sealed<Intent>, f: Sealed<Fence>, d: Detour, t: Sealed<Settlement>)
    ensures forall r <- CommittedRun(e, i, f, t) :: !r.value.Legacy?
    ensures forall r <- DetouredRun(e, i, f, d, t) :: !r.value.Legacy?
  {
  }

  /** An authorization, its intent, its signed fence and the receipt for it are accepted, and commit or release all of its accounts. */
  lemma DispatchIsSettled(
    cfg: Config, e: Sealed<Decision>, i: Sealed<Intent>, f: Sealed<Fence>, t: Sealed<Settlement>, receipt: string) returns (after: State)
    requires IsFirstAuthorization(cfg, e) && IsIntentOf(e, i) && IsDispatchOf(cfg, e, i, f) && IsReceiptOf(cfg, e, f, t, receipt)
    ensures var rs := CommittedRun(e, i, f, t); Accepts(cfg, rs) && Run(cfg, IntentsOf(rs), rs) == Some(after)
    ensures IsSettledIn(after, e, t.value.ending)
  {
    hide Next, Sound, IntentsOf, Run, IsFirstAuthorization, IsReceiptOf, ClaimsRepeat, Recorded, ChargesOnly, Accepts;
    hide EndsWith, Moved;
    var rs := CommittedRun(e, i, f, t);
    var intents := IntentsOf(rs);
    OneIntent(rs, i);
    var s1, s2 := StartsFenced(cfg, intents, rs, e, i, f);
    ReceiptFollowsFence(cfg, e, f, t, receipt);
    after := Settles(cfg, intents, s2, OpsOf(e, Phase.Fenced, Some(f.value)), NO_AUTHENTICATIONS, e, f, t, receipt);
    StepsOn(cfg, intents, rs, 3, s2, after);
    assert rs[..4] == rs;
    RunIsAccepted(cfg, rs);
    MovedTwice(s1.books, s2.books, after.books, e, if t.value.ending == Commit then Books.Committed else Books.Released);
  }

  lemma ReceiptFollowsFence(cfg: Config, e: Sealed<Decision>, f: Sealed<Fence>, t: Sealed<Settlement>, receipt: string)
    requires IsReceiptOf(cfg, e, f, t, receipt)
    ensures f.seqNo < t.seqNo
  {
  }

  lemma RunStarts(cfg: Config, intents: Intents, rs: seq<Record>)
    ensures Run(cfg, intents, rs[..0]) == Some(START)
  {
  }

  /** The suspension, the first authentication, the resume, the second suspension, the second authentication and the recovery of a dispatch. */
  datatype Detour = Detour(
    p: Sealed<Transport>, a: Sealed<Authentication>, r: Sealed<Resume>, q: Sealed<Transport>, b: Sealed<Authentication>, v: Sealed<Recovery>)

  function DetouredRun(e: Sealed<Decision>, i: Sealed<Intent>, f: Sealed<Fence>, d: Detour, t: Sealed<Settlement>): seq<Record> {
    [Sealed(e.seqNo, e.hash, Decided(e.value)), Sealed(i.seqNo, i.hash, Intended(i.value)),
     Sealed(f.seqNo, f.hash, FencedDispatch(f.value)),
     Sealed(d.p.seqNo, d.p.hash, Pended(d.p.value)), Sealed(d.a.seqNo, d.a.hash, Authenticated(d.a.value)),
     Sealed(d.r.seqNo, d.r.hash, Resumed(d.r.value)),
     Sealed(d.q.seqNo, d.q.hash, Pended(d.q.value)), Sealed(d.b.seqNo, d.b.hash, Authenticated(d.b.value)),
     Sealed(d.v.seqNo, d.v.hash, Recovered(d.v.value)),
     Sealed(t.seqNo, t.hash, Settled(t.value))]
  }

  ghost predicate IsDetourOf(cfg: Config, e: Sealed<Decision>, f: Sealed<Fence>, d: Detour) {
    && f.seqNo < d.p.seqNo < d.a.seqNo < d.r.seqNo < d.q.seqNo < d.b.seqNo < d.v.seqNo
    && IsTransportOf(cfg, e, f, d.p.value, AwaitingReview, None)
    && IsAuthenticatedBy(cfg, e, d.a, CounterpartyResume) && IsResumeOf(cfg, e, f, d.p, d.a, d.r)
    && IsTransportOf(cfg, e, f, d.q.value, AwaitingReview, None)
    && IsAuthenticatedBy(cfg, e, d.b, ReconciliationKind) && IsRecoveryOf(cfg, e, f, d.b, d.v)
  }

  /** The decision and the two authentications consume different identifiers. */
  predicate UseDifferentNames(e: Sealed<Decision>, d: Detour) {
    && (forall x, y :: x in e.value.identifiers && y in d.a.value.identifiers + d.b.value.identifiers ==> x.name != y.name)
    && forall x, y :: x in d.a.value.identifiers && y in d.b.value.identifiers ==> x.name != y.name
  }

  function Asked(a: Sealed<Authentication>): Authentications {
    NO_AUTHENTICATIONS.(resumes := map[a.hash := a])
  }

  function Spent(a: Sealed<Authentication>): Authentications {
    Asked(a).(usedForResume := {a.hash})
  }

  /** Suspended, authenticated and resumed. */
  lemma GoesRound(cfg: Config, intents: Intents, rs: seq<Record>, s: State, e: Sealed<Decision>, f: Sealed<Fence>, d: Detour) returns (after: State)
    requires |rs| > 6 && Run(cfg, intents, rs[..3]) == Some(s) && Is(s, OpsOf(e, Phase.Fenced, Some(f.value)), NO_AUTHENTICATIONS)
    requires IsDetourOf(cfg, e, f, d) && e.seqNo < f.seqNo && f.value.decisionHash == e.hash
    requires rs[3] == Sealed(d.p.seqNo, d.p.hash, Pended(d.p.value))
    requires rs[4] == Sealed(d.a.seqNo, d.a.hash, Authenticated(d.a.value))
    requires rs[5] == Sealed(d.r.seqNo, d.r.hash, Resumed(d.r.value))
    requires forall x <- d.a.value.identifiers :: x.name !in s.consumed
    ensures Run(cfg, intents, rs[..6]) == Some(after) && Is(after, OpsOf(e, Phase.Fenced, Some(f.value)), Spent(d.a))
    ensures after.consumed.Keys == s.consumed.Keys + (set x <- d.a.value.identifiers :: x.name) && after.books == s.books
  {
    hide Next, Sound, Run, IsTransportOf, IsResumeOf;
    var s1 := Suspends(cfg, intents, s, e, f, NO_AUTHENTICATIONS, d.p);
    var s2 := Authenticates(cfg, intents, s1, e, d.a, CounterpartyResume);
    assert s1.auths.(resumes := s1.auths.resumes[d.a.hash := d.a]) == Asked(d.a);
    after := Resumes(cfg, intents, s2, e, f, Asked(d.a), d.p, d.a, d.r);
    StepsOn(cfg, intents, rs, 3, s, s1);
    StepsOn(cfg, intents, rs, 4, s1, s2);
    StepsOn(cfg, intents, rs, 5, s2, after);
  }

  function Reconciled(a: Sealed<Authentication>, b: Sealed<Authentication>): Authentications {
    Spent(a).(reconciliations := map[b.hash := b])
  }

  /** Suspended again, authenticated again and recovered. */
  lemma GoesBack(cfg: Config, intents: Intents, rs: seq<Record>, s: State, e: Sealed<Decision>, f: Sealed<Fence>, d: Detour) returns (after: State)
    requires |rs| > 9 && Run(cfg, intents, rs[..6]) == Some(s) && Is(s, OpsOf(e, Phase.Fenced, Some(f.value)), Spent(d.a))
    requires IsDetourOf(cfg, e, f, d) && e.seqNo < f.seqNo && f.value.decisionHash == e.hash
    requires rs[6] == Sealed(d.q.seqNo, d.q.hash, Pended(d.q.value))
    requires rs[7] == Sealed(d.b.seqNo, d.b.hash, Authenticated(d.b.value))
    requires rs[8] == Sealed(d.v.seqNo, d.v.hash, Recovered(d.v.value))
    requires forall x <- d.b.value.identifiers :: x.name !in s.consumed
    ensures Run(cfg, intents, rs[..9]) == Some(after) && after.books == s.books
    ensures Is(after, OpsOf(e, Phase.Pending, Some(f.value), Some(d.q), Some(d.v.value)),
               Reconciled(d.a, d.b).(usedForRecovery := {d.b.hash}))
  {
    hide Next, Sound, Run, IsTransportOf, IsResumeOf, IsRecoveryOf;
    var s1 := Suspends(cfg, intents, s, e, f, Spent(d.a), d.q);
    var s2 := Authenticates(cfg, intents, s1, e, d.b, ReconciliationKind);
    assert s1.auths.(reconciliations := s1.auths.reconciliations[d.b.hash := d.b]) == Reconciled(d.a, d.b);
    after := Recovers(cfg, intents, s2, e, f, Reconciled(d.a, d.b), d.q, d.b, d.v);
    StepsOn(cfg, intents, rs, 6, s, s1);
    StepsOn(cfg, intents, rs, 7, s1, s2);
    StepsOn(cfg, intents, rs, 8, s2, after);
  }

  lemma NamesAreFree(e: Sealed<Decision>, d: Detour, consumed: Consumed)
    requires UseDifferentNames(e, d) && Recorded(map[], consumed, e.value.identifiers)
    ensures forall x <- d.a.value.identifiers :: x.name !in consumed
    ensures forall x <- d.b.value.identifiers :: x.name !in consumed.Keys + set y <- d.a.value.identifiers :: y.name
  {
    assert forall x <- d.a.value.identifiers :: x in d.a.value.identifiers + d.b.value.identifiers;
    assert forall x <- d.b.value.identifiers :: x in d.a.value.identifiers + d.b.value.identifiers;
  }

  lemma SettlesRecovered(
    cfg: Config, intents: Intents, s: State, e: Sealed<Decision>, f: Sealed<Fence>, d: Detour, t: Sealed<Settlement>) returns (after: State)
    requires Is(s, OpsOf(e, Phase.Pending, Some(f.value), Some(d.q), Some(d.v.value)), Reconciled(d.a, d.b).(usedForRecovery := {d.b.hash}))
    requires IsDetourOf(cfg, e, f, d) && d.v.seqNo < t.seqNo && IsReceiptOf(cfg, e, f, t, d.v.value.outcome) && f.value.token != None
    requires e.value.adapter != None && e.value.adapter.value in cfg.adapters && e.seqNo < t.seqNo
    ensures Next(cfg, intents, s, Sealed(t.seqNo, t.hash, Settled(t.value))) == Some(after)
    ensures PhaseOf(after.ops, e.value.operation.operationId) == Some(if t.value.ending == Commit then Phase.Committed else Phase.Released)
    ensures after.books.reservations == Moved(s.books.reservations, e.value.operation.operationId,
      if t.value.ending == Commit then Books.Committed else Books.Released)
  {
    hide Next, Sound, Moved, IsDetourOf, IsReceiptOf;
    after := Settles(
      cfg, intents, s, OpsOf(e, Phase.Pending, Some(f.value), Some(d.q), Some(d.v.value)),
      Reconciled(d.a, d.b).(usedForRecovery := {d.b.hash}), e, f, t, d.v.value.outcome);
  }

  lemma DetourFollowsFence(cfg: Config, e: Sealed<Decision>, i: Sealed<Intent>, f: Sealed<Fence>, d: Detour)
    requires IsIntentOf(e, i) && IsDispatchOf(cfg, e, i, f) && IsDetourOf(cfg, e, f, d)
    ensures e.seqNo < f.seqNo < d.v.seqNo && f.value.decisionHash == e.hash && f.value.token != None
  {
  }

  /** A dispatch may be suspended, resumed, suspended again and recovered before it is settled on the recovered outcome. */
  lemma DetourIsSettled(
    cfg: Config, e: Sealed<Decision>, i: Sealed<Intent>, f: Sealed<Fence>, d: Detour, t: Sealed<Settlement>) returns (after: State)
    requires IsFirstAuthorization(cfg, e) && IsIntentOf(e, i) && IsDispatchOf(cfg, e, i, f) && IsDetourOf(cfg, e, f, d)
    requires UseDifferentNames(e, d) && d.v.seqNo < t.seqNo && IsReceiptOf(cfg, e, f, t, d.v.value.outcome)
    ensures var rs := DetouredRun(e, i, f, d, t); Accepts(cfg, rs) && Run(cfg, IntentsOf(rs), rs) == Some(after)
    ensures IsSettledIn(after, e, t.value.ending)
  {
    hide Next, IntentsOf, Run, IsFirstAuthorization, IsDispatchOf, IsReceiptOf, IsDetourOf, UseDifferentNames, IsSettledIn, Accepts;
    var rs := DetouredRun(e, i, f, d, t);
    OneIntent(rs, i);
    hide IsIntentOf;
    after := DetourRuns(cfg, IntentsOf(rs), e, i, f, d, t);
    hide DetouredRun;
    NoLegacy(e, i, f, d, t);
    RunIsAccepted(cfg, rs);
  }

  lemma DetourRuns(
    cfg: Config, intents: Intents, e: Sealed<Decision>, i: Sealed<Intent>, f: Sealed<Fence>, d: Detour, t: Sealed<Settlement>)
    returns (after: State)
    requires IsFirstAuthorization(cfg, e) && IsIntentOf(e, i) && IsDispatchOf(cfg, e, i, f) && IsDetourOf(cfg, e, f, d)
    requires UseDifferentNames(e, d) && d.v.seqNo < t.seqNo && IsReceiptOf(cfg, e, f, t, d.v.value.outcome)
    requires i.hash in intents && intents[i.hash] == i
    ensures Run(cfg, intents, DetouredRun(e, i, f, d, t)) == Some(after) && IsSettledIn(after, e, t.value.ending)
  {
    hide Next, Sound, IntentsOf, Run, IsFirstAuthorization, IsIntentOf, IsDispatchOf, IsReceiptOf, IsDetourOf, UseDifferentNames;
    hide Recorded, ChargesOnly, EndsWith, Moved, Is, OpsOf, PhaseOf, Reconciled, Spent;
    var rs := DetouredRun(e, i, f, d, t);
    DetourFollowsFence(cfg, e, i, f, d);
    var s1, s2 := StartsFenced(cfg, intents, rs, e, i, f);
    NamesAreFree(e, d, s2.consumed);
    var s5 := GoesRound(cfg, intents, rs, s2, e, f, d);
    var s8 := GoesBack(cfg, intents, rs, s5, e, f, d);
    after := SettlesRecovered(cfg, intents, s8, e, f, d, t);
    StepsOn(cfg, intents, rs, 9, s8, after);
    assert rs[..10] == rs;
    MovedTwice(s1.books, s2.books, after.books, e, if t.value.ending == Commit then Books.Committed else Books.Released);
  }
}
