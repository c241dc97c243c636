/**
 When the replay accepts each kind of record, and what the record changes: exact conditions, said of the record, of the
 evidence that verifies it, and of what earlier records left behind.
 */
module Acceptance {
  import opened Prelude
  import opened Matching
  import opened Evidence
  import opened OneTime
  import opened ForeignPoints
  import opened Lifecycle
  import opened Replay
  import opened Conservation
  import opened Capacity
  import opened Debits
  import opened Budget
  import Books

  // ---------- what lifecycle records rest on ----------

  /** An earlier record decided the operation, and the later one names it by its hash. */
  ghost predicate RestsOn(s: State, o: Operation, decisionHash: string, seqNo: nat, e: Sealed<Decision>) {
    && o.operationId in s.ops.decisions && s.ops.decisions[o.operationId] == e
    && e.value.operation == o && e.hash == decisionHash && e.seqNo < seqNo
  }

  /** An earlier intent for exactly this operation and this decision record. */
  predicate HasIntent(intents: Intents, hash: string, e: Sealed<Decision>, o: Operation, seqNo: nat) {
    hash in intents && intents[hash].seqNo < seqNo && intents[hash].value == Intent(Some(o), e.seqNo)
  }

  predicate IsAt(s: State, operationId: string, phase: Phase) {
    operationId in s.ops.phases && s.ops.phases[operationId] == phase
  }

  /** The decision's own admission, verified at the instant of the decision through its pinned adapter. */
  ghost predicate AdmittedAs(cfg: Config, d: Decision, adm: Admission) {
    exists adapter, token ::
      && d.adapter == Some(adapter) && adapter in cfg.adapters && d.admissionToken == Some(token)
      && cfg.admit(token, d.at, adapter) == Some(adm)
  }

  lemma AdmissionIsExact(cfg: Config, d: Decision, adm: Admission)
    ensures DecisionAdmission(cfg, d) == Some(adm) <==> AdmittedAs(cfg, d, adm)
    ensures AdaptedAdmission(cfg, d) == Some(adm) <==> AdmittedAs(cfg, d, adm) && adm.adapter == d.adapter
  {
  }

  lemma JoinedIsExact(s: State, o: Operation, hash: string, seqNo: nat, e: Sealed<Decision>)
    ensures Joined(s.ops, o, hash, seqNo) == Some(e) <==> RestsOn(s, o, hash, seqNo, e)
  {
  }

  lemma IntentIsExact(intents: Intents, hash: string, e: Sealed<Decision>, o: Operation, seqNo: nat)
    ensures IntentJoins(intents, hash, e, o, seqNo) <==> HasIntent(intents, hash, e, o, seqNo)
  {
  }

  // ---------- fences ----------

  /** The claims of a signed dispatch repeat the operation field by field and state its interval. */
  predicate ClaimsRepeat(c: DispatchClaims, o: Operation) {
    && (c.domainId, c.ledgerId, c.pointId, c.operationId) == (o.domainId, o.ledgerId, o.pointId, o.operationId)
    && (c.requestHash, c.bindingHash) == (o.requestHash, o.bindingHash)
    && c.authorizedAt != None && c.notAfter != None
  }

  ghost predicate IsFence(cfg: Config, intents: Intents, s: State, f: Sealed<Fence>, e: Sealed<Decision>) {
    var fence, o := f.value, f.value.operation;
    && RestsOn(s, o, fence.decisionHash, f.seqNo, e) && IsAt(s, o.operationId, Phase.Authorized)
    && HasIntent(intents, fence.intentHash, e, o, f.seqNo)
    && fence.claims.payloadHash == o.payloadHash
    && (fence.token != None ==> ClaimsRepeat(fence.claims, o) && cfg.payload(e.value, fence.claims) != None)
    && (o.operationId in s.foreign.authorizations ==> s.foreign.authorizations[o.operationId] !in s.foreign.cancellations)
  }

  /** The reservations after those of one operation have moved together. */
  function Moved(rs: Books.Reservations, operationId: string, status: Books.Status): Books.Reservations {
    map id | id in rs :: if rs[id].owner == operationId then rs[id].(status := status) else rs[id]
  }

  /** Only the operation's phase, fence, reservations and foreign operation differ. */
  ghost predicate FencesOnly(s: State, f: Fence, after: State) {
    var id := f.operation.operationId;
    && after.ops == s.ops.(phases := s.ops.phases[id := Phase.Fenced], fences := s.ops.fences[id := f])
    && after.books == s.books.(reservations := Moved(s.books.reservations, id, Books.Fenced))
    && after.foreign == s.foreign.(fences := s.foreign.fences + set i | i in s.foreign.authorizations && i == id :: s.foreign.authorizations[i])
    && after.auths == s.auths && after.consumed == s.consumed
  }

  lemma OwnedAreMoved(b: Books.Books, after: Books.Reservations, id: string, status: Books.Status)
    requires Books.Owned(b) && Books.OnlyMoves(b.reservations, after, Books.OwnedBy(b, id), status)
    ensures after == Moved(b.reservations, id, status)
  {
    forall r | r in b.reservations ensures r in Books.OwnedBy(b, id) <==> b.reservations[r].owner == id {
    }
    assert after.Keys == Moved(b.reservations, id, status).Keys;
  }

  lemma MayFenceIsExact(cfg: Config, intents: Intents, s: State, f: Sealed<Fence>, e: Sealed<Decision>)
    ensures
      && Joined(s.ops, f.value.operation, f.value.decisionHash, f.seqNo) == Some(e)
      && FenceForeign(s.foreign, f.value.operation.operationId).Some? && MayFence(cfg, intents, s.ops, e, f)
      <==> IsFence(cfg, intents, s, f, e)
  {
    hide RestsOn, HasIntent, Joined, IntentJoins;
    var o := f.value.operation;
    JoinedIsExact(s, o, f.value.decisionHash, f.seqNo, e);
    IntentIsExact(intents, f.value.intentHash, e, o, f.seqNo);
  }

  /** A fence is accepted exactly when it is one in the sense above, whether it is signed or not. */
  lemma FenceIsAcceptedExactly(cfg: Config, intents: Intents, s: State, f: Sealed<Fence>)
    requires Sound(s)
    ensures NextFence(cfg, intents, s, f).Some? <==> exists e :: IsFence(cfg, intents, s, f, e)
    ensures NextFence(cfg, intents, s, f).Some? ==> FencesOnly(s, f.value, NextFence(cfg, intents, s, f).value)
  {
    FenceMovesReservations(cfg, intents, s, f);
    forall e ensures
      && Joined(s.ops, f.value.operation, f.value.decisionHash, f.seqNo) == Some(e)
      && FenceForeign(s.foreign, f.value.operation.operationId).Some? && MayFence(cfg, intents, s.ops, e, f)
      <==> IsFence(cfg, intents, s, f, e)
    {
      MayFenceIsExact(cfg, intents, s, f, e);
    }
    hide Joined, MayFence, IsFence, Sound, FencesOnly, FenceForeign;
    if NextFence(cfg, intents, s, f).Some? {
      FenceChanges(cfg, intents, s, f);
    }
  }

  lemma FenceChanges(cfg: Config, intents: Intents, s: State, f: Sealed<Fence>)
    requires Sound(s) && NextFence(cfg, intents, s, f).Some?
    ensures FencesOnly(s, f.value, NextFence(cfg, intents, s, f).value)
  {
    hide Books.Conserves, Books.Owned, Lockstep, Joined, Moved, Books.OwnedBy, Books.OnlyMoves, IntentJoins, ClaimsJoinOperation;
    var id := f.value.operation.operationId;
    OwnedAreInStep(s.ops, s.books, id);
    OwnedHasNoRepeats(s.books, id);
    Books.FenceAllMoves(s.books.reservations, id, Books.OwnedBy(s.books, id));
    OwnedAreMoved(s.books, NextFence(cfg, intents, s, f).value.books.reservations, id, Books.Fenced);
  }

  // ---------- suspensions and resumes ----------

  /** The hashes that a transport states are those of its token, its body, its claims and its operation. */
  ghost predicate StatesItsHashes(cfg: Config, t: Transport) {
    && t.foreignDispatchHash == cfg.sha(t.token) && t.bodyHash == cfg.sha(t.body) && t.claims.payloadHash == t.operation.payloadHash
    && cfg.descriptorHash(t.claims) == Some(t.descriptorHash) && t.operationHash == cfg.operationHash(t.operation)
  }

  /** The acknowledgment, under the admitted outcome key, states the token, claims, operation and body, and the end of the dispatch. */
  ghost predicate Acknowledges(cfg: Config, d: Decision, t: Transport, state: AckState, resume: Option<ResumeExpectation>) {
    exists adm, key, notAfter, end ::
      && AdmittedAs(cfg, d, adm) && adm.outcomeKey == Some(key)
      && t.claims.notAfter == Some(notAfter) && cfg.clock(notAfter) == Some(end)
      && cfg.ackVerifies(
           t.ack,
           AckExpectation(
             key := key, state := state, at := t.at, notAfter := end, resume := resume,
             dispatchHash := cfg.sha(t.token), bodyHash := cfg.sha(t.body),
             descriptorHash := t.descriptorHash, operationHash := cfg.operationHash(t.operation)))
  }

  lemma AcknowledgedIsExact(cfg: Config, d: Decision, t: Transport, state: AckState, resume: Option<ResumeExpectation>)
    ensures ValidTransport(cfg, t) && IsAcknowledged(cfg, d, t, state, resume)
       <==> StatesItsHashes(cfg, t) && Acknowledges(cfg, d, t, state, resume)
  {
    hide AdmittedAs, DecisionAdmission;
    forall adm ensures DecisionAdmission(cfg, d) == Some(adm) <==> AdmittedAs(cfg, d, adm) {
      AdmissionIsExact(cfg, d, adm);
    }
    if StatesItsHashes(cfg, t) && DecisionAdmission(cfg, d).Some? {
      assert AdmittedAs(cfg, d, DecisionAdmission(cfg, d).value);
    }
  }

  /** The transport carries the fenced dispatch of its operation. */
  ghost predicate CarriesFence(s: State, t: Transport) {
    && t.operation.operationId in s.ops.fences
    && var f := s.ops.fences[t.operation.operationId];
    && (t.decisionHash, t.intentHash) == (f.decisionHash, f.intentHash) && f.token == Some(t.token) && t.claims == f.claims
  }

  ghost predicate IsSuspension(cfg: Config, s: State, t: Sealed<Transport>, e: Sealed<Decision>) {
    && RestsOn(s, t.value.operation, t.value.decisionHash, t.seqNo, e) && IsAt(s, t.value.operation.operationId, Phase.Fenced)
    && CarriesFence(s, t.value) && StatesItsHashes(cfg, t.value) && Acknowledges(cfg, e.value, t.value, AwaitingReview, None)
  }

  /** A fenced operation is suspended exactly on an acknowledged transport of its fenced dispatch. */
  lemma SuspensionIsAcceptedExactly(cfg: Config, s: State, t: Sealed<Transport>)
    ensures NextPending(cfg, s, t).Some? <==> exists e :: IsSuspension(cfg, s, t, e)
    ensures NextPending(cfg, s, t).Some? ==>
      var id := t.value.operation.operationId;
      NextPending(cfg, s, t).value == s.(ops := s.ops.(phases := s.ops.phases[id := Phase.Pending], pending := s.ops.pending[id := t]))
  {
    hide RestsOn, StatesItsHashes, Acknowledges, Joined, ValidTransport, IsAcknowledged;
    forall e ensures Joined(s.ops, t.value.operation, t.value.decisionHash, t.seqNo) == Some(e) && MayPend(cfg, s.ops, e, t.value)
                 <==> IsSuspension(cfg, s, t, e)
    {
      JoinedIsExact(s, t.value.operation, t.value.decisionHash, t.seqNo, e);
      AcknowledgedIsExact(cfg, e.value, t.value, AwaitingReview, None);
    }
    hide MayPend, IsSuspension;
  }

  /** Apart from its instant and its acknowledgment, the transport is the suspended one. */
  predicate Repeats(t: Transport, suspended: Transport) {
    t.(operation := suspended.operation, at := suspended.at, ack := suspended.ack) == suspended
  }

  /** An earlier authentication of exactly this operation, not spent before. */
  predicate IsUnspent(kept: map<string, Sealed<Authentication>>, spent: set<string>, hash: string, o: Operation, seqNo: nat) {
    && hash in kept && hash !in spent
    && kept[hash].seqNo < seqNo && kept[hash].value.operation == Some(o)
  }

  lemma FreshIsExact(kept: map<string, Sealed<Authentication>>, spent: set<string>, hash: string, o: Operation, seqNo: nat)
    ensures IsFresh(kept, spent, hash, o, seqNo) <==> IsUnspent(kept, spent, hash, o, seqNo)
  {
  }

  /** The authenticated request asks to resume this operation on this acknowledgment, with the hashed context and an approval. */
  ghost predicate AsksToResume(cfg: Config, a: Authentication, r: Resume) {
    exists context, approval ::
      && a.resume == Some(ResumeRequest(
           operationId := r.transport.operation.operationId, originalRequestHash := r.transport.operation.requestHash,
           ack := r.transport.ack, context := context, approval := approval))
      && context != "" && cfg.sha(context) == r.contextHash && approval != ""
  }

  lemma RequestIsExact(cfg: Config, a: Authentication, r: Resume)
    ensures RequestsResume(cfg, a, r) <==> AsksToResume(cfg, a, r)
  {
    if RequestsResume(cfg, a, r) {
      var q := a.resume.value;
      assert q == ResumeRequest(q.operationId, q.originalRequestHash, q.ack, q.context, q.approval);
    }
  }

  ghost predicate IsResume(cfg: Config, s: State, r: Sealed<Resume>, e: Sealed<Decision>) {
    var t, id := r.value.transport, r.value.transport.operation.operationId;
    && RestsOn(s, t.operation, t.decisionHash, r.seqNo, e) && IsAt(s, id, Phase.Pending) && id in s.ops.fences
    && id in s.ops.pending && s.ops.pending[id].hash == r.value.pendingHash && Repeats(t, s.ops.pending[id].value)
    && StatesItsHashes(cfg, t)
    && IsUnspent(s.auths.resumes, s.auths.usedForResume, r.value.authenticationHash, t.operation, r.seqNo)
    && AsksToResume(cfg, s.auths.resumes[r.value.authenticationHash].value, r.value)
    && Acknowledges(cfg, e.value, t, AwaitingApproval,
                    Some(ResumeExpectation(contextHash := r.value.contextHash, fingerprint := r.value.requestFingerprint,
                                           escalationHash := r.value.escalationHash)))
  }

  lemma SameTransportIsExact(t: Transport, u: Transport)
    ensures SameTransport(t, u) <==> Repeats(t, u)
  {
  }

  lemma MayResumeIsExact(cfg: Config, s: State, r: Sealed<Resume>, e: Sealed<Decision>)
    ensures Joined(s.ops, r.value.transport.operation, r.value.transport.decisionHash, r.seqNo) == Some(e)
         && MayResume(cfg, s.ops, s.auths, e, r)
       <==> IsResume(cfg, s, r, e)
  {
    hide RestsOn, StatesItsHashes, Acknowledges, Joined, ValidTransport, IsAcknowledged, SameTransport, Repeats, IsFresh, RequestsResume;
    hide AsksToResume;
    var t, v := r.value.transport, r.value;
    JoinedIsExact(s, t.operation, t.decisionHash, r.seqNo, e);
    AcknowledgedIsExact(
      cfg, e.value, t, AwaitingApproval, Some(ResumeExpectation(v.contextHash, v.requestFingerprint, v.escalationHash)));
    FreshIsExact(s.auths.resumes, s.auths.usedForResume, v.authenticationHash, t.operation, r.seqNo);
    if t.operation.operationId in s.ops.pending {
      SameTransportIsExact(t, s.ops.pending[t.operation.operationId].value);
    }
    if v.authenticationHash in s.auths.resumes {
      RequestIsExact(cfg, s.auths.resumes[v.authenticationHash].value, v);
    }
  }

  /** A suspended operation is resumed exactly on its unchanged transport, an unspent authentication that asks for it, and an approval. */
  lemma ResumeIsAcceptedExactly(cfg: Config, s: State, r: Sealed<Resume>)
    ensures NextResume(cfg, s, r).Some? <==> exists e :: IsResume(cfg, s, r, e)
    ensures NextResume(cfg, s, r).Some? ==>
      var id := r.value.transport.operation.operationId;
      NextResume(cfg, s, r).value == s.(
        ops := s.ops.(phases := s.ops.phases[id := Phase.Fenced], pending := s.ops.pending - {id}),
        auths := s.auths.(usedForResume := s.auths.usedForResume + {r.value.authenticationHash}))
  {
    hide IsResume, MayResume, Joined;
    forall e ensures Joined(s.ops, r.value.transport.operation, r.value.transport.decisionHash, r.seqNo) == Some(e)
                  && MayResume(cfg, s.ops, s.auths, e, r)
                 <==> IsResume(cfg, s, r, e)
    {
      MayResumeIsExact(cfg, s, r, e);
    }
  }

  // ---------- recoveries ----------

  /** The point's own key signed the fenced dispatch, and a request to query or cancel it that is active at the recovery. */
  ghost predicate AsksThePoint(cfg: Config, f: Fence, r: Recovery) {
    exists token, request ::
      && f.token == Some(token) && cfg.dispatchSigned(token, cfg.pointKey) && cfg.dispatchClaims(token) == Some(f.claims)
      && cfg.reconciliationVerifies(r.request, cfg.pointKey) == Some(request)
      && request.verb in {Query, Cancel} && cfg.reconciliationJoins(request, f.claims) && request.issuedAt <= r.at < request.expiresAt
  }

  /** The admitted outcome key signed an outcome of the fenced dispatch. */
  ghost predicate AnswersFence(cfg: Config, d: Decision, f: Fence, r: Recovery) {
    exists adm, key, outcome ::
      && AdmittedAs(cfg, d, adm) && adm.outcomeKey == Some(key)
      && cfg.outcomeVerifies(r.outcome, key) == Some(outcome) && cfg.outcomeJoins(outcome, f.claims)
  }

  lemma RecoverySignaturesAreExact(cfg: Config, d: Decision, f: Fence, r: Recovery)
    ensures RecoveryIsSigned(cfg, d, f, r) <==> AsksThePoint(cfg, f, r) && AnswersFence(cfg, d, f, r)
  {
    hide AdmittedAs, DecisionAdmission;
    forall adm ensures DecisionAdmission(cfg, d) == Some(adm) <==> AdmittedAs(cfg, d, adm) {
      AdmissionIsExact(cfg, d, adm);
    }
    if DecisionAdmission(cfg, d).Some? {
      assert AdmittedAs(cfg, d, DecisionAdmission(cfg, d).value);
    }
  }

  ghost predicate IsRecovery(cfg: Config, s: State, r: Sealed<Recovery>, e: Sealed<Decision>) {
    var o, id := r.value.operation, r.value.operation.operationId;
    && RestsOn(s, o, r.value.decisionHash, r.seqNo, e) && o.pointId == cfg.pointId
    && (IsAt(s, id, Phase.Fenced) || IsAt(s, id, Phase.Pending))
    && id in s.ops.fences && r.value.intentHash == s.ops.fences[id].intentHash && id !in s.ops.recovered
    && IsUnspent(s.auths.reconciliations, s.auths.usedForRecovery, r.value.authenticationHash, o, r.seqNo)
    && AsksThePoint(cfg, s.ops.fences[id], r.value) && AnswersFence(cfg, e.value, s.ops.fences[id], r.value)
  }

  /** A dispatch of this point is recovered exactly once, on an unspent authentication, a signed request and a signed outcome. */
  lemma RecoveryIsAcceptedExactly(cfg: Config, s: State, r: Sealed<Recovery>)
    ensures NextRecovery(cfg, s, r).Some? <==> exists e :: IsRecovery(cfg, s, r, e)
    ensures NextRecovery(cfg, s, r).Some? ==>
      NextRecovery(cfg, s, r).value == s.(
        ops := s.ops.(recovered := s.ops.recovered[r.value.operation.operationId := r.value]),
        auths := s.auths.(usedForRecovery := s.auths.usedForRecovery + {r.value.authenticationHash}))
  {
    hide RestsOn, Joined, RecoveryIsSigned, AsksThePoint, AnswersFence, IsFresh;
    var o := r.value.operation;
    forall e ensures Joined(s.ops, o, r.value.decisionHash, r.seqNo) == Some(e) && MayRecover(cfg, s.ops, s.auths, e, r)
                 <==> IsRecovery(cfg, s, r, e)
    {
      JoinedIsExact(s, o, r.value.decisionHash, r.seqNo, e);
      FreshIsExact(s.auths.reconciliations, s.auths.usedForRecovery, r.value.authenticationHash, o, r.seqNo);
      if o.operationId in s.ops.fences {
        RecoverySignaturesAreExact(cfg, e.value, s.ops.fences[o.operationId], r.value);
      }
    }
    hide MayRecover, IsRecovery;
  }

  // ---------- settlements ----------

  /** The resource accepted the dispatch from its authorization on, and before its end. */
  ghost predicate IsWithin(cfg: Config, claims: DispatchClaims, acceptedAt: int) {
    exists authorizedAt, notAfter, start, end ::
      && claims.authorizedAt == Some(authorizedAt) && claims.notAfter == Some(notAfter)
      && cfg.clock(authorizedAt) == Some(start) && cfg.clock(notAfter) == Some(end) && start <= acceptedAt < end
  }

  /** What the signed outcome has to say: committed, for a record egress with its records; or not executed. */
  predicate Says(outcome: Outcome, ending: Ending, profile: Profile, payload: Option<Egress>) {
    match ending
    case Release => outcome.status == NotExecuted
    case Commit =>
      && outcome.status == OutcomeCommitted
      && (profile == RecordEgress ==>
            payload != None && outcome.recordCount == Some(payload.value.count) && outcome.recordsHash == Some(payload.value.hash))
  }

  ghost predicate Receipts(cfg: Config, d: Decision, f: Fence, receipt: string, ending: Ending) {
    exists adm, key, outcome, payload ::
      && AdmittedAs(cfg, d, adm) && adm.adapter == d.adapter && adm.outcomeKey == Some(key)
      && cfg.outcomeVerifies(receipt, key) == Some(outcome) && cfg.outcomeJoins(outcome, f.claims)
      && (outcome.acceptedAt != None ==> IsWithin(cfg, f.claims, outcome.acceptedAt.value))
      && cfg.payload(d, f.claims) == Some(payload) && Says(outcome, ending, f.claims.profile, payload)
  }

  lemma ReceiptIsExact(cfg: Config, d: Decision, f: Fence, s: Settlement, receipt: string)
    requires s.outcome == Some(receipt)
    ensures ReceiptProves(cfg, d, f, s) <==> Receipts(cfg, d, f, receipt, s.ending)
  {
    hide AdmittedAs, AdaptedAdmission, AcceptedInTime, IsWithin, Says;
    forall outcome: Outcome, payload ensures Says(outcome, s.ending, f.claims.profile, payload) <==>
      (if s.ending.Commit? then
         && outcome.status.OutcomeCommitted?
         && (f.claims.profile.RecordEgress? ==>
               payload.Some? && outcome.recordCount == Some(payload.value.count) && outcome.recordsHash == Some(payload.value.hash))
       else outcome.status.NotExecuted?)
    {
      SaysExactly(outcome, s.ending, f.claims.profile, payload);
    }
    forall adm ensures AdaptedAdmission(cfg, d) == Some(adm) <==> AdmittedAs(cfg, d, adm) && adm.adapter == d.adapter {
      AdmissionIsExact(cfg, d, adm);
    }
    forall at ensures AcceptedInTime(cfg, f.claims, at) <==> IsWithin(cfg, f.claims, at) {
      IntervalIsExact(cfg, f.claims, at);
    }
    if AdaptedAdmission(cfg, d).Some? {
      assert AdmittedAs(cfg, d, AdaptedAdmission(cfg, d).value);
    }
  }

  lemma SaysExactly(outcome: Outcome, ending: Ending, profile: Profile, payload: Option<Egress>)
    ensures Says(outcome, ending, profile, payload) <==>
      (if ending.Commit? then
         && outcome.status.OutcomeCommitted?
         && (profile.RecordEgress? ==>
               payload.Some? && outcome.recordCount == Some(payload.value.count) && outcome.recordsHash == Some(payload.value.hash))
       else outcome.status.NotExecuted?)
  {
  }

  lemma IntervalIsExact(cfg: Config, claims: DispatchClaims, at: int)
    ensures AcceptedInTime(cfg, claims, at) <==> IsWithin(cfg, claims, at)
  {
  }

  /** A release before any fence: without a receipt, and with an intent of this operation if it names one. */
  ghost predicate IsEarlyRelease(intents: Intents, s: State, t: Sealed<Settlement>, e: Sealed<Decision>) {
    && t.value.ending == Release && t.value.basis == DurableNoDispatch && t.value.outcome == None
    && IsAt(s, t.value.operation.operationId, Phase.Authorized)
    && (t.value.intentHash != None ==> HasIntent(intents, t.value.intentHash.value, e, t.value.operation, t.seqNo))
  }

  /** A release of a fenced operation that holds no reservation and was not recovered. */
  ghost predicate IsEmptyRelease(s: State, t: Settlement) {
    var id := t.operation.operationId;
    && t.ending == Release && t.basis == DurableNoDispatch && t.outcome == None
    && IsAt(s, id, Phase.Fenced) && id in s.ops.fences && id !in s.ops.recovered
    && t.intentHash == Some(s.ops.fences[id].intentHash)
    && forall r <- s.books.reservations :: s.books.reservations[r].owner != id
  }

  /** An ending on a receipt: of a fenced operation, or of a recovered one on the recovered outcome. */
  ghost predicate IsReceiptedEnd(cfg: Config, s: State, t: Settlement, e: Sealed<Decision>) {
    var id := t.operation.operationId;
    && t.basis == ResourceReceipt && id in s.ops.fences && t.intentHash == Some(s.ops.fences[id].intentHash)
    && (IsAt(s, id, Phase.Fenced) || (IsAt(s, id, Phase.Pending) && id in s.ops.recovered))
    && (t.ending == Commit ==> s.ops.fences[id].token != None)
    && exists receipt ::
      && t.outcome == Some(receipt) && receipt != "" && (id in s.ops.recovered ==> receipt == s.ops.recovered[id].outcome)
      && Receipts(cfg, e.value, s.ops.fences[id], receipt, t.ending)
  }

  ghost predicate IsSettlement(cfg: Config, intents: Intents, s: State, t: Sealed<Settlement>, e: Sealed<Decision>) {
    && RestsOn(s, t.value.operation, t.value.decisionHash, t.seqNo, e)
    && e.value.adapter != None && e.value.adapter.value in cfg.adapters
    && (IsEarlyRelease(intents, s, t, e) || IsEmptyRelease(s, t.value) || IsReceiptedEnd(cfg, s, t.value, e))
  }

  lemma MaySettleIsExact(cfg: Config, intents: Intents, s: State, t: Sealed<Settlement>, e: Sealed<Decision>)
    requires Sound(s)
    ensures
      && MaySettle(cfg, intents, s.ops, e, t) && e.value.adapter != None && e.value.adapter.value in cfg.adapters
      && (t.value.ending == Commit || IsAt(s, t.value.operation.operationId, Phase.Authorized)
          || Books.OwnedBy(s.books, t.value.operation.operationId) == [] || t.value.basis == ResourceReceipt)
      <==>
      && e.value.adapter != None && e.value.adapter.value in cfg.adapters
      && (IsEarlyRelease(intents, s, t, e) || IsEmptyRelease(s, t.value) || IsReceiptedEnd(cfg, s, t.value, e))
  {
    hide Books.Conserves, Lockstep, IntentJoins, HasIntent, ReceiptProves, Receipts, Books.Owned, Books.OwnedBy;
    var id := t.value.operation.operationId;
    OwnsNothing(s.books, id);
    if t.value.intentHash.Some? {
      IntentIsExact(intents, t.value.intentHash.value, e, t.value.operation, t.seqNo);
    }
    if id in s.ops.fences && t.value.outcome.Some? {
      ReceiptIsExact(cfg, e.value, s.ops.fences[id], t.value, t.value.outcome.value);
    }
  }

  lemma OwnsNothing(b: Books.Books, id: string)
    requires Books.Owned(b)
    ensures Books.OwnedBy(b, id) == [] <==> forall r <- b.reservations :: b.reservations[r].owner != id
  {
    if id in b.owned && b.owned[id] != [] {
      var r := b.owned[id][0];
      assert r in b.owned[id];
      assert b.reservations[r].owner == id;
    }
    if r :| r in b.reservations && b.reservations[r].owner == id {
      assert r in b.owned[id];
    }
  }

  /** Only the operation's phase and reservations differ, and the totals are those of the reservations that are left. */
  ghost predicate SettlesOnly(s: State, t: Settlement, after: State) {
    var id := t.operation.operationId;
    && after.ops == s.ops.(phases := s.ops.phases[id := if t.ending == Commit then Phase.Committed else Phase.Released])
    && after.books.reservations == Moved(s.books.reservations, id, if t.ending == Commit then Books.Committed else Books.Released)
    && after.books.owned == s.books.owned && Books.CeilingsKept(s.books, after.books) && Books.Conserves(after.books)
    && after.auths == s.auths && after.foreign == s.foreign && after.consumed == s.consumed
  }

  /** An operation is settled exactly by one of the three endings. */
  lemma SettlementIsAcceptedExactly(cfg: Config, intents: Intents, s: State, t: Sealed<Settlement>)
    requires Sound(s)
    ensures NextSettlement(cfg, intents, s, t).Some? <==> exists e :: IsSettlement(cfg, intents, s, t, e)
    ensures NextSettlement(cfg, intents, s, t).Some? ==> SettlesOnly(s, t.value, NextSettlement(cfg, intents, s, t).value)
  {
    forall e ensures NextSettlement(cfg, intents, s, t).Some? && Joined(s.ops, t.value.operation, t.value.decisionHash, t.seqNo) == Some(e)
                 <==> IsSettlement(cfg, intents, s, t, e)
    {
      SettlementOnDecision(cfg, intents, s, t, e);
    }
    hide Joined, MaySettle, IsSettlement, Sound, SettleBooks, SettlesOnly;
    if NextSettlement(cfg, intents, s, t).Some? {
      SettlementChanges(cfg, intents, s, t);
    }
  }

  lemma SettlementOnDecision(cfg: Config, intents: Intents, s: State, t: Sealed<Settlement>, e: Sealed<Decision>)
    requires Sound(s)
    ensures NextSettlement(cfg, intents, s, t).Some? && Joined(s.ops, t.value.operation, t.value.decisionHash, t.seqNo) == Some(e)
       <==> IsSettlement(cfg, intents, s, t, e)
  {
    hide RestsOn, Joined, MaySettle, IsEarlyRelease, IsEmptyRelease, IsReceiptedEnd, Sound, SettleBooks, Books.OwnedBy;
    JoinedIsExact(s, t.value.operation, t.value.decisionHash, t.seqNo, e);
    MaySettleIsExact(cfg, intents, s, t, e);
    if MaySettle(cfg, intents, s.ops, e, t) {
      SettlesWhen(cfg, intents, s, t, e);
      SettlesKnown(cfg, intents, s, t, e);
    }
  }

  lemma SettlesKnown(cfg: Config, intents: Intents, s: State, t: Sealed<Settlement>, e: Sealed<Decision>)
    requires MaySettle(cfg, intents, s.ops, e, t)
    ensures e.value.adapter != None && e.value.adapter.value in cfg.adapters
  {
    hide ReceiptProves, IntentJoins;
  }

  lemma SettlesWhen(cfg: Config, intents: Intents, s: State, t: Sealed<Settlement>, e: Sealed<Decision>)
    requires Sound(s) && MaySettle(cfg, intents, s.ops, e, t)
    ensures SettleBooks(s.books, t.value).Some? <==>
      t.value.ending == Commit || IsAt(s, t.value.operation.operationId, Phase.Authorized)
      || Books.OwnedBy(s.books, t.value.operation.operationId) == [] || t.value.basis == ResourceReceipt
  {
    hide Books.Conserves, Books.Owned, Lockstep, MaySettle, SettleBooks, SettlesBooks, Books.OwnedBy;
    SettlementPhase(cfg, intents, s.ops, e, t);
    SettleMovesReservations(s.ops, s.books, t.value);
  }

  lemma SettlementChanges(cfg: Config, intents: Intents, s: State, t: Sealed<Settlement>)
    requires Sound(s) && NextSettlement(cfg, intents, s, t).Some?
    ensures SettlesOnly(s, t.value, NextSettlement(cfg, intents, s, t).value)
  {
    hide Books.Conserves, Books.CeilingsKept, Books.Owned, Lockstep, Joined, MaySettle, SettleBooks, Moved, Books.OnlyMoves, Books.OwnedBy;
    var id, e := t.value.operation.operationId, Joined(s.ops, t.value.operation, t.value.decisionHash, t.seqNo).value;
    SettlementPhase(cfg, intents, s.ops, e, t);
    SettleMovesReservations(s.ops, s.books, t.value);
    OwnedAreMoved(s.books, NextSettlement(cfg, intents, s, t).value.books.reservations, id, StatusOf(PhaseAfter(t.value.ending)));
  }

  // ---------- authentications ----------

  /** An issuance is admitted at its own instant, through the adapter that its token names. */
  ghost predicate IssuedUnder(cfg: Config, a: Authentication, adm: Admission) {
    && a.kind == Issuance && a.operation == None
    && exists adapter ::
      && cfg.tokenAdapter(a.context.admissionToken) == Some(adapter) && adapter in cfg.adapters
      && cfg.admit(a.context.admissionToken, a.at, adapter) == Some(adm) && adm.adapter == Some(adapter)
  }

  /** Any other authentication names a decided operation, repeats its identity, and is admitted as its decision was. */
  ghost predicate AuthenticatesOperation(cfg: Config, s: State, e: Sealed<Authentication>, adm: Admission) {
    var a, context := e.value, e.value.context;
    && a.kind != Issuance
    && exists o: Operation, d: Sealed<Decision> ::
      && a.operation == Some(o) && RestsOn(s, o, d.hash, e.seqNo, d)
      && (context.domainId, context.ledgerId, context.pointId) == (o.domainId, o.ledgerId, o.pointId)
      && context.actorFingerprint == o.actorFingerprint
      && d.value.admissionToken == Some(context.admissionToken) && AdmittedAs(cfg, d.value, adm) && adm.adapter == d.value.adapter
  }

  lemma AuthenticationAdmissionIsExact(cfg: Config, s: State, e: Sealed<Authentication>, adm: Admission)
    ensures AuthenticationAdmission(cfg, s.ops, e) == Some(adm)
        && (e.value.kind.Issuance? <==> e.value.operation.None?)
        && (e.value.operation.Some? ==> ContextJoins(e.value.context, e.value.operation.value))
      <==> IssuedUnder(cfg, e.value, adm) || AuthenticatesOperation(cfg, s, e, adm)
  {
    hide AdaptedAdmission, AdmittedAs;
    if e.value.operation.Some? && e.value.operation.value.operationId in s.ops.decisions {
      var d := s.ops.decisions[e.value.operation.value.operationId];
      AdmissionIsExact(cfg, d.value, adm);
      assert RestsOn(s, e.value.operation.value, d.hash, e.seqNo, d) <==> d.seqNo < e.seqNo && d.value.operation == e.value.operation.value;
    }
  }

  /**
   The actor's proof, for exactly the request of the context, by the holder of the key that the context names; its nonce
   is the one identifier consumed, and is free.
   */
  ghost predicate IsAuthentication(cfg: Config, s: State, e: Sealed<Authentication>, adm: Admission, f: Fact) {
    var a := e.value;
    && (IssuedUnder(cfg, a, adm) || AuthenticatesOperation(cfg, s, e, adm))
    && a.requestHash == a.context.requestHash
    && (exists actor :: a.actorId == Some(actor)
          && ProvesHolder(cfg, adm, Holder(actor, a.proof, a.requestHash), cfg.ledgerId, a.at, f, a.context.actorFingerprint))
    && a.identifiers == [f] && (f.name in s.consumed ==> s.consumed[f.name] < a.at)
  }

  lemma AuthenticationFactIsExact(cfg: Config, a: Authentication, adm: Admission, f: Fact)
    ensures AuthenticationFact(cfg, a, adm) == Some(f) <==>
      && a.requestHash == a.context.requestHash
      && exists actor ::
        && a.actorId == Some(actor)
        && ProvesHolder(cfg, adm, Holder(actor, a.proof, a.requestHash), cfg.ledgerId, a.at, f, a.context.actorFingerprint)
  {
    hide HolderFact, ProvesHolder;
    if a.actorId.Some? && a.requestHash == a.context.requestHash {
      var holder := Holder(a.actorId.value, a.proof, a.requestHash);
      HolderFactIsExact(cfg, adm, holder, cfg.ledgerId, a.at, f, a.context.actorFingerprint);
    }
  }

  lemma SameFact(facts: seq<Fact>, f: Fact)
    requires ElementsOf(facts) == {f}
    ensures f in facts && forall g <- facts :: g == f
    ensures |facts| > 1 ==> facts[0].name == facts[1].name
  {
    assert forall g :: g in facts <==> g in ElementsOf(facts);
    assert forall i :: 0 <= i < |facts| ==> facts[i] in facts;
  }

  lemma OneFactConsumed(facts: seq<Fact>, f: Fact)
    ensures DistinctNames(facts) && ElementsOf(facts) == {f} <==> facts == [f]
  {
    if ElementsOf(facts) == {f} {
      SameFact(facts, f);
    }
    if facts == [f] {
      assert f in facts && ElementsOf(facts) == {f};
    }
  }

  lemma ProvedIsExact(cfg: Config, s: State, e: Sealed<Authentication>, adm: Admission, f: Fact)
    ensures
      && AuthenticationIsProved(cfg, s.ops, e) && AuthenticationAdmission(cfg, s.ops, e) == Some(adm)
      && AuthenticationFact(cfg, e.value, adm) == Some(f) && (f.name in s.consumed ==> s.consumed[f.name] < e.value.at)
      <==> IsAuthentication(cfg, s, e, adm, f)
  {
    hide AuthenticationAdmission, AuthenticationFact, IssuedUnder, AuthenticatesOperation, ProvesHolder, DistinctNames, ElementsOf;
    hide ContextJoins;
    AuthenticationAdmissionIsExact(cfg, s, e, adm);
    AuthenticationFactIsExact(cfg, e.value, adm, f);
    OneFactConsumed(e.value.identifiers, f);
  }

  /** An authentication is accepted exactly on its proof, and is kept when it may license a resume or a recovery. */
  lemma AuthenticationIsAcceptedExactly(cfg: Config, s: State, e: Sealed<Authentication>)
    ensures NextAuthentication(cfg, s, e).Some? <==> exists adm, f :: IsAuthentication(cfg, s, e, adm, f)
    ensures NextAuthentication(cfg, s, e).Some? ==>
      var f := e.value.identifiers;
      |f| == 1 &&
      NextAuthentication(cfg, s, e).value == s.(
        consumed := s.consumed[f[0].name := f[0].expires],
        auths := s.auths.(
          resumes := if e.value.kind == CounterpartyResume then s.auths.resumes[e.hash := e] else s.auths.resumes,
          reconciliations := if e.value.kind == ReconciliationKind then s.auths.reconciliations[e.hash := e] else s.auths.reconciliations))
  {
    hide AuthenticationAdmission, AuthenticationFact, IsAuthentication, ElementsOf, DistinctNames, ContextJoins;
    forall adm, f ensures
      && AuthenticationIsProved(cfg, s.ops, e) && AuthenticationAdmission(cfg, s.ops, e) == Some(adm)
      && AuthenticationFact(cfg, e.value, adm) == Some(f) && (f.name in s.consumed ==> s.consumed[f.name] < e.value.at)
      <==> IsAuthentication(cfg, s, e, adm, f)
    {
      ProvedIsExact(cfg, s, e, adm, f);
    }
    if AuthenticationIsProved(cfg, s.ops, e) {
      var adm := AuthenticationAdmission(cfg, s.ops, e).value;
      var f := AuthenticationFact(cfg, e.value, adm).value;
      OneFactConsumed(e.value.identifiers, f);
      assert [f][1..] == [];
      assert ConsumeAll(s.consumed, e.value.at, [f]) == ConsumeOne(s.consumed, e.value.at, f);
    }
  }

  // ---------- cancellations ----------

  /** The cancellation names its admission, a dispatch that only one admitted point signed, and that point's own active request. */
  ghost predicate IsCancellation(cfg: Config, c: Cancellation, identity: Identity) {
    exists adm, points: map<string, Point>, dispatch, request ::
      && c.adapter in cfg.adapters && cfg.admit(c.admissionToken, c.at, c.adapter) == Some(adm)
      && adm.currentSchema && adm.adapter == Some(c.adapter) && adm.points == Some(points)
      && (adm.domainId, adm.ledgerId, adm.pointId) == (c.domainId, c.ledgerId, c.pointId)
      && IsOnlySigner(cfg, c.foreignDispatch, points, identity.pointId, dispatch) && dispatch.operationId == identity.operationId
      && cfg.reconciliationVerifies(c.request, points[identity.pointId].publicKey) == Some(request)
      && request.verb == Cancel && cfg.cancellationJoins(request, dispatch) && request.issuedAt <= c.at < request.expiresAt
      && cfg.isText(c.request) && forall x <- c.request :: x as int <= 127
  }

  lemma CancelledThroughIsExact(cfg: Config, c: Cancellation, id: string, point: Point, dispatch: DispatchClaims, identity: Identity)
    requires PointDispatch(cfg, c.foreignDispatch, id, point) == Some(dispatch)
    ensures CancelledThrough(cfg, c, id, point) == Some(identity) <==>
      && identity == Identity(id, dispatch.operationId)
      && exists request ::
        && cfg.reconciliationVerifies(c.request, point.publicKey) == Some(request)
        && request.verb == Cancel && cfg.cancellationJoins(request, dispatch) && request.issuedAt <= c.at < request.expiresAt
        && cfg.isText(c.request) && forall x <- c.request :: x as int <= 127
  {
    PointDispatchIsExact(cfg, c.foreignDispatch, id, point, dispatch);
    hide PointDispatch;
  }

  lemma CancelledIdentityIsExact(cfg: Config, c: Cancellation, identity: Identity)
    ensures CancelledIdentity(cfg, c) == Some(identity) <==> IsCancellation(cfg, c, identity)
  {
    hide PointDispatch, IsOnlySigner, CancelledThrough, ForeignIdentity;
    if CancellingAdmission(cfg, c).Some? {
      var points := CancellingAdmission(cfg, c).value.points.value;
      forall id, claims ensures ForeignIdentity(cfg, c.foreignDispatch, points) == Some((id, claims))
                            <==> IsOnlySigner(cfg, c.foreignDispatch, points, id, claims)
      {
        ForeignIdentityIsExact(cfg, c.foreignDispatch, points, id, claims);
      }
      var selected := ForeignIdentity(cfg, c.foreignDispatch, points);
      if selected.Some? {
        var (id, dispatch) := selected.value;
        CancelledThroughIsExact(cfg, c, id, points[id], dispatch, identity);
      }
    }
  }

  /** A cancellation is accepted exactly when it is one of an operation that is neither cancelled nor fenced, and remembers that operation. */
  lemma CancellationIsAcceptedExactly(cfg: Config, s: State, e: Sealed<Cancellation>)
    ensures NextCancellation(cfg, s, e).Some? <==>
      exists identity :: IsCancellation(cfg, e.value, identity) && identity !in s.foreign.cancellations && identity !in s.foreign.fences
    ensures forall identity :: NextCancellation(cfg, s, e).Some? && IsCancellation(cfg, e.value, identity) ==>
      NextCancellation(cfg, s, e).value == s.(foreign := s.foreign.(cancellations := s.foreign.cancellations[identity := e]))
  {
    hide CancelledIdentity, IsCancellation;
    forall identity ensures CancelledIdentity(cfg, e.value) == Some(identity) <==> IsCancellation(cfg, e.value, identity) {
      CancelledIdentityIsExact(cfg, e.value, identity);
    }
    if CancelledIdentity(cfg, e.value).Some? {
      assert IsCancellation(cfg, e.value, CancelledIdentity(cfg, e.value).value);
    }
  }

  // ---------- decisions ----------

  predicate IsWellFormedOperation(cfg: Config, o: Operation) {
    && 1 <= |o.operationId| <= 128
    && (forall c <- o.operationId :: 'a' <= c <= 'z' || 'A' <= c <= 'Z' || '0' <= c <= '9' || c in "._:-")
    && cfg.isText(o.domainId) && cfg.isText(o.ledgerId) && cfg.isText(o.pointId) && cfg.isText(o.actorFingerprint)
    && |o.requestHash| == |o.payloadHash| == |o.bindingHash| == 64
    && forall c <- o.requestHash + o.payloadHash + o.bindingHash :: '0' <= c <= '9' || 'a' <= c <= 'f'
  }

  /** Different identifiers and reservations, accounts whose periods hold the decision's instant, and neither for a refusal. */
  ghost predicate IsWellFormedDecision(cfg: Config, d: Decision) {
    && d.adapter != None && d.adapter.value in cfg.adapters && IsWellFormedOperation(cfg, d.operation)
    && (forall i, j :: 0 <= i < j < |d.identifiers| ==> d.identifiers[i].name != d.identifiers[j].name)
    && (forall i, j :: 0 <= i < j < |d.accounts| ==> d.accounts[i].reservation != d.accounts[j].reservation)
    && (forall a <- d.accounts :: exists start ::
          cfg.clock(a.epoch) == Some(start) && a.durationMs > 0 && start <= d.at < After(start, a.durationMs, 1) <= MAX_INSTANT)
    && (d.state == IsRefused ==> d.identifiers == [] && d.accounts == [])
  }

  lemma OperationIsExact(cfg: Config, o: Operation)
    ensures ValidOperation(cfg.isText, o) <==> IsWellFormedOperation(cfg, o)
  {
    AllHex(o.requestHash + o.payloadHash, o.bindingHash);
    TwoDigests(o.requestHash, o.payloadHash);
    assert forall c :: c in "._:-" <==> c == '.' || c == '_' || c == ':' || c == '-';
    hide IsDigest;
  }

  lemma TwoDigests(x: string, y: string)
    ensures IsDigest(x) && IsDigest(y) <==> |x| == |y| == 64 && forall c <- x + y :: IsHex(c)
  {
    hide IsHex;
    assert forall c :: c in x + y <==> c in x || c in y;
  }

  lemma ConsumptionIsExact(cfg: Config, d: Decision)
    ensures IsKnownAdapter(cfg, d.adapter) && ValidConsumption(cfg, d) <==> IsWellFormedDecision(cfg, d)
  {
    hide ValidOperation, IsWellFormedOperation, After;
    OperationIsExact(cfg, d.operation);
    forall a | a in d.accounts ensures ValidAccountPeriod(cfg, d.at, a) <==> exists start ::
      cfg.clock(a.epoch) == Some(start) && a.durationMs > 0 && start <= d.at < After(start, a.durationMs, 1) <= MAX_INSTANT
    {
      AccountPeriodIsExact(cfg, d.at, a);
    }
    hide ValidAccountPeriod;
  }

  lemma AccountPeriodIsExact(cfg: Config, at: int, a: Account)
    ensures ValidAccountPeriod(cfg, at, a) <==> exists start ::
      cfg.clock(a.epoch) == Some(start) && a.durationMs > 0 && start <= at < After(start, a.durationMs, 1) <= MAX_INSTANT
  {
    if cfg.clock(a.epoch).Some? {
      OnePeriodAfter(cfg.clock(a.epoch).value, a.durationMs);
    }
    hide After;
  }

  /** A refusal is accepted exactly when it is well formed and the first decision on its operation. */
  lemma RefusalIsAcceptedExactly(cfg: Config, s: State, e: Sealed<Decision>)
    requires e.value.state == IsRefused
    ensures NextDecision(cfg, s, e).Some? <==> IsWellFormedDecision(cfg, e.value) && e.value.operation.operationId !in s.ops.decisions
    ensures NextDecision(cfg, s, e).Some? ==>
      var id := e.value.operation.operationId;
      NextDecision(cfg, s, e).value
        == s.(ops := s.ops.(decisions := s.ops.decisions[id := e], phases := s.ops.phases[id := Phase.Refused]))
  {
    ConsumptionIsExact(cfg, e.value);
    hide ValidConsumption, IsWellFormedDecision;
  }

  /** The identifiers are exactly the fact of the decision's own proof or dispatch, and one for each approval, which all verify. */
  ghost predicate DeclaresItsFacts(cfg: Config, d: Decision, adm: Admission) {
    && d.approvals != None
    && (forall t <- d.approvals.value :: exists f :: StatesApproval(cfg, adm, d.fingerprint, t, f))
    && exists own ::
      && StatesOwn(cfg, d, adm, own)
      && forall f :: f in d.identifiers <==> f == own || exists t <- d.approvals.value :: StatesApproval(cfg, adm, d.fingerprint, t, f)
  }

  lemma DeclarationIsExact(cfg: Config, d: Decision, adm: Admission)
    ensures ExpectedFacts(cfg, d, adm) == Some(ElementsOf(d.identifiers)) <==> DeclaresItsFacts(cfg, d, adm)
  {
    ExpectedFactsExactly(cfg, d, adm, ElementsOf(d.identifiers));
    assert forall f :: f in ElementsOf(d.identifiers) <==> f in d.identifiers;
    hide ExpectedFacts, StatesOwn, StatesApproval, ElementsOf;
  }

  /** The decision has no foreign dispatch, or one that a single admitted point signed for this operation. */
  ghost predicate Serves(cfg: Config, d: Decision, adm: Admission, served: Option<Identity>) {
    match served
    case None => d.foreign == NoForeign
    case Some(identity) =>
      exists raw, points: map<string, Point>, claims ::
        && d.foreign == ForeignToken(raw) && adm.points == Some(points)
        && IsOnlySigner(cfg, raw, points, identity.pointId, claims) && claims.operationId == identity.operationId
  }

  lemma ServedIsExact(cfg: Config, d: Decision, adm: Admission, identity: Identity)
    ensures AuthorizedIdentity(cfg, adm, d) == Some(identity) <==> Serves(cfg, d, adm, Some(identity))
  {
    hide IsOnlySigner, ForeignIdentity;
    if d.foreign.ForeignToken? && adm.points.Some? {
      forall id, claims ensures ForeignIdentity(cfg, d.foreign.raw, adm.points.value) == Some((id, claims))
                            <==> IsOnlySigner(cfg, d.foreign.raw, adm.points.value, id, claims)
      {
        ForeignIdentityIsExact(cfg, d.foreign.raw, adm.points.value, id, claims);
      }
      var selected := ForeignIdentity(cfg, d.foreign.raw, adm.points.value);
      if selected.Some? {
        assert IsOnlySigner(cfg, d.foreign.raw, adm.points.value, selected.value.0, selected.value.1);
      }
    }
  }

  /**
   The authority check and the admission hold, the identifiers are exactly those of the evidence and free, the dispatch it
   serves is not cancelled, and its accounts are those that its chain requires, new, and with room below every ceiling.
   */
  ghost predicate IsAuthorization(cfg: Config, s: State, e: Sealed<Decision>, adm: Admission, served: Option<Identity>) {
    var d := e.value;
    && IsWellFormedDecision(cfg, d) && d.operation.operationId !in s.ops.decisions
    && cfg.authority(e) && AdmittedAs(cfg, d, adm) && adm.adapter == d.adapter
    && DeclaresItsFacts(cfg, d, adm) && (forall f <- d.identifiers :: f.name in s.consumed ==> s.consumed[f.name] < d.at)
    && Serves(cfg, d, adm, served) && (served != None ==> served.value !in s.foreign.cancellations)
    && d.chain != None && IsPaid(cfg.clock, cfg.callRules, d.at, d.chain.value, d.action, d.boundary, d.call, d.accounts)
    && (forall a <- d.accounts :: a.reservation !in s.books.reservations) && Fits(s.books, d.accounts)
  }

  lemma AuthorizationOnEvidence(cfg: Config, s: State, e: Sealed<Decision>, adm: Admission, served: Option<Identity>)
    requires e.value.state == IsAuthorized
    ensures
      && NextDecision(cfg, s, e).Some? && AdaptedAdmission(cfg, e.value) == Some(adm)
      && served == (if e.value.foreign.NoForeign? then None else AuthorizedIdentity(cfg, adm, e.value))
      && (served.None? ==> e.value.foreign.NoForeign?)
      <==> IsAuthorization(cfg, s, e, adm, served)
  {
    hide NextDecision, IsKnownAdapter, ValidConsumption, AdaptedAdmission, AdmittedAs, ExpectedFacts, ElementsOf, DeclaresItsFacts;
    hide AuthorizedIdentity, IsOnlySigner, Accounted, IsPaid, Fits, IsWellFormedDecision, StatesOwn, StatesApproval;
    AuthorizationAcceptedExactly(cfg, s, e);
    ConsumptionIsExact(cfg, e.value);
    AdmissionIsExact(cfg, e.value, adm);
    DeclarationIsExact(cfg, e.value, adm);
    if served.Some? {
      ServedIsExact(cfg, e.value, adm, served.value);
    }
    hide Serves;
    if e.value.chain.Some? {
      var d := e.value;
      DecisionDebitsExactly(cfg.clock, cfg.callRules, d.at, d.chain.value, d.action, d.boundary, d.call, d.accounts);
    }
  }

  /** Each account opens its one reservation, on its own key; the reservations before stay as they were, and all totals add up. */
  ghost predicate ChargesOnly(before: Books.Books, after: Books.Books, operationId: string, accounts: seq<Account>) {
    && (forall r <- before.reservations :: r in after.reservations && after.reservations[r] == before.reservations[r])
    && (forall r <- after.reservations :: r in before.reservations || exists a <- accounts :: a.reservation == r)
    && (forall a <- accounts :: a.reservation in after.reservations && after.reservations[a.reservation] == Opened(a, operationId))
    && Books.CeilingsKept(before, after) && Books.Conserves(after)
  }

  /** The key of an ordinary account is its delegation, that of a shared one the shared entry; the rest is as the account states it. */
  function Opened(a: Account, operationId: string): Books.Reservation {
    Books.Reservation(
      key := Books.Key(
        owner := match a.entry { case Some(entry) => entry case None => a.jti }, shared := a.entry != None,
        kind := a.kind, unit := a.unit, epoch := a.epoch, durationMs := a.durationMs),
      amount := a.amount, owner := operationId, status := Books.Authorized)
  }

  ghost predicate AuthorizesOnly(s: State, e: Sealed<Decision>, served: Option<Identity>, after: State) {
    var id := e.value.operation.operationId;
    && after.ops == s.ops.(decisions := s.ops.decisions[id := e], phases := s.ops.phases[id := Phase.Authorized])
    && after.auths == s.auths && Recorded(s.consumed, after.consumed, e.value.identifiers)
    && after.foreign == s.foreign.(authorizations :=
         match served { case Some(identity) => s.foreign.authorizations[id := identity] case None => s.foreign.authorizations })
    && ChargesOnly(s.books, after.books, id, e.value.accounts)
  }

  lemma ChargingChanges(b: Books.Books, operationId: string, accounts: seq<Account>)
    requires Books.Conserves(b) && Books.Owned(b) && Books.ChargeAll(b, operationId, accounts).Some?
    ensures ChargesOnly(b, Books.ChargeAll(b, operationId, accounts).value, operationId, accounts)
  {
    hide Books.ChargeAll, Books.Conserves, Books.Owned, Books.CeilingsKept, AreNew, Fits;
    var c := Books.ChargeAll(b, operationId, accounts).value;
    ChargeRecords(b, operationId, accounts);
    ChargeAddsAccounts(b, operationId, accounts);
    Books.ChargeAllConserves(b, operationId, accounts);
    Books.ChargeAllAdds(b, operationId, accounts);
    ChargeAcceptedExactly(b, operationId, accounts);
    NewAreOpened(b, c, operationId, accounts);
  }

  lemma NewAreOpened(b: Books.Books, c: Books.Books, operationId: string, accounts: seq<Account>)
    requires AreNew(b, accounts) && Books.OnlyAdds(b, c, operationId)
    requires forall a <- accounts :: IsCharged(c, operationId, a)
    ensures forall a <- accounts :: a.reservation in c.reservations && c.reservations[a.reservation] == Opened(a, operationId)
  {
  }

  lemma AuthorizationChanges(cfg: Config, s: State, e: Sealed<Decision>, adm: Admission, served: Option<Identity>)
    requires Sound(s) && e.value.state == IsAuthorized
    requires NextDecision(cfg, s, e).Some? && AdaptedAdmission(cfg, e.value) == Some(adm)
    requires served == (if e.value.foreign.NoForeign? then None else AuthorizedIdentity(cfg, adm, e.value))
    ensures AuthorizesOnly(s, e, served, NextDecision(cfg, s, e).value)
  {
    hide AdaptedAdmission, AuthorizedIdentity, ExpectedFacts, AccountsAreExact, Books.ChargeAll, ConsumeAll, ChargesOnly, Recorded;
    hide Books.Conserves, Books.Owned, Lockstep, ValidOperation, ValidAccountPeriod, DistinctNames, DistinctReservations;
    assert ValidConsumption(cfg, e.value);
    ConsumeAllChecks(s.consumed, e.value.at, e.value.identifiers);
    ChargingChanges(s.books, e.value.operation.operationId, e.value.accounts);
  }

  /** An authorization is accepted exactly when it is one in the sense above, and changes only what it declares. */
  lemma AuthorizationIsAcceptedExactly(cfg: Config, s: State, e: Sealed<Decision>)
    requires e.value.state == IsAuthorized
    ensures NextDecision(cfg, s, e).Some? <==> exists adm, served :: IsAuthorization(cfg, s, e, adm, served)
    ensures Sound(s) ==> forall adm, served :: IsAuthorization(cfg, s, e, adm, served) ==>
      NextDecision(cfg, s, e).Some? && AuthorizesOnly(s, e, served, NextDecision(cfg, s, e).value)
  {
    hide NextDecision, IsAuthorization, AdaptedAdmission, AuthorizedIdentity, ValidConsumption, ExpectedFacts, AccountsAreExact, IsFree;
    hide Sound, AuthorizesOnly;
    forall adm, served ensures
      && NextDecision(cfg, s, e).Some? && AdaptedAdmission(cfg, e.value) == Some(adm)
      && served == (if e.value.foreign.NoForeign? then None else AuthorizedIdentity(cfg, adm, e.value))
      && (served.None? ==> e.value.foreign.NoForeign?)
      <==> IsAuthorization(cfg, s, e, adm, served)
    {
      AuthorizationOnEvidence(cfg, s, e, adm, served);
    }
    AuthorizationAcceptedExactly(cfg, s, e);
    if NextDecision(cfg, s, e).Some? {
      var adm := AdaptedAdmission(cfg, e.value).value;
      var served := if e.value.foreign.NoForeign? then None else AuthorizedIdentity(cfg, adm, e.value);
      assert IsAuthorization(cfg, s, e, adm, served);
      if Sound(s) {
        AuthorizationChanges(cfg, s, e, adm, served);
      }
    }
  }

  // ---------- the rest ----------

  /** A decision without consumption evidence passes only as a refusal through a known adapter that no intent refers to. */
  lemma LegacyIsAcceptedExactly(cfg: Config, intents: Intents, s: State, r: Record)
    requires r.value.Legacy?
    ensures Next(cfg, intents, s, r) == Some(s) <==>
      && r.value.legacy.adapter != None && r.value.legacy.adapter.value in cfg.adapters && !r.value.legacy.saysAllow
      && forall hash <- intents :: intents[hash].value.decisionSeq != r.seqNo
    ensures Next(cfg, intents, s, r) in {Some(s), None}
  {
  }

  /** The last intent of the prefix with this digest as its record hash. */
  predicate IsLastIntent(rs: seq<Record>, i: nat, hash: string) {
    && i < |rs| && rs[i].value.Intended? && rs[i].hash == hash
    && |hash| == 64 && (forall c <- hash :: '0' <= c <= '9' || 'a' <= c <= 'f')
    && forall j :: i < j < |rs| && rs[j].value.Intended? ==> rs[j].hash != hash
  }

  lemma {:induction false} IntentsAreTheLast(rs: seq<Record>, hash: string, e: Sealed<Intent>)
    ensures hash in IntentsOf(rs) && IntentsOf(rs)[hash] == e <==>
      exists i: nat :: IsLastIntent(rs, i, hash) && e == Sealed(rs[i].seqNo, hash, rs[i].value.intent)
  {
    if rs != [] {
      var front, r := rs[..|rs| - 1], rs[|rs| - 1];
      IntentsAreTheLast(front, hash, e);
      if r.value.Intended? && IsDigest(r.hash) && r.hash == hash {
        assert IsLastIntent(rs, |rs| - 1, hash);
      } else {
        forall i: nat | i < |front| ensures IsLastIntent(rs, i, hash) <==> IsLastIntent(front, i, hash) {
          SameLastIntent(rs, i, hash);
        }
      }
    }
  }

  lemma SameLastIntent(rs: seq<Record>, i: nat, hash: string)
    requires i < |rs| - 1
    requires var r := rs[|rs| - 1]; !(r.value.Intended? && IsDigest(r.hash) && r.hash == hash)
    ensures IsLastIntent(rs, i, hash) <==> IsLastIntent(rs[..|rs| - 1], i, hash)
  {
    var front := rs[..|rs| - 1];
    assert forall j :: 0 <= j < |front| ==> front[j] == rs[j];
  }

  /** A prefix is accepted exactly when its run is, and its legacy decisions are dry runs, or neither allow nor have an intent. */
  lemma PrefixIsAcceptedExactly(cfg: Config, rs: seq<Record>)
    ensures Accepts(cfg, rs) <==>
      && Run(cfg, IntentsOf(rs), rs).Some?
      && forall r <- rs :: r.value.Legacy? && !r.value.legacy.dryRun ==>
        !r.value.legacy.allows && forall hash <- IntentsOf(rs) :: IntentsOf(rs)[hash].value.decisionSeq != r.seqNo
  {
    hide Run, IntentsOf;
  }
}
