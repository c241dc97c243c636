/** What a record has to show before it may move an operation of the replay to its next phase. */
module Lifecycle {
  import opened Prelude
  import opened Matching
  import opened Evidence
  import opened OneTime

  datatype Phase = Refused | Authorized | Fenced | Pending | Released | Committed

  type Intents = map<string, Sealed<Intent>>

  datatype Operations = Operations(
    decisions: map<string, Sealed<Decision>>,
    phases: map<string, Phase>,
    fences: map<string, Fence>,
    pending: map<string, Sealed<Transport>>,
    recovered: map<string, Recovery>)

  const NO_OPERATIONS: Operations := Operations(map[], map[], map[], map[], map[])

  datatype Authentications = Authentications(
    resumes: map<string, Sealed<Authentication>>,
    reconciliations: map<string, Sealed<Authentication>>,
    usedForResume: set<string>,
    usedForRecovery: set<string>)

  const NO_AUTHENTICATIONS: Authentications := Authentications(map[], map[], {}, {})

  function PhaseOf(ops: Operations, operationId: string): Option<Phase> {
    if operationId in ops.phases then Some(ops.phases[operationId]) else None
  }

  // ---------- decisions ----------

  predicate ValidAccountPeriod(cfg: Config, at: int, a: Account) {
    && cfg.clock(a.epoch).Some? && a.durationMs > 0
    && var start := cfg.clock(a.epoch).value;
    start + 1000 * a.durationMs <= MAX_INSTANT && start <= at < start + 1000 * a.durationMs
  }

  predicate DistinctReservations(accounts: seq<Account>) {
    forall i, j :: 0 <= i < j < |accounts| ==> accounts[i].reservation != accounts[j].reservation
  }

  /** The consumption block of a decision is well formed. */
  predicate ValidConsumption(cfg: Config, d: Decision) {
    && ValidOperation(cfg.isText, d.operation)
    && DistinctNames(d.identifiers) && DistinctReservations(d.accounts)
    && (forall a <- d.accounts :: ValidAccountPeriod(cfg, d.at, a))
    && (d.state.IsRefused? ==> d.identifiers == [] && d.accounts == [])
  }

  /** The admission that a decision rests on, verified at the instant of the decision. */
  function DecisionAdmission(cfg: Config, d: Decision): Option<Admission> {
    var adapter :- d.adapter;
    var token :- d.admissionToken;
    if adapter !in cfg.adapters then None else cfg.admit(token, d.at, adapter)
  }

  function AdaptedAdmission(cfg: Config, d: Decision): Option<Admission> {
    var adm :- DecisionAdmission(cfg, d);
    if adm.adapter == d.adapter then Some(adm) else None
  }

  predicate AccountsAreExact(cfg: Config, d: Decision) {
    d.chain.Some? && Accounted(cfg.clock, cfg.callRules, d.at, d.chain.value, d.action, d.boundary, d.call, d.accounts)
  }

  function Decide(ops: Operations, e: Sealed<Decision>): Operations {
    var id := e.value.operation.operationId;
    ops.(decisions := ops.decisions[id := e],
         phases := ops.phases[id := if e.value.state.IsAuthorized? then Authorized else Refused])
  }

  // ---------- what each record writes down ----------

  function FencedBy(ops: Operations, f: Fence): Operations {
    var id := f.operation.operationId;
    ops.(phases := ops.phases[id := Fenced], fences := ops.fences[id := f])
  }

  function SuspendedBy(ops: Operations, t: Sealed<Transport>): Operations {
    var id := t.value.operation.operationId;
    ops.(phases := ops.phases[id := Pending], pending := ops.pending[id := t])
  }

  function ResumedBy(ops: Operations, t: Transport): Operations {
    var id := t.operation.operationId;
    ops.(phases := ops.phases[id := Fenced], pending := ops.pending - {id})
  }

  function RecoveredBy(ops: Operations, r: Recovery): Operations {
    ops.(recovered := ops.recovered[r.operation.operationId := r])
  }

  function PhaseAfter(ending: Ending): Phase {
    if ending.Release? then Released else Committed
  }

  function SettledBy(ops: Operations, s: Settlement): Operations {
    ops.(phases := ops.phases[s.operation.operationId := PhaseAfter(s.ending)])
  }

  // ---------- joins ----------

  /** The decision that a lifecycle record belongs to. */
  function Joined(ops: Operations, operation: Operation, decisionHash: string, seqNo: nat): Option<Sealed<Decision>> {
    var id := operation.operationId;
    if id !in ops.decisions then None
    else
      var e := ops.decisions[id];
      if e.seqNo < seqNo && e.value.operation == operation && e.hash == decisionHash then Some(e) else None
  }

  predicate IntentJoins(intents: Intents, hash: string, e: Sealed<Decision>, operation: Operation, seqNo: nat) {
    && hash in intents && intents[hash].seqNo < seqNo
    && intents[hash].value.decisionSeq == e.seqNo && intents[hash].value.operation == Some(operation)
  }

  // ---------- authentications ----------

  predicate ContextJoins(context: AuthenticationContext, operation: Operation) {
    && context.domainId == operation.domainId && context.ledgerId == operation.ledgerId
    && context.pointId == operation.pointId && context.actorFingerprint == operation.actorFingerprint
  }

  predicate ValidAuthentication(a: Authentication) {
    && (a.kind.Issuance? <==> a.operation.None?)
    && (a.operation.Some? ==> ContextJoins(a.context, a.operation.value))
    && DistinctNames(a.identifiers)
  }

  /** An issuance is admitted now, through the adapter its token names; anything else as its original operation was. */
  function AuthenticationAdmission(cfg: Config, ops: Operations, e: Sealed<Authentication>): Option<Admission> {
    var a := e.value;
    if a.operation.None? then
      var adapter :- cfg.tokenAdapter(a.context.admissionToken);
      if adapter !in cfg.adapters then None
      else
        var adm :- cfg.admit(a.context.admissionToken, a.at, adapter);
        if adm.adapter == Some(adapter) then Some(adm) else None
    else if a.operation.value.operationId !in ops.decisions then None
    else
      var original := ops.decisions[a.operation.value.operationId];
      if original.seqNo < e.seqNo && original.value.operation == a.operation.value
        && original.value.admissionToken == Some(a.context.admissionToken)
      then AdaptedAdmission(cfg, original.value) else None
  }

  /** The one fact that an authentication has to consume. */
  function AuthenticationFact(cfg: Config, a: Authentication, adm: Admission): Option<Fact> {
    var actor :- a.actorId;
    if a.requestHash != a.context.requestHash then None
    else
      var fact :- HolderFact(cfg, adm, Holder(actor, a.proof, a.context.requestHash), cfg.ledgerId, a.at);
      if fact.1 == a.context.actorFingerprint then Some(fact.0) else None
  }

  function ElementsOf(facts: seq<Fact>): set<Fact> {
    set f | f in facts
  }

  predicate AuthenticationIsProved(cfg: Config, ops: Operations, e: Sealed<Authentication>) {
    && ValidAuthentication(e.value)
    && AuthenticationAdmission(cfg, ops, e).Some?
    && var fact := AuthenticationFact(cfg, e.value, AuthenticationAdmission(cfg, ops, e).value);
    fact.Some? && ElementsOf(e.value.identifiers) == {fact.value}
  }

  function Retain(auths: Authentications, e: Sealed<Authentication>): Authentications {
    match e.value.kind
    case CounterpartyResume => auths.(resumes := auths.resumes[e.hash := e])
    case ReconciliationKind => auths.(reconciliations := auths.reconciliations[e.hash := e])
    case _ => auths
  }

  /** An earlier authentication of the same operation that has not been used yet. */
  predicate IsFresh(kept: map<string, Sealed<Authentication>>, used: set<string>, hash: string, operation: Operation, seqNo: nat) {
    && hash in kept && kept[hash].seqNo < seqNo && kept[hash].value.operation == Some(operation)
    && hash !in used
  }

  // ---------- fences ----------

  predicate ClaimsJoinOperation(c: DispatchClaims, o: Operation) {
    && c.domainId == o.domainId && c.ledgerId == o.ledgerId && c.pointId == o.pointId && c.operationId == o.operationId
    && c.requestHash == o.requestHash && c.payloadHash == o.payloadHash && c.bindingHash == o.bindingHash
  }

  predicate MayFence(cfg: Config, intents: Intents, ops: Operations, e: Sealed<Decision>, f: Sealed<Fence>) {
    var fence := f.value;
    && fence.claims.payloadHash == fence.operation.payloadHash
    && IntentJoins(intents, fence.intentHash, e, fence.operation, f.seqNo)
    && (fence.token.Some? ==>
          && ClaimsJoinOperation(fence.claims, fence.operation)
          && fence.claims.authorizedAt.Some? && fence.claims.notAfter.Some?
          && cfg.payload(e.value, fence.claims).Some?)
    && PhaseOf(ops, fence.operation.operationId) == Some(Authorized)
  }

  // ---------- recoveries ----------

  predicate MayRecover(cfg: Config, ops: Operations, auths: Authentications, e: Sealed<Decision>, r: Sealed<Recovery>) {
    var id := r.value.operation.operationId;
    && r.value.operation.pointId == cfg.pointId
    && id in ops.fences && (PhaseOf(ops, id) == Some(Fenced) || PhaseOf(ops, id) == Some(Pending))
    && r.value.intentHash == ops.fences[id].intentHash
    && IsFresh(auths.reconciliations, auths.usedForRecovery, r.value.authenticationHash, r.value.operation, r.seqNo)
    && RecoveryIsSigned(cfg, e.value, ops.fences[id], r.value)
    && id !in ops.recovered
  }

  predicate RecoveryIsSigned(cfg: Config, d: Decision, f: Fence, r: Recovery) {
    && f.token.Some? && VerifiedDispatch(cfg, f.token.value, cfg.pointKey) == Some(f.claims)
    && var request := cfg.reconciliationVerifies(r.request, cfg.pointKey);
    && request.Some? && !request.value.verb.OtherVerb? && cfg.reconciliationJoins(request.value, f.claims)
    && request.value.issuedAt <= r.at < request.value.expiresAt
    && var adm := DecisionAdmission(cfg, d);
    && adm.Some? && adm.value.outcomeKey.Some?
    && var outcome := cfg.outcomeVerifies(r.outcome, adm.value.outcomeKey.value);
    outcome.Some? && cfg.outcomeJoins(outcome.value, f.claims)
  }

  // ---------- pending and resumed dispatches ----------

  predicate ValidTransport(cfg: Config, t: Transport) {
    && cfg.sha(t.token) == t.foreignDispatchHash && cfg.sha(t.body) == t.bodyHash
    && t.claims.payloadHash == t.operation.payloadHash
  }

  predicate HashesJoin(cfg: Config, t: Transport) {
    cfg.descriptorHash(t.claims) == Some(t.descriptorHash) && cfg.operationHash(t.operation) == t.operationHash
  }

  /** The transport states the fenced dispatch. */
  predicate StatesFence(t: Transport, f: Fence) {
    t.decisionHash == f.decisionHash && t.intentHash == f.intentHash && Some(t.token) == f.token && t.claims == f.claims
  }

  /** Two transports agree in everything that a resume may not change. */
  predicate SameTransport(t: Transport, u: Transport) {
    && t.decisionHash == u.decisionHash && t.intentHash == u.intentHash && t.token == u.token && t.claims == u.claims
    && t.foreignDispatchHash == u.foreignDispatchHash && t.descriptorHash == u.descriptorHash
    && t.operationHash == u.operationHash && t.body == u.body && t.bodyHash == u.bodyHash
  }

  predicate IsAcknowledged(cfg: Config, d: Decision, t: Transport, state: AckState, resume: Option<ResumeExpectation>) {
    && HashesJoin(cfg, t)
    && var adm := DecisionAdmission(cfg, d);
    && adm.Some? && adm.value.outcomeKey.Some?
    && t.claims.notAfter.Some? && cfg.clock(t.claims.notAfter.value).Some?
    && cfg.ackVerifies(
         t.ack,
         AckExpectation(
           adm.value.outcomeKey.value,
           state,
           t.foreignDispatchHash,
           t.descriptorHash,
           t.operationHash,
           t.bodyHash,
           cfg.clock(t.claims.notAfter.value).value,
           t.at,
           resume))
  }

  predicate MayPend(cfg: Config, ops: Operations, e: Sealed<Decision>, t: Transport) {
    var id := t.operation.operationId;
    && ValidTransport(cfg, t)
    && id in ops.fences && PhaseOf(ops, id) == Some(Fenced) && StatesFence(t, ops.fences[id])
    && IsAcknowledged(cfg, e.value, t, AwaitingReview, None)
  }

  predicate RequestsResume(cfg: Config, a: Authentication, r: Resume) {
    && a.resume.Some?
    && var q := a.resume.value;
    && q.operationId == r.transport.operation.operationId
    && q.originalRequestHash == r.transport.operation.requestHash
    && q.ack == r.transport.ack
    && q.context != "" && cfg.sha(q.context) == r.contextHash && q.approval != ""
  }

  predicate MayResume(cfg: Config, ops: Operations, auths: Authentications, e: Sealed<Decision>, r: Sealed<Resume>) {
    var t := r.value.transport;
    var id := t.operation.operationId;
    && ValidTransport(cfg, t)
    && id in ops.fences && PhaseOf(ops, id) == Some(Pending)
    && id in ops.pending && ops.pending[id].hash == r.value.pendingHash
    && SameTransport(t, ops.pending[id].value)
    && IsFresh(auths.resumes, auths.usedForResume, r.value.authenticationHash, t.operation, r.seqNo)
    && RequestsResume(cfg, auths.resumes[r.value.authenticationHash].value, r.value)
    && IsAcknowledged(cfg, e.value, t, AwaitingApproval,
                      Some(ResumeExpectation(r.value.contextHash, r.value.requestFingerprint, r.value.escalationHash)))
  }

  // ---------- settlements ----------

  predicate ValidSettlement(s: Settlement) {
    if s.basis.ResourceReceipt? then s.outcome.Some? && s.outcome.value != ""
    else s.outcome.None? && s.ending.Release?
  }

  predicate IsPreFenceRelease(ops: Operations, s: Settlement) {
    PhaseOf(ops, s.operation.operationId) == Some(Authorized) && s.ending.Release? && s.basis.DurableNoDispatch?
  }

  predicate ClosesFence(ops: Operations, s: Settlement) {
    var id := s.operation.operationId;
    && id in ops.fences
    && (PhaseOf(ops, id) == Some(Fenced) || (id in ops.recovered && PhaseOf(ops, id) == Some(Pending)))
    && s.intentHash == Some(ops.fences[id].intentHash)
    && (id in ops.recovered ==> s.basis.ResourceReceipt? && s.outcome == Some(ops.recovered[id].outcome))
  }

  predicate AcceptedInTime(cfg: Config, claims: DispatchClaims, acceptedAt: int) {
    && claims.authorizedAt.Some? && claims.notAfter.Some?
    && cfg.clock(claims.authorizedAt.value).Some? && cfg.clock(claims.notAfter.value).Some?
    && cfg.clock(claims.authorizedAt.value).value <= acceptedAt < cfg.clock(claims.notAfter.value).value
  }

  /** The outcome of a receipt, as the admitted resource signed it. */
  function ReceiptOutcome(cfg: Config, d: Decision, s: Settlement): Option<Outcome> {
    var adm :- AdaptedAdmission(cfg, d);
    var key :- adm.outcomeKey;
    var receipt :- s.outcome;
    cfg.outcomeVerifies(receipt, key)
  }

  predicate ReceiptProves(cfg: Config, d: Decision, f: Fence, s: Settlement) {
    var outcome, payload := ReceiptOutcome(cfg, d, s), cfg.payload(d, f.claims);
    && outcome.Some? && payload.Some? && cfg.outcomeJoins(outcome.value, f.claims)
    && (outcome.value.acceptedAt.Some? ==> AcceptedInTime(cfg, f.claims, outcome.value.acceptedAt.value))
    && (if s.ending.Commit? then
          && outcome.value.status.OutcomeCommitted?
          && (f.claims.profile.RecordEgress? ==>
                && payload.value.Some? && outcome.value.recordCount == Some(payload.value.value.count)
                && outcome.value.recordsHash == Some(payload.value.value.hash))
        else outcome.value.status.NotExecuted?)
  }

  predicate MaySettle(cfg: Config, intents: Intents, ops: Operations, e: Sealed<Decision>, s: Sealed<Settlement>) {
    var id := s.value.operation.operationId;
    && ValidSettlement(s.value)
    && (if IsPreFenceRelease(ops, s.value) then
          s.value.intentHash.Some? ==> IntentJoins(intents, s.value.intentHash.value, e, s.value.operation, s.seqNo)
        else ClosesFence(ops, s.value))
    && e.value.adapter.Some? && e.value.adapter.value in cfg.adapters
    && (s.value.basis.ResourceReceipt? ==> id in ops.fences && ReceiptProves(cfg, e.value, ops.fences[id], s.value))
    && (s.value.ending.Commit? ==> id in ops.fences && ops.fences[id].token.Some?)
  }
}
