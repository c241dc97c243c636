/** The retained records that the replay reads, and everything outside the replay that it consults. */
module Evidence {
  import opened Prelude
  import opened Claims
  import opened Matching

  /** A strict operation descriptor. */
  datatype Operation = Operation(
    operationId: string,
    domainId: string,
    ledgerId: string,
    pointId: string,
    actorFingerprint: string,
    requestHash: string,
    payloadHash: string,
    bindingHash: string)

  const OPERATION_ID_LENGTH := 128

  predicate IsOperationIdChar(c: char) {
    'a' <= c <= 'z' || 'A' <= c <= 'Z' || '0' <= c <= '9' || c == '.' || c == '_' || c == ':' || c == '-'
  }

  /** `isText` says which texts are nonempty and carry no white space around them. */
  predicate ValidOperation(isText: string -> bool, o: Operation) {
    && 1 <= |o.operationId| <= OPERATION_ID_LENGTH && (forall c <- o.operationId :: IsOperationIdChar(c))
    && isText(o.domainId) && isText(o.ledgerId) && isText(o.pointId) && isText(o.actorFingerprint)
    && IsDigest(o.requestHash) && IsDigest(o.payloadHash) && IsDigest(o.bindingHash)
  }

  datatype Namespace = ActorNonce | ForeignDispatch | Approval | OtherNamespace(text: string)

  /** What a one-time identifier is filed under. */
  datatype Name = Name(space: Namespace, text: string)

  /** A one-time identifier and the instant after which it may be used again. */
  datatype Fact = Fact(name: Name, expires: int)

  datatype Proof = Proof(issuedAt: string, content: string)

  /** A holder proof with the actor it is for and the hash of the request that it signs. */
  datatype Holder = Holder(actorId: string, proof: Proof, requestHash: string)

  /** Claims of a signed dispatch; `rest` holds every further field, and absent text reads as empty. */
  datatype DispatchClaims = DispatchClaims(
    domainId: string,
    ledgerId: string,
    pointId: string,
    operationId: string,
    requestHash: string,
    payloadHash: string,
    bindingHash: string,
    resourceId: string,
    profile: Profile,
    consentHash: Option<string>,
    nestsDependency: bool,
    authorizedAt: Option<string>,
    notAfter: Option<string>,
    rest: string)

  /** A record of the ledger prefix with its number and hash. */
  datatype Sealed<+T> = Sealed(seqNo: nat, hash: string, value: T)

  datatype ForeignEvidence = NoForeign | ForeignToken(raw: string) | MalformedForeign

  datatype DecisionState = IsAuthorized | IsRefused

  /** A decision with consumption evidence. `chain` is None when a delegation of the chain cannot be parsed. */
  datatype Decision = Decision(
    adapter: Option<string>,
    at: int,
    state: DecisionState,
    operation: Operation,
    identifiers: seq<Fact>,
    accounts: seq<Account>,
    admissionToken: Option<string>,
    foreign: ForeignEvidence,
    holder: Option<Holder>,
    approvals: Option<seq<string>>,
    fingerprint: string,
    chain: Option<seq<Delegation>>,
    action: string,
    boundary: string,
    call: Call)

  /** A decision from before consumption evidence. */
  datatype LegacyDecision = LegacyDecision(adapter: Option<string>, saysAllow: bool, allows: bool, dryRun: bool)

  datatype Intent = Intent(operation: Option<Operation>, decisionSeq: int)

  datatype Cancellation = Cancellation(
    at: int,
    adapter: string,
    domainId: string,
    ledgerId: string,
    pointId: string,
    admissionToken: string,
    foreignDispatch: string,
    request: string)

  datatype AuthenticationKind = Retry | ReconciliationKind | Issuance | CounterpartyResume

  datatype ResumeRequest = ResumeRequest(
    operationId: string, originalRequestHash: string, ack: string, context: string, approval: string)

  datatype AuthenticationContext = AuthenticationContext(
    domainId: string,
    ledgerId: string,
    pointId: string,
    actorFingerprint: string,
    requestHash: string,
    admissionToken: string)

  /** `resume` is the request when it has exactly the fields and the kind of a resume request. */
  datatype Authentication = Authentication(
    operation: Option<Operation>,
    at: int,
    kind: AuthenticationKind,
    actorId: Option<string>,
    requestHash: string,
    resume: Option<ResumeRequest>,
    proof: Proof,
    identifiers: seq<Fact>,
    context: AuthenticationContext)

  datatype Fence = Fence(
    operation: Operation, decisionHash: string, intentHash: string, token: Option<string>, claims: DispatchClaims)

  datatype Transport = Transport(
    operation: Operation,
    at: int,
    decisionHash: string,
    intentHash: string,
    token: string,
    claims: DispatchClaims,
    foreignDispatchHash: string,
    descriptorHash: string,
    operationHash: string,
    body: string,
    bodyHash: string,
    ack: string)

  datatype Resume = Resume(
    transport: Transport,
    pendingHash: string,
    requestFingerprint: string,
    escalationHash: string,
    contextHash: string,
    authenticationHash: string)

  datatype Recovery = Recovery(
    operation: Operation,
    at: int,
    decisionHash: string,
    intentHash: string,
    authenticationHash: string,
    request: string,
    outcome: string)

  datatype Ending = Commit | Release

  datatype Basis = ResourceReceipt | DurableNoDispatch

  datatype Settlement = Settlement(
    operation: Operation,
    decisionHash: string,
    intentHash: Option<string>,
    ending: Ending,
    basis: Basis,
    outcome: Option<string>)

  /** `Malformed` stands for a consumption record or decision outside the wire grammar, and `Unrelated` for the record types that the replay skips. */
  datatype Body =
    | Legacy(legacy: LegacyDecision)
    | Decided(decision: Decision)
    | Intended(intent: Intent)
    | Cancelled(cancellation: Cancellation)
    | Authenticated(authentication: Authentication)
    | Recovered(recovery: Recovery)
    | FencedDispatch(fence: Fence)
    | Pended(transport: Transport)
    | Resumed(resume: Resume)
    | Settled(settlement: Settlement)
    | Malformed
    | Unrelated

  type Record = Sealed<Body>

  // ---------- outside the replay ----------

  datatype Point = Point(
    domainId: string,
    ledgerId: string,
    resourceId: string,
    bindingHash: string,
    publicKey: string,
    profile: Profile,
    consentToken: string,
    consentParents: Option<seq<string>>)

  /** A verified authority admission. */
  datatype Admission = Admission(
    adapter: Option<string>,
    domainId: string,
    ledgerId: string,
    pointId: string,
    currentSchema: bool,
    points: Option<map<string, Point>>,
    maxProofAgeSeconds: int,
    outcomeKey: Option<string>)

  /** What a verified foreign dispatch says about its interval. */
  datatype ForeignDispatchFact = ForeignDispatchFact(dispatchHash: string, authorizedAt: int, notAfter: int)

  datatype ApprovalClaims = ApprovalClaims(jti: string, fingerprint: string, expires: int)

  datatype Verb = Query | Cancel | OtherVerb

  datatype Reconciliation = Reconciliation(verb: Verb, issuedAt: int, expiresAt: int, content: string)

  datatype OutcomeStatus = OutcomeCommitted | NotExecuted | OtherOutcome

  /** A verified resource outcome. `acceptedAt` is None when absent. */
  datatype Outcome = Outcome(
    status: OutcomeStatus, acceptedAt: Option<int>, recordCount: Option<nat>, recordsHash: Option<string>, content: string)

  /** The records that a record-egress call sends, as a count and a hash. */
  datatype Egress = Egress(count: nat, hash: string)

  datatype AckState = AwaitingReview | AwaitingApproval

  datatype ResumeExpectation = ResumeExpectation(contextHash: string, fingerprint: string, escalationHash: string)

  /** Everything a pending acknowledgment has to state. */
  datatype AckExpectation = AckExpectation(
    key: string,
    state: AckState,
    dispatchHash: string,
    descriptorHash: string,
    operationHash: string,
    bodyHash: string,
    notAfter: int,
    at: int,
    resume: Option<ResumeExpectation>)

  /** What the caller pins, and the signature checks, hashes and parsers that the replay calls. */
  datatype Config = Config(
    adapters: set<string>,
    ledgerId: string,
    pointId: string,
    pointKey: string,
    clock: Clock,
    isText: string -> bool,
    callRules: CallRules,
    authority: Sealed<Decision> -> bool,
    admit: (string, int, string) -> Option<Admission>,
    holderVerifies: (Holder, string, int, Admission) -> Option<(string, string)>,
    nonceText: (string, string, string) -> string,
    foreignVerifies: (Decision, Admission) -> Option<ForeignDispatchFact>,
    approvalVerifies: (string, Admission) -> Option<ApprovalClaims>,
    dispatchClaims: string -> Option<DispatchClaims>,
    dispatchSigned: (string, string) -> bool,
    reconciliationVerifies: (string, string) -> Option<Reconciliation>,
    reconciliationJoins: (Reconciliation, DispatchClaims) -> bool,
    cancellationJoins: (Reconciliation, DispatchClaims) -> bool,
    outcomeVerifies: (string, string) -> Option<Outcome>,
    outcomeJoins: (Outcome, DispatchClaims) -> bool,
    consentHash: (string, seq<string>) -> string,
    sha: string -> string,
    descriptorHash: DispatchClaims -> Option<string>,
    operationHash: Operation -> string,
    ackVerifies: (string, AckExpectation) -> bool,
    payload: (Decision, DispatchClaims) -> Option<Option<Egress>>,
    tokenAdapter: string -> Option<string>)

  /** The claims of a dispatch token, if a key signed them. What the token claims is written in it; the key only confirms it. */
  function VerifiedDispatch(cfg: Config, token: string, key: string): Option<DispatchClaims> {
    if cfg.dispatchSigned(token, key) then cfg.dispatchClaims(token) else None
  }

  function OperationOf(body: Body): Option<Operation> {
    match body
    case Decided(d) => Some(d.operation)
    case Recovered(r) => Some(r.operation)
    case FencedDispatch(f) => Some(f.operation)
    case Pended(t) => Some(t.operation)
    case Resumed(r) => Some(r.transport.operation)
    case Settled(s) => Some(s.operation)
    case _ => None
  }
}
