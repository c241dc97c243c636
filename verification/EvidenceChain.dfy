/** The records that stand behind a fence, a settlement and a recovered outcome of an accepted run. */
module EvidenceChain {
  import opened Prelude
  import opened Matching
  import opened Evidence
  import opened OneTime
  import opened ForeignPoints
  import opened Lifecycle
  import opened Replay
  import opened Automaton
  import opened Exclusion
  import opened FrozenTransport

  /** The record of a decision. */
  predicate IsRecordOf(r: Record, e: Sealed<Decision>) {
    r == Sealed(e.seqNo, e.hash, Decided(e.value))
  }

  lemma {:induction false} DecisionHasRecord(cfg: Config, intents: Intents, rs: seq<Record>, n: nat, id: string) returns (k: nat)
    requires n <= |rs| && Run(cfg, intents, rs).Some? && Run(cfg, intents, rs[..n]).Some?
    requires id in Run(cfg, intents, rs[..n]).value.ops.decisions
    ensures k < n && IsRecordOf(rs[k], Run(cfg, intents, rs[..n]).value.ops.decisions[id])
    ensures rs[k].value.decision.operation.operationId == id
  {
    hide Next;
    if n == 0 {
      assert false;
    } else {
      PrefixRuns(cfg, intents, rs, n - 1);
      var before, r := Run(cfg, intents, rs[..n - 1]).value, rs[n - 1];
      StepWrites(cfg, intents, before, r);
      if r.value.Decided? && r.value.decision.operation.operationId == id {
        k := n - 1;
      } else {
        WrittenKeepsOtherDecisions(before.ops, r, id);
        k := DecisionHasRecord(cfg, intents, rs, n - 1, id);
      }
    }
  }

  lemma WrittenKeepsOtherDecisions(ops: Operations, r: Record, id: string)
    requires !(r.value.Decided? && r.value.decision.operation.operationId == id)
    ensures id in Written(ops, r).decisions <==> id in ops.decisions
    ensures id in ops.decisions ==> Written(ops, r).decisions[id] == ops.decisions[id]
  {
  }

  lemma {:induction false} RecoveryHasRecord(cfg: Config, intents: Intents, rs: seq<Record>, n: nat, id: string) returns (k: nat)
    requires n <= |rs| && Run(cfg, intents, rs).Some? && Run(cfg, intents, rs[..n]).Some?
    requires id in Run(cfg, intents, rs[..n]).value.ops.recovered
    ensures k < n && rs[k].value == Recovered(Run(cfg, intents, rs[..n]).value.ops.recovered[id])
    ensures rs[k].value.recovery.operation.operationId == id
  {
    hide Next;
    if n == 0 {
      assert false;
    } else {
      PrefixRuns(cfg, intents, rs, n - 1);
      var before, r := Run(cfg, intents, rs[..n - 1]).value, rs[n - 1];
      StepWrites(cfg, intents, before, r);
      if r.value.Recovered? && r.value.recovery.operation.operationId == id {
        k := n - 1;
      } else {
        WrittenKeepsOtherRecoveries(before.ops, r, id);
        k := RecoveryHasRecord(cfg, intents, rs, n - 1, id);
      }
    }
  }

  lemma WrittenKeepsOtherRecoveries(ops: Operations, r: Record, id: string)
    requires !(r.value.Recovered? && r.value.recovery.operation.operationId == id)
    ensures id in Written(ops, r).recovered <==> id in ops.recovered
    ensures id in ops.recovered ==> Written(ops, r).recovered[id] == ops.recovered[id]
  {
  }

  // ---------- fences ----------

  /** The decision behind a fence authorized exactly the fenced operation, and the intent between them joins both. */
  ghost predicate StandsBehindFence(cfg: Config, intents: Intents, d: Record, f: Record) {
    && d.value.Decided? && f.value.FencedDispatch?
    && var fence := f.value.fence;
    && d.value.decision.state.IsAuthorized? && d.value.decision.operation == fence.operation
    && d.hash == fence.decisionHash && d.seqNo < f.seqNo
    && fence.intentHash in intents && intents[fence.intentHash].seqNo < f.seqNo
    && intents[fence.intentHash].value == Intent(Some(fence.operation), d.seqNo)
    && (fence.token.Some? ==> ClaimsJoinOperation(fence.claims, fence.operation) && cfg.payload(d.value.decision, fence.claims).Some?)
  }

  lemma FenceJoins(cfg: Config, intents: Intents, s: State, f: Sealed<Fence>)
    requires NextFence(cfg, intents, s, f).Some?
    ensures var id := f.value.operation.operationId;
      && id in s.ops.decisions && StageOf(s.ops, id) == Granted
      && var e := s.ops.decisions[id];
      && e.value.operation == f.value.operation && e.hash == f.value.decisionHash && e.seqNo < f.seqNo
      && IntentJoins(intents, f.value.intentHash, e, f.value.operation, f.seqNo)
      && (f.value.token.Some? ==> ClaimsJoinOperation(f.value.claims, f.value.operation) && cfg.payload(e.value, f.value.claims).Some?)
  {
    hide FenceForeign, IntentJoins, ClaimsJoinOperation, FencedBy;
  }

  /** A decision that left its operation granted was an authorization. */
  lemma GrantedByAuthorization(cfg: Config, intents: Intents, rs: seq<Record>, k: nat, n: nat, id: string)
    requires k < n <= |rs| && Run(cfg, intents, rs).Some? && Run(cfg, intents, rs[..n]).Some?
    requires rs[k].value.Decided? && rs[k].value.decision.operation.operationId == id
    requires StageAt(cfg, intents, rs, n, id) == Granted
    ensures rs[k].value.decision.state.IsAuthorized?
  {
    hide Run, StageAt, Delta;
    StageAdvances(cfg, intents, rs, k, id);
    MarksMakeProgress(StageAt(cfg, intents, rs, k, id), MarkOf(rs[k], id).value);
    ProgressGrows(cfg, intents, rs, k + 1, n, id);
  }

  lemma FenceHasItsDecision(cfg: Config, intents: Intents, rs: seq<Record>, f: nat) returns (d: nat)
    requires f < |rs| && Run(cfg, intents, rs).Some? && rs[f].value.FencedDispatch?
    ensures d < f && StandsBehindFence(cfg, intents, rs[d], rs[f])
  {
    hide Run, NextFence, ClaimsJoinOperation, StageOf;
    PrefixRuns(cfg, intents, rs, f);
    PrefixRuns(cfg, intents, rs, f + 1);
    var id := rs[f].value.fence.operation.operationId;
    FenceJoins(cfg, intents, Run(cfg, intents, rs[..f]).value, Sealed(rs[f].seqNo, rs[f].hash, rs[f].value.fence));
    hide Next;
    d := DecisionHasRecord(cfg, intents, rs, f, id);
    GrantedByAuthorization(cfg, intents, rs, d, f, id);
  }

  /** No accepted run both fences an operation that a raw foreign dispatch authorized, and cancels that dispatch. */
  lemma NoDispatchIsFencedAndCancelled(cfg: Config, intents: Intents, rs: seq<Record>, k: nat, i: nat, j: nat, raw: string)
    requires k < |rs| && i < |rs| && j < |rs| && Run(cfg, intents, rs).Some?
    requires AuthorizesDispatch(rs[k], raw) && rs[i].value.FencedDispatch?
    requires rs[i].value.fence.operation.operationId == rs[k].value.decision.operation.operationId
    ensures !CancelsDispatch(rs[j], raw)
  {
    hide Run, CancelsDispatch;
    var d := FenceHasItsDecision(cfg, intents, rs, i);
    SameDecision(cfg, intents, rs, k, d, rs[k].value.decision.operation.operationId);
    FencedDispatchIsNotCancelled(cfg, intents, rs, k, i, j, raw);
  }

  // ---------- settlements ----------

  /** The signed outcome proves that the fenced dispatch was executed, in time and on exactly its records. */
  ghost predicate OutcomeProvesCommit(cfg: Config, d: Decision, f: Fence, s: Settlement) {
    var outcome := ReceiptOutcome(cfg, d, s);
    && outcome.Some? && outcome.value.status.OutcomeCommitted? && cfg.outcomeJoins(outcome.value, f.claims)
    && (outcome.value.acceptedAt.Some? ==> AcceptedInTime(cfg, f.claims, outcome.value.acceptedAt.value))
    && (f.claims.profile.RecordEgress? ==>
          exists egress: Egress ::
            && cfg.payload(d, f.claims) == Some(Some(egress))
            && outcome.value.recordCount == Some(egress.count) && outcome.value.recordsHash == Some(egress.hash))
  }

  lemma SettlementJoins(cfg: Config, intents: Intents, s: State, t: Sealed<Settlement>)
    requires NextSettlement(cfg, intents, s, t).Some? && t.value.ending.Commit?
    ensures var id := t.value.operation.operationId;
      && id in s.ops.decisions && id in s.ops.fences
      && var e, f := s.ops.decisions[id], s.ops.fences[id];
      && e.value.operation == t.value.operation && e.hash == t.value.decisionHash
      && t.value.intentHash == Some(f.intentHash) && f.token.Some?
      && OutcomeProvesCommit(cfg, e.value, f, t.value)
  {
    hide SettleBooks, SettledBy, ReceiptOutcome, AcceptedInTime, IntentJoins;
  }

  /** A committed settlement, with the fence and the decision that it completes. */
  ghost predicate IsProvedCommit(cfg: Config, intents: Intents, d: Record, f: Record, s: Record) {
    && StandsBehindFence(cfg, intents, d, f) && s.value.Settled?
    && var settlement := s.value.settlement;
    && settlement.operation == f.value.fence.operation && settlement.decisionHash == d.hash
    && settlement.intentHash == Some(f.value.fence.intentHash) && f.value.fence.token.Some?
    && OutcomeProvesCommit(cfg, d.value.decision, f.value.fence, settlement)
  }

  /**
   Behind every committed settlement of an accepted run stand, in this order, the one authorization of its
   operation, and a signed fence that joins it; and the outcome proves that exactly that dispatch was executed.
   */
  lemma CommitHasItsEvidence(cfg: Config, intents: Intents, rs: seq<Record>, i: nat) returns (d: nat, f: nat)
    requires i < |rs| && Run(cfg, intents, rs).Some? && rs[i].value.Settled? && rs[i].value.settlement.ending.Commit?
    ensures d < f < i && IsProvedCommit(cfg, intents, rs[d], rs[f], rs[i])
  {
    hide Run, NextSettlement, OutcomeProvesCommit, ClaimsJoinOperation;
    PrefixRuns(cfg, intents, rs, i);
    PrefixRuns(cfg, intents, rs, i + 1);
    var before, id := Run(cfg, intents, rs[..i]).value, rs[i].value.settlement.operation.operationId;
    SettlementJoins(cfg, intents, before, Sealed(rs[i].seqNo, rs[i].hash, rs[i].value.settlement));
    hide Next;
    f := FenceHasRecord(cfg, intents, rs, i, id);
    d := FenceHasItsDecision(cfg, intents, rs, f);
    var k := DecisionHasRecord(cfg, intents, rs, i, id);
    RunIsAnchored(cfg, intents, rs[..i]);
    assert FenceIsAnchored(before.ops, id);
    SameDecision(cfg, intents, rs, d, k, id);
  }

  // ---------- recoveries ----------

  lemma RecoveredIsKept(ops: Operations, r: Record, id: string)
    requires id in ops.recovered && MarkOf(r, id) != Some(Recovers)
    ensures id in Written(ops, r).recovered && Written(ops, r).recovered[id] == ops.recovered[id]
  {
  }

  lemma RecoveryWritten(ops: Operations, r: Record)
    requires r.value.Recovered?
    ensures var id := r.value.recovery.operation.operationId;
      id in Written(ops, r).recovered && Written(ops, r).recovered[id] == r.value.recovery
  {
  }

  lemma {:induction false} RecoveryPersists(cfg: Config, intents: Intents, rs: seq<Record>, k: nat, n: nat, id: string)
    requires k < n <= |rs| && Run(cfg, intents, rs).Some? && Run(cfg, intents, rs[..n]).Some?
    requires rs[k].value.Recovered? && rs[k].value.recovery.operation.operationId == id
    ensures var ops := Run(cfg, intents, rs[..n]).value.ops; id in ops.recovered && ops.recovered[id] == rs[k].value.recovery
    decreases n
  {
    hide Run, Next, Written;
    PrefixRuns(cfg, intents, rs, n - 1);
    StepWrites(cfg, intents, Run(cfg, intents, rs[..n - 1]).value, rs[n - 1]);
    if k == n - 1 {
      RecoveryWritten(Run(cfg, intents, rs[..n - 1]).value.ops, rs[k]);
    } else {
      RecoveryPersists(cfg, intents, rs, k, n - 1, id);
      if MarkOf(rs[n - 1], id).Some? {
        NothingHappensTwice(cfg, intents, rs, k, n - 1, id);
      }
      RecoveredIsKept(Run(cfg, intents, rs[..n - 1]).value.ops, rs[n - 1], id);
    }
  }

  lemma RecoveredSettlement(cfg: Config, intents: Intents, s: State, t: Sealed<Settlement>)
    requires NextSettlement(cfg, intents, s, t).Some? && Shaped(s.ops) && t.value.operation.operationId in s.ops.recovered
    ensures t.value.basis.ResourceReceipt? && t.value.outcome == Some(s.ops.recovered[t.value.operation.operationId].outcome)
  {
    hide SettleBooks, SettledBy, ReceiptProves, IntentJoins;
  }

  /** Once an operation is recovered, its settlement can only repeat the recovered outcome. */
  lemma RecoveredOutcomeIsFinal(cfg: Config, intents: Intents, rs: seq<Record>, i: nat, j: nat)
    requires i < j < |rs| && Run(cfg, intents, rs).Some?
    requires rs[i].value.Recovered? && rs[j].value.Settled?
    requires rs[i].value.recovery.operation.operationId == rs[j].value.settlement.operation.operationId
    ensures rs[j].value.settlement.basis.ResourceReceipt?
    ensures rs[j].value.settlement.outcome == Some(rs[i].value.recovery.outcome)
  {
    hide Run, NextSettlement, Shaped;
    PrefixRuns(cfg, intents, rs, j);
    PrefixRuns(cfg, intents, rs, j + 1);
    RecoveryPersists(cfg, intents, rs, i, j, rs[j].value.settlement.operation.operationId);
    RunIsShaped(cfg, intents, rs[..j]);
    RecoveredSettlement(cfg, intents, Run(cfg, intents, rs[..j]).value, Sealed(rs[j].seqNo, rs[j].hash, rs[j].value.settlement));
  }

  lemma RecoveryJoins(cfg: Config, s: State, r: Sealed<Recovery>)
    requires NextRecovery(cfg, s, r).Some?
    ensures var id := r.value.operation.operationId;
      && id in s.ops.decisions && id in s.ops.fences
      && RecoveryIsSigned(cfg, s.ops.decisions[id].value, s.ops.fences[id], r.value)
      && r.value.intentHash == s.ops.fences[id].intentHash && r.value.operation.pointId == cfg.pointId
  {
    hide IsFresh, RecoveryIsSigned, RecoveredBy;
  }

  /**
   A recovery answers for the dispatch that was fenced: its request and its outcome are signed, active and
   join the claims of the one fence of its operation, which the enforcement point itself signed.
   */
  lemma RecoveryAnswersItsFence(cfg: Config, intents: Intents, rs: seq<Record>, i: nat) returns (d: nat, f: nat)
    requires i < |rs| && Run(cfg, intents, rs).Some? && rs[i].value.Recovered?
    ensures d < f < i && StandsBehindFence(cfg, intents, rs[d], rs[f])
    ensures rs[f].value.fence.operation.operationId == rs[i].value.recovery.operation.operationId
    ensures RecoveryIsSigned(cfg, rs[d].value.decision, rs[f].value.fence, rs[i].value.recovery)
  {
    hide Run, NextRecovery, RecoveryIsSigned, ClaimsJoinOperation;
    PrefixRuns(cfg, intents, rs, i);
    PrefixRuns(cfg, intents, rs, i + 1);
    var before, id := Run(cfg, intents, rs[..i]).value, rs[i].value.recovery.operation.operationId;
    RecoveryJoins(cfg, before, Sealed(rs[i].seqNo, rs[i].hash, rs[i].value.recovery));
    hide Next;
    f := FenceHasRecord(cfg, intents, rs, i, id);
    d := FenceHasItsDecision(cfg, intents, rs, f);
    var k := DecisionHasRecord(cfg, intents, rs, i, id);
    RunIsAnchored(cfg, intents, rs[..i]);
    assert FenceIsAnchored(before.ops, id);
    SameDecision(cfg, intents, rs, d, k, id);
  }

  // ---------- acknowledged transports ----------

  /** The acknowledgment that a suspension or a resume has to carry. */
  ghost predicate CarriesAcknowledgment(cfg: Config, d: Decision, body: Body) {
    match body
    case Pended(t) => IsAcknowledged(cfg, d, t, AwaitingReview, None)
    case Resumed(r) =>
      IsAcknowledged(cfg, d, r.transport, AwaitingApproval,
                     Some(ResumeExpectation(r.contextHash, r.requestFingerprint, r.escalationHash)))
    case _ => false
  }

  lemma PendingIsAcknowledged(cfg: Config, s: State, t: Sealed<Transport>)
    requires NextPending(cfg, s, t).Some?
    ensures var id := t.value.operation.operationId;
      id in s.ops.decisions && CarriesAcknowledgment(cfg, s.ops.decisions[id].value, Pended(t.value))
  {
    hide IsAcknowledged, ValidTransport, StatesFence, SuspendedBy;
  }

  lemma ResumeIsAcknowledged(cfg: Config, s: State, r: Sealed<Resume>)
    requires NextResume(cfg, s, r).Some?
    ensures var id := r.value.transport.operation.operationId;
      id in s.ops.decisions && CarriesAcknowledgment(cfg, s.ops.decisions[id].value, Resumed(r.value))
  {
    hide IsAcknowledged, ValidTransport, SameTransport, IsFresh, RequestsResume, ResumedBy;
  }

  /**
   Every suspension and every resume carries the counterparty's acknowledgment of the fenced dispatch: under
   the outcome key admitted with the decision, for the hashes of that dispatch and the body that it carries.
   */
  lemma TransportIsAcknowledged(cfg: Config, intents: Intents, rs: seq<Record>, i: nat) returns (d: nat, f: nat)
    requires i < |rs| && Run(cfg, intents, rs).Some? && TransportOf(rs[i].value).Some?
    ensures d < f < i && StandsBehindFence(cfg, intents, rs[d], rs[f])
    ensures IsFrozen(cfg, TransportOf(rs[i].value).value, rs[f].value.fence)
    ensures CarriesAcknowledgment(cfg, rs[d].value.decision, rs[i].value)
  {
    hide Run, NextPending, NextResume, CarriesAcknowledgment, ClaimsJoinOperation, IsFrozen;
    PrefixRuns(cfg, intents, rs, i);
    PrefixRuns(cfg, intents, rs, i + 1);
    var before, id := Run(cfg, intents, rs[..i]).value, TransportOf(rs[i].value).value.operation.operationId;
    if rs[i].value.Pended? {
      PendingIsAcknowledged(cfg, before, Sealed(rs[i].seqNo, rs[i].hash, rs[i].value.transport));
    } else {
      ResumeIsAcknowledged(cfg, before, Sealed(rs[i].seqNo, rs[i].hash, rs[i].value.resume));
    }
    hide Next;
    f := TransportStatesItsFence(cfg, intents, rs, i);
    d := FenceHasItsDecision(cfg, intents, rs, f);
    FrozenOperation(cfg, TransportOf(rs[i].value).value, rs[f].value.fence);
    var k := DecisionHasRecord(cfg, intents, rs, i, id);
    SameDecision(cfg, intents, rs, d, k, id);
  }

  lemma FrozenOperation(cfg: Config, t: Transport, f: Fence)
    requires IsFrozen(cfg, t, f)
    ensures t.operation == f.operation
  {
  }

  // ---------- authentications ----------

  /** The holder of the operation's own key signed the request, freshly, and its nonce is the one fact consumed. */
  ghost predicate IsSignedByActor(cfg: Config, d: Decision, a: Authentication) {
    && a.operation == Some(d.operation) && d.admissionToken == Some(a.context.admissionToken)
    && a.actorId.Some? && a.requestHash == a.context.requestHash
    && exists adm, f ::
      && AdaptedAdmission(cfg, d) == Some(adm)
      && HolderFact(cfg, adm, Holder(a.actorId.value, a.proof, a.requestHash), cfg.ledgerId, a.at) == Some((f, d.operation.actorFingerprint))
      && ElementsOf(a.identifiers) == {f}
  }

  lemma AuthenticationIsSigned(cfg: Config, s: State, e: Sealed<Authentication>)
    requires NextAuthentication(cfg, s, e).Some? && e.value.operation.Some?
    ensures var id := e.value.operation.value.operationId;
      id in s.ops.decisions && s.ops.decisions[id].seqNo < e.seqNo && IsSignedByActor(cfg, s.ops.decisions[id].value, e.value)
  {
    hide ConsumeAll, HolderFact, Retain, DecisionAdmission, DistinctNames;
    var adm := AuthenticationAdmission(cfg, s.ops, e).value;
    var d := s.ops.decisions[e.value.operation.value.operationId].value;
    assert AdaptedAdmission(cfg, d) == Some(adm);
    hide AdaptedAdmission;
    var f := AuthenticationFact(cfg, e.value, adm).value;
    assert HolderFact(cfg, adm, Holder(e.value.actorId.value, e.value.proof, e.value.requestHash), cfg.ledgerId, e.value.at)
        == Some((f, d.operation.actorFingerprint));
  }

  /** Every authentication for an operation comes after the decision of that operation, and from its actor. */
  lemma AuthenticationIsByTheActor(cfg: Config, intents: Intents, rs: seq<Record>, i: nat) returns (d: nat)
    requires i < |rs| && Run(cfg, intents, rs).Some? && rs[i].value.Authenticated? && rs[i].value.authentication.operation.Some?
    ensures d < i && rs[d].value.Decided? && rs[d].seqNo < rs[i].seqNo
    ensures IsSignedByActor(cfg, rs[d].value.decision, rs[i].value.authentication)
  {
    hide Run, NextAuthentication, IsSignedByActor;
    PrefixRuns(cfg, intents, rs, i);
    PrefixRuns(cfg, intents, rs, i + 1);
    var a := rs[i].value.authentication;
    AuthenticationIsSigned(cfg, Run(cfg, intents, rs[..i]).value, Sealed(rs[i].seqNo, rs[i].hash, a));
    hide Next;
    d := DecisionHasRecord(cfg, intents, rs, i, a.operation.value.operationId);
  }
}
