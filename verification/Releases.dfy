/** What stands behind the release of a fenced operation, and the one kind of fenced operation that needs no receipt. */
module Releases {
  import opened Prelude
  import opened Evidence
  import opened OneTime
  import opened ForeignPoints
  import opened Lifecycle
  import opened Replay
  import opened Automaton
  import opened FrozenTransport
  import opened EvidenceChain
  import opened Conservation
  import opened Budget
  import Books

  // ---------- with a reservation ----------

  /** The signed outcome proves that the fenced dispatch was not executed. */
  ghost predicate OutcomeProvesRelease(cfg: Config, d: Decision, f: Fence, s: Settlement) {
    var outcome := ReceiptOutcome(cfg, d, s);
    && outcome.Some? && outcome.value.status.NotExecuted? && cfg.outcomeJoins(outcome.value, f.claims)
    && (outcome.value.acceptedAt.Some? ==> AcceptedInTime(cfg, f.claims, outcome.value.acceptedAt.value))
  }

  /** A released settlement, with the fence and the decision that it ends. */
  ghost predicate IsProvedRelease(cfg: Config, intents: Intents, d: Record, f: Record, s: Record) {
    && StandsBehindFence(cfg, intents, d, f) && s.value.Settled?
    && var settlement := s.value.settlement;
    && settlement.operation == f.value.fence.operation && settlement.decisionHash == d.hash
    && settlement.intentHash == Some(f.value.fence.intentHash) && settlement.basis.ResourceReceipt?
    && OutcomeProvesRelease(cfg, d.value.decision, f.value.fence, settlement)
  }

  lemma ReleaseJoins(cfg: Config, intents: Intents, s: State, t: Sealed<Settlement>)
    requires NextSettlement(cfg, intents, s, t).Some? && t.value.ending.Release? && t.value.basis.ResourceReceipt?
    ensures var id := t.value.operation.operationId;
      && id in s.ops.decisions && id in s.ops.fences
      && var e, f := s.ops.decisions[id], s.ops.fences[id];
      && e.value.operation == t.value.operation && e.hash == t.value.decisionHash
      && t.value.intentHash == Some(f.intentHash)
      && OutcomeProvesRelease(cfg, e.value, f, t.value)
  {
    hide SettleBooks, SettledBy, ReceiptOutcome, AcceptedInTime, IntentJoins;
  }

  /** An authorization with an account owns a reservation from then on. */
  lemma AccountIsOwned(cfg: Config, intents: Intents, rs: seq<Record>, d: nat, n: nat)
    requires d < n <= |rs| && Run(cfg, intents, rs).Some? && Run(cfg, intents, rs[..n]).Some?
    requires rs[d].value.Decided? && rs[d].value.decision.state.IsAuthorized? && rs[d].value.decision.accounts != []
    ensures Books.OwnedBy(Run(cfg, intents, rs[..n]).value.books, rs[d].value.decision.operation.operationId) != []
  {
    hide Run, NextDecision, AccountsAreExact, Books.Conserves, Lockstep;
    var e := Sealed(rs[d].seqNo, rs[d].hash, rs[d].value.decision);
    PrefixRuns(cfg, intents, rs, d);
    PrefixRuns(cfg, intents, rs, d + 1);
    assert NextDecision(cfg, Run(cfg, intents, rs[..d]).value, e) == Run(cfg, intents, rs[..d + 1]);
    hide Next;
    AuthorizationIsExact(cfg, Run(cfg, intents, rs[..d]).value, e);
    SoundConserves(cfg, intents, rs[..d]);
    ChargeRecords(Run(cfg, intents, rs[..d]).value.books, e.value.operation.operationId, e.value.accounts);
    var a := e.value.accounts[0];
    assert a in e.value.accounts && IsCharged(Run(cfg, intents, rs[..d + 1]).value.books, e.value.operation.operationId, a);
    RunKeepsReservations(cfg, intents, rs, d + 1, n);
    RunIsSound(cfg, intents, rs[..n]);
    ReservationIsListed(Run(cfg, intents, rs[..n]).value.books, a.reservation);
  }

  lemma ReservationIsListed(b: Books.Books, id: string)
    requires Books.Owned(b) && id in b.reservations
    ensures id in Books.OwnedBy(b, b.reservations[id].owner)
  {
  }

  /** Whether the operation was fenced decides what phase a settlement finds it in. */
  lemma FencedPhase(cfg: Config, intents: Intents, ops: Operations, e: Sealed<Decision>, t: Sealed<Settlement>)
    requires Shaped(ops) && MaySettle(cfg, intents, ops, e, t) && t.value.operation.operationId in ops.fences
    ensures var id := t.value.operation.operationId;
      PhaseOf(ops, id) == Some(Phase.Fenced) || PhaseOf(ops, id) == Some(Phase.Pending)
  {
    hide ReceiptProves, IntentJoins;
    SettlementPhase(cfg, intents, ops, e, t);
  }

  lemma HeldCapacityNeedsReceipt(cfg: Config, intents: Intents, s: State, t: Sealed<Settlement>)
    requires NextSettlement(cfg, intents, s, t).Some? && t.value.ending.Release? && Sound(s) && Shaped(s.ops)
    requires t.value.operation.operationId in s.ops.fences && Books.OwnedBy(s.books, t.value.operation.operationId) != []
    ensures t.value.basis.ResourceReceipt?
  {
    hide Sound, Shaped, MaySettle, Joined, SettleBooks, Books.OwnedBy;
    var e := Joined(s.ops, t.value.operation, t.value.decisionHash, t.seqNo).value;
    FencedPhase(cfg, intents, s.ops, e, t);
    FencedReleaseNeedsReceipt(cfg, intents, s, t);
  }

  /**
   Behind every release of a fenced operation whose authorization charged any account stand, in this order, that
   authorization, and the fence; and the outcome, signed under the admitted key, joins the claims of that fence
   and says that it was not executed.
   */
  lemma ReleaseHasItsEvidence(cfg: Config, intents: Intents, rs: seq<Record>, k: nat, g: nat, i: nat) returns (d: nat, f: nat)
    requires k < |rs| && g < i < |rs| && Run(cfg, intents, rs).Some?
    requires rs[i].value.Settled? && rs[i].value.settlement.ending.Release?
    requires rs[k].value.Decided? && rs[k].value.decision.accounts != []
    requires rs[g].value.FencedDispatch?
    requires rs[k].value.decision.operation.operationId == rs[g].value.fence.operation.operationId
          == rs[i].value.settlement.operation.operationId
    ensures d < f < i && IsProvedRelease(cfg, intents, rs[d], rs[f], rs[i])
  {
    hide Run, NextSettlement, OutcomeProvesRelease, ClaimsJoinOperation, Sound, Shaped, Anchored;
    PrefixRuns(cfg, intents, rs, i);
    PrefixRuns(cfg, intents, rs, i + 1);
    var before, id := Run(cfg, intents, rs[..i]).value, rs[i].value.settlement.operation.operationId;
    var t := Sealed(rs[i].seqNo, rs[i].hash, rs[i].value.settlement);
    assert NextSettlement(cfg, intents, before, t).Some?;
    hide Next;
    FrozenAdvances(cfg, intents, rs, g);
    d := FenceHasItsDecision(cfg, intents, rs, g);
    SameDecision(cfg, intents, rs, k, d, id);
    FencedStays(cfg, intents, rs, g, i);
    RunIsSound(cfg, intents, rs[..i]);
    RunIsShaped(cfg, intents, rs[..i]);
    AccountIsOwned(cfg, intents, rs, d, i);
    HeldCapacityNeedsReceipt(cfg, intents, before, t);
    ReleaseJoins(cfg, intents, before, t);
    f := FenceHasRecord(cfg, intents, rs, i, id);
    RunIsAnchored(cfg, intents, rs[..i]);
    FencedOperation(before.ops, id);
    d := FenceHasItsDecision(cfg, intents, rs, f);
    var l := DecisionHasRecord(cfg, intents, rs, i, id);
    SameDecision(cfg, intents, rs, d, l, id);
  }

  lemma FencedOperation(ops: Operations, id: string)
    requires Anchored(ops) && id in ops.fences
    ensures id in ops.decisions && ops.fences[id].operation == ops.decisions[id].value.operation
  {
    assert FenceIsAnchored(ops, id);
  }

  lemma FencedStays(cfg: Config, intents: Intents, rs: seq<Record>, g: nat, n: nat)
    requires g < n <= |rs| && Run(cfg, intents, rs).Some? && rs[g].value.FencedDispatch?
    ensures Run(cfg, intents, rs[..n]).Some?
    ensures rs[g].value.fence.operation.operationId in Run(cfg, intents, rs[..n]).value.ops.fences
  {
    hide Run, Next, Written;
    PrefixRuns(cfg, intents, rs, g);
    PrefixRuns(cfg, intents, rs, g + 1);
    StepWrites(cfg, intents, Run(cfg, intents, rs[..g]).value, rs[g]);
    FenceIsWritten(Run(cfg, intents, rs[..g]).value.ops, rs[g]);
    FencePersists(cfg, intents, rs, g + 1, n, rs[g].value.fence.operation.operationId);
  }

  lemma FenceIsWritten(ops: Operations, r: Record)
    requires r.value.FencedDispatch?
    ensures r.value.fence.operation.operationId in Written(ops, r).fences
  {
  }

  // ---------- without a reservation ----------

  /** The intent, the unsigned fence and the release that may follow an authorization. */
  function IntentAfter(e: Sealed<Decision>, hash: string): Record {
    Sealed(e.seqNo + 1, hash, Intended(Intent(Some(e.value.operation), e.seqNo)))
  }

  function FenceAfter(e: Sealed<Decision>, hash: string, claims: DispatchClaims): Sealed<Fence> {
    Sealed(e.seqNo + 2, "", Fence(e.value.operation, e.hash, hash, None, claims))
  }

  function ReleaseAfter(e: Sealed<Decision>, hash: string): Sealed<Settlement> {
    Sealed(e.seqNo + 3, "", Settlement(e.value.operation, e.hash, Some(hash), Release, DurableNoDispatch, None))
  }

  function EmptyHandedRun(e: Sealed<Decision>, hash: string, claims: DispatchClaims): seq<Record> {
    var f, t := FenceAfter(e, hash, claims), ReleaseAfter(e, hash);
    [Sealed(e.seqNo, e.hash, Decided(e.value)), IntentAfter(e, hash), Sealed(f.seqNo, f.hash, FencedDispatch(f.value)),
     Sealed(t.seqNo, t.hash, Settled(t.value))]
  }

  lemma EmptyAuthorization(cfg: Config, e: Sealed<Decision>)
    requires e.value.state.IsAuthorized? && e.value.accounts == [] && NextDecision(cfg, START, e).Some?
    ensures var s := NextDecision(cfg, START, e).value;
      && s.ops == Decide(NO_OPERATIONS, e) && s.books == Books.NO_BOOKS && s.foreign.cancellations == map[]
      && IsKnownAdapter(cfg, e.value.adapter)
  {
    hide AdaptedAdmission, AuthorizedIdentity, ExpectedFacts, AccountsAreExact, ConsumeAll, ValidConsumption;
  }

  lemma EmptyFence(cfg: Config, intents: Intents, s: State, e: Sealed<Decision>, hash: string, claims: DispatchClaims)
    requires s.ops == Decide(NO_OPERATIONS, e) && s.books == Books.NO_BOOKS && s.foreign.cancellations == map[]
    requires e.value.state.IsAuthorized? && claims.payloadHash == e.value.operation.payloadHash
    requires hash in intents && intents[hash] == Sealed(e.seqNo + 1, hash, Intent(Some(e.value.operation), e.seqNo))
    ensures var f := FenceAfter(e, hash, claims);
      && NextFence(cfg, intents, s, f).Some?
      && var after := NextFence(cfg, intents, s, f).value;
      after.ops == FencedBy(s.ops, f.value) && after.books == Books.NO_BOOKS
  {
    hide ClaimsJoinOperation;
    assert FenceForeign(s.foreign, e.value.operation.operationId).Some?;
  }

  lemma EmptyRelease(cfg: Config, intents: Intents, s: State, e: Sealed<Decision>, hash: string, claims: DispatchClaims)
    requires IsKnownAdapter(cfg, e.value.adapter)
    requires s.ops == FencedBy(Decide(NO_OPERATIONS, e), FenceAfter(e, hash, claims).value) && s.books == Books.NO_BOOKS
    ensures NextSettlement(cfg, intents, s, ReleaseAfter(e, hash)).Some?
    ensures PhaseOf(NextSettlement(cfg, intents, s, ReleaseAfter(e, hash)).value.ops, e.value.operation.operationId) == Some(Phase.Released)
  {
    hide ReceiptProves, IntentJoins;
    var t := ReleaseAfter(e, hash);
    assert Joined(s.ops, e.value.operation, e.hash, t.seqNo) == Some(e);
    assert ClosesFence(s.ops, t.value);
    assert MaySettle(cfg, intents, s.ops, e, t);
    assert SettleBooks(s.books, t.value) == Some(s.books);
  }

  lemma IntentIsCollected(e: Sealed<Decision>, hash: string, claims: DispatchClaims)
    requires IsDigest(hash)
    ensures IntentsOf(EmptyHandedRun(e, hash, claims)) == map[hash := Sealed(e.seqNo + 1, hash, Intent(Some(e.value.operation), e.seqNo))]
  {
    hide IsDigest;
    var rs := EmptyHandedRun(e, hash, claims);
    assert rs[..3][..2] == rs[..2] && rs[..2][..1] == rs[..1] && rs[..1][..0] == [];
    assert IntentsOf(rs[..1]) == map[];
    assert IntentsOf(rs[..3]) == IntentsOf(rs[..2]);
    assert IntentsOf(rs) == IntentsOf(rs[..3]);
  }

  lemma EmptyHandedSteps(cfg: Config, intents: Intents, e: Sealed<Decision>, hash: string, claims: DispatchClaims)
    requires NextDecision(cfg, START, e).Some?
    requires NextFence(cfg, intents, NextDecision(cfg, START, e).value, FenceAfter(e, hash, claims)).Some?
    ensures Run(cfg, intents, EmptyHandedRun(e, hash, claims))
         == NextSettlement(
              cfg, intents, NextFence(cfg, intents, NextDecision(cfg, START, e).value, FenceAfter(e, hash, claims)).value, ReleaseAfter(e, hash))
  {
    hide NextDecision, NextFence, NextSettlement;
    var rs := EmptyHandedRun(e, hash, claims);
    assert rs[..3][..2] == rs[..2] && rs[..2][..1] == rs[..1] && rs[..1][..0] == [];
    assert Run(cfg, intents, rs[..1]) == NextDecision(cfg, START, e);
    assert Run(cfg, intents, rs[..2]) == Run(cfg, intents, rs[..1]);
    assert Run(cfg, intents, rs[..3]) == NextFence(cfg, intents, NextDecision(cfg, START, e).value, FenceAfter(e, hash, claims));
  }

  /**
   An authorization that charges no account can be fenced and then released on `durable_no_dispatch`: the replay
   accepts the whole prefix, without any receipt.
   */
  lemma EmptyHandedRelease(cfg: Config, e: Sealed<Decision>, hash: string, claims: DispatchClaims)
    requires e.value.state.IsAuthorized? && e.value.accounts == [] && NextDecision(cfg, START, e).Some?
    requires IsDigest(hash) && claims.payloadHash == e.value.operation.payloadHash
    ensures var rs := EmptyHandedRun(e, hash, claims);
      && Accepts(cfg, rs) && rs[2].value.FencedDispatch? && rs[3].value.settlement.basis.DurableNoDispatch?
      && PhaseOf(Run(cfg, IntentsOf(rs), rs).value.ops, e.value.operation.operationId) == Some(Phase.Released)
  {
    var rs := EmptyHandedRun(e, hash, claims);
    var intents := IntentsOf(rs);
    IntentIsCollected(e, hash, claims);
    EmptyAuthorization(cfg, e);
    hide NextDecision, NextFence, NextSettlement, IsDigest, IntentsOf, Run;
    var s := NextDecision(cfg, START, e).value;
    EmptyFence(cfg, intents, s, e, hash, claims);
    EmptyRelease(cfg, intents, NextFence(cfg, intents, s, FenceAfter(e, hash, claims)).value, e, hash, claims);
    EmptyHandedSteps(cfg, intents, e, hash, claims);
  }
}
