/** What stays fixed while a dispatch is suspended and resumed, and how often an authentication may be used. */
module FrozenTransport {
  import opened Prelude
  import opened Evidence
  import opened OneTime
  import opened ForeignPoints
  import opened Lifecycle
  import opened Replay
  import opened Automaton
  import Books

  // ---------- the frozen dispatch ----------

  /** Fences belong to their decisions, and suspended transports state their fences. */
  ghost predicate Anchored(ops: Operations) {
    && (forall id <- ops.fences :: FenceIsAnchored(ops, id))
    && (forall id <- ops.pending :: PendingIsAnchored(ops, id))
  }

  ghost predicate FenceIsAnchored(ops: Operations, id: string) {
    id in ops.fences ==> id in ops.decisions && ops.fences[id].operation == ops.decisions[id].value.operation
  }

  ghost predicate PendingIsAnchored(ops: Operations, id: string) {
    id in ops.pending ==> id in ops.fences && StatesFence(ops.pending[id].value, ops.fences[id])
  }

  /** The transport that a record states, if it suspends or resumes a dispatch. */
  function TransportOf(body: Body): Option<Transport> {
    match body
    case Pended(t) => Some(t)
    case Resumed(r) => Some(r.transport)
    case _ => None
  }

  /** The transport is that of the fence, with the hashes that its content determines. */
  ghost predicate IsFrozen(cfg: Config, t: Transport, f: Fence) {
    t.operation == f.operation && StatesFence(t, f) && ValidTransport(cfg, t) && HashesJoin(cfg, t)
  }

  /** What a step keeps: decisions and fences stay, and a transport is frozen to its operation's fence. */
  ghost predicate FrozenStep(cfg: Config, before: Operations, after: Operations, r: Record) {
    && Anchored(after)
    && (forall id <- before.fences :: id in after.fences && after.fences[id] == before.fences[id])
    && (forall id <- after.fences :: id !in before.fences ==> r.value == FencedDispatch(after.fences[id]))
    && (TransportOf(r.value).Some? ==>
          var t := TransportOf(r.value).value;
          t.operation.operationId in before.fences && IsFrozen(cfg, t, before.fences[t.operation.operationId]))
  }

  lemma AnchorsAfter(before: Operations, after: Operations)
    requires Anchored(before)
    requires forall id <- before.fences :: id in after.fences && after.fences[id] == before.fences[id]
    requires forall id <- before.fences :: id in before.decisions ==> id in after.decisions && after.decisions[id] == before.decisions[id]
    requires forall id <- after.fences :: id in before.fences || FenceIsAnchored(after, id)
    requires forall id <- after.pending :: (id in before.pending && after.pending[id] == before.pending[id]) || PendingIsAnchored(after, id)
    ensures Anchored(after)
  {
    hide StatesFence;
    forall id | id in after.fences ensures FenceIsAnchored(after, id) {
      assert FenceIsAnchored(before, id);
    }
    forall id | id in after.pending ensures PendingIsAnchored(after, id) {
      assert PendingIsAnchored(before, id);
    }
  }

  lemma DecisionIsFrozenStep(cfg: Config, s: State, e: Sealed<Decision>)
    requires Anchored(s.ops) && Shaped(s.ops) && NextDecision(cfg, s, e).Some?
    ensures FrozenStep(cfg, s.ops, NextDecision(cfg, s, e).value.ops, Sealed(e.seqNo, e.hash, Decided(e.value)))
  {
    hide AuthorizationEffects, ValidConsumption, Anchored, FenceIsAnchored, PendingIsAnchored;
    AnchorsAfter(s.ops, Decide(s.ops, e));
    DecisionWrites(cfg, s, e);
  }

  lemma FenceIsAtItsDecision(cfg: Config, intents: Intents, ops: Operations, f: Sealed<Fence>)
    requires Shaped(ops) && Joined(ops, f.value.operation, f.value.decisionHash, f.seqNo).Some?
    requires MayFence(cfg, intents, ops, Joined(ops, f.value.operation, f.value.decisionHash, f.seqNo).value, f)
    ensures var id := f.value.operation.operationId;
      id !in ops.fences && id in ops.decisions && ops.decisions[id].value.operation == f.value.operation
  {
    hide IntentJoins, ClaimsJoinOperation;
  }

  lemma FenceAnchors(ops: Operations, f: Fence)
    requires Anchored(ops) && f.operation.operationId !in ops.fences
    requires f.operation.operationId in ops.decisions && ops.decisions[f.operation.operationId].value.operation == f.operation
    ensures Anchored(FencedBy(ops, f))
  {
    hide Anchored, PendingIsAnchored;
    AnchorsAfter(ops, FencedBy(ops, f));
  }

  lemma FenceIsFrozenStep(cfg: Config, intents: Intents, s: State, f: Sealed<Fence>)
    requires Anchored(s.ops) && Shaped(s.ops) && NextFence(cfg, intents, s, f).Some?
    ensures FrozenStep(cfg, s.ops, NextFence(cfg, intents, s, f).value.ops, Sealed(f.seqNo, f.hash, FencedDispatch(f.value)))
  {
    FenceIsAtItsDecision(cfg, intents, s.ops, f);
    hide FenceForeign, MayFence, Joined, Anchored, Shaped;
    FenceAnchors(s.ops, f.value);
    FenceWrites(cfg, intents, s, f);
  }

  /** A transport that joins its decision and states the fence belongs to the operation of the fence. */
  lemma TransportHasFencedOperation(ops: Operations, t: Transport, seqNo: nat)
    requires Anchored(ops) && Joined(ops, t.operation, t.decisionHash, seqNo).Some? && t.operation.operationId in ops.fences
    ensures t.operation == ops.fences[t.operation.operationId].operation
  {
    assert FenceIsAnchored(ops, t.operation.operationId);
  }

  lemma PendingIsFrozenStep(cfg: Config, s: State, t: Sealed<Transport>)
    requires Anchored(s.ops) && NextPending(cfg, s, t).Some?
    ensures FrozenStep(cfg, s.ops, NextPending(cfg, s, t).value.ops, Sealed(t.seqNo, t.hash, Pended(t.value)))
  {
    hide ValidTransport, HashesJoin, StatesFence, Joined, Anchored, FenceIsAnchored;
    assert MayPend(cfg, s.ops, Joined(s.ops, t.value.operation, t.value.decisionHash, t.seqNo).value, t.value);
    TransportHasFencedOperation(s.ops, t.value, t.seqNo);
    AnchorsAfter(s.ops, NextPending(cfg, s, t).value.ops);
  }

  /** A resumed transport is frozen to the fence because the suspended one is. */
  lemma ResumedTransportIsFrozen(cfg: Config, ops: Operations, auths: Authentications, e: Sealed<Decision>, r: Sealed<Resume>)
    requires Anchored(ops) && MayResume(cfg, ops, auths, e, r)
    requires Joined(ops, r.value.transport.operation, r.value.transport.decisionHash, r.seqNo).Some?
    ensures var t := r.value.transport;
      t.operation.operationId in ops.fences && IsFrozen(cfg, t, ops.fences[t.operation.operationId])
  {
    hide ValidTransport, HashesJoin, Joined, IsFresh, RequestsResume;
    var t := r.value.transport;
    TransportHasFencedOperation(ops, t, r.seqNo);
    assert PendingIsAnchored(ops, t.operation.operationId);
  }

  lemma ResumeIsFrozenStep(cfg: Config, s: State, r: Sealed<Resume>)
    requires Anchored(s.ops) && NextResume(cfg, s, r).Some?
    ensures FrozenStep(cfg, s.ops, NextResume(cfg, s, r).value.ops, Sealed(r.seqNo, r.hash, Resumed(r.value)))
  {
    hide Joined, MayResume, IsFrozen, Anchored, FenceIsAnchored, PendingIsAnchored;
    var t := r.value.transport;
    ResumedTransportIsFrozen(cfg, s.ops, s.auths, Joined(s.ops, t.operation, t.decisionHash, r.seqNo).value, r);
    AnchorsAfter(s.ops, NextResume(cfg, s, r).value.ops);
  }

  lemma OthersWriteNoFence(ops: Operations, r: Record)
    requires !r.value.Decided? && !r.value.FencedDispatch? && TransportOf(r.value).None?
    ensures var after := Written(ops, r);
      after.fences == ops.fences && after.decisions == ops.decisions && after.pending == ops.pending
  {
  }

  lemma OthersAreFrozenSteps(cfg: Config, ops: Operations, r: Record)
    requires Anchored(ops) && !r.value.Decided? && !r.value.FencedDispatch? && TransportOf(r.value).None?
    ensures FrozenStep(cfg, ops, Written(ops, r), r)
  {
    OthersWriteNoFence(ops, r);
    hide Written, Anchored, FenceIsAnchored, PendingIsAnchored, IsFrozen;
    AnchorsAfter(ops, Written(ops, r));
  }

  lemma StepIsFrozen(cfg: Config, intents: Intents, s: State, r: Record)
    requires Anchored(s.ops) && Shaped(s.ops) && Next(cfg, intents, s, r).Some?
    ensures FrozenStep(cfg, s.ops, Next(cfg, intents, s, r).value.ops, r)
  {
    match r.value {
      case Decided(d) =>
        hide NextDecision, FrozenStep;
        DecisionIsFrozenStep(cfg, s, Sealed(r.seqNo, r.hash, d));
      case FencedDispatch(f) =>
        hide NextFence, FrozenStep;
        FenceIsFrozenStep(cfg, intents, s, Sealed(r.seqNo, r.hash, f));
      case Pended(t) =>
        hide NextPending, FrozenStep;
        PendingIsFrozenStep(cfg, s, Sealed(r.seqNo, r.hash, t));
      case Resumed(v) =>
        hide NextResume, FrozenStep;
        ResumeIsFrozenStep(cfg, s, Sealed(r.seqNo, r.hash, v));
      case _ =>
        hide Next, FrozenStep, Written;
        StepWrites(cfg, intents, s, r);
        OthersAreFrozenSteps(cfg, s.ops, r);
    }
  }

  lemma {:induction false} RunIsAnchored(cfg: Config, intents: Intents, rs: seq<Record>)
    requires Run(cfg, intents, rs).Some?
    ensures Anchored(Run(cfg, intents, rs).value.ops)
  {
    if rs != [] {
      hide Next, Anchored, Shaped;
      RunIsAnchored(cfg, intents, rs[..|rs| - 1]);
      RunIsShaped(cfg, intents, rs[..|rs| - 1]);
      StepIsFrozen(cfg, intents, Run(cfg, intents, rs[..|rs| - 1]).value, rs[|rs| - 1]);
    }
  }

  lemma FrozenAdvances(cfg: Config, intents: Intents, rs: seq<Record>, n: nat)
    requires n < |rs| && Run(cfg, intents, rs).Some?
    ensures Run(cfg, intents, rs[..n]).Some? && Run(cfg, intents, rs[..n + 1]).Some?
    ensures FrozenStep(cfg, Run(cfg, intents, rs[..n]).value.ops, Run(cfg, intents, rs[..n + 1]).value.ops, rs[n])
  {
    hide Run, Next, Anchored, Shaped, FrozenStep;
    PrefixRuns(cfg, intents, rs, n);
    PrefixRuns(cfg, intents, rs, n + 1);
    RunIsAnchored(cfg, intents, rs[..n]);
    RunIsShaped(cfg, intents, rs[..n]);
    StepIsFrozen(cfg, intents, Run(cfg, intents, rs[..n]).value, rs[n]);
  }

  lemma {:induction false} FencePersists(cfg: Config, intents: Intents, rs: seq<Record>, m: nat, n: nat, id: string)
    requires m <= n <= |rs| && Run(cfg, intents, rs).Some? && Run(cfg, intents, rs[..m]).Some?
    requires id in Run(cfg, intents, rs[..m]).value.ops.fences
    ensures Run(cfg, intents, rs[..n]).Some?
    ensures var after := Run(cfg, intents, rs[..n]).value.ops;
      id in after.fences && after.fences[id] == Run(cfg, intents, rs[..m]).value.ops.fences[id]
    decreases n - m
  {
    hide Run, Anchored;
    PrefixRuns(cfg, intents, rs, n);
    if m < n {
      FrozenAdvances(cfg, intents, rs, m);
      FencePersists(cfg, intents, rs, m + 1, n, id);
    }
  }

  lemma {:induction false} FenceHasRecord(cfg: Config, intents: Intents, rs: seq<Record>, n: nat, id: string) returns (k: nat)
    requires n <= |rs| && Run(cfg, intents, rs).Some? && Run(cfg, intents, rs[..n]).Some?
    requires id in Run(cfg, intents, rs[..n]).value.ops.fences
    ensures k < n && rs[k].value == FencedDispatch(Run(cfg, intents, rs[..n]).value.ops.fences[id])
  {
    hide Next, Anchored;
    if n == 0 {
      assert false;
    } else {
      FrozenAdvances(cfg, intents, rs, n - 1);
      if id in Run(cfg, intents, rs[..n - 1]).value.ops.fences {
        k := FenceHasRecord(cfg, intents, rs, n - 1, id);
      } else {
        k := n - 1;
      }
    }
  }

  /** A transport states the dispatch of one earlier fence record of its operation. */
  lemma TransportStatesItsFence(cfg: Config, intents: Intents, rs: seq<Record>, i: nat) returns (k: nat)
    requires i < |rs| && Run(cfg, intents, rs).Some? && TransportOf(rs[i].value).Some?
    ensures k < i && rs[k].value.FencedDispatch? && IsFrozen(cfg, TransportOf(rs[i].value).value, rs[k].value.fence)
  {
    hide Run, Anchored, IsFrozen;
    FrozenAdvances(cfg, intents, rs, i);
    k := FenceHasRecord(cfg, intents, rs, i, TransportOf(rs[i].value).value.operation.operationId);
  }

  lemma SameFenceSameTransport(cfg: Config, t: Transport, u: Transport, f: Fence)
    requires IsFrozen(cfg, t, f) && IsFrozen(cfg, u, f)
    ensures t.operation == u.operation && t.decisionHash == u.decisionHash && t.intentHash == u.intentHash
    ensures t.token == u.token && t.claims == u.claims && t.foreignDispatchHash == u.foreignDispatchHash
    ensures t.descriptorHash == u.descriptorHash && t.operationHash == u.operationHash
  {
  }

  /** Over any number of rounds of suspending and resuming, the transports of one operation agree on the whole dispatch. */
  lemma TransportIsFrozen(cfg: Config, intents: Intents, rs: seq<Record>, i: nat, j: nat)
    requires i <= j < |rs| && Run(cfg, intents, rs).Some? && TransportOf(rs[i].value).Some? && TransportOf(rs[j].value).Some?
    requires TransportOf(rs[i].value).value.operation.operationId == TransportOf(rs[j].value).value.operation.operationId
    ensures var t, u := TransportOf(rs[i].value).value, TransportOf(rs[j].value).value;
      && t.operation == u.operation && t.decisionHash == u.decisionHash && t.intentHash == u.intentHash
      && t.token == u.token && t.claims == u.claims && t.foreignDispatchHash == u.foreignDispatchHash
      && t.descriptorHash == u.descriptorHash && t.operationHash == u.operationHash
  {
    hide Run, Anchored, IsFrozen;
    var t, u := TransportOf(rs[i].value).value, TransportOf(rs[j].value).value;
    FrozenAdvances(cfg, intents, rs, i);
    FrozenAdvances(cfg, intents, rs, j);
    FencePersists(cfg, intents, rs, i, j, t.operation.operationId);
    SameFenceSameTransport(cfg, t, u, Run(cfg, intents, rs[..i]).value.ops.fences[t.operation.operationId]);
  }

  // ---------- one round of suspending and resuming ----------

  /** What a step does to the suspended transport of an operation. */
  ghost predicate SuspensionStep(before: Operations, after: Operations, r: Record, id: string) {
    id in after.pending ==>
      if SuspendsOperation(r, id) then after.pending[id] == Sealed(r.seqNo, r.hash, r.value.transport)
      else id in before.pending && after.pending[id] == before.pending[id] && !ResumesOperation(r, id)
  }

  predicate SuspendsOperation(r: Record, id: string) {
    r.value.Pended? && r.value.transport.operation.operationId == id
  }

  predicate ResumesOperation(r: Record, id: string) {
    r.value.Resumed? && r.value.resume.transport.operation.operationId == id
  }

  lemma StepSuspends(cfg: Config, intents: Intents, s: State, r: Record, id: string)
    requires Next(cfg, intents, s, r).Some?
    ensures SuspensionStep(s.ops, Next(cfg, intents, s, r).value.ops, r, id)
  {
    hide Next;
    StepWrites(cfg, intents, s, r);
  }

  /** The suspended transport is that of the last record that suspended the operation, which has not been resumed since. */
  lemma {:induction false} SuspensionHasRecord(cfg: Config, intents: Intents, rs: seq<Record>, n: nat, id: string) returns (k: nat)
    requires n <= |rs| && Run(cfg, intents, rs).Some? && Run(cfg, intents, rs[..n]).Some?
    requires id in Run(cfg, intents, rs[..n]).value.ops.pending
    ensures k < n && SuspendsOperation(rs[k], id)
    ensures Run(cfg, intents, rs[..n]).value.ops.pending[id] == Sealed(rs[k].seqNo, rs[k].hash, rs[k].value.transport)
    ensures forall m :: k < m < n ==> !SuspendsOperation(rs[m], id) && !ResumesOperation(rs[m], id)
  {
    hide Next, SuspendsOperation, ResumesOperation;
    if n == 0 {
      assert false;
    } else {
      PrefixRuns(cfg, intents, rs, n - 1);
      StepSuspends(cfg, intents, Run(cfg, intents, rs[..n - 1]).value, rs[n - 1], id);
      if SuspendsOperation(rs[n - 1], id) {
        k := n - 1;
      } else {
        k := SuspensionHasRecord(cfg, intents, rs, n - 1, id);
      }
    }
  }

  /** What a resume takes from the state before it. */
  lemma ResumeContinues(cfg: Config, s: State, r: Sealed<Resume>)
    requires NextResume(cfg, s, r).Some?
    ensures var id := r.value.transport.operation.operationId;
      && id in s.ops.pending && s.ops.pending[id].hash == r.value.pendingHash
      && SameTransport(r.value.transport, s.ops.pending[id].value)
    ensures IsFresh(s.auths.resumes, s.auths.usedForResume, r.value.authenticationHash, r.value.transport.operation, r.seqNo)
    ensures r.value.authenticationHash in NextResume(cfg, s, r).value.auths.usedForResume
  {
    hide ValidTransport, IsAcknowledged, SameTransport, RequestsResume, IsFresh, Joined;
  }

  /**
   A resume closes the last suspension of its operation, names its hash, and repeats its transport, the
   request body included.
   */
  lemma ResumeRepeatsItsSuspension(cfg: Config, intents: Intents, rs: seq<Record>, i: nat) returns (k: nat)
    requires i < |rs| && Run(cfg, intents, rs).Some? && rs[i].value.Resumed?
    ensures var r := rs[i].value.resume; var id := r.transport.operation.operationId;
      && k < i && SuspendsOperation(rs[k], id) && rs[k].hash == r.pendingHash
      && SameTransport(r.transport, rs[k].value.transport) && r.transport.body == rs[k].value.transport.body
      && forall m :: k < m < i ==> !SuspendsOperation(rs[m], id) && !ResumesOperation(rs[m], id)
  {
    hide Run, NextResume, SuspendsOperation, ResumesOperation;
    PrefixRuns(cfg, intents, rs, i);
    PrefixRuns(cfg, intents, rs, i + 1);
    var r := rs[i].value.resume;
    ResumeContinues(cfg, Run(cfg, intents, rs[..i]).value, Sealed(rs[i].seqNo, rs[i].hash, r));
    k := SuspensionHasRecord(cfg, intents, rs, i, r.transport.operation.operationId);
  }

  // ---------- authentications ----------

  /** The authentication that a record spends. */
  function Spends(body: Body): Option<string> {
    match body
    case Resumed(r) => Some(r.authenticationHash)
    case Recovered(r) => Some(r.authenticationHash)
    case _ => None
  }

  function SpentOn(auths: Authentications, body: Body): set<string> {
    if body.Resumed? then auths.usedForResume else auths.usedForRecovery
  }

  function KeptFor(auths: Authentications, body: Body): map<string, Sealed<Authentication>> {
    if body.Resumed? then auths.resumes else auths.reconciliations
  }

  function KindFor(body: Body): AuthenticationKind {
    if body.Resumed? then CounterpartyResume else ReconciliationKind
  }

  /** A step spends only a fresh authentication, forgets nothing spent, and keeps authentications under their record's hash. */
  ghost predicate AuthenticationStep(cfg: Config, before: Authentications, after: Authentications, r: Record) {
    && before.usedForResume <= after.usedForResume && before.usedForRecovery <= after.usedForRecovery
    && (forall hash <- after.resumes :: Keeps(before.resumes, after.resumes, r, hash, CounterpartyResume))
    && (forall hash <- after.reconciliations :: Keeps(before.reconciliations, after.reconciliations, r, hash, ReconciliationKind))
    && (Spends(r.value).Some? ==>
          && Spends(r.value).value !in SpentOn(before, r.value) && Spends(r.value).value in SpentOn(after, r.value)
          && Spends(r.value).value in KeptFor(before, r.value)
          && KeptFor(before, r.value)[Spends(r.value).value].value.operation == OperationOf(r.value)
          && (r.value.Resumed? ==> RequestsResume(cfg, before.resumes[Spends(r.value).value].value, r.value.resume)))
  }

  ghost predicate Keeps(
    before: map<string, Sealed<Authentication>>, after: map<string, Sealed<Authentication>>, r: Record, hash: string, kind: AuthenticationKind)
    requires hash in after
  {
    (hash in before && before[hash] == after[hash]) || (IsKeptFrom(r, after[hash], kind) && r.hash == hash)
  }

  ghost predicate IsKeptFrom(r: Record, e: Sealed<Authentication>, kind: AuthenticationKind) {
    r.value == Authenticated(e.value) && e.value.kind == kind
  }

  lemma RetainKeeps(cfg: Config, auths: Authentications, e: Sealed<Authentication>)
    ensures AuthenticationStep(cfg, auths, Retain(auths, e), Sealed(e.seqNo, e.hash, Authenticated(e.value)))
  {
  }

  lemma NothingKept(cfg: Config, auths: Authentications, r: Record)
    requires Spends(r.value).None?
    ensures AuthenticationStep(cfg, auths, auths, r)
  {
  }

  lemma ResumeSpends(cfg: Config, s: State, r: Sealed<Resume>)
    requires NextResume(cfg, s, r).Some?
    ensures AuthenticationStep(cfg, s.auths, NextResume(cfg, s, r).value.auths, Sealed(r.seqNo, r.hash, Resumed(r.value)))
  {
    hide ValidTransport, IsAcknowledged, SameTransport, RequestsResume, Joined, PhaseOf, ResumedBy;
  }

  lemma RecoverySpends(cfg: Config, s: State, r: Sealed<Recovery>)
    requires NextRecovery(cfg, s, r).Some?
    ensures AuthenticationStep(cfg, s.auths, NextRecovery(cfg, s, r).value.auths, Sealed(r.seqNo, r.hash, Recovered(r.value)))
  {
    hide RecoveryIsSigned, Joined, PhaseOf, RecoveredBy;
  }

  /** Records that neither authenticate nor spend leave the authentications alone. */
  lemma OthersKeepAuthentications(cfg: Config, intents: Intents, s: State, r: Record)
    requires Next(cfg, intents, s, r).Some? && Spends(r.value).None? && !r.value.Authenticated?
    ensures Next(cfg, intents, s, r).value.auths == s.auths
  {
    hide NextResume, NextRecovery, NextAuthentication, MaySkipLegacy, MayDecide, AuthorizationEffects, Decide;
    hide CancelledIdentity, CancelForeign, Joined, MayFence, FenceForeign, FencedBy, MayPend, SuspendedBy, MaySettle, SettleBooks, SettledBy;
  }

  lemma StepAuthenticates(cfg: Config, intents: Intents, s: State, r: Record)
    requires Next(cfg, intents, s, r).Some?
    ensures AuthenticationStep(cfg, s.auths, Next(cfg, intents, s, r).value.auths, r)
  {
    match r.value {
      case Authenticated(a) =>
        hide AuthenticationStep, Retain, ConsumeAll, AuthenticationIsProved;
        RetainKeeps(cfg, s.auths, Sealed(r.seqNo, r.hash, a));
      case Resumed(v) =>
        hide AuthenticationStep, NextResume;
        ResumeSpends(cfg, s, Sealed(r.seqNo, r.hash, v));
      case Recovered(v) =>
        hide AuthenticationStep, NextRecovery;
        RecoverySpends(cfg, s, Sealed(r.seqNo, r.hash, v));
      case _ =>
        OthersKeepAuthentications(cfg, intents, s, r);
        hide AuthenticationStep, Next;
        NothingKept(cfg, s.auths, r);
    }
  }

  lemma AuthenticationAdvances(cfg: Config, intents: Intents, rs: seq<Record>, n: nat)
    requires n < |rs| && Run(cfg, intents, rs).Some?
    ensures Run(cfg, intents, rs[..n]).Some? && Run(cfg, intents, rs[..n + 1]).Some?
    ensures AuthenticationStep(cfg, Run(cfg, intents, rs[..n]).value.auths, Run(cfg, intents, rs[..n + 1]).value.auths, rs[n])
  {
    hide Run, Next, AuthenticationStep;
    PrefixRuns(cfg, intents, rs, n);
    PrefixRuns(cfg, intents, rs, n + 1);
    StepAuthenticates(cfg, intents, Run(cfg, intents, rs[..n]).value, rs[n]);
  }

  lemma {:induction false} SpentStaysSpent(cfg: Config, intents: Intents, rs: seq<Record>, m: nat, n: nat, body: Body, hash: string)
    requires m <= n <= |rs| && Run(cfg, intents, rs).Some? && Run(cfg, intents, rs[..m]).Some?
    requires hash in SpentOn(Run(cfg, intents, rs[..m]).value.auths, body)
    ensures Run(cfg, intents, rs[..n]).Some? && hash in SpentOn(Run(cfg, intents, rs[..n]).value.auths, body)
    decreases n - m
  {
    hide Run, Keeps, Spends, KeptFor;
    PrefixRuns(cfg, intents, rs, n);
    if m < n {
      AuthenticationAdvances(cfg, intents, rs, m);
      SpentStaysSpent(cfg, intents, rs, m + 1, n, body, hash);
    }
  }

  /** No two resumes, and no two recoveries, of an accepted run spend the same authentication. */
  lemma AuthenticationIsSpentOnce(cfg: Config, intents: Intents, rs: seq<Record>, i: nat, j: nat)
    requires i < j < |rs| && Run(cfg, intents, rs).Some?
    requires Spends(rs[i].value).Some? && Spends(rs[j].value).Some? && (rs[i].value.Resumed? <==> rs[j].value.Resumed?)
    ensures Spends(rs[i].value) != Spends(rs[j].value)
  {
    hide Run, Keeps, Spends;
    AuthenticationAdvances(cfg, intents, rs, i);
    SpentStaysSpent(cfg, intents, rs, i + 1, j, rs[i].value, Spends(rs[i].value).value);
    AuthenticationAdvances(cfg, intents, rs, j);
  }

  lemma {:induction false} AuthenticationHasRecord(cfg: Config, intents: Intents, rs: seq<Record>, n: nat, body: Body, hash: string) returns (k: nat)
    requires n <= |rs| && Run(cfg, intents, rs).Some? && Run(cfg, intents, rs[..n]).Some?
    requires hash in KeptFor(Run(cfg, intents, rs[..n]).value.auths, body)
    ensures k < n && rs[k].hash == hash && IsKeptFrom(rs[k], KeptFor(Run(cfg, intents, rs[..n]).value.auths, body)[hash], KindFor(body))
  {
    hide Next, IsKeptFrom, Spends;
    if n == 0 {
      assert false;
    } else {
      AuthenticationAdvances(cfg, intents, rs, n - 1);
      var before, after := KeptFor(Run(cfg, intents, rs[..n - 1]).value.auths, body), KeptFor(Run(cfg, intents, rs[..n]).value.auths, body);
      assert Keeps(before, after, rs[n - 1], hash, KindFor(body));
      if hash in before && before[hash] == after[hash] {
        k := AuthenticationHasRecord(cfg, intents, rs, n - 1, body, hash);
      } else {
        k := n - 1;
      }
    }
  }

  /**
   Every resume and every recovery rests on an earlier authentication record of the right kind and the same
   operation, and the request behind a resume names its acknowledgment and context.
   */
  lemma SpentAuthenticationHasRecord(cfg: Config, intents: Intents, rs: seq<Record>, i: nat) returns (k: nat)
    requires i < |rs| && Run(cfg, intents, rs).Some? && Spends(rs[i].value).Some?
    ensures k < i && Some(rs[k].hash) == Spends(rs[i].value) && rs[k].value.Authenticated?
    ensures rs[k].value.authentication.kind == KindFor(rs[i].value) && rs[k].value.authentication.operation == OperationOf(rs[i].value)
    ensures rs[i].value.Resumed? ==> RequestsResume(cfg, rs[k].value.authentication, rs[i].value.resume)
  {
    hide Run, Keeps, RequestsResume;
    AuthenticationAdvances(cfg, intents, rs, i);
    k := AuthenticationHasRecord(cfg, intents, rs, i, rs[i].value, Spends(rs[i].value).value);
  }

  /** When no two records share a hash, an authentication record licenses at most one later resume or recovery. */
  lemma AuthenticationLicensesOne(cfg: Config, intents: Intents, rs: seq<Record>, i: nat, j: nat)
    requires i < j < |rs| && Run(cfg, intents, rs).Some?
    requires forall m, n :: 0 <= m < n < |rs| ==> rs[m].hash != rs[n].hash
    requires Spends(rs[i].value).Some? && Spends(rs[j].value).Some?
    ensures Spends(rs[i].value) != Spends(rs[j].value)
  {
    hide Run;
    if rs[i].value.Resumed? <==> rs[j].value.Resumed? {
      AuthenticationIsSpentOnce(cfg, intents, rs, i, j);
    } else {
      var k := SpentAuthenticationHasRecord(cfg, intents, rs, i);
      var l := SpentAuthenticationHasRecord(cfg, intents, rs, j);
    }
  }
}
