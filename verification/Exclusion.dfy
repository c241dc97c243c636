/** What an accepted run rules out between records far apart: reuse of live identifiers, and cancelling what is fenced. */
module Exclusion {
  import opened Prelude
  import opened Evidence
  import opened OneTime
  import opened ForeignPoints
  import opened Lifecycle
  import opened Replay
  import Books

  // ---------- one-time identifiers ----------

  /** The identifiers that a record consumes. */
  function FactsOf(body: Body): seq<Fact> {
    match body
    case Decided(d) => d.identifiers
    case Authenticated(a) => a.identifiers
    case _ => []
  }

  function InstantOf(body: Body): int {
    match body
    case Decided(d) => d.at
    case Authenticated(a) => a.at
    case _ => 0
  }

  ghost predicate UsedInTime(at: int, facts: seq<Fact>) {
    DistinctNames(facts) && forall f <- facts :: IsGuarded(f.name.space) ==> at <= f.expires
  }

  ghost predicate Consumes(before: State, after: State, body: Body) {
    UsedInTime(InstantOf(body), FactsOf(body)) && ConsumeAll(before.consumed, InstantOf(body), FactsOf(body)) == Some(after.consumed)
  }

  lemma DecisionConsumes(cfg: Config, s: State, e: Sealed<Decision>)
    requires NextDecision(cfg, s, e).Some?
    ensures Consumes(s, NextDecision(cfg, s, e).value, Decided(e.value))
  {
    hide AdaptedAdmission, AuthorizeForeign, AccountsAreExact, ExpectedFacts, Decide, DistinctReservations, ValidAccountPeriod;
    var d := e.value;
    assert ValidConsumption(cfg, d);
    if d.state.IsAuthorized? {
      var adm := AdaptedAdmission(cfg, d).value;
      forall f | f in d.identifiers && IsGuarded(f.name.space) ensures d.at <= f.expires {
        assert f in ElementsOf(d.identifiers);
        DecisionUsesInTime(cfg, d, adm, f);
      }
    }
  }

  lemma AuthenticationConsumes(cfg: Config, s: State, e: Sealed<Authentication>)
    requires NextAuthentication(cfg, s, e).Some?
    ensures Consumes(s, NextAuthentication(cfg, s, e).value, Authenticated(e.value))
  {
    hide AuthenticationAdmission, ContextJoins, Retain, ConsumeAll, DistinctNames;
    var a := e.value;
    var adm := AuthenticationAdmission(cfg, s.ops, e).value;
    forall f | f in a.identifiers ensures a.at <= f.expires {
      assert f in ElementsOf(a.identifiers);
    }
  }

  lemma StepConsumes(cfg: Config, intents: Intents, s: State, r: Record)
    requires Next(cfg, intents, s, r).Some?
    ensures Consumes(s, Next(cfg, intents, s, r).value, r.value)
  {
    match r.value {
      case Decided(d) =>
        hide NextDecision, Consumes;
        DecisionConsumes(cfg, s, Sealed(r.seqNo, r.hash, d));
      case Authenticated(a) =>
        hide NextAuthentication, Consumes;
        AuthenticationConsumes(cfg, s, Sealed(r.seqNo, r.hash, a));
      case _ =>
        OthersConsumeNothing(cfg, intents, s, r);
    }
  }

  lemma OthersConsumeNothing(cfg: Config, intents: Intents, s: State, r: Record)
    requires Next(cfg, intents, s, r).Some? && !r.value.Decided? && !r.value.Authenticated?
    ensures Next(cfg, intents, s, r).value.consumed == s.consumed && FactsOf(r.value) == []
  {
    hide NextDecision, NextAuthentication, MaySkipLegacy, Books.FenceAll;
    hide CancelledIdentity, CancelForeign, Joined, MayFence, FenceForeign, MayPend, MayResume, MayRecover, MaySettle, SettleBooks;
  }

  /** If the record uses this identifier, it does so no later than it expires. */
  ghost predicate InTime(r: Record, name: Name) {
    forall f <- FactsOf(r.value) :: f.name == name ==> InstantOf(r.value) <= f.expires
  }

  lemma {:induction false} RunRemembers(cfg: Config, intents: Intents, rs: seq<Record>, i: nat, n: nat, f: Fact)
    requires i < n <= |rs| && Run(cfg, intents, rs).Some? && Run(cfg, intents, rs[..n]).Some?
    requires f in FactsOf(rs[i].value) && forall k :: i < k < n ==> InTime(rs[k], f.name)
    ensures Remembers(Run(cfg, intents, rs[..n]).value.consumed, f.name, f.expires)
    decreases n
  {
    hide Run, Next, Remembers;
    PrefixRuns(cfg, intents, rs, n - 1);
    var before := Run(cfg, intents, rs[..n - 1]).value;
    StepConsumes(cfg, intents, before, rs[n - 1]);
    var at, facts := InstantOf(rs[n - 1].value), FactsOf(rs[n - 1].value);
    if i == n - 1 {
      ConsumeRemembers(before.consumed, at, facts, f);
    } else {
      RunRemembers(cfg, intents, rs, i, n - 1, f);
      ConsumeKeepsMemory(before.consumed, at, facts, f.name, f.expires);
    }
  }

  /**
   If two records of an accepted run consume one identifier, the later one is evaluated after the earlier use
   expired, as long as the records between them use it in time. Instants need not grow along the ledger, and
   only the last expiry is kept.
   */
  lemma NoReuseOfTimelyNames(cfg: Config, intents: Intents, rs: seq<Record>, i: nat, j: nat, f: Fact, g: Fact)
    requires i < j < |rs| && Run(cfg, intents, rs).Some?
    requires f in FactsOf(rs[i].value) && g in FactsOf(rs[j].value) && f.name == g.name
    requires forall k :: i < k < j ==> InTime(rs[k], f.name)
    ensures f.expires < InstantOf(rs[j].value)
  {
    hide Run, Next, Remembers, InTime;
    PrefixRuns(cfg, intents, rs, j);
    PrefixRuns(cfg, intents, rs, j + 1);
    var before := Run(cfg, intents, rs[..j]).value;
    RunRemembers(cfg, intents, rs, i, j, f);
    StepConsumes(cfg, intents, before, rs[j]);
    ConsumeWaits(before.consumed, InstantOf(rs[j].value), FactsOf(rs[j].value), g, f.expires);
  }

  lemma GuardedNamesAreTimely(cfg: Config, intents: Intents, rs: seq<Record>, k: nat, name: Name)
    requires k < |rs| && Run(cfg, intents, rs).Some? && IsGuarded(name.space)
    ensures InTime(rs[k], name)
  {
    hide Run, Next, ConsumeAll;
    PrefixRuns(cfg, intents, rs, k);
    PrefixRuns(cfg, intents, rs, k + 1);
    StepConsumes(cfg, intents, Run(cfg, intents, rs[..k]).value, rs[k]);
  }

  /** Nonces and foreign dispatches are always used in time, so no accepted run reuses one before it expires. */
  lemma NoLiveReuse(cfg: Config, intents: Intents, rs: seq<Record>, i: nat, j: nat, f: Fact, g: Fact)
    requires i < j < |rs| && Run(cfg, intents, rs).Some?
    requires f in FactsOf(rs[i].value) && g in FactsOf(rs[j].value) && f.name == g.name && IsGuarded(f.name.space)
    ensures f.expires < InstantOf(rs[j].value)
  {
    hide Run, InTime;
    forall k | i < k < j ensures InTime(rs[k], f.name) {
      GuardedNamesAreTimely(cfg, intents, rs, k, f.name);
    }
    NoReuseOfTimelyNames(cfg, intents, rs, i, j, f, g);
  }

  /** The authority check accepts no decision after the expiry of an approval with this identifier that it retains. */
  ghost predicate ChecksApprovalTime(cfg: Config, name: Name) {
    forall e: Sealed<Decision>, adm, token, f ::
      && cfg.authority(e) && e.value.approvals.Some? && token in e.value.approvals.value
      && ApprovalFact(cfg, adm, e.value.fingerprint, token) == Some(f) && f.name == name
      ==> e.value.at <= f.expires
  }

  lemma DecisionUsesApprovalInTime(cfg: Config, s: State, e: Sealed<Decision>, name: Name)
    requires NextDecision(cfg, s, e).Some? && ChecksApprovalTime(cfg, name) && name.space.Approval?
    ensures InTime(Sealed(e.seqNo, e.hash, Decided(e.value)), name)
  {
    hide AdaptedAdmission, AuthorizeForeign, AccountsAreExact, ExpectedFacts, ApprovalFact, ConsumeAll, Decide;
    hide DistinctReservations, ValidAccountPeriod, DistinctNames, Books.ChargeAll;
    assert MayDecide(cfg, s.ops, e.value);
    if e.value.state.IsAuthorized? {
      var d, adm := e.value, AdaptedAdmission(cfg, e.value).value;
      ExpectedFactsParts(cfg, d, adm);
      OwnFactIsGuarded(cfg, d, adm);
      forall f | f in d.identifiers && f.name == name ensures d.at <= f.expires {
        assert f in ElementsOf(d.identifiers);
      }
    }
  }

  lemma OwnFactIsGuarded(cfg: Config, d: Decision, adm: Admission)
    ensures OwnFact(cfg, d, adm).Some? ==> IsGuarded(OwnFact(cfg, d, adm).value.name.space)
  {
  }

  lemma AuthenticationUsesNoApproval(cfg: Config, s: State, e: Sealed<Authentication>, f: Fact)
    requires NextAuthentication(cfg, s, e).Some? && f in e.value.identifiers
    ensures f.name.space.ActorNonce?
  {
    hide AuthenticationAdmission, ContextJoins, Retain, ConsumeAll, DistinctNames;
    assert f in ElementsOf(e.value.identifiers);
  }

  lemma ApprovalsAreTimely(cfg: Config, intents: Intents, rs: seq<Record>, k: nat, name: Name)
    requires k < |rs| && Run(cfg, intents, rs).Some? && ChecksApprovalTime(cfg, name) && name.space.Approval?
    ensures InTime(rs[k], name)
  {
    hide Run, NextDecision, NextAuthentication, ChecksApprovalTime;
    PrefixRuns(cfg, intents, rs, k);
    PrefixRuns(cfg, intents, rs, k + 1);
    var before := Run(cfg, intents, rs[..k]).value;
    match rs[k].value {
      case Decided(d) => DecisionUsesApprovalInTime(cfg, before, Sealed(rs[k].seqNo, rs[k].hash, d), name);
      case Authenticated(a) =>
        forall f | f in a.identifiers ensures f.name != name {
          AuthenticationUsesNoApproval(cfg, before, Sealed(rs[k].seqNo, rs[k].hash, a), f);
        }
      case _ =>
    }
  }

  /** Under an authority check that compares an approval's expiry with the decision, no approval is reused before it expires. */
  lemma NoLiveApprovalReuse(cfg: Config, intents: Intents, rs: seq<Record>, i: nat, j: nat, f: Fact, g: Fact)
    requires i < j < |rs| && Run(cfg, intents, rs).Some? && f.name.space.Approval? && ChecksApprovalTime(cfg, f.name)
    requires f in FactsOf(rs[i].value) && g in FactsOf(rs[j].value) && f.name == g.name
    ensures f.expires < InstantOf(rs[j].value)
  {
    hide Run, InTime, ChecksApprovalTime;
    forall k | i < k < j ensures InTime(rs[k], f.name) {
      ApprovalsAreTimely(cfg, intents, rs, k, f.name);
    }
    NoReuseOfTimelyNames(cfg, intents, rs, i, j, f, g);
  }

  // ---------- foreign operations ----------

  /** The foreign operation that an accepted record cancels. */
  ghost function CancelledBy(cfg: Config, r: Record): Option<Identity> {
    if r.value.Cancelled? then CancelledIdentity(cfg, r.value.cancellation) else None
  }

  /** The foreign operation that an authorized decision serves. */
  ghost function AuthorizedBy(cfg: Config, r: Record): Option<Identity> {
    if r.value.Decided? && r.value.decision.state.IsAuthorized? && AdaptedAdmission(cfg, r.value.decision).Some? then
      AuthorizedIdentity(cfg, AdaptedAdmission(cfg, r.value.decision).value, r.value.decision)
    else None
  }

  /** What a step may do to the foreign bookkeeping. */
  ghost predicate ForeignStep(cfg: Config, before: State, after: State, r: Record) {
    && before.foreign.cancellations.Keys <= after.foreign.cancellations.Keys && before.foreign.fences <= after.foreign.fences
    && (Excludes(before.foreign) ==> Excludes(after.foreign))
    && (CancelledBy(cfg, r).Some? ==>
          CancelledBy(cfg, r).value !in before.foreign.cancellations && CancelledBy(cfg, r).value in after.foreign.cancellations)
    && (AuthorizedBy(cfg, r).Some? ==> AuthorizedBy(cfg, r).value !in before.foreign.cancellations)
    && (forall id <- before.foreign.authorizations ::
          id in before.ops.decisions ==> id in after.foreign.authorizations && after.foreign.authorizations[id] == before.foreign.authorizations[id])
    && (r.value.Decided? && AuthorizedBy(cfg, r).Some? ==>
          var id := r.value.decision.operation.operationId;
          id in after.ops.decisions && id in after.foreign.authorizations && after.foreign.authorizations[id] == AuthorizedBy(cfg, r).value)
    && (r.value.FencedDispatch? && r.value.fence.operation.operationId in before.foreign.authorizations ==>
          before.foreign.authorizations[r.value.fence.operation.operationId] in after.foreign.fences)
    && before.ops.decisions.Keys <= after.ops.decisions.Keys
  }

  lemma DecisionIsForeignStep(cfg: Config, s: State, e: Sealed<Decision>)
    requires NextDecision(cfg, s, e).Some?
    ensures ForeignStep(cfg, s, NextDecision(cfg, s, e).value, Sealed(e.seqNo, e.hash, Decided(e.value)))
  {
    hide AdaptedAdmission, ForeignIdentity, AccountsAreExact, ExpectedFacts, ConsumeAll, ValidConsumption;
  }

  lemma FenceIsForeignStep(cfg: Config, intents: Intents, s: State, f: Sealed<Fence>)
    requires NextFence(cfg, intents, s, f).Some?
    ensures ForeignStep(cfg, s, NextFence(cfg, intents, s, f).value, Sealed(f.seqNo, f.hash, FencedDispatch(f.value)))
  {
    hide Joined, MayFence;
    assert FenceForeign(s.foreign, f.value.operation.operationId).Some?;
  }

  lemma CancellationIsForeignStep(cfg: Config, s: State, e: Sealed<Cancellation>)
    requires NextCancellation(cfg, s, e).Some?
    ensures ForeignStep(cfg, s, NextCancellation(cfg, s, e).value, Sealed(e.seqNo, e.hash, Cancelled(e.value)))
  {
    hide CancelledIdentity;
  }

  lemma OthersKeepForeign(cfg: Config, intents: Intents, s: State, r: Record)
    requires Next(cfg, intents, s, r).Some? && !r.value.Decided? && !r.value.FencedDispatch? && !r.value.Cancelled?
    ensures Next(cfg, intents, s, r).value.foreign == s.foreign
  {
    hide NextDecision, NextFence, NextCancellation, MaySkipLegacy, Retain, ConsumeAll;
    hide AuthenticationIsProved, Joined, MayPend, MayResume, MayRecover, MaySettle, SettleBooks;
    hide SuspendedBy, ResumedBy, RecoveredBy, SettledBy;
  }

  lemma OthersKeepDecisions(ops: Operations, r: Record)
    requires !r.value.Decided?
    ensures Written(ops, r).decisions == ops.decisions
  {
  }

  lemma StepIsForeignStep(cfg: Config, intents: Intents, s: State, r: Record)
    requires Next(cfg, intents, s, r).Some?
    ensures ForeignStep(cfg, s, Next(cfg, intents, s, r).value, r)
  {
    match r.value {
      case Decided(d) =>
        hide NextDecision, ForeignStep;
        DecisionIsForeignStep(cfg, s, Sealed(r.seqNo, r.hash, d));
      case FencedDispatch(f) =>
        hide NextFence, ForeignStep;
        FenceIsForeignStep(cfg, intents, s, Sealed(r.seqNo, r.hash, f));
      case Cancelled(c) =>
        hide NextCancellation, ForeignStep;
        CancellationIsForeignStep(cfg, s, Sealed(r.seqNo, r.hash, c));
      case _ =>
        OthersKeepForeign(cfg, intents, s, r);
        StepWrites(cfg, intents, s, r);
        OthersKeepDecisions(s.ops, r);
        hide Next, Written;
    }
  }

  lemma ForeignAdvances(cfg: Config, intents: Intents, rs: seq<Record>, n: nat)
    requires n < |rs| && Run(cfg, intents, rs).Some?
    ensures Run(cfg, intents, rs[..n]).Some? && Run(cfg, intents, rs[..n + 1]).Some?
    ensures ForeignStep(cfg, Run(cfg, intents, rs[..n]).value, Run(cfg, intents, rs[..n + 1]).value, rs[n])
  {
    hide Run, Next, ForeignStep;
    PrefixRuns(cfg, intents, rs, n);
    PrefixRuns(cfg, intents, rs, n + 1);
    StepIsForeignStep(cfg, intents, Run(cfg, intents, rs[..n]).value, rs[n]);
  }

  /** What one part of a run leaves for a later one. */
  ghost predicate ForeignGrows(before: State, after: State) {
    && before.foreign.cancellations.Keys <= after.foreign.cancellations.Keys && before.foreign.fences <= after.foreign.fences
    && before.ops.decisions.Keys <= after.ops.decisions.Keys
    && (Excludes(before.foreign) ==> Excludes(after.foreign))
    && forall id <- before.foreign.authorizations :: id in before.ops.decisions ==>
      id in after.foreign.authorizations && after.foreign.authorizations[id] == before.foreign.authorizations[id]
  }

  lemma {:induction false} ForeignPersists(cfg: Config, intents: Intents, rs: seq<Record>, m: nat, n: nat)
    requires m <= n <= |rs| && Run(cfg, intents, rs).Some?
    ensures Run(cfg, intents, rs[..m]).Some? && Run(cfg, intents, rs[..n]).Some?
    ensures ForeignGrows(Run(cfg, intents, rs[..m]).value, Run(cfg, intents, rs[..n]).value)
    decreases n - m
  {
    hide Run;
    PrefixRuns(cfg, intents, rs, n);
    if m < n {
      ForeignAdvances(cfg, intents, rs, m);
      ForeignPersists(cfg, intents, rs, m + 1, n);
    }
  }

  /** After every accepted run no foreign operation is both fenced and cancelled. */
  lemma FencedAndCancelledAreDisjoint(cfg: Config, intents: Intents, rs: seq<Record>)
    requires Run(cfg, intents, rs).Some?
    ensures Excludes(Run(cfg, intents, rs).value.foreign)
  {
    ForeignPersists(cfg, intents, rs, 0, |rs|);
    assert rs[..0] == [] && rs[..|rs|] == rs;
  }

  /** A foreign operation is cancelled at most once, and not authorized after its cancellation. */
  lemma CancellationIsFinal(cfg: Config, intents: Intents, rs: seq<Record>, i: nat, j: nat)
    requires i < j < |rs| && Run(cfg, intents, rs).Some? && CancelledBy(cfg, rs[i]).Some?
    ensures CancelledBy(cfg, rs[j]) != CancelledBy(cfg, rs[i])
    ensures AuthorizedBy(cfg, rs[j]) != CancelledBy(cfg, rs[i])
  {
    hide Run, CancelledBy, AuthorizedBy;
    ForeignAdvances(cfg, intents, rs, i);
    ForeignPersists(cfg, intents, rs, i + 1, j);
    ForeignAdvances(cfg, intents, rs, j);
  }

  lemma FencedForeign(cfg: Config, intents: Intents, rs: seq<Record>, k: nat, i: nat)
    requires k < i < |rs| && Run(cfg, intents, rs).Some?
    requires rs[k].value.Decided? && AuthorizedBy(cfg, rs[k]).Some? && rs[i].value.FencedDispatch?
    requires rs[i].value.fence.operation.operationId == rs[k].value.decision.operation.operationId
    ensures AuthorizedBy(cfg, rs[k]).value in Run(cfg, intents, rs).value.foreign.fences
  {
    hide Run, CancelledBy, AuthorizedBy, Excludes;
    ForeignAdvances(cfg, intents, rs, k);
    ForeignPersists(cfg, intents, rs, k + 1, i);
    ForeignAdvances(cfg, intents, rs, i);
    hide ForeignStep;
    ForeignPersists(cfg, intents, rs, i + 1, |rs|);
    assert rs[..|rs|] == rs;
  }

  lemma CancelledForeign(cfg: Config, intents: Intents, rs: seq<Record>, j: nat)
    requires j < |rs| && Run(cfg, intents, rs).Some? && CancelledBy(cfg, rs[j]).Some?
    ensures CancelledBy(cfg, rs[j]).value in Run(cfg, intents, rs).value.foreign.cancellations
  {
    hide Run, CancelledBy, AuthorizedBy, Excludes;
    ForeignAdvances(cfg, intents, rs, j);
    ForeignPersists(cfg, intents, rs, j + 1, |rs|);
    assert rs[..|rs|] == rs;
  }

  /** The foreign operation behind a dispatch that the run fences is never cancelled, before or after the fence. */
  lemma FencedIsNeverCancelled(cfg: Config, intents: Intents, rs: seq<Record>, k: nat, i: nat, j: nat)
    requires k < i < |rs| && j < |rs| && Run(cfg, intents, rs).Some?
    requires rs[k].value.Decided? && AuthorizedBy(cfg, rs[k]).Some? && rs[i].value.FencedDispatch?
    requires rs[i].value.fence.operation.operationId == rs[k].value.decision.operation.operationId
    ensures CancelledBy(cfg, rs[j]) != AuthorizedBy(cfg, rs[k])
  {
    hide Run, CancelledBy, AuthorizedBy, Excludes;
    FencedForeign(cfg, intents, rs, k, i);
    if CancelledBy(cfg, rs[j]).Some? {
      CancelledForeign(cfg, intents, rs, j);
    }
    FencedAndCancelledAreDisjoint(cfg, intents, rs);
    NotBoth(Run(cfg, intents, rs).value.foreign, AuthorizedBy(cfg, rs[k]).value);
  }

  lemma NotBoth(f: Foreign, identity: Identity)
    requires Excludes(f) && identity in f.fences
    ensures identity !in f.cancellations
  {
  }

  // ---------- raw dispatches ----------

  /** The record authorizes an operation on the strength of this raw foreign dispatch. */
  predicate AuthorizesDispatch(r: Record, raw: string) {
    r.value.Decided? && r.value.decision.state.IsAuthorized? && r.value.decision.foreign == ForeignToken(raw)
  }

  predicate CancelsDispatch(r: Record, raw: string) {
    r.value.Cancelled? && r.value.cancellation.foreignDispatch == raw
  }

  lemma AuthorizationHasIdentity(cfg: Config, s: State, e: Sealed<Decision>)
    requires NextDecision(cfg, s, e).Some? && e.value.state.IsAuthorized? && e.value.foreign.ForeignToken?
    ensures AuthorizedBy(cfg, Sealed(e.seqNo, e.hash, Decided(e.value))).Some?
  {
    hide AdaptedAdmission, AuthorizedIdentity, AccountsAreExact, ExpectedFacts, ConsumeAll, MayDecide, Books.ChargeAll;
  }

  /** An accepted record that authorizes or cancels a raw dispatch has a foreign identity, and there is one for the dispatch. */
  lemma DispatchHasIdentity(cfg: Config, intents: Intents, rs: seq<Record>, i: nat, raw: string)
    requires i < |rs| && Run(cfg, intents, rs).Some?
    ensures AuthorizesDispatch(rs[i], raw) ==> AuthorizedBy(cfg, rs[i]).Some?
    ensures CancelsDispatch(rs[i], raw) ==> CancelledBy(cfg, rs[i]).Some?
  {
    hide Run, NextDecision, CancelledIdentity, AuthorizedBy;
    PrefixRuns(cfg, intents, rs, i);
    PrefixRuns(cfg, intents, rs, i + 1);
    if AuthorizesDispatch(rs[i], raw) {
      AuthorizationHasIdentity(cfg, Run(cfg, intents, rs[..i]).value, Sealed(rs[i].seqNo, rs[i].hash, rs[i].value.decision));
    }
  }

  lemma OneIdentityPerDispatch(cfg: Config, r: Record, c: Record, raw: string)
    requires AuthorizesDispatch(r, raw) && CancelsDispatch(c, raw)
    requires AuthorizedBy(cfg, r).Some? && CancelledBy(cfg, c).Some?
    ensures AuthorizedBy(cfg, r) == CancelledBy(cfg, c)
  {
    hide AuthorizedIdentity, CancelledIdentity, AdaptedAdmission;
    BothSidesNameOneOperation(cfg, AdaptedAdmission(cfg, r.value.decision).value, r.value.decision, c.value.cancellation);
  }

  /** An accepted run cancels a raw dispatch at most once. */
  lemma DispatchIsCancelledOnce(cfg: Config, intents: Intents, rs: seq<Record>, i: nat, j: nat, raw: string)
    requires i < j < |rs| && Run(cfg, intents, rs).Some? && CancelsDispatch(rs[i], raw)
    ensures !CancelsDispatch(rs[j], raw)
  {
    hide Run, CancelledIdentity;
    DispatchHasIdentity(cfg, intents, rs, i, raw);
    DispatchHasIdentity(cfg, intents, rs, j, raw);
    CancellationIsFinal(cfg, intents, rs, i, j);
    if CancelsDispatch(rs[j], raw) {
      OneCancellationPerDispatch(cfg, rs[i].value.cancellation, rs[j].value.cancellation);
    }
  }

  lemma OneCancellationPerDispatch(cfg: Config, a: Cancellation, b: Cancellation)
    requires a.foreignDispatch == b.foreignDispatch && CancelledIdentity(cfg, a).Some? && CancelledIdentity(cfg, b).Some?
    ensures CancelledIdentity(cfg, a) == CancelledIdentity(cfg, b)
  {
    hide CancelledIdentity, CancellingAdmission, PointDispatch, Selects;
    CancelledIdentityIsClaimed(cfg, a);
    CancelledIdentityIsClaimed(cfg, b);
  }

  lemma CancelledIdentityIsClaimed(cfg: Config, c: Cancellation)
    requires CancelledIdentity(cfg, c).Some?
    ensures cfg.dispatchClaims(c.foreignDispatch).Some?
    ensures var claims := cfg.dispatchClaims(c.foreignDispatch).value;
      CancelledIdentity(cfg, c) == Some(Identity(claims.pointId, claims.operationId))
  {
    CancellationIsExact(cfg, c, CancelledIdentity(cfg, c).value);
    hide CancelledIdentity, CancellingAdmission, PointDispatch;
    RawDispatchNamesOperation(cfg, c.foreignDispatch, CancellingAdmission(cfg, c).value.points.value);
  }

  /** Once an accepted run has cancelled a raw dispatch, it authorizes no operation on it. */
  lemma CancelledDispatchIsNotAuthorized(cfg: Config, intents: Intents, rs: seq<Record>, i: nat, j: nat, raw: string)
    requires i < j < |rs| && Run(cfg, intents, rs).Some? && CancelsDispatch(rs[i], raw)
    ensures !AuthorizesDispatch(rs[j], raw)
  {
    hide Run, CancelledBy, AuthorizedBy;
    DispatchHasIdentity(cfg, intents, rs, i, raw);
    DispatchHasIdentity(cfg, intents, rs, j, raw);
    CancellationIsFinal(cfg, intents, rs, i, j);
    if AuthorizesDispatch(rs[j], raw) {
      OneIdentityPerDispatch(cfg, rs[j], rs[i], raw);
    }
  }

  /** An operation that was authorized on a raw dispatch and then fenced rules out every cancellation of that dispatch. */
  lemma FencedDispatchIsNotCancelled(cfg: Config, intents: Intents, rs: seq<Record>, k: nat, i: nat, j: nat, raw: string)
    requires k < i < |rs| && j < |rs| && Run(cfg, intents, rs).Some?
    requires AuthorizesDispatch(rs[k], raw) && rs[i].value.FencedDispatch?
    requires rs[i].value.fence.operation.operationId == rs[k].value.decision.operation.operationId
    ensures !CancelsDispatch(rs[j], raw)
  {
    hide Run, CancelledBy, AuthorizedBy;
    DispatchHasIdentity(cfg, intents, rs, k, raw);
    DispatchHasIdentity(cfg, intents, rs, j, raw);
    FencedIsNeverCancelled(cfg, intents, rs, k, i, j);
    if CancelsDispatch(rs[j], raw) {
      OneIdentityPerDispatch(cfg, rs[k], rs[j], raw);
    }
  }
}
