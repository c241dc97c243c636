/** One accepted record after another: the state of the replay and how each record changes it. */
module Replay {
  import opened Prelude
  import opened Matching
  import opened Evidence
  import opened OneTime
  import opened ForeignPoints
  import opened Lifecycle
  import Books

  datatype State = State(
    ops: Operations, auths: Authentications, books: Books.Books, foreign: Foreign, consumed: Consumed)

  const START: State := State(NO_OPERATIONS, NO_AUTHENTICATIONS, Books.NO_BOOKS, NOTHING_FOREIGN, map[])

  // ---------- decisions ----------

  predicate IsLinked(intents: Intents, seqNo: nat) {
    exists hash <- intents :: intents[hash].value.decisionSeq == seqNo
  }

  /** A consequential decision without consumption evidence, which no prefix may contain. */
  predicate IsUnsupportedLegacy(intents: Intents, r: Record) {
    r.value.Legacy? && (r.value.legacy.allows || IsLinked(intents, r.seqNo)) && !r.value.legacy.dryRun
  }

  predicate IsKnownAdapter(cfg: Config, adapter: Option<string>) {
    adapter.Some? && adapter.value in cfg.adapters
  }

  predicate MaySkipLegacy(cfg: Config, intents: Intents, d: LegacyDecision, seqNo: nat) {
    IsKnownAdapter(cfg, d.adapter) && !d.saysAllow && !IsLinked(intents, seqNo)
  }

  predicate MayDecide(cfg: Config, ops: Operations, d: Decision) {
    IsKnownAdapter(cfg, d.adapter) && ValidConsumption(cfg, d) && d.operation.operationId !in ops.decisions
  }

  /** What an authorization changes besides the operations themselves. */
  datatype Effects = Effects(books: Books.Books, foreign: Foreign, consumed: Consumed)

  ghost function AuthorizationEffects(cfg: Config, s: State, e: Sealed<Decision>): Option<Effects> {
    var d := e.value;
    if !cfg.authority(e) then None
    else
      var adm :- AdaptedAdmission(cfg, d);
      var foreign :- AuthorizeForeign(cfg, s.foreign, adm, d);
      var facts :- ExpectedFacts(cfg, d, adm);
      if ElementsOf(d.identifiers) != facts || !AccountsAreExact(cfg, d) then None
      else
        var consumed :- ConsumeAll(s.consumed, d.at, d.identifiers);
        var books :- Books.ChargeAll(s.books, d.operation.operationId, d.accounts);
        Some(Effects(books, foreign, consumed))
  }

  ghost function NextDecision(cfg: Config, s: State, e: Sealed<Decision>): Option<State> {
    if !MayDecide(cfg, s.ops, e.value) then None
    else if e.value.state.IsRefused? then Some(s.(ops := Decide(s.ops, e)))
    else
      var effects :- AuthorizationEffects(cfg, s, e);
      Some(State(Decide(s.ops, e), s.auths, effects.books, effects.foreign, effects.consumed))
  }

  // ---------- cancellations and authentications ----------

  ghost function NextCancellation(cfg: Config, s: State, e: Sealed<Cancellation>): Option<State> {
    var identity :- CancelledIdentity(cfg, e.value);
    var foreign :- CancelForeign(s.foreign, identity, e);
    Some(s.(foreign := foreign))
  }

  function NextAuthentication(cfg: Config, s: State, e: Sealed<Authentication>): Option<State> {
    var consumed :- ConsumeAll(s.consumed, e.value.at, e.value.identifiers);
    if !AuthenticationIsProved(cfg, s.ops, e) then None
    else Some(s.(consumed := consumed, auths := Retain(s.auths, e)))
  }

  // ---------- lifecycle events ----------

  function NextFence(cfg: Config, intents: Intents, s: State, f: Sealed<Fence>): Option<State> {
    var id := f.value.operation.operationId;
    var e :- Joined(s.ops, f.value.operation, f.value.decisionHash, f.seqNo);
    var foreign :- FenceForeign(s.foreign, id);
    if !MayFence(cfg, intents, s.ops, e, f) then None
    else
      var reservations :- Books.FenceAll(s.books.reservations, id, Books.OwnedBy(s.books, id));
      Some(s.(ops := FencedBy(s.ops, f.value),
              books := s.books.(reservations := reservations),
              foreign := foreign))
  }

  function NextPending(cfg: Config, s: State, t: Sealed<Transport>): Option<State> {
    var e :- Joined(s.ops, t.value.operation, t.value.decisionHash, t.seqNo);
    if !MayPend(cfg, s.ops, e, t.value) then None
    else Some(s.(ops := SuspendedBy(s.ops, t)))
  }

  function NextResume(cfg: Config, s: State, r: Sealed<Resume>): Option<State> {
    var t := r.value.transport;
    var e :- Joined(s.ops, t.operation, t.decisionHash, r.seqNo);
    if !MayResume(cfg, s.ops, s.auths, e, r) then None
    else Some(s.(ops := ResumedBy(s.ops, t),
                 auths := s.auths.(usedForResume := s.auths.usedForResume + {r.value.authenticationHash})))
  }

  function NextRecovery(cfg: Config, s: State, r: Sealed<Recovery>): Option<State> {
    var e :- Joined(s.ops, r.value.operation, r.value.decisionHash, r.seqNo);
    if !MayRecover(cfg, s.ops, s.auths, e, r) then None
    else Some(s.(ops := RecoveredBy(s.ops, r.value),
                 auths := s.auths.(usedForRecovery := s.auths.usedForRecovery + {r.value.authenticationHash})))
  }

  /** Fenced capacity goes back only on a receipt. */
  predicate MayGiveBack(rs: Books.Reservations, open: seq<string>, s: Settlement)
    requires forall id <- open :: id in rs
  {
    (exists id <- open :: rs[id].status == Books.Fenced) ==> s.basis.ResourceReceipt? && s.outcome.Some?
  }

  function SettleBooks(b: Books.Books, s: Settlement): Option<Books.Books> {
    var open := Books.OpenOnes(b.reservations, Books.OwnedBy(b, s.operation.operationId));
    if s.ending.Release? then
      if MayGiveBack(b.reservations, open, s) then Books.ReleaseAll(b, open) else None
    else if exists id <- open :: b.reservations[id].status != Books.Fenced then None
    else
      var reservations :- Books.CommitAll(b.reservations, open);
      Some(b.(reservations := reservations))
  }

  function NextSettlement(cfg: Config, intents: Intents, s: State, t: Sealed<Settlement>): Option<State> {
    var e :- Joined(s.ops, t.value.operation, t.value.decisionHash, t.seqNo);
    if !MaySettle(cfg, intents, s.ops, e, t) then None
    else
      var books :- SettleBooks(s.books, t.value);
      Some(s.(ops := SettledBy(s.ops, t.value), books := books))
  }

  // ---------- runs ----------

  /** The state after one more record, or None when the record aborts the replay. */
  ghost function Next(cfg: Config, intents: Intents, s: State, r: Record): Option<State> {
    match r.value
    case Legacy(d) => if MaySkipLegacy(cfg, intents, d, r.seqNo) then Some(s) else None
    case Decided(d) => NextDecision(cfg, s, Sealed(r.seqNo, r.hash, d))
    case Cancelled(c) => NextCancellation(cfg, s, Sealed(r.seqNo, r.hash, c))
    case Authenticated(a) => NextAuthentication(cfg, s, Sealed(r.seqNo, r.hash, a))
    case Recovered(v) => NextRecovery(cfg, s, Sealed(r.seqNo, r.hash, v))
    case FencedDispatch(f) => NextFence(cfg, intents, s, Sealed(r.seqNo, r.hash, f))
    case Pended(t) => NextPending(cfg, s, Sealed(r.seqNo, r.hash, t))
    case Resumed(v) => NextResume(cfg, s, Sealed(r.seqNo, r.hash, v))
    case Settled(t) => NextSettlement(cfg, intents, s, Sealed(r.seqNo, r.hash, t))
    case Malformed => None
    case Intended(_) => Some(s)
    case Unrelated => Some(s)
  }

  ghost function Run(cfg: Config, intents: Intents, rs: seq<Record>): Option<State> {
    if rs == [] then Some(START)
    else
      var before :- Run(cfg, intents, rs[..|rs| - 1]);
      Next(cfg, intents, before, rs[|rs| - 1])
  }

  /** The intents of a prefix, wherever they stand, by record hash. */
  function IntentsOf(rs: seq<Record>): Intents {
    if rs == [] then map[]
    else
      var r := rs[|rs| - 1];
      var before := IntentsOf(rs[..|rs| - 1]);
      if r.value.Intended? && IsDigest(r.hash) then before[r.hash := Sealed(r.seqNo, r.hash, r.value.intent)] else before
  }

  /** What the replay of a whole prefix accepts. */
  ghost predicate Accepts(cfg: Config, rs: seq<Record>) {
    (forall r <- rs :: !IsUnsupportedLegacy(IntentsOf(rs), r)) && Run(cfg, IntentsOf(rs), rs).Some?
  }

  /** The operations after a record that is accepted. */
  function Written(ops: Operations, r: Record): Operations {
    match r.value
    case Decided(d) => Decide(ops, Sealed(r.seqNo, r.hash, d))
    case FencedDispatch(f) => FencedBy(ops, f)
    case Pended(t) => SuspendedBy(ops, Sealed(r.seqNo, r.hash, t))
    case Resumed(v) => ResumedBy(ops, v.transport)
    case Recovered(v) => RecoveredBy(ops, v)
    case Settled(t) => SettledBy(ops, t)
    case _ => ops
  }

  lemma DecisionWrites(cfg: Config, s: State, e: Sealed<Decision>)
    requires NextDecision(cfg, s, e).Some?
    ensures NextDecision(cfg, s, e).value.ops == Decide(s.ops, e)
  {
    hide MayDecide, AuthorizationEffects, Decide;
  }

  lemma FenceWrites(cfg: Config, intents: Intents, s: State, f: Sealed<Fence>)
    requires NextFence(cfg, intents, s, f).Some?
    ensures NextFence(cfg, intents, s, f).value.ops == FencedBy(s.ops, f.value)
  {
    hide MayFence, Joined, FenceForeign, FencedBy;
  }

  lemma PendingWrites(cfg: Config, s: State, t: Sealed<Transport>)
    requires NextPending(cfg, s, t).Some?
    ensures NextPending(cfg, s, t).value.ops == SuspendedBy(s.ops, t)
  {
    hide MayPend, Joined, SuspendedBy;
  }

  lemma ResumeWrites(cfg: Config, s: State, r: Sealed<Resume>)
    requires NextResume(cfg, s, r).Some?
    ensures NextResume(cfg, s, r).value.ops == ResumedBy(s.ops, r.value.transport)
  {
    hide MayResume, Joined, ResumedBy;
  }

  lemma RecoveryWrites(cfg: Config, s: State, r: Sealed<Recovery>)
    requires NextRecovery(cfg, s, r).Some?
    ensures NextRecovery(cfg, s, r).value.ops == RecoveredBy(s.ops, r.value)
  {
    hide MayRecover, Joined, RecoveredBy;
  }

  lemma SettlementWrites(cfg: Config, intents: Intents, s: State, t: Sealed<Settlement>)
    requires NextSettlement(cfg, intents, s, t).Some?
    ensures NextSettlement(cfg, intents, s, t).value.ops == SettledBy(s.ops, t.value)
  {
    hide MaySettle, Joined, SettleBooks, SettledBy;
  }

  /** Each kind of record writes down its own change of the operations, and nothing else changes them. */
  lemma StepWrites(cfg: Config, intents: Intents, s: State, r: Record)
    requires Next(cfg, intents, s, r).Some?
    ensures Next(cfg, intents, s, r).value.ops == Written(s.ops, r)
  {
    hide NextDecision, NextFence, NextPending, NextResume, NextRecovery, NextSettlement, MaySkipLegacy, Retain, ConsumeAll;
    hide CancelledIdentity, CancelForeign, AuthenticationIsProved, Decide, FencedBy, SuspendedBy, ResumedBy, RecoveredBy, SettledBy;
    match r.value {
      case Decided(d) => DecisionWrites(cfg, s, Sealed(r.seqNo, r.hash, d));
      case FencedDispatch(f) => FenceWrites(cfg, intents, s, Sealed(r.seqNo, r.hash, f));
      case Pended(t) => PendingWrites(cfg, s, Sealed(r.seqNo, r.hash, t));
      case Resumed(v) => ResumeWrites(cfg, s, Sealed(r.seqNo, r.hash, v));
      case Recovered(v) => RecoveryWrites(cfg, s, Sealed(r.seqNo, r.hash, v));
      case Settled(t) => SettlementWrites(cfg, intents, s, Sealed(r.seqNo, r.hash, t));
      case _ =>
    }
  }

  /** A run that accepts all of its records accepts every prefix of them. */
  lemma {:induction false} PrefixRuns(cfg: Config, intents: Intents, rs: seq<Record>, n: nat)
    requires n <= |rs| && Run(cfg, intents, rs).Some?
    ensures Run(cfg, intents, rs[..n]).Some?
    ensures n < |rs| ==> Run(cfg, intents, rs[..n + 1]) == Next(cfg, intents, Run(cfg, intents, rs[..n]).value, rs[n])
    decreases |rs|
  {
    hide Next;
    if n == |rs| {
      assert rs[..n] == rs;
    } else {
      var front := rs[..|rs| - 1];
      if n < |front| {
        PrefixRuns(cfg, intents, front, n);
        assert front[..n] == rs[..n] && front[..n + 1] == rs[..n + 1];
      } else {
        assert rs[..n] == front && rs[..n + 1] == rs && rs[..n + 1][..n] == front;
      }
    }
  }
}
