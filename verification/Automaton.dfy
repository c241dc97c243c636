/** The lifecycle of one operation as an automaton, and the proof that every accepted run follows it. */
module Automaton {
  import opened Prelude
  import opened Evidence
  import opened ForeignPoints
  import opened Lifecycle
  import opened Replay

  /** What a record does to one operation. */
  datatype Mark = Grants | Denies | Fences | Suspends | Resumes | Recovers | Settles(ending: Ending, basis: Basis)

  datatype Stage =
    | Unseen
    | Denied
    | Granted
    | InFlight(recovered: bool)
    | Waiting(recovered: bool)
    | Closed(ending: Ending)

  function Delta(stage: Stage, mark: Mark): Option<Stage> {
    match (stage, mark)
    case (Unseen, Grants) => Some(Granted)
    case (Unseen, Denies) => Some(Denied)
    case (Granted, Fences) => Some(InFlight(false))
    case (Granted, Settles(Release, DurableNoDispatch)) => Some(Closed(Release))
    case (InFlight(r), Suspends) => Some(Waiting(r))
    case (Waiting(r), Resumes) => Some(InFlight(r))
    case (InFlight(false), Recovers) => Some(InFlight(true))
    case (Waiting(false), Recovers) => Some(Waiting(true))
    case (InFlight(_), Settles(ending, ResourceReceipt)) => Some(Closed(ending))
    case (InFlight(false), Settles(Release, DurableNoDispatch)) => Some(Closed(Release))
    case (Waiting(true), Settles(ending, ResourceReceipt)) => Some(Closed(ending))
    case _ => None
  }

  function Follow(marks: seq<Mark>): Option<Stage> {
    if marks == [] then Some(Unseen)
    else
      var before :- Follow(marks[..|marks| - 1]);
      Delta(before, marks[|marks| - 1])
  }

  function KindOfMark(body: Body): Option<Mark> {
    match body
    case Decided(d) => Some(if d.state.IsAuthorized? then Grants else Denies)
    case FencedDispatch(_) => Some(Fences)
    case Pended(_) => Some(Suspends)
    case Resumed(_) => Some(Resumes)
    case Recovered(_) => Some(Recovers)
    case Settled(s) => Some(Settles(s.ending, s.basis))
    case _ => None
  }

  predicate Concerns(body: Body, id: string) {
    OperationOf(body).Some? && OperationOf(body).value.operationId == id
  }

  function MarkOf(r: Record, id: string): Option<Mark> {
    if Concerns(r.value, id) then KindOfMark(r.value) else None
  }

  /** The marks that the records leave on one operation. */
  function Trace(rs: seq<Record>, id: string): seq<Mark> {
    if rs == [] then []
    else
      var mark := MarkOf(rs[|rs| - 1], id);
      Trace(rs[..|rs| - 1], id) + (if mark.Some? then [mark.value] else [])
  }

  /** The stage that the dictionaries of the replay put an operation in. */
  function StageOf(ops: Operations, id: string): Stage {
    if id !in ops.phases then Unseen
    else
      match ops.phases[id]
      case Refused => Denied
      case Authorized => Granted
      case Fenced => InFlight(id in ops.recovered)
      case Pending => Waiting(id in ops.recovered)
      case Released => Closed(Release)
      case Committed => Closed(Commit)
  }

  /** Only decided operations have phases, and only fenced ones have fences and recoveries. */
  ghost predicate Shaped(ops: Operations) {
    && ops.decisions.Keys == ops.phases.Keys
    && ops.recovered.Keys <= ops.fences.Keys <= ops.phases.Keys
    && forall id <- ops.fences :: !ops.phases[id].Refused? && !ops.phases[id].Authorized?
  }

  // ---------- one step ----------

  /** The step moves this operation as its mark says, and leaves it alone without a mark. */
  ghost predicate Moves(before: Operations, after: Operations, r: Record, id: string) {
    match MarkOf(r, id)
    case Some(mark) => Delta(StageOf(before, id), mark) == Some(StageOf(after, id))
    case None => StageOf(after, id) == StageOf(before, id)
  }

  lemma DecisionMoves(cfg: Config, s: State, e: Sealed<Decision>, id: string)
    requires Shaped(s.ops) && NextDecision(cfg, s, e).Some?
    ensures var after := NextDecision(cfg, s, e).value.ops;
      Shaped(after) && Moves(s.ops, after, Sealed(e.seqNo, e.hash, Decided(e.value)), id)
  {
    hide AuthorizationEffects, ValidConsumption;
    assert NextDecision(cfg, s, e).value.ops == Decide(s.ops, e);
  }

  lemma FenceMoves(cfg: Config, intents: Intents, s: State, f: Sealed<Fence>, id: string)
    requires Shaped(s.ops) && NextFence(cfg, intents, s, f).Some?
    ensures var after := NextFence(cfg, intents, s, f).value.ops;
      Shaped(after) && Moves(s.ops, after, Sealed(f.seqNo, f.hash, FencedDispatch(f.value)), id)
  {
    hide Joined, FenceForeign, IntentJoins, ClaimsJoinOperation;
  }

  lemma PendingMoves(cfg: Config, s: State, t: Sealed<Transport>, id: string)
    requires Shaped(s.ops) && NextPending(cfg, s, t).Some?
    ensures var after := NextPending(cfg, s, t).value.ops;
      Shaped(after) && Moves(s.ops, after, Sealed(t.seqNo, t.hash, Pended(t.value)), id)
  {
    hide Joined, ValidTransport, StatesFence, IsAcknowledged;
  }

  lemma ResumeMoves(cfg: Config, s: State, r: Sealed<Resume>, id: string)
    requires Shaped(s.ops) && NextResume(cfg, s, r).Some?
    ensures var after := NextResume(cfg, s, r).value.ops;
      Shaped(after) && Moves(s.ops, after, Sealed(r.seqNo, r.hash, Resumed(r.value)), id)
  {
    hide Joined, ValidTransport, SameTransport, IsAcknowledged, RequestsResume, IsFresh;
  }

  lemma RecoveryMoves(cfg: Config, s: State, r: Sealed<Recovery>, id: string)
    requires Shaped(s.ops) && NextRecovery(cfg, s, r).Some?
    ensures var after := NextRecovery(cfg, s, r).value.ops;
      Shaped(after) && Moves(s.ops, after, Sealed(r.seqNo, r.hash, Recovered(r.value)), id)
  {
    hide Joined, IsFresh, RecoveryIsSigned;
  }

  lemma SettlementMoves(cfg: Config, intents: Intents, s: State, t: Sealed<Settlement>, id: string)
    requires Shaped(s.ops) && NextSettlement(cfg, intents, s, t).Some?
    ensures var after := NextSettlement(cfg, intents, s, t).value.ops;
      Shaped(after) && Moves(s.ops, after, Sealed(t.seqNo, t.hash, Settled(t.value)), id)
  {
    hide Joined, IntentJoins, ReceiptProves, SettleBooks;
  }

  lemma StepMoves(cfg: Config, intents: Intents, s: State, r: Record, id: string)
    requires Shaped(s.ops) && Next(cfg, intents, s, r).Some?
    ensures Shaped(Next(cfg, intents, s, r).value.ops) && Moves(s.ops, Next(cfg, intents, s, r).value.ops, r, id)
  {
    hide Shaped, NextDecision, NextFence, NextPending, NextResume, NextRecovery, NextSettlement, NextCancellation, NextAuthentication, StageOf, Delta;
    match r.value {
      case Decided(d) => DecisionMoves(cfg, s, Sealed(r.seqNo, r.hash, d), id);
      case Recovered(v) => RecoveryMoves(cfg, s, Sealed(r.seqNo, r.hash, v), id);
      case FencedDispatch(f) => FenceMoves(cfg, intents, s, Sealed(r.seqNo, r.hash, f), id);
      case Pended(t) => PendingMoves(cfg, s, Sealed(r.seqNo, r.hash, t), id);
      case Resumed(v) => ResumeMoves(cfg, s, Sealed(r.seqNo, r.hash, v), id);
      case Settled(t) => SettlementMoves(cfg, intents, s, Sealed(r.seqNo, r.hash, t), id);
      case _ => StepWrites(cfg, intents, s, r);
    }
  }

  // ---------- every run ----------

  lemma {:induction false} RunIsShaped(cfg: Config, intents: Intents, rs: seq<Record>)
    requires Run(cfg, intents, rs).Some?
    ensures Shaped(Run(cfg, intents, rs).value.ops)
  {
    hide Next;
    if rs != [] {
      RunIsShaped(cfg, intents, rs[..|rs| - 1]);
      hide Shaped;
      StepMoves(cfg, intents, Run(cfg, intents, rs[..|rs| - 1]).value, rs[|rs| - 1], "");
    }
  }

  /** In every accepted run each operation follows the automaton, and the dictionaries hold the stage it has reached. */
  lemma {:induction false} RunFollowsAutomaton(cfg: Config, intents: Intents, rs: seq<Record>, id: string)
    requires Run(cfg, intents, rs).Some?
    ensures Follow(Trace(rs, id)) == Some(StageOf(Run(cfg, intents, rs).value.ops, id))
  {
    hide Next, Shaped, MarkOf, Delta, StageOf;
    if rs == [] {
      UnseenAtStart(id);
    } else {
      var front, last := rs[..|rs| - 1], rs[|rs| - 1];
      RunFollowsAutomaton(cfg, intents, front, id);
      RunIsShaped(cfg, intents, front);
      StepMoves(cfg, intents, Run(cfg, intents, front).value, last, id);
      var mark := MarkOf(last, id);
      if mark.Some? {
        assert Trace(rs, id)[..|Trace(front, id)|] == Trace(front, id);
      } else {
        assert Trace(rs, id) == Trace(front, id);
      }
    }
  }

  lemma UnseenAtStart(id: string)
    ensures StageOf(START.ops, id) == Unseen
  {
  }

  // ---------- what the automaton allows ----------

  function Progress(stage: Stage): nat {
    match stage
    case Unseen => 0
    case Granted => 1
    case InFlight(recovered) => if recovered then 3 else 2
    case Waiting(recovered) => if recovered then 3 else 2
    case Denied => 4
    case Closed(_) => 4
  }

  /** Progress is never lost; decisions, fences, recoveries and settlements always make some. */
  lemma MarksMakeProgress(stage: Stage, mark: Mark)
    requires Delta(stage, mark).Some?
    ensures Progress(stage) <= Progress(Delta(stage, mark).value)
    ensures !mark.Suspends? && !mark.Resumes? ==> Progress(stage) < Progress(Delta(stage, mark).value)
    ensures mark.Fences? ==> stage == Granted
    ensures mark.Recovers? ==> Progress(stage) == 2
    ensures mark.Settles? || mark.Denies? ==> Progress(Delta(stage, mark).value) == 4
    ensures (mark.Grants? || mark.Denies?) ==> stage == Unseen
    ensures Progress(stage) < 4
    ensures mark.Settles? && stage.Waiting? ==> stage.recovered && mark.basis.ResourceReceipt?
  {
  }

  /** The stage of an operation after the first `n` records. */
  ghost function StageAt(cfg: Config, intents: Intents, rs: seq<Record>, n: nat, id: string): Stage
    requires n <= |rs| && Run(cfg, intents, rs[..n]).Some?
  {
    StageOf(Run(cfg, intents, rs[..n]).value.ops, id)
  }

  lemma StageAdvances(cfg: Config, intents: Intents, rs: seq<Record>, n: nat, id: string)
    requires n < |rs| && Run(cfg, intents, rs).Some?
    ensures Run(cfg, intents, rs[..n]).Some? && Run(cfg, intents, rs[..n + 1]).Some?
    ensures match MarkOf(rs[n], id)
      case Some(mark) => Delta(StageAt(cfg, intents, rs, n, id), mark) == Some(StageAt(cfg, intents, rs, n + 1, id))
      case None => StageAt(cfg, intents, rs, n + 1, id) == StageAt(cfg, intents, rs, n, id)
  {
    hide Run, Next, Shaped, MarkOf, Delta, StageOf;
    PrefixRuns(cfg, intents, rs, n);
    PrefixRuns(cfg, intents, rs, n + 1);
    RunIsShaped(cfg, intents, rs[..n]);
    StepMoves(cfg, intents, Run(cfg, intents, rs[..n]).value, rs[n], id);
  }

  lemma {:induction false} ProgressGrows(cfg: Config, intents: Intents, rs: seq<Record>, m: nat, n: nat, id: string)
    requires m <= n <= |rs| && Run(cfg, intents, rs).Some?
    ensures Run(cfg, intents, rs[..m]).Some? && Run(cfg, intents, rs[..n]).Some?
    ensures Progress(StageAt(cfg, intents, rs, m, id)) <= Progress(StageAt(cfg, intents, rs, n, id))
    decreases n - m
  {
    hide Run, StageAt, MarkOf, Delta, Progress;
    PrefixRuns(cfg, intents, rs, n);
    if m < n {
      StageAdvances(cfg, intents, rs, m, id);
      if MarkOf(rs[m], id).Some? {
        MarksMakeProgress(StageAt(cfg, intents, rs, m, id), MarkOf(rs[m], id).value);
      }
      ProgressGrows(cfg, intents, rs, m + 1, n, id);
    }
  }

  /** Marks that an operation may bear only once. */
  predicate Unrepeatable(m: Mark) {
    !m.Suspends? && !m.Resumes?
  }

  predicate SameKind(a: Mark, b: Mark) {
    && (a.Fences? <==> b.Fences?) && (a.Recovers? <==> b.Recovers?) && (a.Settles? <==> b.Settles?)
    && ((a.Grants? || a.Denies?) <==> (b.Grants? || b.Denies?))
  }

  /** In an accepted run no operation is decided, fenced, recovered or settled twice. */
  lemma NothingHappensTwice(cfg: Config, intents: Intents, rs: seq<Record>, i: nat, j: nat, id: string)
    requires i < j < |rs| && Run(cfg, intents, rs).Some?
    requires MarkOf(rs[i], id).Some? && Unrepeatable(MarkOf(rs[i], id).value) && MarkOf(rs[j], id).Some?
    ensures !SameKind(MarkOf(rs[i], id).value, MarkOf(rs[j], id).value)
  {
    hide Run, StageAt, MarkOf, Delta;
    StageAdvances(cfg, intents, rs, i, id);
    StageAdvances(cfg, intents, rs, j, id);
    MarksMakeProgress(StageAt(cfg, intents, rs, i, id), MarkOf(rs[i], id).value);
    MarksMakeProgress(StageAt(cfg, intents, rs, j, id), MarkOf(rs[j], id).value);
    ProgressGrows(cfg, intents, rs, i + 1, j, id);
  }

  lemma SameDecision(cfg: Config, intents: Intents, rs: seq<Record>, a: nat, b: nat, id: string)
    requires a < |rs| && b < |rs| && Run(cfg, intents, rs).Some?
    requires rs[a].value.Decided? && rs[a].value.decision.operation.operationId == id
    requires rs[b].value.Decided? && rs[b].value.decision.operation.operationId == id
    ensures a == b
  {
    hide Run;
    if a < b {
      NothingHappensTwice(cfg, intents, rs, a, b, id);
    } else if b < a {
      NothingHappensTwice(cfg, intents, rs, b, a, id);
    }
  }

  /** After a refusal or a settlement no further lifecycle record of the operation is accepted. */
  lemma EndsAreFinal(cfg: Config, intents: Intents, rs: seq<Record>, i: nat, j: nat, id: string)
    requires i < j < |rs| && Run(cfg, intents, rs).Some?
    requires MarkOf(rs[i], id).Some? && (MarkOf(rs[i], id).value.Settles? || MarkOf(rs[i], id).value.Denies?)
    ensures MarkOf(rs[j], id).None?
  {
    hide Run, StageAt, MarkOf, Delta, Progress;
    StageAdvances(cfg, intents, rs, i, id);
    MarksMakeProgress(StageAt(cfg, intents, rs, i, id), MarkOf(rs[i], id).value);
    StageAdvances(cfg, intents, rs, j, id);
    ProgressGrows(cfg, intents, rs, i + 1, j, id);
    if MarkOf(rs[j], id).Some? {
      MarksMakeProgress(StageAt(cfg, intents, rs, j, id), MarkOf(rs[j], id).value);
    }
  }

  lemma {:induction false} RecoveredByRecord(cfg: Config, intents: Intents, rs: seq<Record>, n: nat, id: string) returns (k: nat)
    requires n <= |rs| && Run(cfg, intents, rs).Some? && Run(cfg, intents, rs[..n]).Some?
    requires var stage := StageAt(cfg, intents, rs, n, id); (stage.Waiting? || stage.InFlight?) && stage.recovered
    ensures k < n && MarkOf(rs[k], id) == Some(Recovers)
  {
    hide Next, MarkOf;
    if n == 0 {
      assert false;
    } else {
      StageAdvances(cfg, intents, rs, n - 1, id);
      if MarkOf(rs[n - 1], id) == Some(Recovers) {
        k := n - 1;
      } else {
        k := RecoveredByRecord(cfg, intents, rs, n - 1, id);
      }
    }
  }

  /** An operation that waits for its counterparty is settled only after a recovery, and only on a receipt. */
  lemma WaitingEndsAfterRecovery(cfg: Config, intents: Intents, rs: seq<Record>, j: nat, id: string) returns (k: nat)
    requires j < |rs| && Run(cfg, intents, rs).Some? && Run(cfg, intents, rs[..j]).Some?
    requires MarkOf(rs[j], id).Some? && MarkOf(rs[j], id).value.Settles? && StageAt(cfg, intents, rs, j, id).Waiting?
    ensures k < j && MarkOf(rs[k], id) == Some(Recovers)
    ensures MarkOf(rs[j], id).value.basis.ResourceReceipt?
  {
    hide Run, StageAt, MarkOf;
    StageAdvances(cfg, intents, rs, j, id);
    MarksMakeProgress(StageAt(cfg, intents, rs, j, id), MarkOf(rs[j], id).value);
    k := RecoveredByRecord(cfg, intents, rs, j, id);
  }
}
