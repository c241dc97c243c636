/** Every accepted run conserves the charged capacity and keeps reservations in step with their operations. */
module Conservation {
  import opened Prelude
  import opened Matching
  import opened Evidence
  import opened ForeignPoints
  import opened Lifecycle
  import opened Replay
  import opened Books

  function StatusOf(p: Phase): Status
    requires !p.Refused?
  {
    match p
    case Authorized => Status.Authorized
    case Fenced => Status.Fenced
    case Pending => Status.Fenced
    case Released => Status.Released
    case Committed => Status.Committed
  }

  /** Only decided operations have a phase, and all reservations of an operation have the status of its phase. */
  ghost predicate Lockstep(ops: Operations, b: Books) {
    && ops.decisions.Keys == ops.phases.Keys
    && forall id <- b.owned :: InStep(ops, b, id)
  }

  ghost predicate InStep(ops: Operations, b: Books, id: string) {
    id in b.owned ==> id in ops.phases && !ops.phases[id].Refused? && AllAre(b.reservations, id, b.owned[id], StatusOf(ops.phases[id]))
  }

  ghost predicate Sound(s: State) {
    Conserves(s.books) && Owned(s.books) && Lockstep(s.ops, s.books)
  }

  // ---------- decisions ----------

  lemma NewOperationOwnsNothing(ops: Operations, b: Books, id: string)
    requires Lockstep(ops, b) && id !in ops.decisions
    ensures id !in b.owned
  {
    assert InStep(ops, b, id);
  }

  /** The reservations of an operation that owned nothing before are the added ones. */
  lemma AddedAreAuthorized(b: Books, after: Books, id: string)
    requires Owned(b) && Owned(after) && OnlyAdds(b, after, id) && id !in b.owned && id in after.owned
    ensures AllAre(after.reservations, id, after.owned[id], Status.Authorized)
  {
    assert forall r <- after.owned[id] :: after.reservations[r].owner == id && r !in b.reservations;
  }

  lemma OthersAreKept(b: Books, after: Books, id: string, other: string, status: Status)
    requires OnlyAdds(b, after, id) && other in b.owned && other != id
    requires AllAre(b.reservations, other, b.owned[other], status)
    ensures other in after.owned && AllAre(after.reservations, other, after.owned[other], status)
  {
  }

  lemma ChargedOperationInStep(ops: Operations, b: Books, after: Books, e: Sealed<Decision>)
    requires Lockstep(ops, b) && Owned(b) && Owned(after)
    requires e.value.operation.operationId !in ops.decisions && e.value.state.IsAuthorized?
    requires OnlyAdds(b, after, e.value.operation.operationId)
    ensures Lockstep(Decide(ops, e), after)
  {
    var id := e.value.operation.operationId;
    NewOperationOwnsNothing(ops, b, id);
    hide Owned, AllAre;
    forall other | other in after.owned ensures InStep(Decide(ops, e), after, other) {
      if other != id {
        assert InStep(ops, b, other);
        OthersAreKept(b, after, id, other, StatusOf(ops.phases[other]));
      } else {
        AddedAreAuthorized(b, after, id);
      }
    }
  }

  lemma RefusedOperationInStep(ops: Operations, b: Books, e: Sealed<Decision>)
    requires Lockstep(ops, b) && e.value.operation.operationId !in ops.decisions && e.value.state.IsRefused?
    ensures Lockstep(Decide(ops, e), b)
  {
    hide AllAre;
    NewOperationOwnsNothing(ops, b, e.value.operation.operationId);
    forall other | other in b.owned ensures InStep(Decide(ops, e), b, other) {
      assert InStep(ops, b, other);
    }
  }

  lemma DecisionIsSound(cfg: Config, s: State, e: Sealed<Decision>)
    requires Sound(s) && NextDecision(cfg, s, e).Some?
    ensures Sound(NextDecision(cfg, s, e).value)
    ensures CeilingsKept(s.books, NextDecision(cfg, s, e).value.books)
  {
    hide Conserves, Owned, Lockstep, Decide, ChargeAll, OnlyAdds, CeilingsKept;
    if e.value.state.IsRefused? {
      RefusedOperationInStep(s.ops, s.books, e);
      SameCeilings(s.books, s.books);
    } else {
      var d := e.value;
      assert MayDecide(cfg, s.ops, d);
      ChargeAllConserves(s.books, d.operation.operationId, d.accounts);
      ChargeAllAdds(s.books, d.operation.operationId, d.accounts);
      ChargedOperationInStep(s.ops, s.books, ChargeAll(s.books, d.operation.operationId, d.accounts).value, e);
    }
  }

  lemma SameCeilings(b: Books, c: Books)
    requires b.charged == c.charged
    ensures CeilingsKept(b, c)
  {
  }

  // ---------- moves of all the reservations of one operation ----------

  lemma OwnedAreInStep(ops: Operations, b: Books, id: string)
    requires Lockstep(ops, b) && id in ops.phases && !ops.phases[id].Refused?
    ensures AllAre(b.reservations, id, OwnedBy(b, id), StatusOf(ops.phases[id]))
  {
    assert InStep(ops, b, id);
  }

  /** Moving the reservations of one operation along with its phase keeps everything in step. */
  lemma MoveKeepsStep(ops: Operations, after: Operations, b: Books, c: Books, id: string, phase: Phase)
    requires Lockstep(ops, b) && Owned(b) && id in ops.phases && !ops.phases[id].Refused? && !phase.Refused?
    requires after.decisions == ops.decisions && after.phases == ops.phases[id := phase]
    requires c.owned == b.owned && OnlyMoves(b.reservations, c.reservations, OwnedBy(b, id), StatusOf(phase))
    ensures Lockstep(after, c) && Owned(c)
  {
    MovesKeepOwnership(b, c, OwnedBy(b, id), StatusOf(phase));
    forall other | other in c.owned ensures InStep(after, c, other) {
      assert InStep(ops, b, other);
      if other != id {
        OtherReservations(b, id, other);
      }
    }
  }

  lemma OtherReservations(b: Books, id: string, other: string)
    requires Owned(b) && id != other && other in b.owned
    ensures forall r <- b.owned[other] :: r !in OwnedBy(b, id)
  {
    forall r | r in b.owned[other] ensures r !in OwnedBy(b, id) {
      assert b.reservations[r].owner == other;
    }
  }

  /** A phase change without a change of status keeps everything in step. */
  lemma PhaseKeepsStep(ops: Operations, after: Operations, b: Books, id: string, phase: Phase)
    requires Lockstep(ops, b) && id in ops.phases && !ops.phases[id].Refused? && !phase.Refused?
    requires after.decisions == ops.decisions && after.phases == ops.phases[id := phase]
    requires StatusOf(phase) == StatusOf(ops.phases[id])
    ensures Lockstep(after, b)
  {
    hide AllAre;
    forall other | other in b.owned ensures InStep(after, b, other) {
      assert InStep(ops, b, other);
    }
  }

  // ---------- fences ----------

  /** In a sound state the reservations of a fence never stand in its way. */
  lemma FenceMovesReservations(cfg: Config, intents: Intents, s: State, f: Sealed<Fence>)
    requires Sound(s)
    ensures NextFence(cfg, intents, s, f).Some? <==>
      var e := Joined(s.ops, f.value.operation, f.value.decisionHash, f.seqNo);
      e.Some? && FenceForeign(s.foreign, f.value.operation.operationId).Some? && MayFence(cfg, intents, s.ops, e.value, f)
    ensures NextFence(cfg, intents, s, f).Some? ==> Sound(NextFence(cfg, intents, s, f).value)
    ensures NextFence(cfg, intents, s, f).Some? ==> NextFence(cfg, intents, s, f).value.books.charged == s.books.charged
  {
    hide Conserves, Owned, Lockstep, Joined, FenceForeign, OnlyMoves, OwnedBy, IntentJoins, ClaimsJoinOperation;
    var id := f.value.operation.operationId;
    var ids := OwnedBy(s.books, id);
    if PhaseOf(s.ops, id) == Some(Phase.Authorized) {
      OwnedAreInStep(s.ops, s.books, id);
      OwnedHasNoRepeats(s.books, id);
      FenceAllMoves(s.books.reservations, id, ids);
      FenceAllConserves(s.books, id, ids);
      var c := s.books.(reservations := FenceAll(s.books.reservations, id, ids).value);
      MoveKeepsStep(s.ops, FencedBy(s.ops, f.value), s.books, c, id, Phase.Fenced);
    }
  }

  lemma OwnedHasNoRepeats(b: Books, id: string)
    requires Owned(b)
    ensures NoRepeats(OwnedBy(b, id))
  {
  }

  // ---------- settlements ----------

  predicate IsLive(p: Phase) {
    p.Authorized? || p.Fenced? || p.Pending?
  }

  /** The settlement changes the books as it should. */
  ghost predicate SettlesBooks(b: Books, c: Books, s: Settlement) {
    && Conserves(c) && CeilingsKept(b, c) && c.owned == b.owned
    && OnlyMoves(b.reservations, c.reservations, OwnedBy(b, s.operation.operationId), StatusOf(PhaseAfter(s.ending)))
  }

  lemma GivesBack(rs: Reservations, s: Settlement, ids: seq<string>, status: Status)
    requires AllAre(rs, s.operation.operationId, ids, status) && IsOpen(status)
    ensures MayGiveBack(rs, ids, s) <==> status.Authorized? || ids == [] || (s.basis.ResourceReceipt? && s.outcome.Some?)
  {
    assert ids != [] ==> ids[0] in ids;
  }

  lemma ReleaseMoves(b: Books, s: Settlement, status: Status)
    requires Conserves(b) && Owned(b) && s.ending.Release? && IsOpen(status)
    requires AllAre(b.reservations, s.operation.operationId, OwnedBy(b, s.operation.operationId), status)
    ensures SettleBooks(b, s).Some? <==>
      status.Authorized? || OwnedBy(b, s.operation.operationId) == [] || (s.basis.ResourceReceipt? && s.outcome.Some?)
    ensures SettleBooks(b, s).Some? ==> SettlesBooks(b, SettleBooks(b, s).value, s)
  {
    hide Conserves, Owned, CeilingsKept, OnlyMoves, OwnedBy, ReleaseAll, OpenOnes, MayGiveBack, NoRepeats, AllAre;
    var id := s.operation.operationId;
    var ids := OwnedBy(b, id);
    OwnedHasNoRepeats(b, id);
    OpenOnesIsAll(b.reservations, id, ids, status);
    ReleaseAllMoves(b, id, ids, status);
    GivesBack(b.reservations, s, ids, status);
  }

  lemma AllFenced(rs: Reservations, id: string, ids: seq<string>)
    requires AllAre(rs, id, ids, Status.Fenced)
    ensures forall r <- ids :: r in rs && rs[r].status == Status.Fenced
  {
  }

  lemma CommitMoves(b: Books, s: Settlement)
    requires Conserves(b) && Owned(b) && s.ending.Commit?
    requires AllAre(b.reservations, s.operation.operationId, OwnedBy(b, s.operation.operationId), Status.Fenced)
    ensures SettleBooks(b, s).Some? && SettlesBooks(b, SettleBooks(b, s).value, s)
  {
    hide Conserves, Owned, CeilingsKept, OnlyMoves, OwnedBy, CommitAll, OpenOnes, NoRepeats, AllAre;
    var id := s.operation.operationId;
    var ids := OwnedBy(b, id);
    OwnedHasNoRepeats(b, id);
    OpenOnesIsAll(b.reservations, id, ids, Status.Fenced);
    AllFenced(b.reservations, id, ids);
    CommitAllMoves(b, id, ids);
    SameCeilings(b, b.(reservations := CommitAll(b.reservations, ids).value));
  }

  /** What a settlement does to the books of a live operation: all of its reservations end together, or it is refused. */
  lemma SettleMovesReservations(ops: Operations, b: Books, s: Settlement)
    requires Conserves(b) && Owned(b) && Lockstep(ops, b)
    requires var id := s.operation.operationId; id in ops.phases && IsLive(ops.phases[id])
    requires s.ending.Commit? ==> !ops.phases[s.operation.operationId].Authorized?
    ensures SettleBooks(b, s).Some? <==>
      s.ending.Commit? || ops.phases[s.operation.operationId].Authorized? || OwnedBy(b, s.operation.operationId) == []
      || (s.basis.ResourceReceipt? && s.outcome.Some?)
    ensures SettleBooks(b, s).Some? ==> SettlesBooks(b, SettleBooks(b, s).value, s)
  {
    hide Conserves, Owned, Lockstep, SettleBooks, SettlesBooks, AllAre;
    var id := s.operation.operationId;
    OwnedAreInStep(ops, b, id);
    if s.ending.Release? {
      ReleaseMoves(b, s, StatusOf(ops.phases[id]));
    } else {
      CommitMoves(b, s);
    }
  }

  lemma SettlementPhase(cfg: Config, intents: Intents, ops: Operations, e: Sealed<Decision>, t: Sealed<Settlement>)
    requires MaySettle(cfg, intents, ops, e, t)
    ensures var id := t.value.operation.operationId;
      && id in ops.phases && IsLive(ops.phases[id])
      && (t.value.ending.Commit? ==> !ops.phases[id].Authorized?)
      && (t.value.basis.ResourceReceipt? ==> t.value.outcome.Some?)
  {
    hide ReceiptProves, IntentJoins;
  }

  lemma SettlementIsSound(cfg: Config, intents: Intents, s: State, t: Sealed<Settlement>)
    requires Sound(s) && NextSettlement(cfg, intents, s, t).Some?
    ensures Sound(NextSettlement(cfg, intents, s, t).value)
    ensures CeilingsKept(s.books, NextSettlement(cfg, intents, s, t).value.books)
  {
    hide Conserves, Owned, Lockstep, CeilingsKept, OnlyMoves, Joined, MaySettle, SettleBooks;
    var e := Joined(s.ops, t.value.operation, t.value.decisionHash, t.seqNo).value;
    var id := t.value.operation.operationId;
    SettlementPhase(cfg, intents, s.ops, e, t);
    SettleMovesReservations(s.ops, s.books, t.value);
    var after := NextSettlement(cfg, intents, s, t).value;
    MoveKeepsStep(s.ops, after.ops, s.books, after.books, id, PhaseAfter(t.value.ending));
  }

  /**
   Fenced capacity goes back only on a receipt, and the receipt says that nothing was executed. Without a
   receipt, a fenced operation is released only if it holds no reservation.
   */
  lemma FencedReleaseNeedsReceipt(cfg: Config, intents: Intents, s: State, t: Sealed<Settlement>)
    requires Sound(s) && t.value.ending.Release?
    requires var id := t.value.operation.operationId;
      PhaseOf(s.ops, id) == Some(Phase.Fenced) || PhaseOf(s.ops, id) == Some(Phase.Pending)
    ensures NextSettlement(cfg, intents, s, t).Some? <==>
      var e := Joined(s.ops, t.value.operation, t.value.decisionHash, t.seqNo);
      e.Some? && MaySettle(cfg, intents, s.ops, e.value, t)
      && (t.value.basis.ResourceReceipt? || OwnedBy(s.books, t.value.operation.operationId) == [])
    ensures NextSettlement(cfg, intents, s, t).Some? && OwnedBy(s.books, t.value.operation.operationId) != [] ==>
      var e := Joined(s.ops, t.value.operation, t.value.decisionHash, t.seqNo).value.value;
      ReceiptOutcome(cfg, e, t.value).Some? && ReceiptOutcome(cfg, e, t.value).value.status.NotExecuted?
  {
    var e := Joined(s.ops, t.value.operation, t.value.decisionHash, t.seqNo);
    hide Conserves, Owned, Lockstep, CeilingsKept, OnlyMoves, Joined, SettleBooks, IntentJoins, ReceiptOutcome, OwnedBy;
    if e.Some? && MaySettle(cfg, intents, s.ops, e.value, t) {
      SettlementPhase(cfg, intents, s.ops, e.value, t);
      SettleMovesReservations(s.ops, s.books, t.value);
    }
  }

  // ---------- every record ----------

  lemma PendingIsSound(cfg: Config, s: State, t: Sealed<Transport>)
    requires Sound(s) && NextPending(cfg, s, t).Some?
    ensures Sound(NextPending(cfg, s, t).value) && NextPending(cfg, s, t).value.books == s.books
  {
    hide Conserves, Owned, Lockstep, Joined, ValidTransport, StatesFence, IsAcknowledged;
    PhaseKeepsStep(s.ops, NextPending(cfg, s, t).value.ops, s.books, t.value.operation.operationId, Phase.Pending);
  }

  lemma ResumeIsSound(cfg: Config, s: State, r: Sealed<Resume>)
    requires Sound(s) && NextResume(cfg, s, r).Some?
    ensures Sound(NextResume(cfg, s, r).value) && NextResume(cfg, s, r).value.books == s.books
  {
    hide Conserves, Owned, Lockstep, Joined, ValidTransport, SameTransport, IsAcknowledged, RequestsResume, IsFresh;
    PhaseKeepsStep(s.ops, NextResume(cfg, s, r).value.ops, s.books, r.value.transport.operation.operationId, Phase.Fenced);
  }

  lemma RecoveryIsSound(cfg: Config, s: State, r: Sealed<Recovery>)
    requires Sound(s) && NextRecovery(cfg, s, r).Some?
    ensures Sound(NextRecovery(cfg, s, r).value) && NextRecovery(cfg, s, r).value.books == s.books
  {
    hide Conserves, Owned, Joined, MayRecover;
    assert forall id <- s.books.owned :: InStep(s.ops, s.books, id);
  }

  /** Every accepted record keeps the books sound and every ceiling as it was. */
  lemma StepIsSound(cfg: Config, intents: Intents, s: State, r: Record)
    requires Sound(s) && Next(cfg, intents, s, r).Some?
    ensures Sound(Next(cfg, intents, s, r).value) && CeilingsKept(s.books, Next(cfg, intents, s, r).value.books)
  {
    hide Sound, CeilingsKept, NextDecision, NextCancellation, NextAuthentication, NextFence, NextPending, NextResume, NextRecovery, NextSettlement;
    match r.value {
      case Decided(d) => DecisionIsSound(cfg, s, Sealed(r.seqNo, r.hash, d));
      case Cancelled(c) => CancellationKeepsBooks(cfg, s, Sealed(r.seqNo, r.hash, c));
      case Authenticated(a) => AuthenticationKeepsBooks(cfg, s, Sealed(r.seqNo, r.hash, a));
      case Recovered(v) => RecoveryIsSound(cfg, s, Sealed(r.seqNo, r.hash, v));
      case FencedDispatch(f) => FenceMovesReservations(cfg, intents, s, Sealed(r.seqNo, r.hash, f));
      case Pended(t) => PendingIsSound(cfg, s, Sealed(r.seqNo, r.hash, t));
      case Resumed(v) => ResumeIsSound(cfg, s, Sealed(r.seqNo, r.hash, v));
      case Settled(t) => SettlementIsSound(cfg, intents, s, Sealed(r.seqNo, r.hash, t));
      case Legacy(_) =>
      case Intended(_) =>
      case Unrelated =>
    }
    if s.books.charged == Next(cfg, intents, s, r).value.books.charged {
      SameCeilings(s.books, Next(cfg, intents, s, r).value.books);
    }
  }

  lemma CancellationKeepsBooks(cfg: Config, s: State, e: Sealed<Cancellation>)
    requires Sound(s) && NextCancellation(cfg, s, e).Some?
    ensures Sound(NextCancellation(cfg, s, e).value) && NextCancellation(cfg, s, e).value.books == s.books
  {
  }

  lemma AuthenticationKeepsBooks(cfg: Config, s: State, e: Sealed<Authentication>)
    requires Sound(s) && NextAuthentication(cfg, s, e).Some?
    ensures Sound(NextAuthentication(cfg, s, e).value) && NextAuthentication(cfg, s, e).value.books == s.books
  {
    hide AuthenticationIsProved;
  }

  // ---------- every run ----------

  lemma {:induction false} RunIsSound(cfg: Config, intents: Intents, rs: seq<Record>)
    requires Run(cfg, intents, rs).Some?
    ensures Sound(Run(cfg, intents, rs).value)
  {
    hide Next;
    if rs == [] {
      StartIsSound();
    } else {
      RunIsSound(cfg, intents, rs[..|rs| - 1]);
      StepIsSound(cfg, intents, Run(cfg, intents, rs[..|rs| - 1]).value, rs[|rs| - 1]);
    }
  }

  lemma StartIsSound()
    ensures Sound(START)
  {
  }

  /**
   After every accepted run each account's charged total is the sum of its reservations that were not
   released, and lies between zero and the account's ceiling.
   */
  lemma CapacityIsConserved(cfg: Config, intents: Intents, rs: seq<Record>, key: Key)
    requires Run(cfg, intents, rs).Some? && key in Run(cfg, intents, rs).value.books.charged
    ensures var b := Run(cfg, intents, rs).value.books;
      0 <= b.charged[key].used == Live(b.reservations, key) <= b.charged[key].ceiling
  {
    hide Run, Live;
    RunIsSound(cfg, intents, rs);
    assert Balanced(Run(cfg, intents, rs).value.books, key);
  }

  /** A ceiling never changes after the first charge. */
  lemma {:induction false} CeilingNeverChanges(cfg: Config, intents: Intents, rs: seq<Record>, n: nat, key: Key)
    requires n <= |rs| && Run(cfg, intents, rs).Some? && Run(cfg, intents, rs[..n]).Some?
    requires key in Run(cfg, intents, rs[..n]).value.books.charged
    ensures key in Run(cfg, intents, rs).value.books.charged
    ensures Run(cfg, intents, rs).value.books.charged[key].ceiling == Run(cfg, intents, rs[..n]).value.books.charged[key].ceiling
    decreases |rs|
  {
    hide Next, Sound;
    if n == |rs| {
      assert rs[..n] == rs;
    } else {
      var front := rs[..|rs| - 1];
      assert front[..n] == rs[..n];
      CeilingNeverChanges(cfg, intents, front, n, key);
      RunIsSound(cfg, intents, front);
      StepIsSound(cfg, intents, Run(cfg, intents, front).value, rs[|rs| - 1]);
    }
  }

  /** After every accepted run the status of each reservation is that of its operation. */
  lemma ReservationsFollowTheirOperation(cfg: Config, intents: Intents, rs: seq<Record>, id: string)
    requires Run(cfg, intents, rs).Some? && id in Run(cfg, intents, rs).value.books.reservations
    ensures var s := Run(cfg, intents, rs).value;
      var r := s.books.reservations[id];
      r.owner in s.ops.phases && !s.ops.phases[r.owner].Refused? && r.status == StatusOf(s.ops.phases[r.owner])
  {
    hide Run, Conserves;
    RunIsSound(cfg, intents, rs);
    var s := Run(cfg, intents, rs).value;
    assert InStep(s.ops, s.books, s.books.reservations[id].owner);
  }
}
