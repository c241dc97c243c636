/** The replay as it runs: one object whose dictionaries every record updates, and the loop over a ledger prefix. */
module Machine {
  import opened Prelude
  import opened Matching
  import opened Evidence
  import opened OneTime
  import opened ForeignPoints
  import opened Lifecycle
  import opened Replay
  import Books
  import Conservation
  import Automaton
  import Exclusion
  import FrozenTransport

  /**
   Capacity is conserved and in step with the operations, every operation is at a stage of its lifecycle,
   no fenced dispatch is cancelled, and suspended transports are frozen.
   */
  ghost predicate Invariant(s: State) {
    Conservation.Sound(s) && Automaton.Shaped(s.ops) && Excludes(s.foreign) && FrozenTransport.Anchored(s.ops)
  }

  lemma RunKeepsInvariant(cfg: Config, intents: Intents, rs: seq<Record>)
    requires Run(cfg, intents, rs).Some?
    ensures Invariant(Run(cfg, intents, rs).value)
  {
    hide Run;
    Conservation.RunIsSound(cfg, intents, rs);
    Automaton.RunIsShaped(cfg, intents, rs);
    Exclusion.FencedAndCancelledAreDisjoint(cfg, intents, rs);
    FrozenTransport.RunIsAnchored(cfg, intents, rs);
  }

  class Replayer {
    const cfg: Config
    const intents: Intents
    ghost var history: seq<Record>

    var decisions: map<string, Sealed<Decision>>
    var operationStates: map<string, Phase>
    var reservations: Books.Reservations
    var fences: map<string, Fence>
    var pending: map<string, Sealed<Transport>>
    var resumeAuthentications: map<string, Sealed<Authentication>>
    var reconciliationAuthentications: map<string, Sealed<Authentication>>
    var recovered: map<string, Recovery>
    var foreignAuthorizations: map<string, Identity>
    var foreignFences: set<Identity>
    var foreignCancellations: map<Identity, Sealed<Cancellation>>
    var consumedRecoveryAuthentications: set<string>
    var consumedResumeAuthentications: set<string>
    var operationReservations: map<string, seq<string>>
    var charged: map<Books.Key, Books.Charge>
    var consumed: Consumed

    function Ops(): Operations
      reads this
    {
      Operations(decisions, operationStates, fences, pending, recovered)
    }

    function Auths(): Authentications
      reads this
    {
      Authentications(
        resumeAuthentications, reconciliationAuthentications, consumedResumeAuthentications, consumedRecoveryAuthentications)
    }

    function Accounts(): Books.Books
      reads this
    {
      Books.Books(reservations, charged, operationReservations)
    }

    function ForeignState(): Foreign
      reads this
    {
      Foreign(foreignAuthorizations, foreignFences, foreignCancellations)
    }

    function View(): State
      reads this
    {
      State(Ops(), Auths(), Accounts(), ForeignState(), consumed)
    }

    /** The dictionaries hold what the records accepted so far lead to, and satisfy the invariant of every run. */
    ghost predicate Valid()
      reads this
    {
      Run(cfg, intents, history) == Some(View()) && Invariant(View())
    }

    constructor (cfg: Config, intents: Intents)
      ensures Valid() && history == [] && this.cfg == cfg && this.intents == intents
    {
      this.cfg, this.intents := cfg, intents;
      history := [];
      decisions, operationStates, reservations, fences, pending := map[], map[], map[], map[], map[];
      resumeAuthentications, reconciliationAuthentications, recovered := map[], map[], map[];
      foreignAuthorizations, foreignFences, foreignCancellations := map[], {}, map[];
      consumedRecoveryAuthentications, consumedResumeAuthentications := {}, {};
      operationReservations, charged, consumed := map[], map[], map[];
      new;
      assert Run(cfg, intents, []) == Some(START);
      RunKeepsInvariant(cfg, intents, []);
    }

    /** Takes one record. After a refusal the object is of no further use. */
    method Step(r: Record) returns (ok: bool)
      requires Valid()
      modifies this
      ensures history == old(history) + [r]
      ensures ok <==> Run(cfg, intents, history).Some?
      ensures ok ==> Valid()
    {
      hide Run, Next, Invariant;
      ghost var before := View();
      ok := Replayed(r);
      history := history + [r];
      assert history[..|history| - 1] == old(history);
      StepRuns(cfg, intents, history, before);
      if ok {
        RunKeepsInvariant(cfg, intents, history);
      }
    }

    method Replayed(r: Record) returns (ok: bool)
      modifies this
      ensures history == old(history)
      ensures ok <==> Next(cfg, intents, old(View()), r).Some?
      ensures ok ==> Next(cfg, intents, old(View()), r) == Some(View())
    {
      hide NextDecision, NextCancellation, NextAuthentication, NextFence, NextPending, NextResume, NextRecovery, NextSettlement, View;
      match r.value
      case Legacy(d) =>
        ok := MaySkipLegacy(cfg, intents, d, r.seqNo);
      case Decided(d) =>
        ok := TakeDecision(Sealed(r.seqNo, r.hash, d));
      case Cancelled(c) =>
        ok := TakeCancellation(Sealed(r.seqNo, r.hash, c));
      case Authenticated(a) =>
        ok := TakeAuthentication(Sealed(r.seqNo, r.hash, a));
      case Recovered(v) =>
        ok := TakeRecovery(Sealed(r.seqNo, r.hash, v));
      case FencedDispatch(f) =>
        ok := TakeFence(Sealed(r.seqNo, r.hash, f));
      case Pended(t) =>
        ok := TakePending(Sealed(r.seqNo, r.hash, t));
      case Resumed(v) =>
        ok := TakeResume(Sealed(r.seqNo, r.hash, v));
      case Settled(t) =>
        ok := TakeSettlement(Sealed(r.seqNo, r.hash, t));
      case Malformed =>
        ok := false;
      case Intended(_) =>
        ok := true;
      case Unrelated =>
        ok := true;
    }

    method TakeDecision(e: Sealed<Decision>) returns (ok: bool)
      modifies this
      ensures history == old(history)
      ensures ok <==> NextDecision(cfg, old(View()), e).Some?
      ensures ok ==> NextDecision(cfg, old(View()), e) == Some(View())
    {
      hide MayDecide, AuthorizationEffects, Decide, Ops, Auths, Accounts, ForeignState;
      if !MayDecide(cfg, Ops(), e.value) {
        return false;
      }
      if e.value.state.IsAuthorized? {
        var effects := Authorize(e);
        if effects.None? {
          return false;
        }
        TakeBooks(effects.value.books);
        TakeForeign(effects.value.foreign);
        TakeConsumed(effects.value.consumed);
      }
      TakeDecided(e);
      ok := true;
    }

    method TakeConsumed(names: Consumed)
      modifies this`consumed
      ensures consumed == names
      ensures Ops() == old(Ops()) && Auths() == old(Auths())
      ensures Accounts() == old(Accounts()) && ForeignState() == old(ForeignState())
    {
      consumed := names;
    }

    method TakeBooks(books: Books.Books)
      modifies this`reservations, this`charged, this`operationReservations
      ensures Accounts() == books
      ensures Ops() == old(Ops()) && Auths() == old(Auths()) && ForeignState() == old(ForeignState())
    {
      reservations, charged, operationReservations := books.reservations, books.charged, books.owned;
    }

    method TakeForeign(foreign: Foreign)
      modifies this`foreignAuthorizations, this`foreignFences, this`foreignCancellations
      ensures ForeignState() == foreign
      ensures Ops() == old(Ops()) && Auths() == old(Auths()) && Accounts() == old(Accounts())
    {
      foreignAuthorizations, foreignFences, foreignCancellations := foreign.authorizations, foreign.fences, foreign.cancellations;
    }

    method TakeDecided(e: Sealed<Decision>)
      modifies this`decisions, this`operationStates
      ensures Ops() == Decide(old(Ops()), e)
      ensures Auths() == old(Auths()) && Accounts() == old(Accounts()) && ForeignState() == old(ForeignState())
    {
      var id := e.value.operation.operationId;
      decisions := decisions[id := e];
      operationStates := operationStates[id := if e.value.state.IsAuthorized? then Authorized else Refused];
    }

    method TakeFenced(f: Fence)
      modifies this`fences, this`operationStates
      ensures Ops() == FencedBy(old(Ops()), f)
      ensures Auths() == old(Auths()) && Accounts() == old(Accounts()) && ForeignState() == old(ForeignState())
    {
      operationStates := operationStates[f.operation.operationId := Fenced];
      fences := fences[f.operation.operationId := f];
    }

    /** Checks an authorization against its evidence and works out what it consumes, charges and claims. */
    method Authorize(e: Sealed<Decision>) returns (effects: Option<Effects>)
      ensures effects == AuthorizationEffects(cfg, View(), e)
    {
      hide AdaptedAdmission, AuthorizeForeign, ExpectedFacts, AccountsAreExact, ConsumeAll, Books.ChargeAll;
      var d := e.value;
      if !cfg.authority(e) {
        return None;
      }
      var adm := AdaptedAdmission(cfg, d);
      if adm.None? {
        return None;
      }
      var foreign := AuthorizeForeignOperation(cfg, ForeignState(), adm.value, d);
      if foreign.None? {
        return None;
      }
      var facts := ExpectedConsumedFacts(cfg, d, adm.value);
      if facts.None? || ElementsOf(d.identifiers) != facts.value {
        return None;
      }
      var exact := AccountsMatch(d);
      if !exact {
        return None;
      }
      var names := Consume(consumed, d.at, d.identifiers);
      if names.None? {
        return None;
      }
      var books := Books.ChargeAccounts(Accounts(), d.operation.operationId, d.accounts);
      if books.None? {
        return None;
      }
      effects := Some(Effects(books.value, foreign.value, names.value));
    }

    method AccountsMatch(d: Decision) returns (ok: bool)
      ensures ok == AccountsAreExact(cfg, d)
    {
      if d.chain.None? {
        return false;
      }
      ok := Accounting(cfg.clock, cfg.callRules, d.at, d.chain.value, d.action, d.boundary, d.call, d.accounts);
    }

    method TakeCancellation(e: Sealed<Cancellation>) returns (ok: bool)
      modifies this
      ensures history == old(history)
      ensures ok <==> NextCancellation(cfg, old(View()), e).Some?
      ensures ok ==> NextCancellation(cfg, old(View()), e) == Some(View())
    {
      hide CancelledIdentity;
      var identity := VerifyCancellation(cfg, e.value);
      if identity.None? || identity.value in foreignCancellations || identity.value in foreignFences {
        return false;
      }
      foreignCancellations := foreignCancellations[identity.value := e];
      ok := true;
    }

    method TakeAuthentication(e: Sealed<Authentication>) returns (ok: bool)
      modifies this
      ensures history == old(history)
      ensures ok <==> NextAuthentication(cfg, old(View()), e).Some?
      ensures ok ==> NextAuthentication(cfg, old(View()), e) == Some(View())
    {
      hide AuthenticationIsProved, ConsumeAll;
      var names := Consume(consumed, e.value.at, e.value.identifiers);
      if names.None? || !AuthenticationIsProved(cfg, Ops(), e) {
        return false;
      }
      consumed := names.value;
      if e.value.kind.CounterpartyResume? {
        resumeAuthentications := resumeAuthentications[e.hash := e];
      } else if e.value.kind.ReconciliationKind? {
        reconciliationAuthentications := reconciliationAuthentications[e.hash := e];
      }
      ok := true;
    }

    method TakeFence(f: Sealed<Fence>) returns (ok: bool)
      modifies this
      ensures history == old(history)
      ensures ok <==> NextFence(cfg, intents, old(View()), f).Some?
      ensures ok ==> NextFence(cfg, intents, old(View()), f) == Some(View())
    {
      hide Joined, MayFence, FenceForeign, FencedBy, Books.FenceAll, Books.OwnedBy, Ops, Auths, ForeignState;
      var id := f.value.operation.operationId;
      var e := Joined(Ops(), f.value.operation, f.value.decisionHash, f.seqNo);
      var foreign := FenceForeign(ForeignState(), id);
      if e.None? || foreign.None? || !MayFence(cfg, intents, Ops(), e.value, f) {
        return false;
      }
      var moved := Books.FenceReservations(reservations, id, Books.OwnedBy(Accounts(), id));
      if moved.None? {
        return false;
      }
      TakeBooks(Accounts().(reservations := moved.value));
      TakeForeign(foreign.value);
      TakeFenced(f.value);
      ok := true;
    }

    method TakePending(t: Sealed<Transport>) returns (ok: bool)
      modifies this
      ensures history == old(history)
      ensures ok <==> NextPending(cfg, old(View()), t).Some?
      ensures ok ==> NextPending(cfg, old(View()), t) == Some(View())
    {
      hide Joined, MayPend;
      var id := t.value.operation.operationId;
      var e := Joined(Ops(), t.value.operation, t.value.decisionHash, t.seqNo);
      if e.None? || !MayPend(cfg, Ops(), e.value, t.value) {
        return false;
      }
      operationStates := operationStates[id := Pending];
      pending := pending[id := t];
      ok := true;
    }

    method TakeResume(r: Sealed<Resume>) returns (ok: bool)
      modifies this
      ensures history == old(history)
      ensures ok <==> NextResume(cfg, old(View()), r).Some?
      ensures ok ==> NextResume(cfg, old(View()), r) == Some(View())
    {
      hide Joined, MayResume;
      var t := r.value.transport;
      var id := t.operation.operationId;
      var e := Joined(Ops(), t.operation, t.decisionHash, r.seqNo);
      if e.None? || !MayResume(cfg, Ops(), Auths(), e.value, r) {
        return false;
      }
      consumedResumeAuthentications := consumedResumeAuthentications + {r.value.authenticationHash};
      operationStates := operationStates[id := Fenced];
      pending := pending - {id};
      ok := true;
    }

    method TakeRecovery(r: Sealed<Recovery>) returns (ok: bool)
      modifies this
      ensures history == old(history)
      ensures ok <==> NextRecovery(cfg, old(View()), r).Some?
      ensures ok ==> NextRecovery(cfg, old(View()), r) == Some(View())
    {
      hide Joined, MayRecover;
      var id := r.value.operation.operationId;
      var e := Joined(Ops(), r.value.operation, r.value.decisionHash, r.seqNo);
      if e.None? || !MayRecover(cfg, Ops(), Auths(), e.value, r) {
        return false;
      }
      consumedRecoveryAuthentications := consumedRecoveryAuthentications + {r.value.authenticationHash};
      recovered := recovered[id := r.value];
      ok := true;
    }

    method TakeSettlement(t: Sealed<Settlement>) returns (ok: bool)
      modifies this
      ensures history == old(history)
      ensures ok <==> NextSettlement(cfg, intents, old(View()), t).Some?
      ensures ok ==> NextSettlement(cfg, intents, old(View()), t) == Some(View())
    {
      hide Joined, MaySettle, SettleBooks;
      var id := t.value.operation.operationId;
      var e := Joined(Ops(), t.value.operation, t.value.decisionHash, t.seqNo);
      if e.None? || !MaySettle(cfg, intents, Ops(), e.value, t) {
        return false;
      }
      var books := SettleReservations(t.value);
      if books.None? {
        return false;
      }
      TakeBooks(books.value);
      operationStates := operationStates[id := PhaseAfter(t.value.ending)];
      ok := true;
    }

    method SettleReservations(s: Settlement) returns (books: Option<Books.Books>)
      ensures books == SettleBooks(Accounts(), s)
    {
      hide Books.OpenOnes, Books.ReleaseAll, Books.CommitAll;
      var relevant := Books.OpenOnes(reservations, Books.OwnedBy(Accounts(), s.operation.operationId));
      if s.ending.Release? {
        if !MayGiveBack(reservations, relevant, s) {
          return None;
        }
        books := Books.ReleaseReservations(Accounts(), relevant);
      } else {
        if exists key <- relevant :: reservations[key].status != Books.Fenced {
          return None;
        }
        var moved := Books.CommitReservations(reservations, relevant);
        if moved.None? {
          return None;
        }
        books := Some(Accounts().(reservations := moved.value));
      }
    }
  }

  lemma StepRuns(cfg: Config, intents: Intents, history: seq<Record>, before: State)
    requires history != [] && Run(cfg, intents, history[..|history| - 1]) == Some(before)
    ensures Run(cfg, intents, history) == Next(cfg, intents, before, history[|history| - 1])
  {
  }

  method CollectIntents(rs: seq<Record>) returns (intents: Intents)
    ensures intents == IntentsOf(rs)
  {
    intents := map[];
    for i := 0 to |rs|
      invariant intents == IntentsOf(rs[..i])
    {
      assert rs[..i + 1][..i] == rs[..i];
      if rs[i].value.Intended? && IsDigest(rs[i].hash) {
        intents := intents[rs[i].hash := Sealed(rs[i].seqNo, rs[i].hash, rs[i].value.intent)];
      }
    }
    assert rs[..|rs|] == rs;
  }

  method HasUnsupportedLegacy(intents: Intents, rs: seq<Record>) returns (found: bool)
    ensures found <==> exists r <- rs :: IsUnsupportedLegacy(intents, r)
  {
    hide IsUnsupportedLegacy;
    for i := 0 to |rs|
      invariant forall r <- rs[..i] :: !IsUnsupportedLegacy(intents, r)
    {
      assert rs[..i + 1] == rs[..i] + [rs[i]];
      if IsUnsupportedLegacy(intents, rs[i]) {
        assert rs[i] in rs;
        return true;
      }
    }
    found := false;
  }

  /** Replays a whole prefix: first the check for unsupported decisions, then record by record. */
  method ReplayPrefix(cfg: Config, rs: seq<Record>) returns (accepted: bool)
    ensures accepted <==> Accepts(cfg, rs)
  {
    hide Run, IsUnsupportedLegacy, IntentsOf;
    var intents := CollectIntents(rs);
    var unsupported := HasUnsupportedLegacy(intents, rs);
    if unsupported {
      return false;
    }
    accepted := RunRecords(cfg, intents, rs);
  }

  method RunRecords(cfg: Config, intents: Intents, rs: seq<Record>) returns (accepted: bool)
    ensures accepted <==> Run(cfg, intents, rs).Some?
  {
    hide Run;
    var replayer := new Replayer(cfg, intents);
    for i := 0 to |rs|
      invariant replayer.Valid() && replayer.history == rs[..i]
      invariant replayer.cfg == cfg && replayer.intents == intents
    {
      var ok := replayer.Step(rs[i]);
      assert rs[..i + 1] == rs[..i] + [rs[i]];
      if !ok {
        if Run(cfg, intents, rs).Some? {
          PrefixRuns(cfg, intents, rs, i + 1);
        }
        return false;
      }
    }
    assert rs[..|rs|] == rs;
    accepted := true;
  }
}
