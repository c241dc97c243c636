/** What the accounts add up to: the signed ceiling of a bound limits what each of its periods spends. */
module Budget {
  import opened Prelude
  import opened Claims
  import opened Accounts
  import opened Matching
  import opened Evidence
  import opened OneTime
  import opened ForeignPoints
  import opened Lifecycle
  import opened Replay
  import opened Automaton
  import opened Conservation
  import Books

  // ---------- reservations are never rewritten ----------

  /** Whatever else changes, a reservation keeps its account, amount and owner. */
  ghost predicate Kept(before: Books.Reservations, after: Books.Reservations) {
    forall id <- before :: id in after && SameClaim(before[id], after[id])
  }

  predicate SameClaim(r: Books.Reservation, s: Books.Reservation) {
    r.key == s.key && r.amount == s.amount && r.owner == s.owner
  }

  lemma {:induction false} FenceKeeps(rs: Books.Reservations, operationId: string, ids: seq<string>)
    requires Books.FenceAll(rs, operationId, ids).Some?
    ensures Kept(rs, Books.FenceAll(rs, operationId, ids).value) && Books.FenceAll(rs, operationId, ids).value.Keys == rs.Keys
    decreases |ids|
  {
    if ids != [] {
      FenceKeeps(Books.FenceOne(rs, operationId, ids[0]).value, operationId, ids[1..]);
    }
  }

  lemma {:induction false} ReleaseKeeps(b: Books.Books, ids: seq<string>)
    requires Books.ReleaseAll(b, ids).Some?
    ensures Kept(b.reservations, Books.ReleaseAll(b, ids).value.reservations)
    ensures Books.ReleaseAll(b, ids).value.reservations.Keys == b.reservations.Keys
    decreases |ids|
  {
    if ids != [] {
      ReleaseKeeps(Books.ReleaseOne(b, ids[0]).value, ids[1..]);
    }
  }

  lemma {:induction false} CommitKeeps(rs: Books.Reservations, ids: seq<string>)
    requires Books.CommitAll(rs, ids).Some?
    ensures Kept(rs, Books.CommitAll(rs, ids).value) && Books.CommitAll(rs, ids).value.Keys == rs.Keys
    decreases |ids|
  {
    if ids != [] {
      CommitKeeps(Books.CommitOne(rs, ids[0]).value, ids[1..]);
    }
  }

  lemma ChargeOneRecords(b: Books.Books, operationId: string, a: Account)
    requires Books.ChargeOne(b, operationId, a).Some?
    ensures var c := Books.ChargeOne(b, operationId, a).value; Kept(b.reservations, c.reservations) && IsCharged(c, operationId, a)
  {
    hide Books.KeyOf;
  }

  lemma StillCharged(b: Books.Books, c: Books.Books, operationId: string, a: Account)
    requires IsCharged(b, operationId, a) && Kept(b.reservations, c.reservations) && Books.CeilingsKept(b, c)
    ensures IsCharged(c, operationId, a)
  {
    hide Books.KeyOf;
  }

  lemma KeptTransitive(a: Books.Reservations, b: Books.Reservations, c: Books.Reservations)
    requires Kept(a, b) && Kept(b, c)
    ensures Kept(a, c)
  {
  }

  /** Charging writes down every account, with its ceiling, and keeps what was there. */
  lemma {:induction false} ChargeRecords(b: Books.Books, operationId: string, accounts: seq<Account>)
    requires Books.Conserves(b) && Books.ChargeAll(b, operationId, accounts).Some?
    ensures var c := Books.ChargeAll(b, operationId, accounts).value;
      && Kept(b.reservations, c.reservations)
      && forall a <- accounts :: IsCharged(c, operationId, a)
    decreases |accounts|
  {
    hide Kept, IsCharged, Books.Conserves, Books.CeilingsKept, Books.ChargeOne;
    if accounts == [] {
      KeptReflexive(b.reservations);
    } else {
      var mid := Books.ChargeOne(b, operationId, accounts[0]).value;
      Books.ChargeOneConserves(b, operationId, accounts[0]);
      ChargeOneRecords(b, operationId, accounts[0]);
      ChargeRecords(mid, operationId, accounts[1..]);
      Books.ChargeAllConserves(mid, operationId, accounts[1..]);
      var c := Books.ChargeAll(mid, operationId, accounts[1..]).value;
      StillCharged(mid, c, operationId, accounts[0]);
      KeptTransitive(b.reservations, mid.reservations, c.reservations);
      assert forall a :: a in accounts <==> a == accounts[0] || a in accounts[1..];
    }
  }

  ghost predicate IsCharged(b: Books.Books, operationId: string, a: Account) {
    && a.reservation in b.reservations
    && SameClaim(b.reservations[a.reservation], Books.Reservation(Books.KeyOf(a), a.amount, operationId, Books.Authorized))
    && Books.KeyOf(a) in b.charged && b.charged[Books.KeyOf(a)].ceiling == a.ceiling
  }

  lemma SettlementKeeps(b: Books.Books, s: Settlement)
    requires SettleBooks(b, s).Some?
    ensures Kept(b.reservations, SettleBooks(b, s).value.reservations)
    ensures SettleBooks(b, s).value.reservations.Keys == b.reservations.Keys
  {
    hide Books.OpenOnes, Books.OwnedBy, Books.ReleaseAll, Books.CommitAll, Kept;
    var open := Books.OpenOnes(b.reservations, Books.OwnedBy(b, s.operation.operationId));
    if s.ending.Release? {
      ReleaseKeeps(b, open);
    } else {
      CommitKeeps(b.reservations, open);
    }
  }

  /** Charging adds no reservation but those of the accounts. */
  lemma {:induction false} ChargeAddsAccounts(b: Books.Books, operationId: string, accounts: seq<Account>)
    requires Books.ChargeAll(b, operationId, accounts).Some?
    ensures var c := Books.ChargeAll(b, operationId, accounts).value;
      c.reservations.Keys == b.reservations.Keys + ReservationsOf(accounts)
    decreases |accounts|
  {
    hide Books.KeyOf, Books.OwnedBy;
    if accounts != [] {
      ChargeAddsAccounts(Books.ChargeOne(b, operationId, accounts[0]).value, operationId, accounts[1..]);
      assert accounts == [accounts[0]] + accounts[1..];
      assert ReservationsOf(accounts) == {accounts[0].reservation} + ReservationsOf(accounts[1..]);
    }
  }

  ghost function ReservationsOf(accounts: seq<Account>): set<string> {
    set a <- accounts :: a.reservation
  }

  /** The record is an authorization that makes this reservation for one of its accounts. */
  ghost predicate Reserves(r: Record, id: string, reservation: Books.Reservation) {
    && r.value.Decided? && r.value.decision.state.IsAuthorized?
    && exists a <- r.value.decision.accounts ::
         a.reservation == id
         && SameClaim(reservation, Books.Reservation(Books.KeyOf(a), a.amount, r.value.decision.operation.operationId, Books.Authorized))
  }

  /** Reservations stay, and new ones are those of an authorization. */
  ghost predicate ReservationStep(before: Books.Reservations, after: Books.Reservations, r: Record) {
    Kept(before, after) && forall id <- after :: id in before || Reserves(r, id, after[id])
  }

  lemma SameReservations(before: Books.Reservations, after: Books.Reservations, r: Record)
    requires Kept(before, after) && after.Keys == before.Keys
    ensures ReservationStep(before, after, r)
  {
  }

  lemma AuthorizationReserves(b: Books.Books, e: Sealed<Decision>)
    requires Books.Conserves(b) && e.value.state.IsAuthorized?
    requires Books.ChargeAll(b, e.value.operation.operationId, e.value.accounts).Some?
    ensures ReservationStep(
      b.reservations,
      Books.ChargeAll(b, e.value.operation.operationId, e.value.accounts).value.reservations,
      Sealed(e.seqNo, e.hash, Decided(e.value)))
  {
    hide Books.ChargeAll, Books.Conserves, Books.KeyOf, SameClaim, Kept;
    var d := e.value;
    ChargeRecords(b, d.operation.operationId, d.accounts);
    ChargeAddsAccounts(b, d.operation.operationId, d.accounts);
    var c := Books.ChargeAll(b, d.operation.operationId, d.accounts).value;
    forall id | id in c.reservations && id !in b.reservations ensures Reserves(Sealed(e.seqNo, e.hash, Decided(d)), id, c.reservations[id]) {
      var a :| a in d.accounts && a.reservation == id;
      assert IsCharged(c, d.operation.operationId, a);
    }
  }

  lemma DecisionReserves(cfg: Config, s: State, e: Sealed<Decision>)
    requires Books.Conserves(s.books) && NextDecision(cfg, s, e).Some?
    ensures ReservationStep(
      s.books.reservations, NextDecision(cfg, s, e).value.books.reservations, Sealed(e.seqNo, e.hash, Decided(e.value)))
  {
    if e.value.state.IsRefused? {
      KeptReflexive(s.books.reservations);
    } else {
      AuthorizationIsExact(cfg, s, e);
      hide NextDecision, AccountsAreExact;
      AuthorizationReserves(s.books, e);
    }
  }

  lemma FenceStepKeeps(cfg: Config, intents: Intents, s: State, f: Sealed<Fence>)
    requires NextFence(cfg, intents, s, f).Some?
    ensures Kept(s.books.reservations, NextFence(cfg, intents, s, f).value.books.reservations)
    ensures NextFence(cfg, intents, s, f).value.books.reservations.Keys == s.books.reservations.Keys
  {
    hide Kept, Joined, MayFence, FenceForeign, FencedBy, Books.FenceAll;
    FenceKeeps(s.books.reservations, f.value.operation.operationId, Books.OwnedBy(s.books, f.value.operation.operationId));
  }

  lemma SettlementStepKeeps(cfg: Config, intents: Intents, s: State, t: Sealed<Settlement>)
    requires NextSettlement(cfg, intents, s, t).Some?
    ensures Kept(s.books.reservations, NextSettlement(cfg, intents, s, t).value.books.reservations)
    ensures NextSettlement(cfg, intents, s, t).value.books.reservations.Keys == s.books.reservations.Keys
  {
    hide Kept, Joined, MaySettle, SettleBooks, SettledBy;
    SettlementKeeps(s.books, t.value);
  }

  /** No accepted record rewrites a reservation, and only authorizations make new ones. */
  lemma StepKeepsReservations(cfg: Config, intents: Intents, s: State, r: Record)
    requires Books.Conserves(s.books) && Next(cfg, intents, s, r).Some?
    ensures ReservationStep(s.books.reservations, Next(cfg, intents, s, r).value.books.reservations, r)
  {
    match r.value {
      case Decided(d) =>
        hide ReservationStep, NextDecision;
        DecisionReserves(cfg, s, Sealed(r.seqNo, r.hash, d));
      case FencedDispatch(f) =>
        hide Kept, NextFence, ReservationStep;
        FenceStepKeeps(cfg, intents, s, Sealed(r.seqNo, r.hash, f));
        SameReservations(s.books.reservations, Next(cfg, intents, s, r).value.books.reservations, r);
      case Settled(t) =>
        hide Kept, NextSettlement, ReservationStep;
        SettlementStepKeeps(cfg, intents, s, Sealed(r.seqNo, r.hash, t));
        SameReservations(s.books.reservations, Next(cfg, intents, s, r).value.books.reservations, r);
      case _ =>
        OthersKeepBooks(cfg, intents, s, r);
        hide Next, ReservationStep;
        KeptReflexive(s.books.reservations);
        SameReservations(s.books.reservations, s.books.reservations, r);
    }
  }

  lemma OthersKeepBooks(cfg: Config, intents: Intents, s: State, r: Record)
    requires Next(cfg, intents, s, r).Some? && !r.value.Decided? && !r.value.FencedDispatch? && !r.value.Settled?
    ensures Next(cfg, intents, s, r).value.books == s.books
  {
    hide NextDecision, NextFence, NextSettlement, MaySkipLegacy, Retain, ConsumeAll, CancelledIdentity, CancelForeign;
    hide AuthenticationIsProved, Joined, MayPend, SuspendedBy, MayResume, ResumedBy, MayRecover, RecoveredBy;
  }

  lemma KeptReflexive(rs: Books.Reservations)
    ensures Kept(rs, rs)
  {
  }

  lemma {:induction false} RunKeepsReservations(cfg: Config, intents: Intents, rs: seq<Record>, m: nat, n: nat)
    requires m <= n <= |rs| && Run(cfg, intents, rs).Some?
    ensures Run(cfg, intents, rs[..m]).Some? && Run(cfg, intents, rs[..n]).Some?
    ensures Kept(Run(cfg, intents, rs[..m]).value.books.reservations, Run(cfg, intents, rs[..n]).value.books.reservations)
    decreases n - m
  {
    hide Run, Next, Books.Conserves;
    PrefixRuns(cfg, intents, rs, n);
    if m < n {
      PrefixRuns(cfg, intents, rs, m);
      PrefixRuns(cfg, intents, rs, m + 1);
      SoundConserves(cfg, intents, rs[..m]);
      StepKeepsReservations(cfg, intents, Run(cfg, intents, rs[..m]).value, rs[m]);
      RunKeepsReservations(cfg, intents, rs, m + 1, n);
    }
  }

  /** Every reservation was made by an authorization of the run. */
  lemma {:induction false} ReservationHasRecord(cfg: Config, intents: Intents, rs: seq<Record>, n: nat, id: string) returns (k: nat)
    requires n <= |rs| && Run(cfg, intents, rs).Some? && Run(cfg, intents, rs[..n]).Some?
    requires id in Run(cfg, intents, rs[..n]).value.books.reservations
    ensures k < n && Reserves(rs[k], id, Run(cfg, intents, rs[..n]).value.books.reservations[id])
  {
    hide Next, Books.Conserves, Books.KeyOf, Reserves;
    if n == 0 {
      assert false;
    } else {
      PrefixRuns(cfg, intents, rs, n - 1);
      var before, after := Run(cfg, intents, rs[..n - 1]).value.books.reservations, Run(cfg, intents, rs[..n]).value.books.reservations;
      SoundConserves(cfg, intents, rs[..n - 1]);
      StepKeepsReservations(cfg, intents, Run(cfg, intents, rs[..n - 1]).value, rs[n - 1]);
      if id in before {
        k := ReservationHasRecord(cfg, intents, rs, n - 1, id);
        SameClaimReserves(rs[k], id, before[id], after[id]);
      } else {
        k := n - 1;
      }
    }
  }

  lemma SameClaimReserves(r: Record, id: string, before: Books.Reservation, after: Books.Reservation)
    requires Reserves(r, id, before) && SameClaim(before, after)
    ensures Reserves(r, id, after)
  {
    hide Books.KeyOf;
  }

  // ---------- what one decision charges ----------

  /** The account key counts against this signed account in the period that starts at this instant. */
  predicate CountsAgainst(clock: Clock, key: Books.Key, row: Row, start: int) {
    && key.owner == (if row.entry.None? then row.jti else row.entry.value) && key.shared == row.entry.Some?
    && key.kind == row.kind && key.unit == row.unit && key.durationMs == row.window.durationMs
    && clock(key.epoch) == Some(start)
  }

  /** The start of the period of a signed account that holds an instant. */
  function PeriodOf(clock: Clock, row: Row, at: int): Option<int> {
    var base :- clock(row.window.epoch);
    PeriodStart(row.window, base, at)
  }

  lemma MatchedAccountCounts(clock: Clock, at: int, a: Account, row: Row)
    requires Matches(clock, at, a, row)
    ensures PeriodOf(clock, row, at).Some? && CountsAgainst(clock, Books.KeyOf(a), row, PeriodOf(clock, row, at).value)
    ensures a.ceiling == row.ceiling
  {
    hide IsPeriodStart, PeriodStart;
    PeriodStartIsUnique(row.window, clock(row.window.epoch).value, clock(a.epoch).value, at);
  }

  /** A decision that is an authorization for a call with a signed effect, and requires this signed account. */
  ghost predicate Requires(r: Record, row: Row) {
    && r.value.Decided? && r.value.decision.state.IsAuthorized? && r.value.decision.chain.Some?
    && !IsGeneric(r.value.decision.call)
    && var required := RequiredRows(r.value.decision.chain.value, r.value.decision.action, r.value.decision.boundary);
    required.Ok? && row in required.value
  }

  /** A pairing leaves no row out. */
  lemma PairingCoversRow(
    clock: Clock, at: int, spending: Spending, accounts: seq<Account>, rows: seq<Row>, p: seq<nat>, row: Row) returns (a: Account)
    requires Pairing(clock, at, spending, accounts, rows, p) && row in rows
    ensures a in accounts && Paired(clock, at, spending, a, row)
  {
    hide Paired;
    var j :| 0 <= j < |rows| && rows[j] == row;
    var i := Preimage(p, |rows|, j);
    a := accounts[i];
  }

  lemma DecisionHasAccount(cfg: Config, d: Decision, row: Row) returns (a: Account)
    requires AccountsAreExact(cfg, d) && Requires(Sealed(0, "", Decided(d)), row)
    ensures a in d.accounts && Matches(cfg.clock, d.at, a, row) && Spent(d.call, row.kind, row.unit) == Some(a.amount)
  {
    hide RequiredRows, Pairing, Matches, Spent, IsGeneric, IsSupported;
    AccountingIsExact(cfg.clock, cfg.callRules, d.at, d.chain.value, d.action, d.boundary, d.call, d.accounts);
    var rows := RequiredRows(d.chain.value, d.action, d.boundary).value;
    var p :| Pairing(cfg.clock, d.at, SpendingOf(d.call), d.accounts, rows, p);
    a := PairingCoversRow(cfg.clock, d.at, SpendingOf(d.call), d.accounts, rows, p, row);
  }

  lemma AuthorizationIsExact(cfg: Config, s: State, e: Sealed<Decision>)
    requires NextDecision(cfg, s, e).Some? && e.value.state.IsAuthorized?
    ensures AccountsAreExact(cfg, e.value)
    ensures Books.ChargeAll(s.books, e.value.operation.operationId, e.value.accounts) == Some(NextDecision(cfg, s, e).value.books)
  {
    hide AccountsAreExact, MayDecide, AdaptedAdmission, AuthorizeForeign, ExpectedFacts, ConsumeAll, Decide, Books.ChargeAll;
  }

  /**
   Every authorization with a signed effect reserves, for each account its chain requires, exactly the
   quantity of the call, in the one period of that account that holds its instant; and the reservation stays.
   */
  lemma DecisionChargesItsPeriod(cfg: Config, intents: Intents, rs: seq<Record>, i: nat, row: Row) returns (id: string)
    requires i < |rs| && Run(cfg, intents, rs).Some? && Requires(rs[i], row)
    ensures var d, b := rs[i].value.decision, Run(cfg, intents, rs).value.books;
      && id in b.reservations && b.reservations[id].owner == d.operation.operationId
      && Spent(d.call, row.kind, row.unit) == Some(b.reservations[id].amount)
      && PeriodOf(cfg.clock, row, d.at).Some?
      && CountsAgainst(cfg.clock, b.reservations[id].key, row, PeriodOf(cfg.clock, row, d.at).value)
      && b.reservations[id].key in b.charged && b.charged[b.reservations[id].key].ceiling == row.ceiling
  {
    hide Run, Matches, Spent, IsGeneric, PeriodOf, RequiredRows, AccountsAreExact, CountsAgainst, Sound;
    PrefixRuns(cfg, intents, rs, i);
    PrefixRuns(cfg, intents, rs, i + 1);
    var d, before := rs[i].value.decision, Run(cfg, intents, rs[..i]).value;
    var e := Sealed(rs[i].seqNo, rs[i].hash, d);
    assert NextDecision(cfg, before, e) == Run(cfg, intents, rs[..i + 1]);
    hide Next, NextDecision;
    AuthorizationIsExact(cfg, before, e);
    var a := DecisionHasAccount(cfg, d, row);
    MatchedAccountCounts(cfg.clock, d.at, a, row);
    SoundConserves(cfg, intents, rs[..i]);
    ChargeRecords(before.books, d.operation.operationId, d.accounts);
    assert IsCharged(Run(cfg, intents, rs[..i + 1]).value.books, d.operation.operationId, a);
    id := a.reservation;
    RunKeepsReservations(cfg, intents, rs, i + 1, |rs|);
    assert rs[..|rs|] == rs;
    CeilingNeverChanges(cfg, intents, rs, i + 1, Books.KeyOf(a));
  }

  lemma SoundConserves(cfg: Config, intents: Intents, rs: seq<Record>)
    requires Run(cfg, intents, rs).Some?
    ensures Books.Conserves(Run(cfg, intents, rs).value.books)
  {
    hide Run;
    RunIsSound(cfg, intents, rs);
  }

  // ---------- the budget of a period ----------

  ghost function HeldInPeriod(clock: Clock, rs: Books.Reservations, row: Row, start: int): map<string, nat> {
    map id | id in rs && rs[id].status != Books.Released && CountsAgainst(clock, rs[id].key, row, start) :: rs[id].amount
  }

  /** What is reserved or committed, and not given back, against a signed account in one period. */
  ghost function SpentInPeriod(clock: Clock, rs: Books.Reservations, row: Row, start: int): nat {
    Total(HeldInPeriod(clock, rs, row, start))
  }

  /** The record is an authorization that charges the account in the period under this text of its start. */
  ghost predicate Spells(clock: Clock, r: Record, row: Row, start: int, text: string) {
    && r.value.Decided? && r.value.decision.state.IsAuthorized?
    && exists a <- r.value.decision.accounts :: a.epoch == text && CountsAgainst(clock, Books.KeyOf(a), row, start)
  }

  /** All the records that charge the account in the period spell its start alike. */
  ghost predicate SpellsOnce(clock: Clock, rs: seq<Record>, row: Row, start: int) {
    forall r, s, x, y :: r in rs && s in rs && Spells(clock, r, row, start, x) && Spells(clock, s, row, start, y) ==> x == y
  }

  lemma ReservationSpells(clock: Clock, r: Record, id: string, reservation: Books.Reservation, row: Row, start: int)
    requires Reserves(r, id, reservation) && CountsAgainst(clock, reservation.key, row, start)
    ensures Spells(clock, r, row, start, reservation.key.epoch)
  {
  }

  lemma CountedKeysDifferInText(clock: Clock, a: Books.Key, b: Books.Key, row: Row, start: int)
    requires CountsAgainst(clock, a, row, start) && CountsAgainst(clock, b, row, start) && a.epoch == b.epoch
    ensures a == b
  {
  }

  /** Where the start is spelled once, all that counts against the account in the period is charged to one key. */
  lemma OneKeyPerPeriod(cfg: Config, intents: Intents, rs: seq<Record>, row: Row, start: int, id: string)
    requires Run(cfg, intents, rs).Some? && SpellsOnce(cfg.clock, rs, row, start)
    requires var held := Run(cfg, intents, rs).value.books.reservations;
      id in held && CountsAgainst(cfg.clock, held[id].key, row, start)
    ensures var held := Run(cfg, intents, rs).value.books.reservations;
      SpentInPeriod(cfg.clock, held, row, start) == Books.Live(held, held[id].key)
  {
    hide Run, CountsAgainst, Spells, Reserves;
    var held := Run(cfg, intents, rs).value.books.reservations;
    assert rs[..|rs|] == rs;
    var k := ReservationHasRecord(cfg, intents, rs, |rs|, id);
    ReservationSpells(cfg.clock, rs[k], id, held[id], row, start);
    forall other | other in held && CountsAgainst(cfg.clock, held[other].key, row, start) ensures held[other].key == held[id].key {
      var l := ReservationHasRecord(cfg, intents, rs, |rs|, other);
      ReservationSpells(cfg.clock, rs[l], other, held[other], row, start);
      assert rs[k] in rs && rs[l] in rs;
      CountedKeysDifferInText(cfg.clock, held[other].key, held[id].key, row, start);
    }
    assert HeldInPeriod(cfg.clock, held, row, start) == Books.Held(held, held[id].key);
  }

  /** Two signed accounts draw on one budget: the same grant or authority entry, kind, unit and window. */
  predicate SharesBudget(other: Row, row: Row) {
    && other.entry == row.entry && (row.entry.None? ==> other.jti == row.jti)
    && other.kind == row.kind && other.unit == row.unit && other.window == row.window
  }

  /** The record is an authorization in the period whose chain requires an account on this budget. */
  ghost predicate Draws(r: Record, row: Row, start: int) {
    && r.value.Decided? && start <= r.value.decision.at < start + PeriodMicros(row.window)
    && exists other :: Requires(r, other) && SharesBudget(other, row)
  }

  /** What the call of a record spends on a budget, unless its operation was released. */
  ghost function DrawnBy(ops: Operations, r: Record, row: Row, start: int): nat {
    if Draws(r, row, start) && PhaseOf(ops, r.value.decision.operation.operationId) != Some(Phase.Released) then
      match Spent(r.value.decision.call, row.kind, row.unit)
      case Some(quantity) => quantity
      case None => 0
    else 0
  }

  /** What the decisions of the period spend on a budget, without the released ones. */
  ghost function PeriodSpending(ops: Operations, rs: seq<Record>, row: Row, start: int): nat {
    if rs == [] then 0
    else PeriodSpending(ops, rs[..|rs| - 1], row, start) + DrawnBy(ops, rs[|rs| - 1], row, start)
  }

  /** Instants of one period have one period start, and only they. */
  lemma SamePeriod(clock: Clock, row: Row, at: int, other: int)
    requires PeriodOf(clock, row, at).Some?
    ensures PeriodOf(clock, row, other) == PeriodOf(clock, row, at)
       <==> PeriodOf(clock, row, at).value <= other < PeriodOf(clock, row, at).value + PeriodMicros(row.window)
  {
    var base, start := clock(row.window.epoch).value, PeriodOf(clock, row, at).value;
    hide PeriodStart, PeriodMicros;
    PeriodStartIsUnique(row.window, base, start, at);
    PeriodStartIsUnique(row.window, base, start, other);
  }

  /** The reservation that stands for what one record draws. */
  lemma DrawnReservation(cfg: Config, intents: Intents, rs: seq<Record>, i: nat, row: Row, start: int, at: int) returns (id: string)
    requires i < |rs| && Run(cfg, intents, rs).Some? && PeriodOf(cfg.clock, row, at) == Some(start)
    requires Draws(rs[i], row, start)
    requires PhaseOf(Run(cfg, intents, rs).value.ops, rs[i].value.decision.operation.operationId) != Some(Phase.Released)
    ensures var s := Run(cfg, intents, rs).value;
      && id in s.books.reservations && id in HeldInPeriod(cfg.clock, s.books.reservations, row, start)
      && s.books.reservations[id].amount == DrawnBy(s.ops, rs[i], row, start)
      && s.books.reservations[id].owner == rs[i].value.decision.operation.operationId
  {
    hide Run, Requires, PeriodOf, Spent, Sound;
    var other :| Requires(rs[i], other) && SharesBudget(other, row);
    id := DecisionChargesItsPeriod(cfg, intents, rs, i, other);
    SamePeriod(cfg.clock, row, at, rs[i].value.decision.at);
    SharedPeriod(cfg.clock, other, row, rs[i].value.decision.at);
    ReservationsFollowTheirOperation(cfg, intents, rs, id);
  }

  lemma SharedPeriod(clock: Clock, other: Row, row: Row, at: int)
    requires SharesBudget(other, row)
    ensures PeriodOf(clock, other, at) == PeriodOf(clock, row, at)
  {
  }

  /** The reservations that stand for what the first `n` records draw. */
  ghost predicate StandsFor(cfg: Config, s: State, rs: seq<Record>, row: Row, start: int, held: map<string, nat>) {
    && held.Keys <= HeldInPeriod(cfg.clock, s.books.reservations, row, start).Keys
    && (forall id <- held :: held[id] == s.books.reservations[id].amount && HasOwner(rs, s.books.reservations[id].owner))
    && Total(held) == PeriodSpending(s.ops, rs, row, start)
  }

  ghost predicate HasOwner(rs: seq<Record>, id: string) {
    exists r <- rs :: r.value.Decided? && r.value.decision.operation.operationId == id
  }

  /** An operation that the first records decided is decided by no later one. */
  lemma DecidedBefore(cfg: Config, intents: Intents, rs: seq<Record>, n: nat, id: string)
    requires n < |rs| && Run(cfg, intents, rs).Some? && HasOwner(rs[..n], id)
    ensures rs[n].value.Decided? ==> rs[n].value.decision.operation.operationId != id
  {
    hide Run;
    var r :| r in rs[..n] && r.value.Decided? && r.value.decision.operation.operationId == id;
    var k :| 0 <= k < n && rs[..n][k] == r;
    if rs[n].value.Decided? && rs[n].value.decision.operation.operationId == id {
      SameDecision(cfg, intents, rs, k, n, id);
    }
  }

  lemma SpendingOfMore(ops: Operations, rs: seq<Record>, r: Record, row: Row, start: int)
    ensures PeriodSpending(ops, rs + [r], row, start) == PeriodSpending(ops, rs, row, start) + DrawnBy(ops, r, row, start)
  {
    hide DrawnBy;
    assert (rs + [r])[..|rs|] == rs;
  }

  lemma OwnersOfMore(rs: seq<Record>, r: Record)
    ensures forall id :: HasOwner(rs, id) ==> HasOwner(rs + [r], id)
    ensures r.value.Decided? ==> HasOwner(rs + [r], r.value.decision.operation.operationId)
  {
    assert r in rs + [r];
    forall id | HasOwner(rs, id) ensures HasOwner(rs + [r], id) {
      var s :| s in rs && s.value.Decided? && s.value.decision.operation.operationId == id;
      assert s in rs + [r];
    }
  }

  lemma StandsForMore(cfg: Config, s: State, rs: seq<Record>, r: Record, row: Row, start: int, held: map<string, nat>, id: string)
    requires StandsFor(cfg, s, rs, row, start, held) && id !in held
    requires id in HeldInPeriod(cfg.clock, s.books.reservations, row, start) && r.value.Decided?
    requires s.books.reservations[id].amount == DrawnBy(s.ops, r, row, start)
    requires s.books.reservations[id].owner == r.value.decision.operation.operationId
    ensures StandsFor(cfg, s, rs + [r], row, start, held[id := s.books.reservations[id].amount])
  {
    hide HasOwner, DrawnBy, PeriodSpending, CountsAgainst;
    SpendingOfMore(s.ops, rs, r, row, start);
    OwnersOfMore(rs, r);
    TotalAdd(held, id, s.books.reservations[id].amount);
  }

  lemma StandsForSame(cfg: Config, s: State, rs: seq<Record>, r: Record, row: Row, start: int, held: map<string, nat>)
    requires StandsFor(cfg, s, rs, row, start, held) && DrawnBy(s.ops, r, row, start) == 0
    ensures StandsFor(cfg, s, rs + [r], row, start, held)
  {
    hide HasOwner, DrawnBy, PeriodSpending, CountsAgainst;
    SpendingOfMore(s.ops, rs, r, row, start);
    OwnersOfMore(rs, r);
  }

  lemma {:induction false} DrawnReservations(cfg: Config, intents: Intents, rs: seq<Record>, n: nat, row: Row, start: int, at: int)
    returns (held: map<string, nat>)
    requires n <= |rs| && Run(cfg, intents, rs).Some? && PeriodOf(cfg.clock, row, at) == Some(start)
    ensures StandsFor(cfg, Run(cfg, intents, rs).value, rs[..n], row, start, held)
    decreases n
  {
    hide Run, Draws, PeriodOf, HeldInPeriod, HasOwner;
    var s := Run(cfg, intents, rs).value;
    if n == 0 {
      held := map[];
    } else {
      held := DrawnReservations(cfg, intents, rs, n - 1, row, start, at);
      var r := rs[n - 1];
      assert rs[..n] == rs[..n - 1] + [r];
      if DrawnBy(s.ops, r, row, start) > 0 {
        DrawsIsDecision(r, row, start);
        var id := DrawnReservation(cfg, intents, rs, n - 1, row, start, at);
        if id in held {
          DecidedBefore(cfg, intents, rs, n - 1, s.books.reservations[id].owner);
          assert false;
        }
        hide DrawnBy, StandsFor;
        StandsForMore(cfg, s, rs[..n - 1], r, row, start, held, id);
        held := held[id := s.books.reservations[id].amount];
      } else {
        hide StandsFor;
        StandsForSame(cfg, s, rs[..n - 1], r, row, start, held);
      }
    }
  }

  lemma DrawsIsDecision(r: Record, row: Row, start: int)
    requires Draws(r, row, start)
    ensures r.value.Decided?
  {
  }

  /** Decisions spend no more on a budget in a period than is held against it. */
  lemma SpendingIsHeld(cfg: Config, intents: Intents, rs: seq<Record>, row: Row, start: int, at: int)
    requires Run(cfg, intents, rs).Some? && PeriodOf(cfg.clock, row, at) == Some(start)
    ensures var s := Run(cfg, intents, rs).value;
      PeriodSpending(s.ops, rs, row, start) <= SpentInPeriod(cfg.clock, s.books.reservations, row, start)
  {
    hide Run, PeriodOf, PeriodSpending;
    var s := Run(cfg, intents, rs).value;
    var held := DrawnReservations(cfg, intents, rs, |rs|, row, start, at);
    assert rs[..|rs|] == rs;
    TotalMonotone(held, HeldInPeriod(cfg.clock, s.books.reservations, row, start));
  }

  /**
   The signed amount of every windowed bound that an accepted decision requires is a budget for the period of
   that decision: when all charges against the bound in that period spell its start alike, the quantities
   that the decisions of the period spend on it, released ones apart, add up to no more than the amount.
   */
  lemma PeriodStaysWithinBound(cfg: Config, intents: Intents, rs: seq<Record>, i: nat, row: Row)
    requires i < |rs| && Run(cfg, intents, rs).Some? && Requires(rs[i], row)
    requires var start := PeriodOf(cfg.clock, row, rs[i].value.decision.at);
      start.Some? ==> SpellsOnce(cfg.clock, rs, row, start.value)
    ensures var start, s := PeriodOf(cfg.clock, row, rs[i].value.decision.at), Run(cfg, intents, rs).value;
      && start.Some?
      && PeriodSpending(s.ops, rs, row, start.value) <= SpentInPeriod(cfg.clock, s.books.reservations, row, start.value) <= row.ceiling
  {
    hide Run, RequiredRows, CountsAgainst, SpellsOnce, SpentInPeriod, PeriodOf, Spent, IsGeneric, PeriodSpending, Books.Live;
    var id := DecisionChargesItsPeriod(cfg, intents, rs, i, row);
    var b := Run(cfg, intents, rs).value.books;
    var start := PeriodOf(cfg.clock, row, rs[i].value.decision.at).value;
    OneKeyPerPeriod(cfg, intents, rs, row, start, id);
    CapacityIsConserved(cfg, intents, rs, b.reservations[id].key);
    SpendingIsHeld(cfg, intents, rs, row, start, rs[i].value.decision.at);
  }
}
