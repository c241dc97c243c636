/**
 When a signed amount is a budget of its period. Accounts are charged under the text of the period start, so
 two spellings of one start open two accounts, each with the whole amount.
 */
module Overspending {
  import opened Prelude
  import opened Accounts
  import opened Matching
  import opened Evidence
  import opened OneTime
  import opened ForeignPoints
  import opened Lifecycle
  import opened Replay
  import opened Capacity
  import opened Budget
  import Books

  function AsRecord(e: Sealed<Decision>): Record {
    Sealed(e.seqNo, e.hash, Decided(e.value))
  }

  /** The account of a decision that spends the whole ceiling under this text of the period start. */
  function WholeCeiling(row: Row, epoch: string, reservation: string): Account {
    Account(row.jti, row.entry, row.kind, row.unit, row.ceiling, epoch, row.window.durationMs, row.ceiling, reservation)
  }

  /** An authorization that the replay accepts by itself, and that spends the whole ceiling of the account under this text. */
  ghost predicate SpendsAll(cfg: Config, e: Sealed<Decision>, row: Row, epoch: string, reservation: string) {
    && e.value.state.IsAuthorized? && NextDecision(cfg, START, e).Some?
    && Requires(AsRecord(e), row) && e.value.accounts == [WholeCeiling(row, epoch, reservation)]
  }

  /** Two authorizations have nothing in common that is used only once. */
  ghost predicate AreSeparate(e: Sealed<Decision>, f: Sealed<Decision>) {
    && e.value.operation.operationId != f.value.operation.operationId
    && (forall a, b :: a in e.value.accounts && b in f.value.accounts ==> a.reservation != b.reservation)
    && (forall a, b :: a in e.value.identifiers && b in f.value.identifiers ==> a.name != b.name)
  }

  // ---------- the two authorizations one after the other ----------

  lemma OneCharge(operationId: string, a: Account)
    requires Books.ChargeAll(Books.NO_BOOKS, operationId, [a]).Some?
    ensures var b := Books.ChargeAll(Books.NO_BOOKS, operationId, [a]).value;
      && b.charged.Keys == {Books.KeyOf(a)}
      && b.reservations == map[a.reservation := Books.Reservation(Books.KeyOf(a), a.amount, operationId, Books.Authorized)]
  {
    hide Books.KeyOf;
    assert [a][1..] == [];
    assert Books.ChargeAll(Books.NO_BOOKS, operationId, [a]) == Books.ChargeOne(Books.NO_BOOKS, operationId, a);
  }

  lemma SecondCharge(b: Books.Books, operationId: string, a: Account)
    requires Books.ChargeAll(b, operationId, [a]).Some?
    ensures Books.ChargeAll(b, operationId, [a]).value.reservations
         == b.reservations[a.reservation := Books.Reservation(Books.KeyOf(a), a.amount, operationId, Books.Authorized)]
  {
    hide Books.KeyOf;
    assert [a][1..] == [];
    assert Books.ChargeAll(b, operationId, [a]) == Books.ChargeOne(b, operationId, a);
  }

  /** An account whose key nothing was charged to fits as it fits into empty books. */
  lemma UnchargedKeyFits(b: Books.Books, a: Account)
    requires Books.KeyOf(a) !in b.charged && Fits(Books.NO_BOOKS, [a])
    ensures Fits(b, [a])
  {
    hide Books.KeyOf;
    assert HasRoom(Books.NO_BOOKS, [a], a);
  }

  /** What a first authorization leaves behind. */
  lemma AfterOne(cfg: Config, e: Sealed<Decision>, a: Account)
    requires e.value.state.IsAuthorized? && NextDecision(cfg, START, e).Some? && e.value.accounts == [a]
    ensures var s := NextDecision(cfg, START, e).value;
      && s.ops.decisions.Keys == {e.value.operation.operationId} && s.foreign.cancellations == map[]
      && (forall name <- s.consumed :: exists f <- e.value.identifiers :: f.name == name)
      && s.books.charged.Keys == {Books.KeyOf(a)}
      && s.books.reservations == map[a.reservation := Books.Reservation(Books.KeyOf(a), a.amount, e.value.operation.operationId, Books.Authorized)]
  {
    hide AccountsAreExact, AdaptedAdmission, AuthorizedIdentity, ExpectedFacts, Books.ChargeAll, Books.KeyOf, ConsumeAll;
    OneCharge(e.value.operation.operationId, a);
    ConsumeAllChecks(map[], e.value.at, e.value.identifiers);
  }

  lemma SecondIsAccepted(cfg: Config, e: Sealed<Decision>, f: Sealed<Decision>, a: Account, b: Account)
    requires e.value.state.IsAuthorized? && NextDecision(cfg, START, e).Some? && e.value.accounts == [a]
    requires f.value.state.IsAuthorized? && NextDecision(cfg, START, f).Some? && f.value.accounts == [b]
    requires AreSeparate(e, f) && Books.KeyOf(a) != Books.KeyOf(b)
    ensures NextDecision(cfg, NextDecision(cfg, START, e).value, f).Some?
  {
    var s := NextDecision(cfg, START, e).value;
    AfterOne(cfg, e, a);
    AuthorizationAcceptedExactly(cfg, START, f);
    hide NextDecision, ValidConsumption, IsKnownAdapter, IsBacked, AdaptedAdmission, AuthorizedIdentity, Fits, Books.KeyOf;
    assert a in e.value.accounts && b in f.value.accounts;
    UnchargedKeyFits(s.books, b);
    assert IsFree(cfg, s, f);
    AuthorizationAcceptedExactly(cfg, s, f);
  }

  lemma RunOfTwo(cfg: Config, intents: Intents, e: Sealed<Decision>, f: Sealed<Decision>)
    requires NextDecision(cfg, START, e).Some?
    ensures Run(cfg, intents, [AsRecord(e), AsRecord(f)]) == NextDecision(cfg, NextDecision(cfg, START, e).value, f)
  {
    hide NextDecision;
    var rs := [AsRecord(e), AsRecord(f)];
    assert rs[..1] == [AsRecord(e)] && rs[..1][..0] == [];
    assert Run(cfg, intents, rs[..1]) == Next(cfg, intents, START, AsRecord(e));
  }

  /** A decision that spends the whole ceiling does so in the period whose start its account spells. */
  lemma SpenderDraws(cfg: Config, e: Sealed<Decision>, row: Row, epoch: string, reservation: string)
    requires SpendsAll(cfg, e, row, epoch, reservation)
    ensures cfg.clock(epoch).Some? && PeriodOf(cfg.clock, row, e.value.at) == cfg.clock(epoch)
    ensures Spent(e.value.call, row.kind, row.unit) == Some(row.ceiling)
    ensures Spells(cfg.clock, AsRecord(e), row, cfg.clock(epoch).value, epoch)
    ensures forall text :: Spells(cfg.clock, AsRecord(e), row, cfg.clock(epoch).value, text) ==> text == epoch
    ensures Draws(AsRecord(e), row, cfg.clock(epoch).value)
  {
    hide AccountsAreExact, RequiredRows, Spent, IsGeneric, PeriodOf, Matches;
    AuthorizationIsExact(cfg, START, e);
    hide NextDecision;
    var a := DecisionHasAccount(cfg, e.value, row);
    assert a == WholeCeiling(row, epoch, reservation);
    MatchedAccountCounts(cfg.clock, e.value.at, a, row);
    SamePeriod(cfg.clock, row, e.value.at, e.value.at);
  }

  /**
   Two authorizations that each are accepted alone, each spending the whole ceiling of one signed account in one
   period, are accepted one after the other when they spell the start of the period differently: together
   they spend, and hold, twice the ceiling.
   */
  lemma TwoSpellingsDoubleTheBudget(
    cfg: Config, intents: Intents, e: Sealed<Decision>, f: Sealed<Decision>, row: Row, x: string, y: string, p: string, q: string)
    requires SpendsAll(cfg, e, row, x, p) && SpendsAll(cfg, f, row, y, q) && AreSeparate(e, f)
    requires x != y && cfg.clock(x) == cfg.clock(y)
    ensures cfg.clock(x).Some? && PeriodOf(cfg.clock, row, e.value.at) == PeriodOf(cfg.clock, row, f.value.at) == cfg.clock(x)
    ensures var rs := [AsRecord(e), AsRecord(f)];
      && Run(cfg, intents, rs).Some?
      && var s := Run(cfg, intents, rs).value;
      && PeriodSpending(s.ops, rs, row, cfg.clock(x).value) == 2 * row.ceiling
      && SpentInPeriod(cfg.clock, s.books.reservations, row, cfg.clock(x).value) == 2 * row.ceiling
  {
    var a, b := WholeCeiling(row, x, p), WholeCeiling(row, y, q);
    SpenderDraws(cfg, e, row, x, p);
    SpenderDraws(cfg, f, row, y, q);
    AfterOne(cfg, e, a);
    SecondIsAccepted(cfg, e, f, a, b);
    RunOfTwo(cfg, intents, e, f);
    TwoSpendings(cfg, NextDecision(cfg, START, e).value, e, f, row, cfg.clock(x).value);
    hide NextDecision, PeriodSpending;
    TwoHeld(cfg, intents, e, f, row, a, b, cfg.clock(x).value);
  }

  /** Both decisions count: neither was released. */
  lemma TwoSpendings(cfg: Config, s: State, e: Sealed<Decision>, f: Sealed<Decision>, row: Row, start: int)
    requires NextDecision(cfg, START, e) == Some(s) && NextDecision(cfg, s, f).Some?
    requires e.value.state.IsAuthorized? && f.value.state.IsAuthorized?
    requires e.value.operation.operationId != f.value.operation.operationId
    requires Draws(AsRecord(e), row, start) && Draws(AsRecord(f), row, start)
    requires Spent(e.value.call, row.kind, row.unit) == Spent(f.value.call, row.kind, row.unit) == Some(row.ceiling)
    ensures PeriodSpending(NextDecision(cfg, s, f).value.ops, [AsRecord(e), AsRecord(f)], row, start) == 2 * row.ceiling
  {
    hide Draws, Spent;
    DecisionWrites(cfg, START, e);
    DecisionWrites(cfg, s, f);
    hide NextDecision;
    var ops := NextDecision(cfg, s, f).value.ops;
    assert PhaseOf(ops, e.value.operation.operationId) == Some(Phase.Authorized);
    assert PhaseOf(ops, f.value.operation.operationId) == Some(Phase.Authorized);
    SpendingOfMore(ops, [], AsRecord(e), row, start);
    SpendingOfMore(ops, [AsRecord(e)], AsRecord(f), row, start);
    assert [] + [AsRecord(e)] == [AsRecord(e)] && [AsRecord(e)] + [AsRecord(f)] == [AsRecord(e), AsRecord(f)];
  }

  lemma HeldOfTwo(clock: Clock, p: string, q: string, r: Books.Reservation, t: Books.Reservation, row: Row, start: int)
    requires p != q && r.status != Books.Released && t.status != Books.Released
    requires CountsAgainst(clock, r.key, row, start) && CountsAgainst(clock, t.key, row, start)
    ensures SpentInPeriod(clock, map[p := r][q := t], row, start) == r.amount + t.amount
  {
    hide CountsAgainst;
    assert HeldInPeriod(clock, map[p := r][q := t], row, start) == map[p := r.amount][q := t.amount];
    TotalAdd(map[p := r.amount], q, t.amount);
    TotalAdd(map[], p, r.amount);
  }

  lemma TwoHeld(
    cfg: Config, intents: Intents, e: Sealed<Decision>, f: Sealed<Decision>, row: Row, a: Account, b: Account, start: int)
    requires e.value.state.IsAuthorized? && NextDecision(cfg, START, e).Some? && e.value.accounts == [a]
    requires f.value.state.IsAuthorized? && f.value.accounts == [b] && AreSeparate(e, f)
    requires Run(cfg, intents, [AsRecord(e), AsRecord(f)]) == NextDecision(cfg, NextDecision(cfg, START, e).value, f)
    requires NextDecision(cfg, NextDecision(cfg, START, e).value, f).Some?
    requires CountsAgainst(cfg.clock, Books.KeyOf(a), row, start) && CountsAgainst(cfg.clock, Books.KeyOf(b), row, start)
    ensures var held := Run(cfg, intents, [AsRecord(e), AsRecord(f)]).value.books.reservations;
      SpentInPeriod(cfg.clock, held, row, start) == a.amount + b.amount
  {
    var s := NextDecision(cfg, START, e).value;
    AfterOne(cfg, e, a);
    AuthorizationIsExact(cfg, s, f);
    hide NextDecision, Run, AccountsAreExact, CountsAgainst, Books.KeyOf, Books.ChargeAll, SpentInPeriod;
    SecondCharge(s.books, f.value.operation.operationId, b);
    assert a in e.value.accounts && b in f.value.accounts;
    HeldOfTwo(
      cfg.clock, a.reservation, b.reservation,
      Books.Reservation(Books.KeyOf(a), a.amount, e.value.operation.operationId, Books.Authorized),
      Books.Reservation(Books.KeyOf(b), b.amount, f.value.operation.operationId, Books.Authorized), row, start);
  }

  // ---------- the exact condition ----------

  /** All charges of these records against the account in the period spell its start with one of these texts. */
  ghost predicate UsesOnly(clock: Clock, rs: seq<Record>, row: Row, start: int, texts: set<string>) {
    forall r, text :: r in rs && Spells(clock, r, row, start, text) ==> text in texts
  }

  /** The record is an authorization in the period that requires the account. */
  ghost predicate RequiresIn(clock: Clock, r: Record, row: Row, start: int) {
    Requires(r, row) && PeriodOf(clock, row, r.value.decision.at) == Some(start)
  }

  /** In every accepted run that uses only these texts, the decisions of the period stay within the signed amount. */
  ghost predicate IsBudgetOver(cfg: Config, intents: Intents, row: Row, start: int, texts: set<string>) {
    forall rs: seq<Record>, i ::
      && 0 <= i < |rs| && Run(cfg, intents, rs).Some? && RequiresIn(cfg.clock, rs[i], row, start)
      && UsesOnly(cfg.clock, rs, row, start, texts)
      ==> PeriodSpending(Run(cfg, intents, rs).value.ops, rs, row, start) <= row.ceiling
  }

  /** At most one of these texts is the start of the period. */
  predicate SpellOnce(clock: Clock, texts: set<string>, start: int) {
    forall x, y :: x in texts && y in texts && clock(x) == clock(y) == Some(start) ==> x == y
  }

  /** For any two spellings of the start among the texts there are separate authorizations that spend the whole ceiling under them. */
  ghost predicate HasSpenders(cfg: Config, row: Row, start: int, texts: set<string>) {
    forall x, y :: x in texts && y in texts && x != y && cfg.clock(x) == cfg.clock(y) == Some(start) ==>
      exists e, f, p, q :: SpendsAll(cfg, e, row, x, p) && SpendsAll(cfg, f, row, y, q) && AreSeparate(e, f)
  }

  lemma OneTextSpellsOnce(clock: Clock, rs: seq<Record>, row: Row, start: int, texts: set<string>)
    requires SpellOnce(clock, texts, start) && UsesOnly(clock, rs, row, start, texts)
    ensures SpellsOnce(clock, rs, row, start)
  {
  }

  lemma OverspendingRun(
    cfg: Config, intents: Intents, e: Sealed<Decision>, f: Sealed<Decision>, row: Row, start: int, x: string, y: string,
    p: string, q: string, texts: set<string>)
    requires SpendsAll(cfg, e, row, x, p) && SpendsAll(cfg, f, row, y, q) && AreSeparate(e, f)
    requires x in texts && y in texts && x != y && cfg.clock(x) == cfg.clock(y) == Some(start) && row.ceiling > 0
    ensures !IsBudgetOver(cfg, intents, row, start, texts)
  {
    hide Run, NextDecision, PeriodSpending, PeriodOf, Requires, SpentInPeriod, Spent, Draws;
    var rs := [AsRecord(e), AsRecord(f)];
    TwoSpellingsDoubleTheBudget(cfg, intents, e, f, row, x, y, p, q);
    SpenderDraws(cfg, e, row, x, p);
    SpenderDraws(cfg, f, row, y, q);
    hide Spells;
    assert UsesOnly(cfg.clock, rs, row, start, texts);
    assert RequiresIn(cfg.clock, rs[0], row, start);
  }

  /**
   Over a set of texts, the signed amount is a budget of the period in every accepted run if and only if at
   most one of the texts spells the start of the period.
   */
  lemma BudgetNeedsOneSpelling(cfg: Config, intents: Intents, row: Row, start: int, texts: set<string>)
    requires row.ceiling > 0 && HasSpenders(cfg, row, start, texts)
    ensures IsBudgetOver(cfg, intents, row, start, texts) <==> SpellOnce(cfg.clock, texts, start)
  {
    hide Run, PeriodSpending, PeriodOf, Requires, UsesOnly, SpendsAll, AreSeparate;
    if SpellOnce(cfg.clock, texts, start) {
      forall rs: seq<Record>, i |
        && 0 <= i < |rs| && Run(cfg, intents, rs).Some? && RequiresIn(cfg.clock, rs[i], row, start)
        && UsesOnly(cfg.clock, rs, row, start, texts)
        ensures PeriodSpending(Run(cfg, intents, rs).value.ops, rs, row, start) <= row.ceiling
      {
        hide SpellOnce, SpellsOnce;
        OneTextSpellsOnce(cfg.clock, rs, row, start, texts);
        PeriodStaysWithinBound(cfg, intents, rs, i, row);
      }
    } else {
      var x, y :| x in texts && y in texts && cfg.clock(x) == cfg.clock(y) == Some(start) && x != y;
      var e, f, p, q :| SpendsAll(cfg, e, row, x, p) && SpendsAll(cfg, f, row, y, q) && AreSeparate(e, f);
      hide IsBudgetOver;
      OverspendingRun(cfg, intents, e, f, row, start, x, y, p, q, texts);
    }
  }
}
