/** When an authorization is accepted: exactly when its evidence holds, its identifiers are free and its accounts have room. */
module Capacity {
  import opened Prelude
  import opened Matching
  import opened Evidence
  import opened OneTime
  import opened ForeignPoints
  import opened Lifecycle
  import opened Replay
  import opened Conservation
  import Books

  // ---------- charging, said without an order ----------

  /** What the accounts ask of one key together. */
  function Asked(accounts: seq<Account>, key: Books.Key): nat {
    if accounts == [] then 0
    else (if Books.KeyOf(accounts[0]) == key then accounts[0].amount else 0) + Asked(accounts[1..], key)
  }

  function UsedOf(b: Books.Books, key: Books.Key): int {
    if key in b.charged then b.charged[key].used else 0
  }

  /** The account states the ceiling on record, and all that is asked of its key fits below it. */
  predicate HasRoom(b: Books.Books, accounts: seq<Account>, a: Account) {
    var key := Books.KeyOf(a);
    (key in b.charged ==> b.charged[key].ceiling == a.ceiling) && UsedOf(b, key) + Asked(accounts, key) <= a.ceiling
  }

  ghost predicate AgreeOnCeilings(accounts: seq<Account>) {
    forall a, c :: a in accounts && c in accounts && Books.KeyOf(a) == Books.KeyOf(c) ==> a.ceiling == c.ceiling
  }

  ghost predicate AreNew(b: Books.Books, accounts: seq<Account>) {
    DistinctReservations(accounts) && forall a <- accounts :: a.reservation !in b.reservations
  }

  ghost predicate Fits(b: Books.Books, accounts: seq<Account>) {
    AgreeOnCeilings(accounts) && forall a <- accounts :: HasRoom(b, accounts, a)
  }

  lemma {:induction false} NothingAsked(accounts: seq<Account>, key: Books.Key)
    requires forall a <- accounts :: Books.KeyOf(a) != key
    ensures Asked(accounts, key) == 0
    decreases |accounts|
  {
    if accounts != [] {
      assert forall a :: a in accounts[1..] ==> a in accounts;
      NothingAsked(accounts[1..], key);
    }
  }

  lemma NewStep(b: Books.Books, operationId: string, accounts: seq<Account>)
    requires accounts != [] && Books.ChargeOne(b, operationId, accounts[0]).Some?
    ensures AreNew(b, accounts) <==> AreNew(Books.ChargeOne(b, operationId, accounts[0]).value, accounts[1..])
  {
    assert accounts == [accounts[0]] + accounts[1..];
    var mid := Books.ChargeOne(b, operationId, accounts[0]).value;
    assert mid.reservations.Keys == b.reservations.Keys + {accounts[0].reservation};
    if AreNew(mid, accounts[1..]) {
      forall i, j | 0 <= i < j < |accounts| ensures accounts[i].reservation != accounts[j].reservation {
        assert accounts[j] == accounts[1..][j - 1] && accounts[j] in accounts[1..];
        assert i > 0 ==> accounts[i] == accounts[1..][i - 1];
      }
    }
    if AreNew(b, accounts) {
      forall a | a in accounts[1..] ensures a.reservation !in mid.reservations {
        var j :| 0 <= j < |accounts| - 1 && accounts[1..][j] == a;
        assert accounts[0].reservation != accounts[j + 1].reservation;
      }
    }
  }

  lemma UsedAfter(b: Books.Books, operationId: string, a: Account, key: Books.Key)
    requires Books.ChargeOne(b, operationId, a).Some?
    ensures var c := Books.ChargeOne(b, operationId, a).value;
      && UsedOf(c, key) == UsedOf(b, key) + (if key == Books.KeyOf(a) then a.amount else 0)
      && (key in c.charged <==> key in b.charged || key == Books.KeyOf(a))
      && (key in c.charged ==> c.charged[key].ceiling == if key == Books.KeyOf(a) then a.ceiling else b.charged[key].ceiling)
  {
    hide Books.KeyOf;
  }

  lemma FitsBefore(b: Books.Books, operationId: string, accounts: seq<Account>)
    requires accounts != [] && Books.ChargeOne(b, operationId, accounts[0]).Some?
    requires Fits(Books.ChargeOne(b, operationId, accounts[0]).value, accounts[1..])
    ensures Fits(b, accounts)
  {
    var first, rest, mid := accounts[0], accounts[1..], Books.ChargeOne(b, operationId, accounts[0]).value;
    var key := Books.KeyOf(first);
    assert forall a :: a in accounts <==> a == first || a in rest;
    UsedAfter(b, operationId, first, key);
    FirstHasRoom(b, operationId, accounts);
    hide Books.ChargeOne, Books.KeyOf;
    forall a | a in rest ensures HasRoom(b, accounts, a) && (Books.KeyOf(a) == key ==> a.ceiling == first.ceiling) {
      assert HasRoom(mid, rest, a);
      UsedAfter(b, operationId, first, Books.KeyOf(a));
    }
  }

  lemma FirstHasRoom(b: Books.Books, operationId: string, accounts: seq<Account>)
    requires accounts != [] && Books.ChargeOne(b, operationId, accounts[0]).Some?
    requires Fits(Books.ChargeOne(b, operationId, accounts[0]).value, accounts[1..])
    ensures HasRoom(b, accounts, accounts[0])
  {
    var first, rest, mid := accounts[0], accounts[1..], Books.ChargeOne(b, operationId, accounts[0]).value;
    var key := Books.KeyOf(first);
    UsedAfter(b, operationId, first, key);
    if a :| a in rest && Books.KeyOf(a) == key {
      assert HasRoom(mid, rest, a);
    } else {
      NothingAsked(rest, key);
    }
  }

  lemma FitsAfter(b: Books.Books, operationId: string, accounts: seq<Account>)
    requires accounts != [] && Fits(b, accounts) && accounts[0].reservation !in b.reservations
    ensures Books.ChargeOne(b, operationId, accounts[0]).Some?
    ensures Fits(Books.ChargeOne(b, operationId, accounts[0]).value, accounts[1..])
  {
    var first, rest := accounts[0], accounts[1..];
    assert forall a :: a in accounts <==> a == first || a in rest;
    assert HasRoom(b, accounts, first);
    var mid := Books.ChargeOne(b, operationId, first).value;
    hide Books.ChargeOne, Books.KeyOf;
    forall a | a in rest ensures HasRoom(mid, rest, a) {
      assert HasRoom(b, accounts, a);
      UsedAfter(b, operationId, first, Books.KeyOf(a));
    }
  }

  /** Accounts are charged exactly when their reservations are new and each account has room for all that is asked of it. */
  lemma {:induction false} ChargeAcceptedExactly(b: Books.Books, operationId: string, accounts: seq<Account>)
    ensures Books.ChargeAll(b, operationId, accounts).Some? <==> AreNew(b, accounts) && Fits(b, accounts)
    decreases |accounts|
  {
    hide AreNew, Fits, Books.ChargeOne;
    if accounts == [] {
      NothingFits(b);
    } else {
      if Books.ChargeOne(b, operationId, accounts[0]).Some? {
        var mid := Books.ChargeOne(b, operationId, accounts[0]).value;
        ChargeAcceptedExactly(mid, operationId, accounts[1..]);
        NewStep(b, operationId, accounts);
        if Fits(mid, accounts[1..]) {
          FitsBefore(b, operationId, accounts);
        }
      }
      if AreNew(b, accounts) && Fits(b, accounts) {
        FirstIsNew(b, accounts);
        FitsAfter(b, operationId, accounts);
      }
    }
  }

  lemma FirstIsNew(b: Books.Books, accounts: seq<Account>)
    requires accounts != [] && AreNew(b, accounts)
    ensures accounts[0].reservation !in b.reservations
  {
    assert accounts[0] in accounts;
  }

  lemma NothingFits(b: Books.Books)
    ensures AreNew(b, []) && Fits(b, [])
  {
  }

  // ---------- authorizations ----------

  /** The evidence of an authorization, apart from what earlier records leave over. */
  ghost predicate IsBacked(cfg: Config, e: Sealed<Decision>) {
    && cfg.authority(e) && AccountsAreExact(cfg, e.value)
    && AdaptedAdmission(cfg, e.value).Some?
    && var adm := AdaptedAdmission(cfg, e.value).value;
    && ExpectedFacts(cfg, e.value, adm) == Some(ElementsOf(e.value.identifiers))
    && (!e.value.foreign.NoForeign? ==> AuthorizedIdentity(cfg, adm, e.value).Some?)
  }

  /** Earlier records leave the authorization its operation id, identifiers, foreign operation and capacity. */
  ghost predicate IsFree(cfg: Config, s: State, e: Sealed<Decision>)
    requires AdaptedAdmission(cfg, e.value).Some?
  {
    var d := e.value;
    && d.operation.operationId !in s.ops.decisions
    && (forall f <- d.identifiers :: f.name in s.consumed ==> s.consumed[f.name] < d.at)
    && (!d.foreign.NoForeign? ==>
          var identity := AuthorizedIdentity(cfg, AdaptedAdmission(cfg, d).value, d);
          identity.Some? ==> identity.value !in s.foreign.cancellations)
    && (forall a <- d.accounts :: a.reservation !in s.books.reservations)
    && Fits(s.books, d.accounts)
  }

  /** An authorization is accepted exactly when it is well formed, backed by its evidence, and free of what came before. */
  lemma AuthorizationAcceptedExactly(cfg: Config, s: State, e: Sealed<Decision>)
    requires e.value.state.IsAuthorized?
    ensures NextDecision(cfg, s, e).Some? <==>
      ValidConsumption(cfg, e.value) && IsKnownAdapter(cfg, e.value.adapter) && IsBacked(cfg, e) && IsFree(cfg, s, e)
  {
    hide AccountsAreExact, AdaptedAdmission, ExpectedFacts, AuthorizedIdentity, Fits, Decide, ConsumeAll, Books.ChargeAll;
    hide ValidAccountPeriod, ElementsOf;
    var d := e.value;
    ChargeAcceptedExactly(s.books, d.operation.operationId, d.accounts);
    if ValidConsumption(cfg, d) {
      ConsumeAllChecks(s.consumed, d.at, d.identifiers);
      hide DistinctNames, DistinctReservations, Recorded;
    }
  }
}
