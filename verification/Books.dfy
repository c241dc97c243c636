/**
 The capacity accounts of the replay: reservations, the totals charged to each account, and what
 keeps the two in step under every charge, fence, release and commitment.
 */
module Books {
  import opened Prelude
  import opened Matching

  /** The account a charge counts against. The period start is the text that the decision states. */
  datatype Key = Key(owner: string, shared: bool, kind: string, unit: string, epoch: string, durationMs: int)

  datatype Status = Authorized | Fenced | Released | Committed

  datatype Reservation = Reservation(key: Key, amount: nat, owner: string, status: Status)

  datatype Charge = Charge(used: int, ceiling: nat)

  type Reservations = map<string, Reservation>

  datatype Books = Books(reservations: Reservations, charged: map<Key, Charge>, owned: map<string, seq<string>>)

  const NO_BOOKS: Books := Books(map[], map[], map[])

  function KeyOf(a: Account): Key {
    Key(if a.entry.None? then a.jti else a.entry.value, a.entry.Some?, a.kind, a.unit, a.epoch, a.durationMs)
  }

  function OwnedBy(b: Books, operationId: string): seq<string> {
    if operationId in b.owned then b.owned[operationId] else []
  }

  // ---------- the four updates ----------

  function ChargeOne(b: Books, operationId: string, a: Account): Option<Books> {
    if a.reservation in b.reservations then None
    else
      var key := KeyOf(a);
      var before := if key in b.charged then b.charged[key] else Charge(0, a.ceiling);
      if before.ceiling != a.ceiling || a.amount > a.ceiling - before.used then None
      else Some(Books(
        b.reservations[a.reservation := Reservation(key, a.amount, operationId, Authorized)],
        b.charged[key := Charge(before.used + a.amount, a.ceiling)],
        b.owned[operationId := OwnedBy(b, operationId) + [a.reservation]]))
  }

  function ChargeAll(b: Books, operationId: string, accounts: seq<Account>): Option<Books>
    decreases |accounts|
  {
    if accounts == [] then Some(b)
    else
      var next :- ChargeOne(b, operationId, accounts[0]);
      ChargeAll(next, operationId, accounts[1..])
  }

  function FenceOne(rs: Reservations, operationId: string, id: string): Option<Reservations> {
    if id !in rs || rs[id].owner != operationId || rs[id].status != Authorized then None
    else Some(rs[id := rs[id].(status := Fenced)])
  }

  function FenceAll(rs: Reservations, operationId: string, ids: seq<string>): Option<Reservations>
    decreases |ids|
  {
    if ids == [] then Some(rs)
    else
      var next :- FenceOne(rs, operationId, ids[0]);
      FenceAll(next, operationId, ids[1..])
  }

  predicate IsOpen(s: Status) {
    s == Authorized || s == Fenced
  }

  /** The reservations that a settlement concerns. */
  function OpenOnes(rs: Reservations, ids: seq<string>): (open: seq<string>)
    ensures forall id :: id in open <==> id in ids && id in rs && IsOpen(rs[id].status)
  {
    if ids == [] then []
    else
      assert ids == [ids[0]] + ids[1..];
      (if ids[0] in rs && IsOpen(rs[ids[0]].status) then [ids[0]] else []) + OpenOnes(rs, ids[1..])
  }

  function ReleaseOne(b: Books, id: string): Option<Books> {
    if id !in b.reservations || b.reservations[id].key !in b.charged then None
    else
      var r := b.reservations[id];
      var charge := b.charged[r.key];
      Some(b.(charged := b.charged[r.key := charge.(used := charge.used - r.amount)],
              reservations := b.reservations[id := r.(status := Released)]))
  }

  function ReleaseAll(b: Books, ids: seq<string>): Option<Books>
    decreases |ids|
  {
    if ids == [] then Some(b)
    else
      var next :- ReleaseOne(b, ids[0]);
      ReleaseAll(next, ids[1..])
  }

  function CommitOne(rs: Reservations, id: string): Option<Reservations> {
    if id !in rs then None else Some(rs[id := rs[id].(status := Committed)])
  }

  function CommitAll(rs: Reservations, ids: seq<string>): Option<Reservations>
    decreases |ids|
  {
    if ids == [] then Some(rs)
    else
      var next :- CommitOne(rs, ids[0]);
      CommitAll(next, ids[1..])
  }

  // ---------- conservation ----------

  ghost function Held(rs: Reservations, key: Key): map<string, nat> {
    map id | id in rs && rs[id].key == key && rs[id].status != Released :: rs[id].amount
  }

  /** The sum of the amounts of the reservations on an account that have not been given back. */
  ghost function Live(rs: Reservations, key: Key): nat {
    Total(Held(rs, key))
  }

  ghost predicate Balanced(b: Books, key: Key) {
    key in b.charged ==> b.charged[key].used == Live(b.reservations, key) <= b.charged[key].ceiling
  }

  /** Every account's total is the sum of its live reservations, and no more than its ceiling. */
  ghost predicate Conserves(b: Books) {
    (forall id <- b.reservations :: b.reservations[id].key in b.charged) && forall key <- b.charged :: Balanced(b, key)
  }

  /** Accounts are never forgotten, and their ceilings never change. */
  ghost predicate CeilingsKept(before: Books, after: Books) {
    forall key <- before.charged :: key in after.charged && after.charged[key].ceiling == before.charged[key].ceiling
  }

  lemma HeldOfNew(rs: Reservations, id: string, r: Reservation, key: Key)
    requires id !in rs && r.status != Released
    ensures Live(rs[id := r], key) == Live(rs, key) + if r.key == key then r.amount else 0
  {
    if r.key == key {
      assert Held(rs[id := r], key) == Held(rs, key)[id := r.amount];
      TotalAdd(Held(rs, key), id, r.amount);
    } else {
      assert Held(rs[id := r], key) == Held(rs, key);
    }
  }

  lemma HeldOfReleased(rs: Reservations, id: string, key: Key)
    requires id in rs && rs[id].status != Released
    ensures Live(rs, key) == Live(rs[id := rs[id].(status := Released)], key) + if rs[id].key == key then rs[id].amount else 0
  {
    var after := rs[id := rs[id].(status := Released)];
    if rs[id].key == key {
      assert Held(after, key) == Held(rs, key) - {id};
      TotalSplit(Held(rs, key), id);
    } else {
      assert Held(after, key) == Held(rs, key);
    }
  }

  lemma HeldOfMoved(rs: Reservations, id: string, status: Status, key: Key)
    requires id in rs && rs[id].status != Released && status != Released
    ensures Live(rs[id := rs[id].(status := status)], key) == Live(rs, key)
  {
    assert Held(rs[id := rs[id].(status := status)], key) == Held(rs, key);
  }

  lemma HeldOfUnknown(b: Books, key: Key)
    requires Conserves(b) && key !in b.charged
    ensures Live(b.reservations, key) == 0
  {
    assert Held(b.reservations, key) == map[];
  }

  lemma ChargeOneConserves(b: Books, operationId: string, a: Account)
    requires Conserves(b) && ChargeOne(b, operationId, a).Some?
    ensures var c := ChargeOne(b, operationId, a).value;
      Conserves(c) && CeilingsKept(b, c) && Live(c.reservations, KeyOf(a)) == Live(b.reservations, KeyOf(a)) + a.amount
  {
    hide Live, KeyOf, OwnedBy;
    var c := ChargeOne(b, operationId, a).value;
    var r := Reservation(KeyOf(a), a.amount, operationId, Authorized);
    HeldOfNew(b.reservations, a.reservation, r, KeyOf(a));
    if KeyOf(a) !in b.charged {
      HeldOfUnknown(b, KeyOf(a));
    } else {
      assert Balanced(b, KeyOf(a));
    }
    forall key | key in c.charged ensures Balanced(c, key) {
      HeldOfNew(b.reservations, a.reservation, r, key);
      assert key != KeyOf(a) ==> Balanced(b, key);
    }
  }

  lemma {:induction false} ChargeAllConserves(b: Books, operationId: string, accounts: seq<Account>)
    requires Conserves(b) && ChargeAll(b, operationId, accounts).Some?
    ensures Conserves(ChargeAll(b, operationId, accounts).value)
    ensures CeilingsKept(b, ChargeAll(b, operationId, accounts).value)
    decreases |accounts|
  {
    hide ChargeOne, Balanced;
    if accounts != [] {
      ChargeOneConserves(b, operationId, accounts[0]);
      ChargeAllConserves(ChargeOne(b, operationId, accounts[0]).value, operationId, accounts[1..]);
    }
  }

  lemma MoveConserves(b: Books, id: string, status: Status)
    requires Conserves(b) && id in b.reservations && b.reservations[id].status != Released && status != Released
    ensures Conserves(b.(reservations := b.reservations[id := b.reservations[id].(status := status)]))
  {
    hide Live;
    var c := b.(reservations := b.reservations[id := b.reservations[id].(status := status)]);
    forall key | key in c.charged ensures Balanced(c, key) {
      HeldOfMoved(b.reservations, id, status, key);
      assert Balanced(b, key);
    }
  }

  lemma {:induction false} FenceAllConserves(b: Books, operationId: string, ids: seq<string>)
    requires Conserves(b) && FenceAll(b.reservations, operationId, ids).Some?
    ensures Conserves(b.(reservations := FenceAll(b.reservations, operationId, ids).value))
    decreases |ids|
  {
    hide Conserves;
    if ids != [] {
      MoveConserves(b, ids[0], Fenced);
      FenceAllConserves(b.(reservations := FenceOne(b.reservations, operationId, ids[0]).value), operationId, ids[1..]);
    }
  }

  lemma ReleaseOneConserves(b: Books, id: string)
    requires Conserves(b) && ReleaseOne(b, id).Some? && b.reservations[id].status != Released
    ensures Conserves(ReleaseOne(b, id).value) && CeilingsKept(b, ReleaseOne(b, id).value)
  {
    hide Live;
    var c, r := ReleaseOne(b, id).value, b.reservations[id];
    forall key | key in c.charged ensures Balanced(c, key) {
      HeldOfReleased(b.reservations, id, key);
      assert Balanced(b, key);
    }
  }

  // ---------- what each update does to the reservations ----------

  /** Every one of these reservations exists, belongs to the operation and has this status. */
  ghost predicate AllAre(rs: Reservations, operationId: string, ids: seq<string>, status: Status) {
    forall id <- ids :: id in rs && rs[id].owner == operationId && rs[id].status == status
  }

  /** Nothing but the status of these reservations differs. */
  ghost predicate OnlyMoves(before: Reservations, after: Reservations, ids: seq<string>, status: Status) {
    && after.Keys == before.Keys
    && forall id <- before :: after[id] == if id in ids then before[id].(status := status) else before[id]
  }

  lemma Separate(ids: seq<string>)
    requires ids != [] && NoRepeats(ids)
    ensures ids == [ids[0]] + ids[1..] && NoRepeats(ids[1..]) && ids[0] in ids && ids[0] !in ids[1..]
  {
  }

  /** After the first reservation has moved, the others are where they were. */
  lemma OthersStay(rs: Reservations, operationId: string, ids: seq<string>, status: Status, next: Status)
    requires ids != [] && NoRepeats(ids) && AllAre(rs, operationId, ids, status)
    ensures ids[0] in rs && AllAre(rs[ids[0] := rs[ids[0]].(status := next)], operationId, ids[1..], status)
  {
    Separate(ids);
  }

  lemma MovesCompose(rs: Reservations, mid: Reservations, after: Reservations, ids: seq<string>, next: Status)
    requires ids != [] && NoRepeats(ids) && ids[0] in rs
    requires mid == rs[ids[0] := rs[ids[0]].(status := next)] && OnlyMoves(mid, after, ids[1..], next)
    ensures OnlyMoves(rs, after, ids, next)
  {
    Separate(ids);
  }

  lemma {:induction false} FenceAllMoves(rs: Reservations, operationId: string, ids: seq<string>)
    requires AllAre(rs, operationId, ids, Authorized) && NoRepeats(ids)
    ensures FenceAll(rs, operationId, ids).Some?
    ensures OnlyMoves(rs, FenceAll(rs, operationId, ids).value, ids, Fenced)
    decreases |ids|
  {
    if ids != [] {
      assert ids[0] in ids;
      OthersStay(rs, operationId, ids, Authorized, Fenced);
      hide AllAre, OnlyMoves, NoRepeats;
      var mid := FenceOne(rs, operationId, ids[0]).value;
      Separate(ids);
      FenceAllMoves(mid, operationId, ids[1..]);
      MovesCompose(rs, mid, FenceAll(mid, operationId, ids[1..]).value, ids, Fenced);
    }
  }

  lemma {:induction false} CommitAllMoves(b: Books, operationId: string, ids: seq<string>)
    requires Conserves(b) && AllAre(b.reservations, operationId, ids, Fenced) && NoRepeats(ids)
    ensures CommitAll(b.reservations, ids).Some?
    ensures var c := b.(reservations := CommitAll(b.reservations, ids).value);
      Conserves(c) && OnlyMoves(b.reservations, c.reservations, ids, Committed)
    decreases |ids|
  {
    hide Conserves;
    if ids != [] {
      assert ids[0] in ids;
      OthersStay(b.reservations, operationId, ids, Fenced, Committed);
      MoveConserves(b, ids[0], Committed);
      hide AllAre, OnlyMoves, NoRepeats;
      var mid := b.(reservations := CommitOne(b.reservations, ids[0]).value);
      Separate(ids);
      CommitAllMoves(mid, operationId, ids[1..]);
      MovesCompose(b.reservations, mid.reservations, CommitAll(mid.reservations, ids[1..]).value, ids, Committed);
    }
  }

  lemma KnownAccount(b: Books, id: string)
    requires Conserves(b) && id in b.reservations
    ensures b.reservations[id].key in b.charged
  {
  }

  lemma {:induction false} ReleaseAllMoves(b: Books, operationId: string, ids: seq<string>, status: Status)
    requires Conserves(b) && AllAre(b.reservations, operationId, ids, status) && status != Released && NoRepeats(ids)
    ensures ReleaseAll(b, ids).Some?
    ensures var c := ReleaseAll(b, ids).value;
      Conserves(c) && CeilingsKept(b, c) && c.owned == b.owned && OnlyMoves(b.reservations, c.reservations, ids, Released)
    decreases |ids|
  {
    hide Conserves;
    if ids != [] {
      assert ids[0] in ids;
      OthersStay(b.reservations, operationId, ids, status, Released);
      KnownAccount(b, ids[0]);
      ReleaseOneConserves(b, ids[0]);
      hide AllAre, OnlyMoves, NoRepeats;
      var mid := ReleaseOne(b, ids[0]).value;
      Separate(ids);
      ReleaseAllMoves(mid, operationId, ids[1..], status);
      MovesCompose(b.reservations, mid.reservations, ReleaseAll(mid, ids[1..]).value.reservations, ids, Released);
    }
  }

  lemma {:induction false} OpenOnesIsAll(rs: Reservations, operationId: string, ids: seq<string>, status: Status)
    requires AllAre(rs, operationId, ids, status)
    ensures OpenOnes(rs, ids) == if IsOpen(status) then ids else []
  {
    if ids != [] {
      assert ids == [ids[0]] + ids[1..];
      OpenOnesIsAll(rs, operationId, ids[1..], status);
    }
  }

  // ---------- ownership ----------

  /** The per-operation lists and the reservations name each other. */
  ghost predicate Owned(b: Books) {
    && (forall op <- b.owned :: NoRepeats(b.owned[op]))
    && (forall op <- b.owned, id <- b.owned[op] :: id in b.reservations && b.reservations[id].owner == op)
    && (forall id <- b.reservations :: b.reservations[id].owner in b.owned && id in b.owned[b.reservations[id].owner])
  }

  lemma ChargeOneOwns(b: Books, operationId: string, a: Account)
    requires Owned(b) && ChargeOne(b, operationId, a).Some?
    ensures Owned(ChargeOne(b, operationId, a).value)
  {
    var c := ChargeOne(b, operationId, a).value;
    assert forall op <- b.owned :: op != operationId ==> c.owned[op] == b.owned[op];
    assert a.reservation !in OwnedBy(b, operationId);
  }

  /** Charging adds this operation's reservations, all authorized, and touches no other. */
  ghost predicate OnlyAdds(before: Books, after: Books, operationId: string) {
    && before.reservations.Keys <= after.reservations.Keys
    && (forall id <- before.reservations :: after.reservations[id] == before.reservations[id])
    && (forall id <- after.reservations :: id !in before.reservations ==>
          after.reservations[id].owner == operationId && after.reservations[id].status == Authorized)
    && (forall op <- before.owned :: op in after.owned)
    && (forall op <- after.owned :: op != operationId ==> op in before.owned && after.owned[op] == before.owned[op])
  }

  lemma AddsCompose(b: Books, mid: Books, after: Books, operationId: string)
    requires OnlyAdds(b, mid, operationId) && OnlyAdds(mid, after, operationId)
    ensures OnlyAdds(b, after, operationId)
  {
  }

  lemma ChargeOneAdds(b: Books, operationId: string, a: Account)
    requires ChargeOne(b, operationId, a).Some?
    ensures OnlyAdds(b, ChargeOne(b, operationId, a).value, operationId)
  {
    hide KeyOf;
  }

  lemma {:induction false} ChargeAllAdds(b: Books, operationId: string, accounts: seq<Account>)
    requires Owned(b) && ChargeAll(b, operationId, accounts).Some?
    ensures var c := ChargeAll(b, operationId, accounts).value; Owned(c) && OnlyAdds(b, c, operationId)
    decreases |accounts|
  {
    hide Owned, ChargeOne;
    if accounts != [] {
      var mid := ChargeOne(b, operationId, accounts[0]).value;
      ChargeOneOwns(b, operationId, accounts[0]);
      ChargeOneAdds(b, operationId, accounts[0]);
      ChargeAllAdds(mid, operationId, accounts[1..]);
      hide OnlyAdds;
      AddsCompose(b, mid, ChargeAll(mid, operationId, accounts[1..]).value, operationId);
    }
  }

  lemma MovesKeepOwnership(b: Books, c: Books, ids: seq<string>, status: Status)
    requires Owned(b) && c.owned == b.owned && OnlyMoves(b.reservations, c.reservations, ids, status)
    ensures Owned(c)
  {
  }

  // ---------- the loops ----------

  method ChargeAccounts(b: Books, operationId: string, accounts: seq<Account>) returns (after: Option<Books>)
    ensures after == ChargeAll(b, operationId, accounts)
  {
    hide ChargeOne;
    var books := b;
    for i := 0 to |accounts|
      invariant ChargeAll(b, operationId, accounts) == ChargeAll(books, operationId, accounts[i..])
    {
      assert accounts[i..][0] == accounts[i] && accounts[i..][1..] == accounts[i + 1..];
      var next := ChargeOne(books, operationId, accounts[i]);
      if next.None? {
        return None;
      }
      books := next.value;
    }
    after := Some(books);
  }

  method FenceReservations(rs: Reservations, operationId: string, ids: seq<string>) returns (after: Option<Reservations>)
    ensures after == FenceAll(rs, operationId, ids)
  {
    hide FenceOne;
    var moved := rs;
    for i := 0 to |ids|
      invariant FenceAll(rs, operationId, ids) == FenceAll(moved, operationId, ids[i..])
    {
      assert ids[i..][0] == ids[i] && ids[i..][1..] == ids[i + 1..];
      var next := FenceOne(moved, operationId, ids[i]);
      if next.None? {
        return None;
      }
      moved := next.value;
    }
    after := Some(moved);
  }

  method ReleaseReservations(b: Books, ids: seq<string>) returns (after: Option<Books>)
    ensures after == ReleaseAll(b, ids)
  {
    hide ReleaseOne;
    var books := b;
    for i := 0 to |ids|
      invariant ReleaseAll(b, ids) == ReleaseAll(books, ids[i..])
    {
      assert ids[i..][0] == ids[i] && ids[i..][1..] == ids[i + 1..];
      var next := ReleaseOne(books, ids[i]);
      if next.None? {
        return None;
      }
      books := next.value;
    }
    after := Some(books);
  }

  method CommitReservations(rs: Reservations, ids: seq<string>) returns (after: Option<Reservations>)
    ensures after == CommitAll(rs, ids)
  {
    hide CommitOne;
    var moved := rs;
    for i := 0 to |ids|
      invariant CommitAll(rs, ids) == CommitAll(moved, ids[i..])
    {
      assert ids[i..][0] == ids[i] && ids[i..][1..] == ids[i + 1..];
      var next := CommitOne(moved, ids[i]);
      if next.None? {
        return None;
      }
      moved := next.value;
    }
    after := Some(moved);
  }
}
