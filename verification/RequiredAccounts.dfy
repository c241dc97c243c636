/** The accounts that any chain requires, accepted or not: which bounds make them, when they are refused, and what each row states. */
module RequiredAccounts {
  import opened Prelude
  import opened Claims
  import opened Accounts

  /** One bound with the delegation that states it. */
  type Stated = (Delegation, Bound)

  /** The bound states a window and applies to the action and the boundary. */
  predicate IsCharged(p: Stated, action: string, boundary: string) {
    && p.1.window != None
    && (p.1.actions == None || action in p.1.actions.value) && (p.1.boundaries == None || boundary in p.1.boundaries.value)
  }

  predicate IsShared(p: Stated, action: string, boundary: string) {
    IsCharged(p, action, boundary) && p.1.aggregated
  }

  /** Both count against one ceiling of one authority entry. */
  predicate ShareOneCeiling(p: Stated, q: Stated) {
    p.0.entryHash == q.0.entryHash && p.1.kind == q.1.kind && p.1.unit == q.1.unit && p.1.window == q.1.window
  }

  /** Every shared ceiling belongs to an entry, and those that are one agree on the amount. */
  ghost predicate AreConsistent(ps: seq<Stated>, action: string, boundary: string) {
    && (forall p <- ps :: IsShared(p, action, boundary) ==> p.0.entryHash != None)
    && forall p, q :: p in ps && q in ps && IsShared(p, action, boundary) && IsShared(q, action, boundary) && ShareOneCeiling(p, q) ==>
      p.1.amount == q.1.amount
  }

  /** The row of an ordinary bound names its delegation alone, that of a shared one the entry as well. */
  predicate IsRowOf(p: Stated, row: Row) {
    && p.1.window == Some(row.window) && row.entry == (if p.1.aggregated then p.0.entryHash else None)
    && (row.jti, row.kind, row.unit, row.ceiling) == (p.0.jti, p.1.kind, p.1.unit, p.1.amount)
  }

  /** One row for each charged ordinary bound, in order. */
  ghost predicate ListsOwn(ps: seq<Stated>, action: string, boundary: string, rows: seq<Row>) {
    if ps == [] then rows == []
    else
      var p := ps[|ps| - 1];
      if IsCharged(p, action, boundary) && !p.1.aggregated then
        rows != [] && IsRowOf(p, rows[|rows| - 1]) && ListsOwn(ps[..|ps| - 1], action, boundary, rows[..|rows| - 1])
      else ListsOwn(ps[..|ps| - 1], action, boundary, rows)
  }

  /** The first shared bound of its ceiling. */
  ghost predicate IsFirstOfCeiling(ps: seq<Stated>, i: nat, action: string, boundary: string) {
    && i < |ps| && IsShared(ps[i], action, boundary)
    && forall j :: 0 <= j < i && IsShared(ps[j], action, boundary) ==> !ShareOneCeiling(ps[j], ps[i])
  }

  predicate NameDifferentCeilings(rows: seq<Row>) {
    forall i, j :: 0 <= i < j < |rows| ==>
      (rows[i].entry, rows[i].kind, rows[i].unit, rows[i].window) != (rows[j].entry, rows[j].kind, rows[j].unit, rows[j].window)
  }

  /** One row for each shared ceiling, that of the first bound on it. */
  ghost predicate ListsShared(ps: seq<Stated>, action: string, boundary: string, rows: seq<Row>) {
    && NameDifferentCeilings(rows)
    && forall row :: row in rows <==> exists i: nat :: IsFirstOfCeiling(ps, i, action, boundary) && IsRowOf(ps[i], row)
  }

  function BoundsOf(c: Delegation): seq<Stated> {
    seq(|c.bounds|, i requires 0 <= i < |c.bounds| => (c, c.bounds[i]))
  }

  /** All bounds of a chain, leaf first. */
  function AllBounds(chain: seq<Delegation>): seq<Stated> {
    if chain == [] then [] else AllBounds(chain[..|chain| - 1]) + BoundsOf(chain[|chain| - 1])
  }

  // ---------- one bound after the other ----------

  function CollectStated(sofar: Collected, ps: seq<Stated>, action: string, boundary: string): Result<Collected, AccountError> {
    if ps == [] then Ok(sofar)
    else
      var before :- CollectStated(sofar, ps[..|ps| - 1], action, boundary);
      CollectBound(before, ps[|ps| - 1].0, ps[|ps| - 1].1, action, boundary)
  }

  lemma {:induction false} CollectStatedAppend(sofar: Collected, a: seq<Stated>, b: seq<Stated>, action: string, boundary: string)
    ensures CollectStated(sofar, a + b, action, boundary) ==
      match CollectStated(sofar, a, action, boundary)
      case Ok(mid) => CollectStated(mid, b, action, boundary)
      case Err(e) => Err(e)
    decreases |b|
  {
    hide CollectBound;
    if b == [] {
      assert a + b == a;
    } else {
      assert (a + b)[..|a + b| - 1] == a + b[..|b| - 1];
      CollectStatedAppend(sofar, a, b[..|b| - 1], action, boundary);
    }
  }

  lemma {:induction false} BoundsAreStated(sofar: Collected, c: Delegation, n: nat, action: string, boundary: string)
    requires n <= |c.bounds|
    ensures CollectBounds(sofar, c, c.bounds[..n], action, boundary) == CollectStated(sofar, BoundsOf(c)[..n], action, boundary)
  {
    hide CollectBound;
    if n > 0 {
      BoundsAreStated(sofar, c, n - 1, action, boundary);
      assert c.bounds[..n][..n - 1] == c.bounds[..n - 1] && BoundsOf(c)[..n][..n - 1] == BoundsOf(c)[..n - 1];
    }
  }

  lemma {:induction false} ChainIsStated(chain: seq<Delegation>, action: string, boundary: string)
    ensures CollectChain(chain, action, boundary) == CollectStated(Collected([], []), AllBounds(chain), action, boundary)
  {
    hide CollectBound;
    if chain != [] {
      var front, c := chain[..|chain| - 1], chain[|chain| - 1];
      ChainIsStated(front, action, boundary);
      CollectStatedAppend(Collected([], []), AllBounds(front), BoundsOf(c), action, boundary);
      if CollectChain(front, action, boundary).Ok? {
        BoundsAreStated(CollectChain(front, action, boundary).value, c, |c.bounds|, action, boundary);
        assert c.bounds[..|c.bounds|] == c.bounds && BoundsOf(c)[..|c.bounds|] == BoundsOf(c);
      }
    }
  }

  // ---------- the rows ----------

  lemma DescribedIsRow(p: Stated, row: Row)
    requires p.1.window != None
    ensures IsRowOf(p, row) <==> row == Describe(p.0, p.1, if p.1.aggregated then p.0.entryHash else None)
  {
  }

  lemma ChargedIsRelevant(p: Stated, action: string, boundary: string)
    ensures IsCharged(p, action, boundary) <==> Relevant(p.1, action, boundary)
  {
  }

  lemma SameCeilingSameIdentity(p: Stated, q: Stated, x: Row, y: Row)
    requires p.1.aggregated && q.1.aggregated && IsRowOf(p, x) && IsRowOf(q, y)
    ensures IdentityOf(x) == IdentityOf(y) <==> ShareOneCeiling(p, q)
  {
  }

  lemma FirstsOfMore(ps: seq<Stated>, i: nat, action: string, boundary: string)
    requires ps != []
    ensures IsFirstOfCeiling(ps, i, action, boundary) <==>
      if i < |ps| - 1 then IsFirstOfCeiling(ps[..|ps| - 1], i, action, boundary)
      else
        && i == |ps| - 1 && IsShared(ps[i], action, boundary)
        && forall q <- ps[..|ps| - 1] :: IsShared(q, action, boundary) ==> !ShareOneCeiling(q, ps[i])
  {
    hide IsShared, ShareOneCeiling;
    var front := ps[..|ps| - 1];
    assert forall j :: 0 <= j < |front| ==> front[j] == ps[j];
  }

  /** Any shared bound has a first one of its ceiling at or before it. */
  lemma {:induction false} SomeFirst(ps: seq<Stated>, k: nat, action: string, boundary: string) returns (i: nat)
    requires k < |ps| && IsShared(ps[k], action, boundary)
    ensures i <= k && IsFirstOfCeiling(ps, i, action, boundary) && ShareOneCeiling(ps[i], ps[k])
    decreases k
  {
    if j :| 0 <= j < k && IsShared(ps[j], action, boundary) && ShareOneCeiling(ps[j], ps[k]) {
      i := SomeFirst(ps, j, action, boundary);
    } else {
      i := k;
    }
  }

  /** What the collected rows are, as long as the bounds are consistent. */
  ghost predicate AreCollected(ps: seq<Stated>, action: string, boundary: string, all: Collected) {
    ListsOwn(ps, action, boundary, all.rows) && ListsShared(ps, action, boundary, all.shared)
  }

  lemma OwnBoundCollects(ps: seq<Stated>, action: string, boundary: string, before: Collected)
    requires ps != [] && AreCollected(ps[..|ps| - 1], action, boundary, before) && !IsShared(ps[|ps| - 1], action, boundary)
    ensures AreConsistent(ps, action, boundary) <==> AreConsistent(ps[..|ps| - 1], action, boundary)
    ensures var next := CollectBound(before, ps[|ps| - 1].0, ps[|ps| - 1].1, action, boundary);
      next.Ok? && AreCollected(ps, action, boundary, next.value)
  {
    var front, p := ps[..|ps| - 1], ps[|ps| - 1];
    assert ps == front + [p];
    ChargedIsRelevant(p, action, boundary);
    hide Relevant, IdentityOf, ShareOneCeiling;
    forall i: nat ensures IsFirstOfCeiling(ps, i, action, boundary) <==> IsFirstOfCeiling(front, i, action, boundary) {
      FirstsOfMore(ps, i, action, boundary);
    }
    hide IsFirstOfCeiling;
    if IsCharged(p, action, boundary) {
      DescribedIsRow(p, Describe(p.0, p.1, None));
      var row := Describe(p.0, p.1, None);
      assert (before.rows + [row])[..|before.rows|] == before.rows;
    }
  }

  /** A shared bound finds the row of its ceiling, if one is there. */
  lemma CeilingIsKnown(ps: seq<Stated>, action: string, boundary: string, shared: seq<Row>, p: Stated, row: Row)
    requires ListsShared(ps, action, boundary, shared) && p.1.aggregated && IsRowOf(p, row)
    ensures SameAccount(shared, row).None? <==> forall q <- ps :: IsShared(q, action, boundary) ==> !ShareOneCeiling(q, p)
    ensures SameAccount(shared, row).Some? ==>
      exists q <- ps :: IsShared(q, action, boundary) && ShareOneCeiling(q, p) && q.1.amount == SameAccount(shared, row).value.ceiling
  {
    hide SameAccount, IdentityOf, ShareOneCeiling, IsShared;
    SameAccountFinds(shared, row);
    if SameAccount(shared, row).Some? {
      var found := SameAccount(shared, row).value;
      var i: nat :| IsFirstOfCeiling(ps, i, action, boundary) && IsRowOf(ps[i], found);
      SharedIsAggregated(ps[i], action, boundary);
      SameCeilingSameIdentity(ps[i], p, found, row);
      assert ps[i] in ps && ps[i].1.amount == found.ceiling;
    }
    forall q | q in ps && IsShared(q, action, boundary) && ShareOneCeiling(q, p) ensures SameAccount(shared, row).Some? {
      var k :| 0 <= k < |ps| && ps[k] == q;
      var i := SomeFirst(ps, k, action, boundary);
      var first := RowOf(ps[i], action, boundary);
      SharedIsAggregated(ps[i], action, boundary);
      SharesTransitive(ps[i], q, p);
      SameCeilingSameIdentity(ps[i], p, first, row);
      assert first in shared;
    }
  }

  lemma SharesTransitive(p: Stated, q: Stated, r: Stated)
    requires ShareOneCeiling(p, q) && ShareOneCeiling(q, r)
    ensures ShareOneCeiling(p, r) && ShareOneCeiling(q, p)
  {
  }

  lemma SharedIsAggregated(p: Stated, action: string, boundary: string)
    requires IsShared(p, action, boundary)
    ensures p.1.aggregated && p.1.window != None
  {
  }

  function RowOf(p: Stated, action: string, boundary: string): (row: Row)
    requires IsShared(p, action, boundary)
    ensures IsRowOf(p, row)
  {
    Describe(p.0, p.1, p.0.entryHash)
  }

  lemma ConsistencyOfMore(ps: seq<Stated>, action: string, boundary: string)
    requires ps != [] && IsShared(ps[|ps| - 1], action, boundary)
    ensures AreConsistent(ps, action, boundary) <==>
      && AreConsistent(ps[..|ps| - 1], action, boundary) && ps[|ps| - 1].0.entryHash != None
      && forall q <- ps[..|ps| - 1] :: IsShared(q, action, boundary) && ShareOneCeiling(q, ps[|ps| - 1]) ==> q.1.amount == ps[|ps| - 1].1.amount
  {
    assert ps == ps[..|ps| - 1] + [ps[|ps| - 1]];
    assert ps[|ps| - 1] in ps;
    assert forall p, q :: ShareOneCeiling(p, q) <==> ShareOneCeiling(q, p);
    hide IsShared, ShareOneCeiling;
  }

  lemma OneMoreCeiling(rows: seq<Row>, row: Row)
    requires NameDifferentCeilings(rows) && forall r <- rows :: IdentityOf(r) != IdentityOf(row)
    ensures NameDifferentCeilings(rows + [row])
  {
    assert forall i :: 0 <= i < |rows| ==> rows[i] in rows && (rows + [row])[i] == rows[i];
  }

  lemma NewCeilingCollects(ps: seq<Stated>, action: string, boundary: string, before: Collected, row: Row)
    requires ps != [] && AreCollected(ps[..|ps| - 1], action, boundary, before)
    requires var p := ps[|ps| - 1];
      && IsShared(p, action, boundary) && IsRowOf(p, row)
      && forall q <- ps[..|ps| - 1] :: IsShared(q, action, boundary) ==> !ShareOneCeiling(q, p)
    ensures AreCollected(ps, action, boundary, before.(shared := before.shared + [row]))
  {
    var front, p, n := ps[..|ps| - 1], ps[|ps| - 1], |ps| - 1;
    var shared := before.shared + [row];
    SharedIsAggregated(p, action, boundary);
    CeilingIsKnown(front, action, boundary, before.shared, p, row);
    SameAccountFinds(before.shared, row);
    OneMoreCeiling(before.shared, row);
    forall i: nat ensures IsFirstOfCeiling(ps, i, action, boundary) <==> if i < n then IsFirstOfCeiling(front, i, action, boundary) else i == n {
      FirstsOfMore(ps, i, action, boundary);
    }
    hide IdentityOf, NameDifferentCeilings, ShareOneCeiling, IsFirstOfCeiling, SameAccount;
    assert forall r :: r in shared <==> r in before.shared || r == row;
    assert forall r :: IsRowOf(p, r) ==> r == row;
    forall r | r in shared ensures exists i: nat :: IsFirstOfCeiling(ps, i, action, boundary) && IsRowOf(ps[i], r) {
      if r == row {
        assert IsFirstOfCeiling(ps, n, action, boundary);
      } else {
        var i: nat :| IsFirstOfCeiling(front, i, action, boundary) && IsRowOf(front[i], r);
        IsInside(front, i, action, boundary);
        assert IsFirstOfCeiling(ps, i, action, boundary) && ps[i] == front[i];
      }
    }
    forall r, i: nat | IsFirstOfCeiling(ps, i, action, boundary) && IsRowOf(ps[i], r) ensures r in shared {
      if i < n {
        assert IsFirstOfCeiling(front, i, action, boundary) && ps[i] == front[i];
      }
    }
  }

  lemma IsInside(ps: seq<Stated>, i: nat, action: string, boundary: string)
    requires IsFirstOfCeiling(ps, i, action, boundary)
    ensures i < |ps|
  {
  }

  lemma KnownCeilingCollects(ps: seq<Stated>, action: string, boundary: string, before: Collected)
    requires ps != [] && AreCollected(ps[..|ps| - 1], action, boundary, before) && IsShared(ps[|ps| - 1], action, boundary)
    requires exists q <- ps[..|ps| - 1] :: IsShared(q, action, boundary) && ShareOneCeiling(q, ps[|ps| - 1])
    ensures AreCollected(ps, action, boundary, before)
  {
    var front, n := ps[..|ps| - 1], |ps| - 1;
    SharedIsAggregated(ps[n], action, boundary);
    forall i: nat ensures IsFirstOfCeiling(ps, i, action, boundary) <==> IsFirstOfCeiling(front, i, action, boundary) {
      FirstsOfMore(ps, i, action, boundary);
    }
    forall i: nat | IsFirstOfCeiling(ps, i, action, boundary) ensures i < n && ps[i] == front[i] {
      IsInside(front, i, action, boundary);
    }
    hide IdentityOf, IsFirstOfCeiling;
  }

  lemma SharedBoundCollects(ps: seq<Stated>, action: string, boundary: string, before: Collected)
    requires ps != [] && AreCollected(ps[..|ps| - 1], action, boundary, before) && IsShared(ps[|ps| - 1], action, boundary)
    requires AreConsistent(ps[..|ps| - 1], action, boundary)
    ensures var next := CollectBound(before, ps[|ps| - 1].0, ps[|ps| - 1].1, action, boundary);
      && (next.Ok? <==> AreConsistent(ps, action, boundary))
      && (next.Ok? ==> AreCollected(ps, action, boundary, next.value))
  {
    var front, p := ps[..|ps| - 1], ps[|ps| - 1];
    ChargedIsRelevant(p, action, boundary);
    SharedIsAggregated(p, action, boundary);
    ConsistencyOfMore(ps, action, boundary);
    var row := RowOf(p, action, boundary);
    DescribedIsRow(p, row);
    CeilingIsKnown(front, action, boundary, before.shared, p, row);
    var known := SameAccount(before.shared, row);
    hide IsShared, ShareOneCeiling, ListsOwn, ListsShared, Relevant, SameAccount, AreCollected;
    if known.None? {
      NewCeilingCollects(ps, action, boundary, before, row);
    } else {
      KnownCeilingCollects(ps, action, boundary, before);
      ConsistentCeiling(front, action, boundary, p, known.value.ceiling);
    }
  }

  /** In consistent bounds, one bound on a ceiling speaks for all of them. */
  lemma ConsistentCeiling(ps: seq<Stated>, action: string, boundary: string, p: Stated, amount: nat)
    requires AreConsistent(ps, action, boundary)
    requires exists q <- ps :: IsShared(q, action, boundary) && ShareOneCeiling(q, p) && q.1.amount == amount
    ensures (forall q <- ps :: IsShared(q, action, boundary) && ShareOneCeiling(q, p) ==> q.1.amount == p.1.amount) <==> amount == p.1.amount
  {
    hide IsShared;
  }

  lemma {:induction false} StatedAreCollected(ps: seq<Stated>, action: string, boundary: string)
    ensures var all := CollectStated(Collected([], []), ps, action, boundary);
      && (all.Ok? <==> AreConsistent(ps, action, boundary))
      && (all.Ok? ==> AreCollected(ps, action, boundary, all.value))
  {
    hide AreConsistent, AreCollected, CollectBound, IsShared;
    if ps == [] {
      NothingIsCollected(action, boundary);
    } else {
      var front, p := ps[..|ps| - 1], ps[|ps| - 1];
      StatedAreCollected(front, action, boundary);
      if CollectStated(Collected([], []), front, action, boundary).Ok? {
        var before := CollectStated(Collected([], []), front, action, boundary).value;
        if IsShared(p, action, boundary) {
          SharedBoundCollects(ps, action, boundary, before);
        } else {
          OwnBoundCollects(ps, action, boundary, before);
        }
      } else if AreConsistent(ps, action, boundary) {
        InconsistencyPersists(ps, action, boundary);
      }
    }
  }

  lemma NothingIsCollected(action: string, boundary: string)
    ensures AreConsistent([], action, boundary) && AreCollected([], action, boundary, Collected([], []))
  {
  }

  lemma InconsistencyPersists(ps: seq<Stated>, action: string, boundary: string)
    requires ps != [] && AreConsistent(ps, action, boundary)
    ensures AreConsistent(ps[..|ps| - 1], action, boundary)
  {
    assert forall p :: p in ps[..|ps| - 1] ==> p in ps;
  }

  /**
   A chain has required accounts exactly when action, boundary and chain are given and its shared ceilings are
   consistent; then they are one row for each charged ordinary bound, in order, and one for each shared ceiling.
   */
  lemma RequiredRowsAreExact(chain: seq<Delegation>, action: string, boundary: string)
    ensures RequiredRows(chain, action, boundary).Ok? <==>
      action != "" && boundary != "" && chain != [] && AreConsistent(AllBounds(chain), action, boundary)
    ensures RequiredRows(chain, action, boundary).Ok? ==>
      exists own, shared ::
        && RequiredRows(chain, action, boundary) == Ok(own + shared)
        && ListsOwn(AllBounds(chain), action, boundary, own) && ListsShared(AllBounds(chain), action, boundary, shared)
  {
    ChainIsStated(chain, action, boundary);
    StatedAreCollected(AllBounds(chain), action, boundary);
    hide AreConsistent, ListsOwn, ListsShared, CollectChain, CollectStated, AllBounds;
  }
}
