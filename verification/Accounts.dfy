/** The budget accounts that a verified chain induces, and what the bounds of its leaf imply for its ancestors. */
module Accounts {
  import opened Prelude
  import opened Claims
  import opened Attenuation
  import opened DelegationChain

  predicate SideApplies(side: Option<seq<string>>, name: string) {
    side.None? || name in side.value
  }

  predicate BoundApplies(b: Bound, action: string, boundary: string) {
    SideApplies(b.actions, action) && SideApplies(b.boundaries, boundary)
  }

  /** One required account. `entry` names the authority entry whose grants share it; a grant's own account has none. */
  datatype Row = Row(jti: string, entry: Option<string>, kind: string, unit: string, ceiling: nat, window: Window)

  /** What makes two shared rows the same account. */
  datatype AccountIdentity = AccountIdentity(entry: Option<string>, kind: string, unit: string, window: Window)

  function IdentityOf(row: Row): AccountIdentity {
    AccountIdentity(row.entry, row.kind, row.unit, row.window)
  }

  function Describe(c: Delegation, b: Bound, entry: Option<string>): Row
    requires b.window.Some?
  {
    Row(c.jti, entry, b.kind, b.unit, b.amount, b.window.value)
  }

  datatype AccountError = EmptyAction | EmptyChain | MissingEntryHash | Contradiction

  /** The rows collected so far; the shared ones are keyed by identity and kept in order of insertion. */
  datatype Collected = Collected(rows: seq<Row>, shared: seq<Row>)

  predicate Relevant(b: Bound, action: string, boundary: string) {
    BoundApplies(b, action, boundary) && b.window.Some?
  }

  function SameAccount(shared: seq<Row>, row: Row): Option<Row> {
    if shared == [] then None
    else if IdentityOf(shared[0]) == IdentityOf(row) then Some(shared[0])
    else SameAccount(shared[1..], row)
  }

  function CollectBound(sofar: Collected, c: Delegation, b: Bound, action: string, boundary: string): Result<Collected, AccountError> {
    if !Relevant(b, action, boundary) then Ok(sofar)
    else if !b.aggregated then Ok(sofar.(rows := sofar.rows + [Describe(c, b, None)]))
    else if c.entryHash.None? then Err(MissingEntryHash)
    else
      var row := Describe(c, b, c.entryHash);
      match SameAccount(sofar.shared, row)
      case None => Ok(sofar.(shared := sofar.shared + [row]))
      case Some(previous) => if previous.ceiling != row.ceiling then Err(Contradiction) else Ok(sofar)
  }

  function CollectBounds(sofar: Collected, c: Delegation, bounds: seq<Bound>, action: string, boundary: string): Result<Collected, AccountError> {
    if bounds == [] then Ok(sofar)
    else
      var before :- CollectBounds(sofar, c, bounds[..|bounds| - 1], action, boundary);
      CollectBound(before, c, bounds[|bounds| - 1], action, boundary)
  }

  function CollectChain(chain: seq<Delegation>, action: string, boundary: string): Result<Collected, AccountError> {
    if chain == [] then Ok(Collected([], []))
    else
      var before :- CollectChain(chain[..|chain| - 1], action, boundary);
      CollectBounds(before, chain[|chain| - 1], chain[|chain| - 1].bounds, action, boundary)
  }

  /** The required accounts: every applicable windowed ordinary bound, then the shared ones. */
  function RequiredRows(chain: seq<Delegation>, action: string, boundary: string): Result<seq<Row>, AccountError> {
    if action == "" || boundary == "" then Err(EmptyAction)
    else if chain == [] then Err(EmptyChain)
    else
      var all :- CollectChain(chain, action, boundary);
      Ok(all.rows + all.shared)
  }

  lemma {:induction false} ChainErrorPersists(chain: seq<Delegation>, n: nat, action: string, boundary: string)
    requires n <= |chain| && CollectChain(chain[..n], action, boundary).Err?
    ensures CollectChain(chain, action, boundary) == CollectChain(chain[..n], action, boundary)
    decreases |chain|
  {
    if n < |chain| {
      var front := chain[..|chain| - 1];
      assert front[..n] == chain[..n];
      ChainErrorPersists(front, n, action, boundary);
    } else {
      assert chain[..n] == chain;
    }
  }

  lemma {:induction false} BoundsErrorPersists(
    sofar: Collected, c: Delegation, bounds: seq<Bound>, n: nat, action: string, boundary: string)
    requires n <= |bounds| && CollectBounds(sofar, c, bounds[..n], action, boundary).Err?
    ensures CollectBounds(sofar, c, bounds, action, boundary) == CollectBounds(sofar, c, bounds[..n], action, boundary)
    decreases |bounds|
  {
    if n < |bounds| {
      var front := bounds[..|bounds| - 1];
      assert front[..n] == bounds[..n];
      BoundsErrorPersists(sofar, c, front, n, action, boundary);
    } else {
      assert bounds[..n] == bounds;
    }
  }

  method RequiredAccountBounds(chain: seq<Delegation>, action: string, boundary: string) returns (result: Result<seq<Row>, AccountError>)
    ensures result == RequiredRows(chain, action, boundary)
  {
    if action == "" || boundary == "" {
      return Err(EmptyAction);
    }
    if chain == [] {
      return Err(EmptyChain);
    }
    hide CollectBound;
    var sofar := Collected([], []);
    for i := 0 to |chain|
      invariant CollectChain(chain[..i], action, boundary) == Ok(sofar)
    {
      var c := chain[i];
      assert chain[..i + 1][..i] == chain[..i];
      ghost var before := sofar;
      for j := 0 to |c.bounds|
        invariant CollectBounds(before, c, c.bounds[..j], action, boundary) == Ok(sofar)
      {
        assert c.bounds[..j + 1][..j] == c.bounds[..j];
        var next := CollectBound(sofar, c, c.bounds[j], action, boundary);
        if next.Err? {
          BoundsErrorPersists(before, c, c.bounds, j + 1, action, boundary);
          ChainErrorPersists(chain, i + 1, action, boundary);
          return Err(next.error);
        }
        sofar := next.value;
      }
      assert c.bounds[..|c.bounds|] == c.bounds;
    }
    assert chain[..|chain|] == chain;
    result := Ok(sofar.rows + sofar.shared);
  }

  // ---------- what a chain requires ----------

  /** The rows of one kind of bound, one per relevant bound, in order. */
  function RowsOf(c: Delegation, bounds: seq<Bound>, aggregated: bool, action: string, boundary: string): (rows: seq<Row>)
    ensures |rows| <= |bounds|
  {
    if bounds == [] then []
    else
      var b := bounds[|bounds| - 1];
      RowsOf(c, bounds[..|bounds| - 1], aggregated, action, boundary)
      + if Relevant(b, action, boundary) && b.aggregated == aggregated then [Describe(c, b, if aggregated then c.entryHash else None)] else []
  }

  /** Every claim's own accounts, leaf first. */
  function OrdinaryRows(chain: seq<Delegation>, action: string, boundary: string): seq<Row> {
    if chain == [] then []
    else
      OrdinaryRows(chain[..|chain| - 1], action, boundary)
      + RowsOf(chain[|chain| - 1], chain[|chain| - 1].bounds, false, action, boundary)
  }

  function SharedRows(leaf: Delegation, action: string, boundary: string): seq<Row> {
    RowsOf(leaf, leaf.bounds, true, action, boundary)
  }

  lemma {:induction false} SameAccountFinds(shared: seq<Row>, row: Row)
    ensures match SameAccount(shared, row)
      case Some(found) => found in shared && IdentityOf(found) == IdentityOf(row)
      case None => forall r <- shared :: IdentityOf(r) != IdentityOf(row)
  {
    if shared != [] {
      SameAccountFinds(shared[1..], row);
      assert forall r :: r in shared <==> r == shared[0] || r in shared[1..];
    }
  }

  lemma {:induction false} RowsComeFromBounds(c: Delegation, bounds: seq<Bound>, aggregated: bool, action: string, boundary: string, row: Row)
    ensures row in RowsOf(c, bounds, aggregated, action, boundary) <==>
      exists b <- bounds :: Relevant(b, action, boundary) && b.aggregated == aggregated
        && row == Describe(c, b, if aggregated then c.entryHash else None)
  {
    if bounds != [] {
      RowsComeFromBounds(c, bounds[..|bounds| - 1], aggregated, action, boundary, row);
      assert bounds == bounds[..|bounds| - 1] + [bounds[|bounds| - 1]];
    }
  }

  lemma NewKindIsNewAccount(leaf: Delegation, bounds: seq<Bound>, action: string, boundary: string)
    requires bounds != [] && DistinctKinds(bounds)
    requires Relevant(bounds[|bounds| - 1], action, boundary) && bounds[|bounds| - 1].aggregated
    ensures SameAccount(RowsOf(leaf, bounds[..|bounds| - 1], true, action, boundary),
                        Describe(leaf, bounds[|bounds| - 1], leaf.entryHash)).None?
  {
    hide RowsOf;
    var front, b := bounds[..|bounds| - 1], bounds[|bounds| - 1];
    var shared, row := RowsOf(leaf, front, true, action, boundary), Describe(leaf, b, leaf.entryHash);
    SameAccountFinds(shared, row);
    forall r | r in shared ensures IdentityOf(r) != IdentityOf(row) {
      RowsComeFromBounds(leaf, front, true, action, boundary, r);
      var other :| other in front && Relevant(other, action, boundary) && other.aggregated && r == Describe(leaf, other, leaf.entryHash);
      var k :| 0 <= k < |front| && front[k] == other;
      assert bounds[k].kind != bounds[|front|].kind;
    }
  }

  /** The leaf's own aggregate bounds are pairwise different accounts, so each adds its row. */
  lemma {:induction false} LeafCollects(leaf: Delegation, bounds: seq<Bound>, action: string, boundary: string)
    requires DistinctKinds(bounds) && ((exists b <- bounds :: b.aggregated) ==> leaf.entryHash.Some?)
    ensures CollectBounds(Collected([], []), leaf, bounds, action, boundary)
         == Ok(Collected(RowsOf(leaf, bounds, false, action, boundary), RowsOf(leaf, bounds, true, action, boundary)))
  {
    if bounds != [] {
      var front, b := bounds[..|bounds| - 1], bounds[|bounds| - 1];
      assert bounds == front + [b];
      LeafCollects(leaf, front, action, boundary);
      assert b in bounds;
      if Relevant(b, action, boundary) && b.aggregated {
        NewKindIsNewAccount(leaf, bounds, action, boundary);
      }
      var before := Collected(RowsOf(leaf, front, false, action, boundary), RowsOf(leaf, front, true, action, boundary));
      assert before.rows + [] == before.rows && before.shared + [] == before.shared;
      assert CollectBounds(Collected([], []), leaf, bounds, action, boundary) == CollectBound(before, leaf, b, action, boundary);
    }
  }

  /** An ancestor whose aggregate bounds and entry are the leaf's adds only its ordinary rows. */
  lemma {:induction false} AncestorCollects(
    sofar: Collected, leaf: Delegation, c: Delegation, bounds: seq<Bound>, action: string, boundary: string)
    requires sofar.shared == SharedRows(leaf, action, boundary)
    requires forall b <- bounds :: b.aggregated ==> b in leaf.bounds && c.entryHash.Some? && c.entryHash == leaf.entryHash
    requires DistinctKinds(leaf.bounds)
    ensures CollectBounds(sofar, c, bounds, action, boundary)
         == Ok(sofar.(rows := sofar.rows + RowsOf(c, bounds, false, action, boundary)))
  {
    if bounds == [] {
      assert sofar.rows + [] == sofar.rows;
    } else {
      var front, b := bounds[..|bounds| - 1], bounds[|bounds| - 1];
      assert bounds == front + [b];
      AncestorCollects(sofar, leaf, c, front, action, boundary);
      if Relevant(b, action, boundary) && b.aggregated {
        assert b in bounds;
        SharedRowIsKnown(leaf, c, b, action, boundary);
      }
      var rows := RowsOf(c, front, false, action, boundary);
      assert rows + [] == rows;
      assert forall r: Row :: sofar.rows + (rows + [r]) == sofar.rows + rows + [r];
      assert CollectBounds(sofar, c, bounds, action, boundary) == CollectBound(sofar.(rows := sofar.rows + rows), c, b, action, boundary);
    }
  }

  lemma SharedRowIsKnown(leaf: Delegation, c: Delegation, b: Bound, action: string, boundary: string)
    requires Relevant(b, action, boundary) && b.aggregated && b in leaf.bounds && c.entryHash == leaf.entryHash
    requires DistinctKinds(leaf.bounds)
    ensures var known := SameAccount(SharedRows(leaf, action, boundary), Describe(c, b, c.entryHash));
      known.Some? && known.value.ceiling == b.amount
  {
    var shared, row := SharedRows(leaf, action, boundary), Describe(c, b, c.entryHash);
    SameAccountFinds(shared, row);
    RowsComeFromBounds(leaf, leaf.bounds, true, action, boundary, Describe(leaf, b, leaf.entryHash));
    assert IdentityOf(Describe(leaf, b, leaf.entryHash)) == IdentityOf(row);
    var found := SameAccount(shared, row).value;
    RowsComeFromBounds(leaf, leaf.bounds, true, action, boundary, found);
    var other :| other in leaf.bounds && Relevant(other, action, boundary) && other.aggregated && found == Describe(leaf, other, leaf.entryHash);
    var i :| 0 <= i < |leaf.bounds| && leaf.bounds[i] == other;
    var j :| 0 <= j < |leaf.bounds| && leaf.bounds[j] == b;
    assert i == j;
  }

  /** Narrowing keeps the aggregate bounds, and with them the entry that they belong to. */
  lemma AggregatesAreShared(norm: NormPath, child: Delegation, parent: Delegation, b: Bound)
    requires Narrows(norm, child, parent) && WellFormed(parent) && b in parent.bounds && b.aggregated
    ensures b in child.bounds && parent.entryHash.Some? && child.entryHash == parent.entryHash
  {
    NarrowsMeans(norm, child, parent);
    hide Narrows, BoundsNarrow, PathsNarrow, WindowsNarrow, SortByKind;
    assert b in Aggregates(parent.bounds);
    assert b in multiset(SortByKind(Aggregates(parent.bounds)));
    assert b in multiset(Aggregates(child.bounds));
  }

  lemma {:induction false} ChainCollects(norm: NormPath, chain: seq<Delegation>, action: string, boundary: string)
    requires chain != [] && forall c <- chain :: WellFormed(c) && Narrows(norm, chain[0], c)
    ensures CollectChain(chain, action, boundary)
         == Ok(Collected(OrdinaryRows(chain, action, boundary), SharedRows(chain[0], action, boundary)))
  {
    hide Narrows, WellFormed, CollectBounds, RowsOf;
    var leaf, front, c := chain[0], chain[..|chain| - 1], chain[|chain| - 1];
    if |chain| == 1 {
      assert WellFormed(leaf);
      WellFormedParts(leaf);
      LeafCollects(leaf, leaf.bounds, action, boundary);
      assert CollectChain(front, action, boundary) == Ok(Collected([], []));
      assert OrdinaryRows(chain, action, boundary) == RowsOf(leaf, leaf.bounds, false, action, boundary);
    } else {
      assert front[0] == leaf;
      ChainCollects(norm, front, action, boundary);
      WellFormedParts(leaf);
      forall b | b in c.bounds && b.aggregated ensures b in leaf.bounds && c.entryHash.Some? && c.entryHash == leaf.entryHash {
        AggregatesAreShared(norm, leaf, c, b);
      }
      AncestorCollects(Collected(OrdinaryRows(front, action, boundary), SharedRows(leaf, action, boundary)), leaf, c, c.bounds, action, boundary);
    }
  }

  lemma WellFormedParts(c: Delegation)
    requires WellFormed(c)
    ensures DistinctKinds(c.bounds) && ((exists b <- c.bounds :: b.aggregated) ==> c.entryHash.Some?)
  {
  }

  /**
   The accounts of an accepted chain never contradict each other: they are each claim's applicable
   windowed ordinary bounds, and once the leaf's applicable aggregate bounds.
   */
  lemma AcceptedChainAccounts(
    v: Verifier, rule: Rule, at: int, leaf: Delegation, tokens: seq<string>, action: string, boundary: string)
    requires Walk(v, rule, at, leaf, tokens).valid && WellFormed(leaf)
    requires forall t :: v.parse(t).Some? ==> WellFormed(v.parse(t).value)
    requires action != "" && boundary != ""
    ensures var chain := [leaf] + Walk(v, rule, at, leaf, tokens).parents;
      RequiredRows(chain, action, boundary)
        == Ok(OrdinaryRows(chain, action, boundary) + SharedRows(leaf, action, boundary))
  {
    hide Narrows, WellFormed, Walk, Ascends, CollectChain, OrdinaryRows, SharedRows;
    WalkIsExact(v, rule, at, leaf, tokens);
    var parents := Walk(v, rule, at, leaf, tokens).parents;
    forall c | c in [leaf] + parents ensures WellFormed(c) && Narrows(v.norm, leaf, c) {
      if c in parents {
        NarrowsEveryAncestor(v, rule, at, 0, leaf, parents, c);
      } else {
        NarrowsReflexive(v.norm, leaf);
      }
    }
    ChainCollects(v.norm, [leaf] + parents, action, boundary);
  }

  // ---------- spending ----------

  /** Quantities by kind, each in a unit. */
  type Quantities = map<string, (string, nat)>

  /** Every ordinary bound that applies is met by a quantity of its kind and unit; a missing quantity is a refusal. */
  ghost predicate Admits(c: Delegation, action: string, boundary: string, spent: Quantities) {
    forall b <- c.bounds :: !b.aggregated && BoundApplies(b, action, boundary) ==>
      b.kind in spent && spent[b.kind].0 == b.unit && spent[b.kind].1 <= b.amount
  }

  /** A parent bound that applies reappears on the child: same unit, no larger, and the same window if it has one. */
  lemma ParentBoundReappears(norm: NormPath, child: Delegation, parent: Delegation, b: Bound, action: string, boundary: string)
    returns (kept: Bound)
    requires Narrows(norm, child, parent) && WellFormed(parent)
    requires b in parent.bounds && !b.aggregated && BoundApplies(b, action, boundary)
    ensures kept in child.bounds && !kept.aggregated && BoundApplies(kept, action, boundary)
    ensures kept.kind == b.kind && kept.unit == b.unit && kept.amount <= b.amount
    ensures b.window.Some? ==> kept.window == b.window
  {
    NarrowsMeans(norm, child, parent);
    hide Narrows, PathsNarrow, WindowsNarrow;
    OnlyOrdinaryOfItsKind(parent.bounds, b);
    assert BoundAxis(ByKind(child.bounds, b.kind), b).None?;
    ByKindFinds(child.bounds, b.kind);
    kept := ByKind(child.bounds, b.kind).value;
  }

  lemma OnlyOrdinaryOfItsKind(bounds: seq<Bound>, b: Bound)
    requires DistinctKinds(bounds) && b in bounds && !b.aggregated
    ensures ByKind(bounds, b.kind) == Some(b)
  {
    hide ByKind;
    ByKindFinds(bounds, b.kind);
    var found := ByKind(bounds, b.kind).value;
    var i :| 0 <= i < |bounds| && bounds[i] == b;
    var j :| 0 <= j < |bounds| && bounds[j] == found;
    assert i == j;
  }

  lemma AdmittedByParent(norm: NormPath, child: Delegation, parent: Delegation, action: string, boundary: string, spent: Quantities)
    requires Narrows(norm, child, parent) && WellFormed(parent) && Admits(child, action, boundary, spent)
    ensures Admits(parent, action, boundary, spent)
  {
    hide Narrows, WellFormed, BoundApplies;
    forall b | b in parent.bounds && !b.aggregated && BoundApplies(b, action, boundary)
      ensures b.kind in spent && spent[b.kind].0 == b.unit && spent[b.kind].1 <= b.amount
    {
      var kept := ParentBoundReappears(norm, child, parent, b, action, boundary);
    }
  }

  /** In an accepted chain, quantities that the leaf's bounds admit are admitted by every ancestor's bounds. */
  lemma SpendingIsSound(
    v: Verifier, rule: Rule, at: int, leaf: Delegation, tokens: seq<string>, ancestor: Delegation,
    action: string, boundary: string, spent: Quantities)
    requires Walk(v, rule, at, leaf, tokens).valid && ancestor in Walk(v, rule, at, leaf, tokens).parents
    requires forall t :: v.parse(t).Some? ==> WellFormed(v.parse(t).value)
    requires Admits(leaf, action, boundary, spent)
    ensures Admits(ancestor, action, boundary, spent)
  {
    hide Narrows, WellFormed, Walk, Ascends, Admits;
    WalkIsExact(v, rule, at, leaf, tokens);
    NarrowsEveryAncestor(v, rule, at, 0, leaf, Walk(v, rule, at, leaf, tokens).parents, ancestor);
    AdmittedByParent(v.norm, leaf, ancestor, action, boundary, spent);
  }

  /** Every windowed account of an ancestor reappears on the leaf with the same unit and window and no larger ceiling. */
  lemma AncestorBoundReappearsOnLeaf(
    v: Verifier, rule: Rule, at: int, leaf: Delegation, tokens: seq<string>, ancestor: Delegation, b: Bound, action: string, boundary: string)
    returns (kept: Bound)
    requires Walk(v, rule, at, leaf, tokens).valid && ancestor in Walk(v, rule, at, leaf, tokens).parents
    requires forall t :: v.parse(t).Some? ==> WellFormed(v.parse(t).value)
    requires b in ancestor.bounds && !b.aggregated && Relevant(b, action, boundary)
    ensures kept in leaf.bounds && !kept.aggregated && Relevant(kept, action, boundary)
    ensures kept.kind == b.kind && kept.unit == b.unit && kept.amount <= b.amount && kept.window == b.window
  {
    hide Narrows, WellFormed, Walk, Ascends, BoundApplies;
    WalkIsExact(v, rule, at, leaf, tokens);
    NarrowsEveryAncestor(v, rule, at, 0, leaf, Walk(v, rule, at, leaf, tokens).parents, ancestor);
    kept := ParentBoundReappears(v.norm, leaf, ancestor, b, action, boundary);
  }
}
