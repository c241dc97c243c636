/**
 What the fifteen comparisons of attenuation amount to, axis by axis: each of them holds exactly when whatever the child
 allows on its axis, the parent allows. The axis that is reported is the first on which something escapes.
 */
module Containment {
  import opened Prelude
  import opened Claims
  import opened Attenuation
  import opened DelegationChain

  // ---------- what a delegation allows, axis by axis ----------

  /** A path is a root itself or lies below it, once both are normalised. */
  ghost predicate LiesUnder(norm: NormPath, root: string, path: string) {
    norm(path) == norm(root) || exists rest: string :: norm(path) == norm(root) + "/" + rest
  }

  ghost predicate AllowsPath(norm: NormPath, c: Delegation, path: string) {
    exists root <- c.scopePaths :: LiesUnder(norm, root, path)
  }

  /** The action is granted from one instant to another without a break, by the flat grant or by one capability. */
  ghost predicate AllowsThroughout(c: Delegation, action: string, from: int, until: int) {
    if c.capabilities == [] then action in c.scopeActions && c.nbf <= from && until <= c.exp
    else exists cap <- c.capabilities :: action in cap.actions && cap.nbf <= from && until <= cap.exp
  }

  predicate AllowsSet(c: Delegation, contentHash: string) {
    c.namedSet.None? || c.namedSet.value.contentHash == contentHash
  }

  /** This many signers of this set are agreement enough. */
  predicate AllowsAgreement(c: Delegation, signers: string, count: int) {
    c.quorum.None? || (signers == c.quorum.value.signers.contentHash && count >= c.quorum.value.threshold)
  }

  predicate AllowsTool(c: Delegation, tool: string) {
    c.scopeTools == [] || tool in c.scopeTools
  }

  /** A grant with lineage stands only for its own entry and ratification. */
  predicate AllowsLineage(c: Delegation, entry: Option<string>, ratification: Option<string>) {
    (c.entryHash.None? && c.ratificationHash.None?) || (c.entryHash == entry && c.ratificationHash == ratification)
  }

  predicate AllowsPoint(c: Delegation, point: string) {
    c.aud.None? || point in c.aud.value
  }

  predicate AllowsAnswerAge(c: Delegation, ageMs: int) {
    c.maxRevocationAgeMs.None? || ageMs <= c.maxRevocationAgeMs.value
  }

  predicate AllowsDepth(c: Delegation, depth: nat) {
    depth <= c.maxDepth
  }

  /** The bound is checked for this action at this boundary. */
  predicate IsCheckedAt(b: Bound, action: string, boundary: string) {
    (b.actions.None? || action in b.actions.value) && (b.boundaries.None? || boundary in b.boundaries.value)
  }

  /** A ceiling that is at least as strict: same unit, no larger, and the same accounting period if the other has one. */
  predicate IsAtLeastAsStrict(b: Bound, other: Bound) {
    b.unit == other.unit && b.amount <= other.amount && (other.window.None? || b.window == other.window)
  }

  /** The child's own bound of that kind is at least as strict. */
  ghost predicate CeilingContained(child: Delegation, b: Bound) {
    exists kept <- child.bounds :: !kept.aggregated && kept.kind == b.kind && IsAtLeastAsStrict(kept, b)
  }

  /** The child's own bound of that kind is checked wherever this one is. */
  ghost predicate ApplicabilityContained(child: Delegation, b: Bound) {
    forall action, boundary | IsCheckedAt(b, action, boundary) ::
      exists kept <- child.bounds :: !kept.aggregated && kept.kind == b.kind && IsCheckedAt(kept, action, boundary)
  }

  /** Whatever the child allows on this axis, the parent allows. */
  ghost predicate Contained(norm: NormPath, axis: Axis, child: Delegation, parent: Delegation) {
    match axis
    case Actions => forall action <- child.scopeActions :: action in parent.scopeActions
    case Paths => forall path :: AllowsPath(norm, child, path) ==> AllowsPath(norm, parent, path)
    case Capabilities => TimesContained(child, parent)
    case Time => TimesContained(child, parent)
    case NamedSet => forall hash :: AllowsSet(child, hash) ==> AllowsSet(parent, hash)
    case Bounds => forall b <- parent.bounds :: !b.aggregated ==> CeilingContained(child, b)
    case AppliesTo => forall b <- parent.bounds :: !b.aggregated ==> ApplicabilityContained(child, b)
    case AggregateBound => forall b: Bound :: b.aggregated ==> (b in child.bounds <==> b in parent.bounds)
    case Quorum => forall signers, count :: AllowsAgreement(child, signers, count) ==> AllowsAgreement(parent, signers, count)
    case Tools => forall tool :: AllowsTool(child, tool) ==> AllowsTool(parent, tool)
    case Domains => forall domain <- child.scopeDomains :: domain in parent.scopeDomains
    case Lineage => forall e, r :: AllowsLineage(child, e, r) ==> AllowsLineage(parent, e, r)
    case Aud => forall point :: AllowsPoint(child, point) ==> AllowsPoint(parent, point)
    case RevocationAge => forall age :: AllowsAnswerAge(child, age) ==> AllowsAnswerAge(parent, age)
    case MaxDepth => forall depth :: AllowsDepth(child, depth) ==> AllowsDepth(parent, depth)
  }

  ghost predicate TimesContained(child: Delegation, parent: Delegation) {
    forall action, from, until | action in child.scopeActions ::
      AllowsThroughout(child, action, from, until) ==> AllowsThroughout(parent, action, from, until)
  }

  // ---------- one axis after the other ----------

  /** Some text is not in a list. */
  lemma {:induction false} TextOutside(texts: seq<string>) returns (text: string)
    ensures text !in texts && forall t <- texts :: |t| < |text|
  {
    if texts == [] {
      return "";
    }
    var longer := TextOutside(texts[1..]);
    text := longer + texts[0] + "+";
    assert texts == [texts[0]] + texts[1..];
  }

  lemma CoversIsLiesUnder(norm: NormPath, root: string, path: string)
    ensures Covers(norm, root, path) <==> LiesUnder(norm, root, path)
  {
    var base := norm(root) + "/";
    if base <= norm(path) {
      assert norm(path) == norm(root) + "/" + norm(path)[|base|..];
    }
  }

  lemma PathsExactly(norm: NormPath, child: Delegation, parent: Delegation)
    ensures PathsNarrow(norm, child, parent) <==> Contained(norm, Paths, child, parent)
  {
    forall root, path ensures Covers(norm, root, path) <==> LiesUnder(norm, root, path) {
      CoversIsLiesUnder(norm, root, path);
    }
    hide Covers, LiesUnder;
    if PathsNarrow(norm, child, parent) {
      forall path | AllowsPath(norm, child, path) ensures AllowsPath(norm, parent, path) {
        var p :| p in child.scopePaths && LiesUnder(norm, p, path);
        var q :| q in parent.scopePaths && Covers(norm, q, p);
        CoversTransitive(norm, q, p, path);
      }
    }
    if Contained(norm, Paths, child, parent) {
      forall p | p in child.scopePaths ensures exists q <- parent.scopePaths :: Covers(norm, q, p) {
        CoversItself(norm, p);
        assert AllowsPath(norm, child, p);
      }
    }
  }

  lemma CoversItself(norm: NormPath, p: string)
    ensures Covers(norm, p, p)
  {
  }

  lemma WindowsAreTimes(c: Delegation, action: string, from: int, until: int)
    ensures AllowsThroughout(c, action, from, until) <==> exists w <- GrantWindows(c, action) :: w.0 <= from && until <= w.1
  {
    if c.capabilities == [] {
      assert action in c.scopeActions ==> (c.nbf, c.exp) in GrantWindows(c, action);
    } else {
      if AllowsThroughout(c, action, from, until) {
        var cap :| cap in c.capabilities && action in cap.actions && cap.nbf <= from && until <= cap.exp;
        assert (cap.nbf, cap.exp) in CapabilityWindows(c.capabilities, action);
      }
    }
  }

  lemma TimesExactly(child: Delegation, parent: Delegation)
    ensures WindowsNarrow(child, parent) <==> TimesContained(child, parent)
  {
    forall c, action, from, until
      ensures AllowsThroughout(c, action, from, until) <==> exists w <- GrantWindows(c, action) :: w.0 <= from && until <= w.1
    {
      WindowsAreTimes(c, action, from, until);
    }
    hide GrantWindows, AllowsThroughout;
    if WindowsNarrow(child, parent) {
      forall action, from, until | action in child.scopeActions && AllowsThroughout(child, action, from, until)
        ensures AllowsThroughout(parent, action, from, until)
      {
        assert WindowsNarrowFor(child, parent, action);
        var w :| w in GrantWindows(child, action) && w.0 <= from && until <= w.1;
        var v :| v in GrantWindows(parent, action) && Within(w, v);
      }
    }
    if TimesContained(child, parent) {
      forall action | action in child.scopeActions ensures WindowsNarrowFor(child, parent, action) {
        forall w | w in GrantWindows(child, action) ensures exists v <- GrantWindows(parent, action) :: Within(w, v) {
          assert AllowsThroughout(child, action, w.0, w.1);
          var v :| v in GrantWindows(parent, action) && v.0 <= w.0 && w.1 <= v.1;
          assert Within(w, v);
        }
      }
    }
  }

  lemma NamedSetExactly(norm: NormPath, child: Delegation, parent: Delegation)
    ensures NamedSetNarrows(child, parent) <==> Contained(norm, NamedSet, child, parent)
  {
    if parent.namedSet.Some? {
      var other := parent.namedSet.value.contentHash + "+";
      assert other != parent.namedSet.value.contentHash;
      assert child.namedSet.None? ==> AllowsSet(child, other) && !AllowsSet(parent, other);
      assert child.namedSet.Some? ==> AllowsSet(child, child.namedSet.value.contentHash);
    }
  }

  lemma QuorumExactly(norm: NormPath, child: Delegation, parent: Delegation)
    ensures QuorumNarrows(child, parent) <==> Contained(norm, Axis.Quorum, child, parent)
  {
    if parent.quorum.Some? {
      var q := parent.quorum.value;
      assert child.quorum.None? ==>
        AllowsAgreement(child, q.signers.contentHash, q.threshold - 1) && !AllowsAgreement(parent, q.signers.contentHash, q.threshold - 1);
      assert child.quorum.Some? ==> AllowsAgreement(child, child.quorum.value.signers.contentHash, child.quorum.value.threshold);
    }
  }

  lemma ToolsExactly(norm: NormPath, child: Delegation, parent: Delegation)
    ensures ToolsNarrow(child, parent) <==> Contained(norm, Tools, child, parent)
  {
    var outside := TextOutside(parent.scopeTools);
    if parent.scopeTools != [] && child.scopeTools == [] {
      assert AllowsTool(child, outside) && !AllowsTool(parent, outside);
    }
    assert forall tool <- child.scopeTools :: AllowsTool(child, tool);
  }

  lemma LineageExactly(norm: NormPath, child: Delegation, parent: Delegation)
    ensures LineageKept(child, parent) <==> Contained(norm, Lineage, child, parent)
  {
    if parent.entryHash.Some? || parent.ratificationHash.Some? {
      assert AllowsLineage(child, child.entryHash, child.ratificationHash);
      if child.entryHash.None? && child.ratificationHash.None? {
        assert AllowsLineage(child, None, None) && !AllowsLineage(parent, None, None);
      }
    }
  }

  lemma AudExactly(norm: NormPath, child: Delegation, parent: Delegation)
    ensures AudNarrows(child, parent) <==> Contained(norm, Aud, child, parent)
  {
    if parent.aud.Some? {
      var outside := TextOutside(parent.aud.value);
      assert child.aud.None? ==> AllowsPoint(child, outside) && !AllowsPoint(parent, outside);
      assert child.aud.Some? ==> forall point <- child.aud.value :: AllowsPoint(child, point);
    }
  }

  lemma AgeExactly(norm: NormPath, child: Delegation, parent: Delegation)
    ensures RevocationAgeNarrows(child, parent) <==> Contained(norm, RevocationAge, child, parent)
  {
    if parent.maxRevocationAgeMs.Some? {
      var late := parent.maxRevocationAgeMs.value + 1;
      assert child.maxRevocationAgeMs.None? ==> AllowsAnswerAge(child, late) && !AllowsAnswerAge(parent, late);
      assert child.maxRevocationAgeMs.Some? ==> AllowsAnswerAge(child, child.maxRevocationAgeMs.value);
    }
  }

  lemma DepthExactly(norm: NormPath, child: Delegation, parent: Delegation)
    ensures child.maxDepth <= parent.maxDepth <==> Contained(norm, MaxDepth, child, parent)
  {
    assert AllowsDepth(child, child.maxDepth);
  }

  // ---------- bounds ----------

  lemma SideExactly(child: Option<seq<string>>, parent: Option<seq<string>>)
    ensures SideKept(child, parent) <==>
      forall name :: (parent.None? || name in parent.value) ==> (child.None? || name in child.value)
  {
    if child.Some? {
      var outside := TextOutside(child.value);
      assert parent.Some? ==> forall name <- parent.value :: parent.None? || name in parent.value;
    }
  }

  /** A name that a nonempty or absent side applies to. */
  lemma SomeName(side: Option<seq<string>>) returns (name: string)
    requires side != Some([])
    ensures side.None? || name in side.value
  {
    name := if side.None? then "" else side.value[0];
  }

  lemma CoverageExactly(kept: Bound, b: Bound)
    requires b.actions != Some([]) && b.boundaries != Some([])
    ensures CoverageKept(kept, b) <==>
      forall action, boundary :: IsCheckedAt(b, action, boundary) ==> IsCheckedAt(kept, action, boundary)
  {
    hide SideKept;
    SideExactly(kept.actions, b.actions);
    SideExactly(kept.boundaries, b.boundaries);
    var someAction := SomeName(b.actions);
    var someBoundary := SomeName(b.boundaries);
    if forall action, boundary :: IsCheckedAt(b, action, boundary) ==> IsCheckedAt(kept, action, boundary) {
      forall name | b.actions.None? || name in b.actions.value ensures kept.actions.None? || name in kept.actions.value {
        assert IsCheckedAt(b, name, someBoundary);
      }
      forall name | b.boundaries.None? || name in b.boundaries.value ensures kept.boundaries.None? || name in kept.boundaries.value {
        assert IsCheckedAt(b, someAction, name);
      }
    }
  }

  /** A grant has at most one own bound of a kind. */
  lemma OwnBound(bounds: seq<Bound>, b: Bound)
    requires DistinctKinds(bounds) && b in bounds && !b.aggregated
    ensures ByKind(bounds, b.kind) == Some(b)
  {
    hide ByKind;
    ByKindFinds(bounds, b.kind);
    var found := ByKind(bounds, b.kind).value;
    var i :| 0 <= i < |bounds| && bounds[i] == b;
    var j :| 0 <= j < |bounds| && bounds[j] == found;
    assert i == j;
  }

  /** What one bound of the parent contributes. */
  lemma BoundExactly(child: Delegation, b: Bound)
    requires DistinctKinds(child.bounds) && b.actions != Some([]) && b.boundaries != Some([])
    ensures BoundAxis(ByKind(child.bounds, b.kind), b) == if !CeilingContained(child, b) then Some(Bounds)
                                                          else if !ApplicabilityContained(child, b) then Some(AppliesTo)
                                                          else None
  {
    ByKindFinds(child.bounds, b.kind);
    hide ByKind, DistinctKinds;
    var found := ByKind(child.bounds, b.kind);
    forall kept | kept in child.bounds && !kept.aggregated && kept.kind == b.kind ensures found == Some(kept) {
      OwnBound(child.bounds, kept);
    }
    if found.Some? {
      CoverageExactly(found.value, b);
      hide CoverageKept, IsCheckedAt;
      assert CeilingContained(child, b) <==> CeilingKept(found.value, b);
    }
  }

  predicate SidesAreNonempty(bounds: seq<Bound>) {
    forall b <- bounds :: b.actions != Some([]) && b.boundaries != Some([])
  }

  /** A bound of the parent that the child's bounds do not contain. */
  ghost predicate BoundEscapes(child: Delegation, b: Bound) {
    !b.aggregated && !(CeilingContained(child, b) && ApplicabilityContained(child, b))
  }

  ghost function EscapingAxis(child: Delegation, b: Bound): Axis {
    if CeilingContained(child, b) then AppliesTo else Bounds
  }

  /**
   The comparison of bounds finds nothing exactly when no bound of the parent escapes. Otherwise it reports on the first
   bound that does: its ceiling if that is not contained, or else where it applies.
   */
  lemma {:induction false} BoundsExactly(child: Delegation, parent: seq<Bound>, todo: seq<Bound>)
    requires DistinctKinds(child.bounds) && DistinctKinds(parent) && SidesAreNonempty(parent) && forall b <- todo :: b in parent
    ensures match BoundsAxis(child.bounds, parent, todo)
      case None => forall b <- todo :: !BoundEscapes(child, b)
      case Some(axis) => exists i :: 0 <= i < |todo| && FirstEscape(child, todo, i) && axis == EscapingAxis(child, todo[i])
  {
    hide BoundAxis, ByKind, DistinctKinds, CeilingContained, ApplicabilityContained;
    if todo != [] {
      assert forall b :: b in todo <==> b == todo[0] || b in todo[1..];
      if !todo[0].aggregated {
        OwnBound(parent, todo[0]);
        BoundExactly(child, todo[0]);
      }
      BoundsExactly(child, parent, todo[1..]);
      if BoundEscapes(child, todo[0]) {
        assert FirstEscape(child, todo, 0);
      } else if BoundsAxis(child.bounds, parent, todo).Some? {
        var i :| 0 <= i < |todo| - 1 && FirstEscape(child, todo[1..], i)
          && BoundsAxis(child.bounds, parent, todo[1..]).value == EscapingAxis(child, todo[1..][i]);
        FirstEscapeLater(child, todo, i);
      }
    }
  }

  ghost predicate FirstEscape(child: Delegation, bounds: seq<Bound>, i: nat)
    requires i < |bounds|
  {
    BoundEscapes(child, bounds[i]) && forall b <- bounds[..i] :: !BoundEscapes(child, b)
  }

  lemma FirstEscapeLater(child: Delegation, bounds: seq<Bound>, i: nat)
    requires bounds != [] && i < |bounds| - 1 && !BoundEscapes(child, bounds[0]) && FirstEscape(child, bounds[1..], i)
    ensures FirstEscape(child, bounds, i + 1) && bounds[1..][i] == bounds[i + 1]
  {
    hide BoundEscapes;
    assert bounds[..i + 1] == [bounds[0]] + bounds[1..][..i];
  }

  // ---------- shared bounds ----------

  lemma {:induction false} TextOrder(a: string, b: string)
    ensures TextAtMost(a, b) || TextAtMost(b, a)
    ensures TextAtMost(a, b) && TextAtMost(b, a) ==> a == b
  {
    if a != "" && b != "" && a[0] == b[0] {
      TextOrder(a[1..], b[1..]);
      assert a == [a[0]] + a[1..] && b == [b[0]] + b[1..];
    }
  }

  lemma {:induction false} TextOrderTransitive(a: string, b: string, c: string)
    requires TextAtMost(a, b) && TextAtMost(b, c)
    ensures TextAtMost(a, c)
  {
    if a != "" && a[0] == b[0] && b[0] == c[0] {
      TextOrderTransitive(a[1..], b[1..], c[1..]);
    }
  }

  ghost predicate IsSorted(s: seq<Bound>) {
    forall i, j :: 0 <= i < j < |s| ==> TextAtMost(s[i].kind, s[j].kind) && s[i].kind != s[j].kind
  }

  lemma {:induction false} InsertKeepsSorted(b: Bound, sorted: seq<Bound>)
    requires IsSorted(sorted) && forall x <- sorted :: x.kind != b.kind
    ensures IsSorted(InsertByKind(b, sorted))
  {
    hide TextAtMost;
    if sorted != [] {
      var first, rest := sorted[0], sorted[1..];
      assert first in sorted && forall x <- rest :: x in sorted;
      TextOrder(b.kind, first.kind);
      if TextAtMost(b.kind, first.kind) {
        forall j | 0 < j < |sorted| ensures TextAtMost(b.kind, sorted[j].kind) && b.kind != sorted[j].kind {
          TextOrderTransitive(b.kind, first.kind, sorted[j].kind);
          assert sorted[j] in sorted;
        }
      } else {
        assert IsSorted(rest);
        InsertKeepsSorted(b, rest);
        var later := InsertByKind(b, rest);
        forall j | 0 <= j < |later| ensures TextAtMost(first.kind, later[j].kind) && first.kind != later[j].kind {
          assert later[j] in multiset(later);
          assert later[j] == b || later[j] in rest;
        }
      }
    }
  }

  lemma {:induction false} SortSorts(bounds: seq<Bound>)
    requires forall i, j :: 0 <= i < j < |bounds| ==> bounds[i].kind != bounds[j].kind
    ensures IsSorted(SortByKind(bounds))
  {
    if bounds != [] {
      SortSorts(bounds[1..]);
      forall x | x in SortByKind(bounds[1..]) ensures x.kind != bounds[0].kind {
        assert x in multiset(bounds[1..]);
        var j :| 0 <= j < |bounds| - 1 && bounds[1..][j] == x;
        assert bounds[j + 1] == x;
      }
      InsertKeepsSorted(bounds[0], SortByKind(bounds[1..]));
    }
  }

  /** Two sorted lists of the same elements are the same list. */
  lemma {:induction false} SortedIsUnique(s: seq<Bound>, t: seq<Bound>)
    requires IsSorted(s) && IsSorted(t) && forall b :: b in s <==> b in t
    ensures s == t
  {
    hide TextAtMost;
    if s != [] && t != [] {
      assert s[0] in s && t[0] in t;
      var j :| 0 <= j < |t| && t[j] == s[0];
      var i :| 0 <= i < |s| && s[i] == t[0];
      if s[0] != t[0] {
        TextOrder(s[0].kind, t[0].kind);
        assert false;
      }
      forall b ensures b in s[1..] <==> b in t[1..] {
        OnlyFirst(s, b);
        OnlyFirst(t, b);
      }
      SortedIsUnique(s[1..], t[1..]);
      assert s == [s[0]] + s[1..] && t == [t[0]] + t[1..];
    } else {
      EmptyWithoutElements(s);
      EmptyWithoutElements(t);
    }
  }

  lemma EmptyWithoutElements(s: seq<Bound>)
    ensures (forall b :: b !in s) ==> s == []
  {
    if s != [] {
      assert s[0] in s;
    }
  }

  lemma SortKeepsElements(bounds: seq<Bound>)
    ensures forall b :: b in SortByKind(bounds) <==> b in bounds
  {
    forall b ensures b in SortByKind(bounds) <==> b in bounds {
      assert b in multiset(SortByKind(bounds)) <==> b in multiset(bounds);
    }
  }

  lemma SharedElements(norm: NormPath, child: Delegation, parent: Delegation)
    ensures Contained(norm, AggregateBound, child, parent) <==>
      forall b :: b in Aggregates(child.bounds) <==> b in Aggregates(parent.bounds)
  {
    if forall b :: b in Aggregates(child.bounds) <==> b in Aggregates(parent.bounds) {
      forall b: Bound | b.aggregated ensures b in child.bounds <==> b in parent.bounds {
        assert b in Aggregates(child.bounds) <==> b in Aggregates(parent.bounds);
      }
    }
  }

  lemma OnlyFirst(s: seq<Bound>, b: Bound)
    requires s != [] && IsSorted(s)
    ensures b in s[1..] <==> b in s && b != s[0]
  {
    if b in s[1..] {
      var j :| 0 <= j < |s| - 1 && s[1..][j] == b;
      assert s[0].kind != s[j + 1].kind;
    }
    assert s == [s[0]] + s[1..];
  }

  lemma {:induction false} SharedKindsDiffer(bounds: seq<Bound>)
    requires DistinctKinds(bounds)
    ensures forall i, j :: 0 <= i < j < |Aggregates(bounds)| ==> Aggregates(bounds)[i].kind != Aggregates(bounds)[j].kind
  {
    if bounds != [] {
      var rest := bounds[1..];
      assert DistinctKinds(rest);
      SharedKindsDiffer(rest);
      if bounds[0].aggregated {
        forall b | b in Aggregates(rest) ensures b.kind != bounds[0].kind {
          var j :| 0 <= j < |rest| && rest[j] == b;
          assert bounds[j + 1] == b;
        }
        forall j | 0 <= j < |Aggregates(rest)| ensures Aggregates(rest)[j].kind != bounds[0].kind {
          assert Aggregates(rest)[j] in Aggregates(rest);
        }
      }
    }
  }

  lemma SharedExactly(norm: NormPath, child: Delegation, parent: Delegation)
    requires DistinctKinds(child.bounds) && DistinctKinds(parent.bounds)
    ensures AggregatesKept(child, parent) <==> Contained(norm, AggregateBound, child, parent)
  {
    var cs, ps := Aggregates(child.bounds), Aggregates(parent.bounds);
    SharedKindsDiffer(child.bounds);
    SharedKindsDiffer(parent.bounds);
    SortSorts(cs);
    SortSorts(ps);
    SortKeepsElements(cs);
    SortKeepsElements(ps);
    SharedElements(norm, child, parent);
    hide DistinctKinds, IsSorted, SortByKind, Aggregates, Contained;
    if Contained(norm, AggregateBound, child, parent) {
      SortedIsUnique(SortByKind(cs), SortByKind(ps));
    }
  }

  // ---------- the reported axis ----------

  /** The order in which the axes are compared; the times come as one axis or the other, and the bounds as two at once. */
  function Precedence(axis: Axis): nat {
    match axis
    case Actions => 0
    case Paths => 1
    case Capabilities => 2
    case Time => 2
    case NamedSet => 3
    case Bounds => 4
    case AppliesTo => 4
    case AggregateBound => 5
    case Quorum => 6
    case Tools => 7
    case Domains => 8
    case Lineage => 9
    case Aud => 10
    case RevocationAge => 11
    case MaxDepth => 12
  }

  lemma BoundsContained(norm: NormPath, child: Delegation, parent: Delegation)
    requires DistinctKinds(child.bounds) && DistinctKinds(parent.bounds) && SidesAreNonempty(parent.bounds)
    ensures var axis := BoundsAxis(child.bounds, parent.bounds, parent.bounds);
      && (axis.None? ==> Contained(norm, Bounds, child, parent) && Contained(norm, AppliesTo, child, parent))
      && (axis.Some? ==> (axis == Some(Bounds) || axis == Some(AppliesTo)) && !Contained(norm, axis.value, child, parent))
  {
    hide BoundsAxis, DistinctKinds, CeilingContained, ApplicabilityContained;
    BoundsExactly(child, parent.bounds, parent.bounds);
  }

  /**
   A child narrows its parent exactly when it allows nothing on any axis that the parent does not allow; otherwise the axis
   that is reported is one on which something escapes, and nothing escapes on the axes compared before it.
   */
  lemma WideningAxisIsExact(norm: NormPath, child: Delegation, parent: Delegation)
    requires DistinctKinds(child.bounds) && DistinctKinds(parent.bounds) && SidesAreNonempty(parent.bounds)
    ensures match WideningAxis(norm, child, parent)
      case None => forall axis :: Contained(norm, axis, child, parent)
      case Some(axis) =>
        && !Contained(norm, axis, child, parent)
        && (forall other :: Precedence(other) < Precedence(axis) ==> Contained(norm, other, child, parent))
        && (axis.Capabilities? ==> parent.capabilities != []) && (axis.Time? ==> parent.capabilities == [])
  {
    hide Contained, DistinctKinds, SidesAreNonempty, BoundsAxis, ActionsNarrow, PathsNarrow, WindowsNarrow, NamedSetNarrows;
    hide AggregatesKept, QuorumNarrows, ToolsNarrow, LineageKept, AudNarrows, RevocationAgeNarrows, Subset, TimesContained;
    ScopeExactly(norm, child, parent);
    BoundsContained(norm, child, parent);
    SharedExactly(norm, child, parent);
    if WideningAxis(norm, child, parent).None? {
      forall axis ensures Contained(norm, axis, child, parent) {
        match axis {
          case Actions =>
          case Paths =>
          case Capabilities =>
          case Time =>
          case NamedSet =>
          case Bounds =>
          case AppliesTo =>
          case AggregateBound =>
          case Quorum =>
          case Tools =>
          case Domains =>
          case Lineage =>
          case Aud =>
          case RevocationAge =>
          case MaxDepth =>
        }
      }
    }
  }

  /** The comparisons besides the bounds. */
  lemma ScopeExactly(norm: NormPath, child: Delegation, parent: Delegation)
    ensures ActionsNarrow(child, parent) <==> Contained(norm, Actions, child, parent)
    ensures PathsNarrow(norm, child, parent) <==> Contained(norm, Paths, child, parent)
    ensures WindowsNarrow(child, parent) <==> Contained(norm, Capabilities, child, parent)
    ensures WindowsNarrow(child, parent) <==> Contained(norm, Time, child, parent)
    ensures NamedSetNarrows(child, parent) <==> Contained(norm, NamedSet, child, parent)
    ensures QuorumNarrows(child, parent) <==> Contained(norm, Axis.Quorum, child, parent)
    ensures ToolsNarrow(child, parent) <==> Contained(norm, Tools, child, parent)
    ensures Subset(child.scopeDomains, parent.scopeDomains) <==> Contained(norm, Domains, child, parent)
    ensures LineageKept(child, parent) <==> Contained(norm, Lineage, child, parent)
    ensures AudNarrows(child, parent) <==> Contained(norm, Aud, child, parent)
    ensures RevocationAgeNarrows(child, parent) <==> Contained(norm, RevocationAge, child, parent)
    ensures child.maxDepth <= parent.maxDepth <==> Contained(norm, MaxDepth, child, parent)
  {
    hide Contained, PathsNarrow, WindowsNarrow, NamedSetNarrows, QuorumNarrows, ToolsNarrow, LineageKept, AudNarrows, RevocationAgeNarrows;
    PathsExactly(norm, child, parent);
    TimesExactly(child, parent);
    NamedSetExactly(norm, child, parent);
    QuorumExactly(norm, child, parent);
    ToolsExactly(norm, child, parent);
    LineageExactly(norm, child, parent);
    AudExactly(norm, child, parent);
    AgeExactly(norm, child, parent);
    DepthExactly(norm, child, parent);
    TimesAreOneAxis(norm, child, parent);
    SubsetAxes(norm, child, parent);
  }

  lemma TimesAreOneAxis(norm: NormPath, child: Delegation, parent: Delegation)
    ensures Contained(norm, Capabilities, child, parent) == Contained(norm, Time, child, parent) == TimesContained(child, parent)
  {
  }

  lemma SubsetAxes(norm: NormPath, child: Delegation, parent: Delegation)
    ensures ActionsNarrow(child, parent) <==> Contained(norm, Actions, child, parent)
    ensures Subset(child.scopeDomains, parent.scopeDomains) <==> Contained(norm, Domains, child, parent)
  {
  }

  lemma WellFormedSides(c: Delegation)
    requires WellFormed(c)
    ensures DistinctKinds(c.bounds) && SidesAreNonempty(c.bounds)
  {
    hide DistinctKinds;
    forall b | b in c.bounds ensures b.actions != Some([]) && b.boundaries != Some([]) {
      assert WellFormedBound(b, c.scopeActions);
    }
  }

  /**
   Whatever the leaf of an accepted chain allows on any axis, every ancestor allows: each path, each action throughout each
   stretch of time, each agreement of signers, each answer about revocation, each lineage, and all the others.
   */
  lemma AncestorsContainLeaf(
    v: Verifier, rule: Rule, at: int, leaf: Delegation, tokens: seq<string>, ancestor: Delegation, axis: Axis)
    requires Walk(v, rule, at, leaf, tokens).valid && ancestor in Walk(v, rule, at, leaf, tokens).parents
    requires WellFormed(leaf) && forall t :: v.parse(t).Some? ==> WellFormed(v.parse(t).value)
    ensures Contained(v.norm, axis, leaf, ancestor)
  {
    hide Walk, Narrows, WellFormed, Ascends, Contained, DistinctKinds, SidesAreNonempty, WideningAxis;
    WalkIsExact(v, rule, at, leaf, tokens);
    var parents := Walk(v, rule, at, leaf, tokens).parents;
    NarrowsEveryAncestor(v, rule, at, 0, leaf, parents, ancestor);
    NarrowsIsContained(v.norm, leaf, ancestor, axis);
  }

  lemma NarrowsIsContained(norm: NormPath, child: Delegation, parent: Delegation, axis: Axis)
    requires Narrows(norm, child, parent) && WellFormed(child) && WellFormed(parent)
    ensures Contained(norm, axis, child, parent)
  {
    hide WellFormed, Contained, DistinctKinds, SidesAreNonempty, WideningAxis;
    WellFormedSides(child);
    WellFormedSides(parent);
    WideningAxisIsExact(norm, child, parent);
  }
}
