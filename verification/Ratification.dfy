/** The two versions of the rule that a ratified candidate must stay within what its ratifier holds. */
module Ratification {
  import opened Prelude
  import opened Claims
  import opened Attenuation

  datatype RuleVersion = Historical | Present | OtherVersion

  datatype Reach = Within | Widens(axis: Axis) | UnknownRule

  function AsReach(axis: Option<Axis>): Reach {
    if axis.None? then Within else Widens(axis.value)
  }

  function Ordinary(bounds: seq<Bound>): (own: seq<Bound>)
    ensures forall b :: b in own <==> b in bounds && !b.aggregated
  {
    if bounds == [] then []
    else
      var last := bounds[|bounds| - 1];
      assert bounds == bounds[..|bounds| - 1] + [last];
      Ordinary(bounds[..|bounds| - 1]) + (if last.aggregated then [] else [last])
  }

  function OtherKinds(bounds: seq<Bound>, kind: string): (others: seq<Bound>)
    ensures forall b :: b in others <==> b in bounds && b.kind != kind
  {
    if bounds == [] then []
    else
      var last := bounds[|bounds| - 1];
      assert bounds == bounds[..|bounds| - 1] + [last];
      OtherKinds(bounds[..|bounds| - 1], kind) + (if last.kind == kind then [] else [last])
  }

  /** A shared bound read as if it were the grant's own. */
  function Converted(b: Bound): Bound {
    b.(aggregated := false)
  }

  /** The candidate's own bounds, with the shared bound in place of any bound of its kind. */
  function ComparisonBounds(candidate: Delegation, shared: Bound): seq<Bound> {
    OtherKinds(Ordinary(candidate.bounds), shared.kind) + [Converted(shared)]
  }

  function AggregateReach(norm: NormPath, candidate: Delegation, parent: Delegation, todo: seq<Bound>): Reach {
    if todo == [] then Within
    else if ByKind(parent.bounds, todo[0].kind).None? then Widens(AggregateBound)
    else
      var axis := WideningAxis(norm, candidate.(bounds := ComparisonBounds(candidate, todo[0])), parent);
      if axis.Some? then Widens(axis.value) else AggregateReach(norm, candidate, parent, todo[1..])
  }

  function ReachOf(norm: NormPath, candidate: Delegation, parent: Delegation, version: RuleVersion): Reach {
    if version.Historical? then AsReach(WideningAxis(norm, candidate, parent))
    else if version.OtherVersion? then UnknownRule
    else if Aggregates(candidate.bounds) == [] || Aggregates(parent.bounds) != [] then AsReach(WideningAxis(norm, candidate, parent))
    else if parent.entryHash.Some? || parent.ratificationHash.Some? then Widens(Lineage)
    else
      var own := WideningAxis(norm, candidate.(bounds := Ordinary(candidate.bounds)), parent);
      if own.Some? then Widens(own.value)
      else AggregateReach(norm, candidate, parent, Aggregates(candidate.bounds))
  }

  method RatifierReach(norm: NormPath, candidate: Delegation, parent: Delegation, version: RuleVersion) returns (reach: Reach)
    ensures reach == ReachOf(norm, candidate, parent, version)
  {
    hide WideningAxis, ByKind;
    if version.Historical? {
      return AsReach(WideningAxis(norm, candidate, parent));
    }
    if version.OtherVersion? {
      return UnknownRule;
    }
    var aggregates, parentAggregates := Aggregates(candidate.bounds), Aggregates(parent.bounds);
    if aggregates == [] || parentAggregates != [] {
      return AsReach(WideningAxis(norm, candidate, parent));
    }
    if parent.entryHash.Some? || parent.ratificationHash.Some? {
      return Widens(Lineage);
    }
    var own := WideningAxis(norm, candidate.(bounds := Ordinary(candidate.bounds)), parent);
    if own.Some? {
      return Widens(own.value);
    }
    for i := 0 to |aggregates|
      invariant ReachOf(norm, candidate, parent, version) == AggregateReach(norm, candidate, parent, aggregates[i..])
    {
      assert aggregates[i..][0] == aggregates[i] && aggregates[i..][1..] == aggregates[i + 1..];
      if ByKind(parent.bounds, aggregates[i].kind).None? {
        return Widens(AggregateBound);
      }
      var axis := WideningAxis(norm, candidate.(bounds := ComparisonBounds(candidate, aggregates[i])), parent);
      if axis.Some? {
        return Widens(axis.value);
      }
    }
    reach := Within;
  }

  // ---------- the present rule extends the historical one ----------

  /** The case in which the versions may differ: the candidate shares a ceiling and its ratifier holds none. */
  predicate IntroducesAggregates(candidate: Delegation, parent: Delegation) {
    Aggregates(candidate.bounds) != [] && Aggregates(parent.bounds) == []
  }

  lemma AggregatesMatchInSize(candidate: Delegation, parent: Delegation)
    requires AggregatesKept(candidate, parent)
    ensures multiset(Aggregates(candidate.bounds)) == multiset(Aggregates(parent.bounds))
  {
  }

  lemma NoNewAggregates(candidate: Delegation, parent: Delegation)
    requires AggregatesKept(candidate, parent)
    ensures !IntroducesAggregates(candidate, parent)
  {
    AggregatesMatchInSize(candidate, parent);
    if Aggregates(candidate.bounds) != [] {
      assert Aggregates(candidate.bounds)[0] in multiset(Aggregates(parent.bounds));
    }
  }

  /** The present rule accepts whatever the historical rule accepts, and outside the new case they give the same answer. */
  lemma PresentExtendsHistorical(norm: NormPath, candidate: Delegation, parent: Delegation)
    ensures ReachOf(norm, candidate, parent, Historical).Within? ==> ReachOf(norm, candidate, parent, Present).Within?
    ensures !IntroducesAggregates(candidate, parent) ==>
      ReachOf(norm, candidate, parent, Historical) == ReachOf(norm, candidate, parent, Present)
    ensures IntroducesAggregates(candidate, parent) ==> !ReachOf(norm, candidate, parent, Historical).Within?
    ensures ReachOf(norm, candidate, parent, OtherVersion).UnknownRule?
  {
    NarrowsMeans(norm, candidate, parent);
    hide WideningAxis, AggregatesKept, ScopeNarrows, BoundsNarrow, AggregateReach;
    if Narrows(norm, candidate, parent) {
      NoNewAggregates(candidate, parent);
    }
  }

  // ---------- the new case ----------

  lemma {:induction false} NothingShared(bounds: seq<Bound>)
    requires forall b <- bounds :: !b.aggregated
    ensures Aggregates(bounds) == []
  {
    if bounds != [] {
      NothingShared(bounds[1..]);
    }
  }

  lemma {:induction false} ByKindOfOrdinary(bounds: seq<Bound>, kind: string)
    ensures ByKind(Ordinary(bounds), kind) == ByKind(bounds, kind)
  {
    if bounds != [] {
      var front, last := bounds[..|bounds| - 1], bounds[|bounds| - 1];
      ByKindOfOrdinary(front, kind);
      if last.aggregated {
        assert Ordinary(front) + [] == Ordinary(front);
      } else {
        assert (Ordinary(front) + [last])[..|Ordinary(front)|] == Ordinary(front);
      }
    }
  }

  lemma {:induction false} ByKindOfOtherKinds(bounds: seq<Bound>, kind: string, other: string)
    requires other != kind
    ensures ByKind(OtherKinds(bounds, kind), other) == ByKind(bounds, other)
  {
    if bounds != [] {
      var front, last := bounds[..|bounds| - 1], bounds[|bounds| - 1];
      ByKindOfOtherKinds(front, kind, other);
      if last.kind == kind {
        assert OtherKinds(front, kind) + [] == OtherKinds(front, kind);
      } else {
        assert (OtherKinds(front, kind) + [last])[..|OtherKinds(front, kind)|] == OtherKinds(front, kind);
      }
    }
  }

  lemma ComparisonByKind(candidate: Delegation, shared: Bound, kind: string)
    ensures ByKind(ComparisonBounds(candidate, shared), kind)
         == if kind == shared.kind then Some(Converted(shared)) else ByKind(candidate.bounds, kind)
  {
    var others := OtherKinds(Ordinary(candidate.bounds), shared.kind);
    assert ComparisonBounds(candidate, shared)[..|others|] == others;
    if kind != shared.kind {
      ByKindOfOtherKinds(Ordinary(candidate.bounds), shared.kind, kind);
      ByKindOfOrdinary(candidate.bounds, kind);
    }
  }

  /** The ratifier has an ordinary ceiling of this kind that is no smaller, in the same unit and window, with no wider applicability. */
  ghost predicate CoversShared(parent: Delegation, shared: Bound) {
    ByKind(parent.bounds, shared.kind).Some? && BoundAxis(Some(Converted(shared)), ByKind(parent.bounds, shared.kind).value).None?
  }

  lemma ScopeIgnoresBounds(norm: NormPath, candidate: Delegation, parent: Delegation, bounds: seq<Bound>)
    ensures ScopeNarrows(norm, candidate.(bounds := bounds), parent) == ScopeNarrows(norm, candidate, parent)
  {
    hide Subset, Covers;
    assert forall action :: GrantWindows(candidate.(bounds := bounds), action) == GrantWindows(candidate, action);
    assert forall action <- candidate.scopeActions ::
      WindowsNarrowFor(candidate.(bounds := bounds), parent, action) == WindowsNarrowFor(candidate, parent, action);
  }

  lemma BothUnshared(candidate: Delegation, parent: Delegation)
    requires (forall b <- candidate.bounds :: !b.aggregated) && Aggregates(parent.bounds) == []
    ensures AggregatesKept(candidate, parent)
  {
    NothingShared(candidate.bounds);
  }

  lemma OwnBoundsComparison(norm: NormPath, candidate: Delegation, parent: Delegation)
    requires Aggregates(parent.bounds) == []
    ensures Narrows(norm, candidate.(bounds := Ordinary(candidate.bounds)), parent)
       <==> ScopeNarrows(norm, candidate, parent) && BoundsNarrow(candidate.bounds, parent.bounds)
  {
    hide ScopeNarrows, Narrows, AggregatesKept, BoundAxis, ByKind;
    var own := candidate.(bounds := Ordinary(candidate.bounds));
    NarrowsMeans(norm, own, parent);
    ScopeIgnoresBounds(norm, candidate, parent, Ordinary(candidate.bounds));
    BothUnshared(own, parent);
    forall kind ensures ByKind(own.bounds, kind) == ByKind(candidate.bounds, kind) {
      ByKindOfOrdinary(candidate.bounds, kind);
    }
  }

  lemma SharedBoundComparison(norm: NormPath, candidate: Delegation, parent: Delegation, shared: Bound)
    requires Aggregates(parent.bounds) == [] && ByKind(parent.bounds, shared.kind).Some?
    requires ScopeNarrows(norm, candidate, parent) && BoundsNarrow(candidate.bounds, parent.bounds)
    ensures Narrows(norm, candidate.(bounds := ComparisonBounds(candidate, shared)), parent) <==> CoversShared(parent, shared)
  {
    hide ScopeNarrows, Narrows, AggregatesKept, BoundAxis, ByKind, ComparisonBounds;
    var mixed := candidate.(bounds := ComparisonBounds(candidate, shared));
    NarrowsMeans(norm, mixed, parent);
    ScopeIgnoresBounds(norm, candidate, parent, ComparisonBounds(candidate, shared));
    ComparisonIsUnshared(candidate, shared);
    BothUnshared(mixed, parent);
    forall kind ensures ByKind(mixed.bounds, kind) == if kind == shared.kind then Some(Converted(shared)) else ByKind(candidate.bounds, kind) {
      ComparisonByKind(candidate, shared, kind);
    }
  }

  lemma ComparisonIsUnshared(candidate: Delegation, shared: Bound)
    ensures forall b <- ComparisonBounds(candidate, shared) :: !b.aggregated
  {
  }

  lemma {:induction false} AggregateReachMeans(norm: NormPath, candidate: Delegation, parent: Delegation, todo: seq<Bound>)
    requires Aggregates(parent.bounds) == []
    requires ScopeNarrows(norm, candidate, parent) && BoundsNarrow(candidate.bounds, parent.bounds)
    ensures AggregateReach(norm, candidate, parent, todo).Within? <==> forall b <- todo :: CoversShared(parent, b)
  {
    hide ScopeNarrows, BoundsNarrow, WideningAxis, BoundAxis, ByKind, ComparisonBounds, Aggregates;
    if todo != [] {
      assert forall b :: b in todo <==> b == todo[0] || b in todo[1..];
      if ByKind(parent.bounds, todo[0].kind).Some? {
        SharedBoundComparison(norm, candidate, parent, todo[0]);
      }
      assert AggregateReach(norm, candidate, parent, todo).Within?
        <==> CoversShared(parent, todo[0]) && AggregateReach(norm, candidate, parent, todo[1..]).Within?;
      AggregateReachMeans(norm, candidate, parent, todo[1..]);
    }
  }

  /**
   In the new case the present rule accepts exactly when the ratifier has no lineage, the candidate
   narrows it with its own bounds alone, and every shared ceiling lies within one the ratifier holds.
   */
  lemma NewCaseIsExact(norm: NormPath, candidate: Delegation, parent: Delegation)
    requires IntroducesAggregates(candidate, parent)
    ensures ReachOf(norm, candidate, parent, Present).Within? <==>
      && parent.entryHash.None? && parent.ratificationHash.None?
      && ScopeNarrows(norm, candidate, parent) && BoundsNarrow(candidate.bounds, parent.bounds)
      && forall b <- candidate.bounds :: b.aggregated ==> CoversShared(parent, b)
  {
    hide ScopeNarrows, BoundsNarrow, WideningAxis, CoversShared;
    OwnBoundsComparison(norm, candidate, parent);
    if ScopeNarrows(norm, candidate, parent) && BoundsNarrow(candidate.bounds, parent.bounds) {
      AggregateReachMeans(norm, candidate, parent, Aggregates(candidate.bounds));
    }
  }

  /** What acceptance in the new case says about each shared ceiling. */
  lemma SharedCeilingIsWithinRatifier(norm: NormPath, candidate: Delegation, parent: Delegation, b: Bound) returns (held: Bound)
    requires IntroducesAggregates(candidate, parent) && ReachOf(norm, candidate, parent, Present).Within?
    requires b in candidate.bounds && b.aggregated
    ensures parent.entryHash.None? && parent.ratificationHash.None?
    ensures held in parent.bounds && !held.aggregated && held.kind == b.kind && held.unit == b.unit && b.amount <= held.amount
    ensures held.window.Some? ==> b.window == held.window
    ensures SideKept(b.actions, held.actions) && SideKept(b.boundaries, held.boundaries)
  {
    hide ReachOf, ScopeNarrows, ByKind, Aggregates;
    NewCaseIsExact(norm, candidate, parent);
    assert CoversShared(parent, b);
    ByKindFinds(parent.bounds, b.kind);
    held := ByKind(parent.bounds, b.kind).value;
  }
}
