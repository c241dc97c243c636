/**
 What the ratifier-reach rules amount to: a ratified candidate admits nothing beyond its ratifier, and holds each shared
 ceiling under one of the ratifier's own.
 */
module RatifierContainment {
  import opened Prelude
  import opened Claims
  import opened Attenuation
  import opened Containment
  import opened Ratification

  predicate HasShared(c: Delegation) {
    exists b <- c.bounds :: b.aggregated
  }

  /** The ratifier's own ceiling of this kind is no stricter than the shared one, which is checked wherever that one is. */
  ghost predicate IsHeld(parent: Delegation, b: Bound) {
    exists held <- parent.bounds ::
      && !held.aggregated && held.kind == b.kind && IsAtLeastAsStrict(b, held)
      && forall action, boundary :: IsCheckedAt(held, action, boundary) ==> IsCheckedAt(b, action, boundary)
  }

  lemma SharedAreAggregates(c: Delegation)
    ensures HasShared(c) <==> Aggregates(c.bounds) != []
  {
    if Aggregates(c.bounds) != [] {
      assert Aggregates(c.bounds)[0] in Aggregates(c.bounds);
    }
  }

  lemma HeldIsExact(parent: Delegation, b: Bound)
    requires DistinctKinds(parent.bounds) && SidesAreNonempty(parent.bounds)
    ensures CoversShared(parent, b) <==> IsHeld(parent, b)
  {
    ByKindFinds(parent.bounds, b.kind);
    hide ByKind, DistinctKinds, SideKept;
    var found := ByKind(parent.bounds, b.kind);
    forall held | held in parent.bounds && !held.aggregated && held.kind == b.kind ensures found == Some(held) {
      OwnBound(parent.bounds, held);
    }
    if found.Some? {
      CoverageExactly(Converted(b), found.value);
      assert forall action, boundary :: IsCheckedAt(Converted(b), action, boundary) <==> IsCheckedAt(b, action, boundary);
    }
  }

  lemma ScopeIsContained(norm: NormPath, candidate: Delegation, parent: Delegation)
    ensures ScopeNarrows(norm, candidate, parent) <==>
      forall axis :: axis !in {Bounds, AppliesTo, AggregateBound} ==> Contained(norm, axis, candidate, parent)
  {
    ScopeExactly(norm, candidate, parent);
    hide Contained, ActionsNarrow, PathsNarrow, WindowsNarrow, NamedSetNarrows, QuorumNarrows, ToolsNarrow, LineageKept, AudNarrows;
    hide RevocationAgeNarrows, Subset;
    if ScopeNarrows(norm, candidate, parent) {
      forall axis | axis !in {Bounds, AppliesTo, AggregateBound} ensures Contained(norm, axis, candidate, parent) {
        match axis {
          case Actions =>
          case Paths =>
          case Capabilities =>
          case Time =>
          case NamedSet =>
          case Quorum =>
          case Tools =>
          case Domains =>
          case Lineage =>
          case Aud =>
          case RevocationAge =>
          case MaxDepth =>
        }
      }
    }
  }

  lemma BoundsAreContained(norm: NormPath, candidate: Delegation, parent: Delegation)
    requires DistinctKinds(candidate.bounds) && DistinctKinds(parent.bounds) && SidesAreNonempty(parent.bounds)
    ensures BoundsNarrow(candidate.bounds, parent.bounds)
       <==> Contained(norm, Bounds, candidate, parent) && Contained(norm, AppliesTo, candidate, parent)
  {
    BoundsContained(norm, candidate, parent);
    BoundsAxisMeans(candidate.bounds, parent.bounds, parent.bounds);
    hide Contained, BoundAxis, BoundsAxis, DistinctKinds, SidesAreNonempty, ByKind;
    forall kind | ByKind(parent.bounds, kind).Some?
      ensures exists b <- parent.bounds :: !b.aggregated && b.kind == kind
    {
      ByKindFinds(parent.bounds, kind);
    }
  }

  lemma NewCaseIsContained(norm: NormPath, candidate: Delegation, parent: Delegation)
    requires DistinctKinds(candidate.bounds) && DistinctKinds(parent.bounds) && SidesAreNonempty(parent.bounds)
    requires IntroducesAggregates(candidate, parent)
    ensures ReachOf(norm, candidate, parent, Present).Within? <==>
      && parent.entryHash == None && parent.ratificationHash == None
      && (forall axis :: axis != AggregateBound ==> Contained(norm, axis, candidate, parent))
      && forall b <- candidate.bounds :: b.aggregated ==> IsHeld(parent, b)
  {
    NewCaseIsExact(norm, candidate, parent);
    ScopeIsContained(norm, candidate, parent);
    BoundsAreContained(norm, candidate, parent);
    hide ReachOf, IntroducesAggregates, Contained, DistinctKinds, SidesAreNonempty, IsHeld, CoversShared, ScopeNarrows, BoundsNarrow;
    forall b | b in candidate.bounds && b.aggregated ensures CoversShared(parent, b) <==> IsHeld(parent, b) {
      HeldIsExact(parent, b);
    }
  }

  lemma AttenuationReach(norm: NormPath, candidate: Delegation, parent: Delegation, version: RuleVersion)
    requires DistinctKinds(candidate.bounds) && DistinctKinds(parent.bounds) && SidesAreNonempty(parent.bounds)
    requires version.Historical? || (version.Present? && !IntroducesAggregates(candidate, parent))
    ensures ReachOf(norm, candidate, parent, version).Within? <==> forall axis :: Contained(norm, axis, candidate, parent)
  {
    WideningAxisIsExact(norm, candidate, parent);
    hide Contained, DistinctKinds, SidesAreNonempty, WideningAxis, AggregateReach;
  }

  /**
   Under the historical rule, or when no sharing is introduced, the reach is that of attenuation. Where a candidate introduces
   sharing, the present rule refuses a ratifier with lineage, and otherwise accepts exactly when the candidate's own bounds and
   everything else are contained in the ratifier, and each shared ceiling is held under one of the ratifier's own.
   */
  lemma ReachIsExact(norm: NormPath, candidate: Delegation, parent: Delegation)
    requires DistinctKinds(candidate.bounds) && DistinctKinds(parent.bounds) && SidesAreNonempty(parent.bounds)
    ensures ReachOf(norm, candidate, parent, Historical).Within? <==> forall axis :: Contained(norm, axis, candidate, parent)
    ensures !HasShared(candidate) || HasShared(parent) ==>
      (ReachOf(norm, candidate, parent, Present).Within? <==> forall axis :: Contained(norm, axis, candidate, parent))
    ensures HasShared(candidate) && !HasShared(parent) ==>
      (ReachOf(norm, candidate, parent, Present).Within? <==>
         && parent.entryHash == None && parent.ratificationHash == None
         && (forall axis :: axis != AggregateBound ==> Contained(norm, axis, candidate, parent))
         && forall b <- candidate.bounds :: b.aggregated ==> IsHeld(parent, b))
    ensures HasShared(candidate) && !HasShared(parent) && (parent.entryHash != None || parent.ratificationHash != None) ==>
      ReachOf(norm, candidate, parent, Present) == Widens(Axis.Lineage)
  {
    hide Contained, DistinctKinds, SidesAreNonempty, WideningAxis, AggregateReach, IsHeld, HasShared, Aggregates;
    SharedAreAggregates(candidate);
    SharedAreAggregates(parent);
    AttenuationReach(norm, candidate, parent, Historical);
    if IntroducesAggregates(candidate, parent) {
      NewCaseIsContained(norm, candidate, parent);
    } else {
      AttenuationReach(norm, candidate, parent, Present);
    }
  }
}
