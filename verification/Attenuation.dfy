/**
 Whether a child delegation narrows its parent, and on which axis it does not: fifteen pairwise
 syntactic comparisons, and the containment that they amount to.
 */
module Attenuation {
  import opened Prelude
  import opened Claims

  datatype Axis =
    | Actions
    | Paths
    | Capabilities
    | Time
    | NamedSet
    | Bounds
    | AppliesTo
    | AggregateBound
    | Quorum
    | Tools
    | Domains
    | Lineage
    | Aud
    | RevocationAge
    | MaxDepth

  /** `os.path.normpath`. */
  type NormPath = string -> string

  /** The windows during which the grant authorises an action; capabilities, if any, are the effective grant. */
  function GrantWindows(c: Delegation, action: string): seq<(int, int)> {
    if c.capabilities == [] then if action in c.scopeActions then [(c.nbf, c.exp)] else []
    else CapabilityWindows(c.capabilities, action)
  }

  function CapabilityWindows(caps: seq<Capability>, action: string): (windows: seq<(int, int)>)
    ensures forall w :: w in windows <==> exists cap <- caps :: action in cap.actions && w == (cap.nbf, cap.exp)
  {
    if caps == [] then []
    else
      assert forall cap :: cap in caps <==> cap == caps[0] || cap in caps[1..];
      (if action in caps[0].actions then [(caps[0].nbf, caps[0].exp)] else []) + CapabilityWindows(caps[1..], action)
  }

  predicate Within(inner: (int, int), outer: (int, int)) {
    outer.0 <= inner.0 && inner.1 <= outer.1
  }

  predicate InWindow(at: int, window: (int, int)) {
    window.0 <= at <= window.1
  }

  /** A flat grant holds its actions without regard to its window; a structured one holds them when a capability does. */
  predicate HoldsRight(c: Delegation, action: string, at: int) {
    if c.capabilities == [] then action in c.scopeActions
    else exists w <- GrantWindows(c, action) :: InWindow(at, w)
  }

  predicate Covers(norm: NormPath, outer: string, inner: string) {
    norm(inner) == norm(outer) || norm(outer) + "/" <= norm(inner)
  }

  predicate ActionsNarrow(child: Delegation, parent: Delegation) {
    Subset(child.scopeActions, parent.scopeActions)
  }

  predicate PathsNarrow(norm: NormPath, child: Delegation, parent: Delegation) {
    forall p <- child.scopePaths :: exists q <- parent.scopePaths :: Covers(norm, q, p)
  }

  predicate WindowsNarrowFor(child: Delegation, parent: Delegation, action: string) {
    forall w <- GrantWindows(child, action) :: exists v <- GrantWindows(parent, action) :: Within(w, v)
  }

  predicate WindowsNarrow(child: Delegation, parent: Delegation) {
    forall action <- child.scopeActions :: WindowsNarrowFor(child, parent, action)
  }

  predicate NamedSetNarrows(child: Delegation, parent: Delegation) {
    parent.namedSet.Some? ==> child.namedSet.Some? && child.namedSet.value.contentHash == parent.namedSet.value.contentHash
  }

  /** The ordinary bound that a dictionary keyed by kind ends up with. */
  function ByKind(bounds: seq<Bound>, kind: string): Option<Bound> {
    if bounds == [] then None
    else
      var last := bounds[|bounds| - 1];
      if !last.aggregated && last.kind == kind then Some(last) else ByKind(bounds[..|bounds| - 1], kind)
  }

  /** A child side may cover more than the parent side, or everything; never less. */
  predicate SideKept(child: Option<seq<string>>, parent: Option<seq<string>>) {
    child.None? || (parent.Some? && Subset(parent.value, child.value))
  }

  predicate CeilingKept(child: Bound, parent: Bound) {
    child.unit == parent.unit && child.amount <= parent.amount && (parent.window.Some? ==> child.window == parent.window)
  }

  predicate CoverageKept(child: Bound, parent: Bound) {
    SideKept(child.actions, parent.actions) && SideKept(child.boundaries, parent.boundaries)
  }

  function BoundAxis(child: Option<Bound>, parent: Bound): Option<Axis> {
    if child.None? || !CeilingKept(child.value, parent) then Some(Bounds)
    else if !CoverageKept(child.value, parent) then Some(AppliesTo)
    else None
  }

  /** The first failing kind, in the order in which the parent lists its ordinary bounds. */
  function BoundsAxis(child: seq<Bound>, parent: seq<Bound>, todo: seq<Bound>): Option<Axis> {
    if todo == [] then None
    else
      var b := todo[0];
      var kept := if b.aggregated then None else ByKind(parent, b.kind);
      var axis := if kept.None? then None else BoundAxis(ByKind(child, b.kind), kept.value);
      if axis.Some? then axis else BoundsAxis(child, parent, todo[1..])
  }

  function Aggregates(bounds: seq<Bound>): (shared: seq<Bound>)
    ensures forall b :: b in shared <==> b in bounds && b.aggregated
  {
    if bounds == [] then []
    else
      assert forall b :: b in bounds <==> b == bounds[0] || b in bounds[1..];
      (if bounds[0].aggregated then [bounds[0]] else []) + Aggregates(bounds[1..])
  }

  predicate TextAtMost(a: string, b: string) {
    a == "" || (b != "" && (a[0] < b[0] || (a[0] == b[0] && TextAtMost(a[1..], b[1..]))))
  }

  function InsertByKind(b: Bound, sorted: seq<Bound>): (r: seq<Bound>)
    ensures multiset(r) == multiset(sorted) + multiset{b}
  {
    if sorted == [] || TextAtMost(b.kind, sorted[0].kind) then [b] + sorted
    else
      assert sorted == [sorted[0]] + sorted[1..];
      [sorted[0]] + InsertByKind(b, sorted[1..])
  }

  /** Every aggregated bound has the same scope, so the sort key comes down to the kind. */
  function SortByKind(bounds: seq<Bound>): (r: seq<Bound>)
    ensures multiset(r) == multiset(bounds)
  {
    if bounds == [] then []
    else
      assert bounds == [bounds[0]] + bounds[1..];
      InsertByKind(bounds[0], SortByKind(bounds[1..]))
  }

  predicate AggregatesKept(child: Delegation, parent: Delegation) {
    SortByKind(Aggregates(child.bounds)) == SortByKind(Aggregates(parent.bounds))
  }

  predicate QuorumNarrows(child: Delegation, parent: Delegation) {
    parent.quorum.Some? ==>
      && child.quorum.Some?
      && child.quorum.value.signers.contentHash == parent.quorum.value.signers.contentHash
      && child.quorum.value.threshold >= parent.quorum.value.threshold
  }

  predicate ToolsNarrow(child: Delegation, parent: Delegation) {
    parent.scopeTools != [] ==> child.scopeTools != [] && Subset(child.scopeTools, parent.scopeTools)
  }

  predicate LineageKept(child: Delegation, parent: Delegation) {
    (parent.entryHash.Some? || parent.ratificationHash.Some?) ==>
      child.entryHash == parent.entryHash && child.ratificationHash == parent.ratificationHash
  }

  predicate AudNarrows(child: Delegation, parent: Delegation) {
    parent.aud.Some? ==> child.aud.Some? && Subset(child.aud.value, parent.aud.value)
  }

  predicate RevocationAgeNarrows(child: Delegation, parent: Delegation) {
    parent.maxRevocationAgeMs.Some? ==>
      child.maxRevocationAgeMs.Some? && child.maxRevocationAgeMs.value <= parent.maxRevocationAgeMs.value
  }

  /** The first axis on which the child widens the parent, in the order of the checks. */
  function WideningAxis(norm: NormPath, child: Delegation, parent: Delegation): Option<Axis> {
    if !ActionsNarrow(child, parent) then Some(Actions)
    else if !PathsNarrow(norm, child, parent) then Some(Paths)
    else if !WindowsNarrow(child, parent) then Some(if parent.capabilities != [] then Capabilities else Time)
    else if !NamedSetNarrows(child, parent) then Some(NamedSet)
    else
      var bounds := BoundsAxis(child.bounds, parent.bounds, parent.bounds);
      if bounds.Some? then bounds
      else if !AggregatesKept(child, parent) then Some(AggregateBound)
      else if !QuorumNarrows(child, parent) then Some(Axis.Quorum)
      else if !ToolsNarrow(child, parent) then Some(Tools)
      else if !Subset(child.scopeDomains, parent.scopeDomains) then Some(Domains)
      else if !LineageKept(child, parent) then Some(Lineage)
      else if !AudNarrows(child, parent) then Some(Aud)
      else if !RevocationAgeNarrows(child, parent) then Some(RevocationAge)
      else if child.maxDepth > parent.maxDepth then Some(MaxDepth)
      else None
  }

  predicate Narrows(norm: NormPath, child: Delegation, parent: Delegation) {
    WideningAxis(norm, child, parent).None?
  }

  // ---------- the axes as one relation ----------

  /** For every kind that the parent bounds, the child has a bound that is at least as strict. */
  ghost predicate BoundsNarrow(child: seq<Bound>, parent: seq<Bound>) {
    forall kind :: ByKind(parent, kind).Some? ==> BoundAxis(ByKind(child, kind), ByKind(parent, kind).value).None?
  }

  /** Everything the comparison looks at besides the bounds. */
  ghost predicate ScopeNarrows(norm: NormPath, child: Delegation, parent: Delegation) {
    && ActionsNarrow(child, parent) && PathsNarrow(norm, child, parent) && WindowsNarrow(child, parent)
    && NamedSetNarrows(child, parent) && QuorumNarrows(child, parent) && ToolsNarrow(child, parent)
    && Subset(child.scopeDomains, parent.scopeDomains) && LineageKept(child, parent) && AudNarrows(child, parent)
    && RevocationAgeNarrows(child, parent) && child.maxDepth <= parent.maxDepth
  }

  lemma {:induction false} ByKindFinds(bounds: seq<Bound>, kind: string)
    ensures var found := ByKind(bounds, kind);
      && (found.Some? ==> found.value in bounds && !found.value.aggregated && found.value.kind == kind)
      && (found.None? ==> forall b <- bounds :: b.aggregated || b.kind != kind)
  {
    if bounds != [] {
      ByKindFinds(bounds[..|bounds| - 1], kind);
      assert bounds == bounds[..|bounds| - 1] + [bounds[|bounds| - 1]];
    }
  }

  lemma {:induction false} BoundsAxisMeans(child: seq<Bound>, parent: seq<Bound>, todo: seq<Bound>)
    ensures BoundsAxis(child, parent, todo).None? <==>
      forall b <- todo :: !b.aggregated && ByKind(parent, b.kind).Some? ==>
        BoundAxis(ByKind(child, b.kind), ByKind(parent, b.kind).value).None?
  {
    hide BoundAxis, ByKind;
    if todo != [] {
      BoundsAxisMeans(child, parent, todo[1..]);
      assert todo == [todo[0]] + todo[1..];
    }
  }

  lemma BoundsAxisIsBoundsNarrow(child: seq<Bound>, parent: seq<Bound>)
    ensures BoundsAxis(child, parent, parent).None? <==> BoundsNarrow(child, parent)
  {
    hide BoundAxis, ByKind, BoundsAxis;
    BoundsAxisMeans(child, parent, parent);
    if BoundsAxis(child, parent, parent).None? {
      forall kind | ByKind(parent, kind).Some? ensures BoundAxis(ByKind(child, kind), ByKind(parent, kind).value).None? {
        ByKindFinds(parent, kind);
      }
    }
  }

  /** No axis is named exactly when all fifteen comparisons hold. */
  lemma NarrowsMeans(norm: NormPath, child: Delegation, parent: Delegation)
    ensures Narrows(norm, child, parent)
       <==> ScopeNarrows(norm, child, parent) && BoundsNarrow(child.bounds, parent.bounds) && AggregatesKept(child, parent)
  {
    hide BoundsNarrow, AggregatesKept, BoundsAxis, WindowsNarrow, PathsNarrow, Subset;
    BoundsAxisIsBoundsNarrow(child.bounds, parent.bounds);
  }

  // ---------- narrowing is a preorder ----------

  lemma NarrowsReflexive(norm: NormPath, c: Delegation)
    ensures Narrows(norm, c, c)
  {
    NarrowsMeans(norm, c, c);
    forall p | p in c.scopePaths ensures exists q <- c.scopePaths :: Covers(norm, q, p) {
      assert Covers(norm, p, p);
    }
    forall action | action in c.scopeActions ensures WindowsNarrowFor(c, c, action) {
      forall w | w in GrantWindows(c, action) ensures exists v <- GrantWindows(c, action) :: Within(w, v) {
        assert Within(w, w);
      }
    }
  }

  lemma CoversTransitive(norm: NormPath, a: string, b: string, c: string)
    requires Covers(norm, a, b) && Covers(norm, b, c)
    ensures Covers(norm, a, c)
  {
  }

  lemma PathsTransitive(norm: NormPath, a: Delegation, b: Delegation, c: Delegation)
    requires PathsNarrow(norm, a, b) && PathsNarrow(norm, b, c)
    ensures PathsNarrow(norm, a, c)
  {
    hide Covers;
    forall p | p in a.scopePaths ensures exists r <- c.scopePaths :: Covers(norm, r, p) {
      var q :| q in b.scopePaths && Covers(norm, q, p);
      var r :| r in c.scopePaths && Covers(norm, r, q);
      CoversTransitive(norm, r, q, p);
    }
  }

  lemma WindowsTransitive(a: Delegation, b: Delegation, c: Delegation)
    requires ActionsNarrow(a, b) && WindowsNarrow(a, b) && WindowsNarrow(b, c)
    ensures WindowsNarrow(a, c)
  {
    hide GrantWindows;
    forall action | action in a.scopeActions ensures WindowsNarrowFor(a, c, action) {
      assert WindowsNarrowFor(a, b, action) && WindowsNarrowFor(b, c, action);
      forall w | w in GrantWindows(a, action) ensures exists u <- GrantWindows(c, action) :: Within(w, u) {
        var v :| v in GrantWindows(b, action) && Within(w, v);
        var u :| u in GrantWindows(c, action) && Within(v, u);
        assert Within(w, u);
      }
    }
  }

  lemma BoundsTransitive(a: seq<Bound>, b: seq<Bound>, c: seq<Bound>)
    requires BoundsNarrow(a, b) && BoundsNarrow(b, c)
    ensures BoundsNarrow(a, c)
  {
    hide ByKind;
    forall kind | ByKind(c, kind).Some? ensures BoundAxis(ByKind(a, kind), ByKind(c, kind).value).None? {
      assert ByKind(b, kind).Some?;
      assert BoundAxis(ByKind(a, kind), ByKind(b, kind).value).None?;
    }
  }

  lemma NarrowsTransitive(norm: NormPath, a: Delegation, b: Delegation, c: Delegation)
    requires Narrows(norm, a, b) && Narrows(norm, b, c)
    ensures Narrows(norm, a, c)
  {
    NarrowsMeans(norm, a, b);
    NarrowsMeans(norm, b, c);
    NarrowsMeans(norm, a, c);
    hide Narrows, PathsNarrow, WindowsNarrow, BoundsNarrow, AggregatesKept;
    PathsTransitive(norm, a, b, c);
    WindowsTransitive(a, b, c);
    BoundsTransitive(a.bounds, b.bounds, c.bounds);
    AggregatesTransitive(a, b, c);
  }

  lemma AggregatesTransitive(a: Delegation, b: Delegation, c: Delegation)
    requires AggregatesKept(a, b) && AggregatesKept(b, c)
    ensures AggregatesKept(a, c)
  {
  }

  // ---------- narrowing is containment ----------

  /** One use of a grant: an action at an instant on a path, in a domain, through a tool, at an enforcement point. */
  datatype Use = Use(action: string, at: int, path: string, domain: string, tool: string, point: string)

  ghost predicate Grants(norm: NormPath, c: Delegation, u: Use) {
    && (exists w <- GrantWindows(c, u.action) :: InWindow(u.at, w))
    && (exists p <- c.scopePaths :: Covers(norm, p, u.path))
    && u.domain in c.scopeDomains
    && (c.scopeTools == [] || u.tool in c.scopeTools)
    && (c.aud.None? || u.point in c.aud.value)
  }

  lemma WindowNamesScopedAction(c: Delegation, action: string, w: (int, int))
    requires WellFormed(c) && w in GrantWindows(c, action)
    ensures action in c.scopeActions && c.nbf <= w.0 && w.1 <= c.exp
  {
    if c.capabilities != [] {
      var cap :| cap in c.capabilities && action in cap.actions && w == (cap.nbf, cap.exp);
      assert WellFormedCapability(cap, c.scopeActions, c.nbf, c.exp);
    }
  }

  /** Whatever a narrower grant allows, the wider one allows. */
  lemma NarrowingIsContainment(norm: NormPath, child: Delegation, parent: Delegation, u: Use)
    requires Narrows(norm, child, parent) && WellFormed(child) && Grants(norm, child, u)
    ensures Grants(norm, parent, u)
  {
    NarrowsMeans(norm, child, parent);
    hide GrantWindows, Narrows, Covers, WellFormed;
    var w :| w in GrantWindows(child, u.action) && InWindow(u.at, w);
    WindowNamesScopedAction(child, u.action, w);
    assert WindowsNarrowFor(child, parent, u.action);
    var v :| v in GrantWindows(parent, u.action) && Within(w, v);
    assert InWindow(u.at, v);
    var p :| p in child.scopePaths && Covers(norm, p, u.path);
    var q :| q in parent.scopePaths && Covers(norm, q, p);
    CoversTransitive(norm, q, p, u.path);
  }
}
