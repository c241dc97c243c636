/** The walk from a leaf delegation to its root, and what an accepted chain guarantees end to end. */
module DelegationChain {
  import opened Prelude
  import opened Claims
  import opened Attenuation

  const MAX_VERIFICATION_CHAIN_DEPTH: nat := 64

  /** `parse` verifies a token's signature and claim shape; `refused` is the caller's status check of parent `i`. */
  datatype Verifier = Verifier(norm: NormPath, parse: string -> Option<Delegation>, refused: (nat, Delegation) -> bool)

  /** Legacy receipts only asked that a parent's scope names the right to delegate. */
  datatype Rule = Legacy | Current

  datatype Refusal =
    | ResourceLimit
    | AncestryTooLong
    | IncompleteChain
    | DepthMismatch
    | UnexpectedParent(i: nat)
    | SignatureInvalid(i: nat)
    | OutsideWindow(i: nat)
    | ParentJtiMismatch(i: nat)
    | DepthDiscontinuity(i: nat)
    | ScopeWidening(i: nat, axis: Axis)
    | StatusRefused(i: nat)
    | LacksDelegate(i: nat)
    | NoRoot

  datatype ChainResult = ChainResult(valid: bool, depth: int, depthExceeded: bool, reason: Option<Refusal>, parents: seq<Delegation>)

  function Refused(reason: Refusal, depth: int, verified: seq<Delegation>): ChainResult {
    ChainResult(false, depth, false, Some(reason), verified)
  }

  predicate HoldsDelegate(parent: Delegation, at: int, rule: Rule) {
    if rule == Legacy then "delegate" in parent.scopeActions else HoldsRight(parent, "delegate", at)
  }

  /** Why a verified parent does not continue the chain, and the depth that the refusal reports. */
  function AncestryFailure(i: nat, leaf: Delegation, current: Delegation, parent: Delegation, at: int): Option<(Refusal, int)> {
    if at < parent.nbf || at > parent.exp then Some((OutsideWindow(i), current.chainDepth))
    else if current.parentJti.Some? && current.parentJti != Some(parent.jti) then Some((ParentJtiMismatch(i), current.chainDepth))
    else if parent.chainDepth != current.chainDepth - 1 then Some((DepthDiscontinuity(i), leaf.chainDepth))
    else None
  }

  /** The rest of the walk, from the point where `current` is the last delegation examined. */
  function WalkFrom(
    v: Verifier, rule: Rule, at: int, leaf: Delegation, current: Delegation, tokens: seq<string>, verified: seq<Delegation>): ChainResult
    requires |verified| <= |tokens|
    decreases |tokens| - |verified|
  {
    var i := |verified|;
    if i == |tokens| then
      if current.parentJti.Some? || current.chainDepth != 0 then Refused(NoRoot, leaf.chainDepth, verified)
      else ChainResult(true, leaf.chainDepth, leaf.chainDepth > leaf.maxDepth, None, verified)
    else if current.parentJti.None? then Refused(UnexpectedParent(i), leaf.chainDepth, verified)
    else match v.parse(tokens[i])
      case None => Refused(SignatureInvalid(i), current.chainDepth, verified)
      case Some(parent) =>
        match AncestryFailure(i, leaf, current, parent, at)
        case Some((reason, depth)) => Refused(reason, depth, verified)
        case None =>
          match WideningAxis(v.norm, current, parent)
          case Some(axis) => Refused(ScopeWidening(i, axis), current.chainDepth, verified + [parent])
          case None =>
            if v.refused(i, parent) then Refused(StatusRefused(i), current.chainDepth, verified + [parent])
            else if !HoldsDelegate(parent, at, rule) then Refused(LacksDelegate(i), current.chainDepth, verified + [parent])
            else WalkFrom(v, rule, at, leaf, parent, tokens, verified + [parent])
  }

  function Walk(v: Verifier, rule: Rule, at: int, leaf: Delegation, tokens: seq<string>): ChainResult {
    if leaf.chainDepth > MAX_VERIFICATION_CHAIN_DEPTH then Refused(ResourceLimit, leaf.chainDepth, [])
    else if |tokens| > MAX_VERIFICATION_CHAIN_DEPTH then Refused(AncestryTooLong, leaf.chainDepth, [])
    else if tokens == [] then
      if leaf.parentJti.Some? || leaf.chainDepth != 0 then Refused(IncompleteChain, leaf.chainDepth, [])
      else ChainResult(true, leaf.chainDepth, false, None, [])
    else if |tokens| != leaf.chainDepth then Refused(DepthMismatch, leaf.chainDepth, [])
    else WalkFrom(v, rule, at, leaf, leaf, tokens, [])
  }

  method WalkDelegationChain(v: Verifier, rule: Rule, at: int, leaf: Delegation, tokens: seq<string>) returns (result: ChainResult)
    ensures result == Walk(v, rule, at, leaf, tokens)
  {
    var verified: seq<Delegation> := [];
    if leaf.chainDepth > MAX_VERIFICATION_CHAIN_DEPTH {
      return Refused(ResourceLimit, leaf.chainDepth, verified);
    }
    if |tokens| > MAX_VERIFICATION_CHAIN_DEPTH {
      return Refused(AncestryTooLong, leaf.chainDepth, verified);
    }
    if tokens == [] {
      if leaf.parentJti.Some? || leaf.chainDepth != 0 {
        return Refused(IncompleteChain, leaf.chainDepth, verified);
      }
      return ChainResult(true, leaf.chainDepth, false, None, verified);
    }
    if |tokens| != leaf.chainDepth {
      return Refused(DepthMismatch, leaf.chainDepth, verified);
    }
    hide WideningAxis, AncestryFailure, HoldsDelegate;
    var current := leaf;
    for i := 0 to |tokens|
      invariant |verified| == i
      invariant Walk(v, rule, at, leaf, tokens) == WalkFrom(v, rule, at, leaf, current, tokens, verified)
    {
      if current.parentJti.None? {
        return Refused(UnexpectedParent(i), leaf.chainDepth, verified);
      }
      var parsed := v.parse(tokens[i]);
      if parsed.None? {
        return Refused(SignatureInvalid(i), current.chainDepth, verified);
      }
      var parent := parsed.value;
      var failure := AncestryFailure(i, leaf, current, parent, at);
      if failure.Some? {
        return Refused(failure.value.0, failure.value.1, verified);
      }
      verified := verified + [parent];
      var axis := WideningAxis(v.norm, current, parent);
      if axis.Some? {
        return Refused(ScopeWidening(i, axis.value), current.chainDepth, verified);
      }
      if v.refused(i, parent) {
        return Refused(StatusRefused(i), current.chainDepth, verified);
      }
      if !HoldsDelegate(parent, at, rule) {
        return Refused(LacksDelegate(i), current.chainDepth, verified);
      }
      current := parent;
    }
    if current.parentJti.Some? || current.chainDepth != 0 {
      return Refused(NoRoot, leaf.chainDepth, verified);
    }
    result := ChainResult(true, leaf.chainDepth, leaf.chainDepth > leaf.maxDepth, None, verified);
  }

  // ---------- the declarative chain ----------

  /**
   The parent may delegate at that moment: under the legacy rule its scope names "delegate", and under the current one a
   structured grant needs a capability that names it and holds then, while a flat grant needs it in its scope.
   */
  ghost predicate MayDelegate(c: Delegation, at: int, rule: Rule) {
    match rule
    case Legacy => "delegate" in c.scopeActions
    case Current =>
      if c.capabilities == [] then "delegate" in c.scopeActions
      else exists cap <- c.capabilities :: "delegate" in cap.actions && cap.nbf <= at <= cap.exp
  }

  lemma DelegateRightIsExact(c: Delegation, at: int, rule: Rule)
    ensures HoldsDelegate(c, at, rule) <==> MayDelegate(c, at, rule)
  {
    if rule.Current? && c.capabilities != [] && MayDelegate(c, at, rule) {
      var cap :| cap in c.capabilities && "delegate" in cap.actions && cap.nbf <= at <= cap.exp;
      assert (cap.nbf, cap.exp) in GrantWindows(c, "delegate") && InWindow(at, (cap.nbf, cap.exp));
    }
  }

  /** `parent` may stand directly above `child` at moment `at`. */
  ghost predicate Continues(v: Verifier, rule: Rule, at: int, i: nat, child: Delegation, parent: Delegation) {
    && child.parentJti == Some(parent.jti) && parent.chainDepth == child.chainDepth - 1
    && parent.nbf <= at <= parent.exp
    && Narrows(v.norm, child, parent)
    && !v.refused(i, parent) && MayDelegate(parent, at, rule)
  }

  /** The delegations above `current`, nearest first: each continues the one below it, and the topmost is a root. */
  ghost predicate Ascends(v: Verifier, rule: Rule, at: int, i: nat, current: Delegation, above: seq<Delegation>)
    decreases |above|
  {
    if above == [] then current.parentJti.None? && current.chainDepth == 0
    else Continues(v, rule, at, i, current, above[0]) && Ascends(v, rule, at, i + 1, above[0], above[1..])
  }

  ghost predicate IsChain(v: Verifier, rule: Rule, at: int, leaf: Delegation, parents: seq<Delegation>) {
    |parents| <= MAX_VERIFICATION_CHAIN_DEPTH && Ascends(v, rule, at, 0, leaf, parents)
  }

  ghost predicate Parses(v: Verifier, tokens: seq<string>, parents: seq<Delegation>) {
    |parents| == |tokens| && forall i :: 0 <= i < |tokens| ==> v.parse(tokens[i]) == Some(parents[i])
  }

  lemma {:induction false} WalkFromAccepts(
    v: Verifier, rule: Rule, at: int, leaf: Delegation, current: Delegation, tokens: seq<string>, verified: seq<Delegation>)
    requires |verified| <= |tokens|
    ensures var r := WalkFrom(v, rule, at, leaf, current, tokens, verified);
      r.valid ==>
        && verified <= r.parents && Parses(v, tokens[|verified|..], r.parents[|verified|..])
        && Ascends(v, rule, at, |verified|, current, r.parents[|verified|..])
        && r == ChainResult(true, leaf.chainDepth, leaf.chainDepth > leaf.maxDepth, None, r.parents)
    decreases |tokens| - |verified|
  {
    hide WideningAxis, HoldsDelegate, MayDelegate;
    var n := |verified|;
    if n < |tokens| && v.parse(tokens[n]).Some? {
      var parent := v.parse(tokens[n]).value;
      DelegateRightIsExact(parent, at, rule);
      WalkFromAccepts(v, rule, at, leaf, parent, tokens, verified + [parent]);
      var r := WalkFrom(v, rule, at, leaf, current, tokens, verified);
      if r.valid {
        assert r.parents[n] == parent;
        assert r.parents[n..] == [parent] + r.parents[n + 1..];
        assert tokens[n..] == [tokens[n]] + tokens[n + 1..];
      }
    }
  }

  lemma {:induction false} WalkFromComplete(
    v: Verifier, rule: Rule, at: int, leaf: Delegation, current: Delegation, tokens: seq<string>, verified: seq<Delegation>, above: seq<Delegation>)
    requires |verified| <= |tokens| && Parses(v, tokens[|verified|..], above)
    requires Ascends(v, rule, at, |verified|, current, above)
    ensures WalkFrom(v, rule, at, leaf, current, tokens, verified)
         == ChainResult(true, leaf.chainDepth, leaf.chainDepth > leaf.maxDepth, None, verified + above)
    decreases |above|
  {
    hide WideningAxis, HoldsDelegate, MayDelegate;
    var n := |verified|;
    if above == [] {
      assert verified + above == verified;
    } else {
      DelegateRightIsExact(above[0], at, rule);
      assert v.parse(tokens[n..][0]) == Some(above[0]);
      assert tokens[n..][1..] == tokens[n + 1..];
      WalkFromComplete(v, rule, at, leaf, above[0], tokens, verified + [above[0]], above[1..]);
      assert verified + [above[0]] + above[1..] == verified + above;
    }
  }

  lemma {:induction false} DepthCountsAncestors(v: Verifier, rule: Rule, at: int, i: nat, current: Delegation, above: seq<Delegation>)
    requires Ascends(v, rule, at, i, current, above)
    ensures current.chainDepth == |above|
    decreases |above|
  {
    hide Narrows, MayDelegate;
    if above != [] {
      DepthCountsAncestors(v, rule, at, i + 1, above[0], above[1..]);
    }
  }

  /** The walk accepts exactly the declarative chains, and returns their parents in order. */
  lemma WalkIsExact(v: Verifier, rule: Rule, at: int, leaf: Delegation, tokens: seq<string>)
    ensures var r := Walk(v, rule, at, leaf, tokens);
      && (r.valid ==> Parses(v, tokens, r.parents) && IsChain(v, rule, at, leaf, r.parents))
      && (forall parents :: Parses(v, tokens, parents) && IsChain(v, rule, at, leaf, parents) ==>
            r == ChainResult(true, |tokens|, leaf.chainDepth > leaf.maxDepth, None, parents))
  {
    hide Continues, WalkFrom;
    WalkFromAccepts(v, rule, at, leaf, leaf, tokens, []);
    assert tokens[0..] == tokens;
    forall parents | Parses(v, tokens, parents) && IsChain(v, rule, at, leaf, parents)
      ensures Walk(v, rule, at, leaf, tokens) == ChainResult(true, |tokens|, leaf.chainDepth > leaf.maxDepth, None, parents)
    {
      DepthCountsAncestors(v, rule, at, 0, leaf, parents);
      WalkFromComplete(v, rule, at, leaf, leaf, tokens, [], parents);
      assert [] + parents == parents;
    }
    var r := Walk(v, rule, at, leaf, tokens);
    assert r.valid ==> r.parents[0..] == r.parents;
  }

  // ---------- refusals ----------

  /** The delegations that continue each other upwards from `current`, root or not. */
  ghost predicate Climbs(v: Verifier, rule: Rule, at: int, i: nat, current: Delegation, above: seq<Delegation>)
    decreases |above|
  {
    above == [] || (Continues(v, rule, at, i, current, above[0]) && Climbs(v, rule, at, i + 1, above[0], above[1..]))
  }

  function Topmost(current: Delegation, above: seq<Delegation>): Delegation {
    if above == [] then current else above[|above| - 1]
  }

  /** The token at position `i` cannot stand above `current`, for this reason and for none that is looked at before it. */
  ghost predicate Stops(v: Verifier, rule: Rule, at: int, i: nat, current: Delegation, token: string, reason: Refusal) {
    if current.parentJti.None? then reason == UnexpectedParent(i)
    else if v.parse(token).None? then reason == SignatureInvalid(i)
    else
      var p := v.parse(token).value;
      match reason
      case OutsideWindow(j) => j == i && !(p.nbf <= at <= p.exp)
      case ParentJtiMismatch(j) => j == i && p.nbf <= at <= p.exp && current.parentJti != Some(p.jti)
      case DepthDiscontinuity(j) => j == i && p.nbf <= at <= p.exp && current.parentJti == Some(p.jti) && p.chainDepth != current.chainDepth - 1
      case ScopeWidening(j, axis) => j == i && IsNext(at, current, p) && WideningAxis(v.norm, current, p) == Some(axis)
      case StatusRefused(j) => j == i && IsNext(at, current, p) && Narrows(v.norm, current, p) && v.refused(i, p)
      case LacksDelegate(j) =>
        j == i && IsNext(at, current, p) && Narrows(v.norm, current, p) && !v.refused(i, p) && !MayDelegate(p, at, rule)
      case _ => false
  }

  /** In its window at that moment, named by the delegation below it, and one step less deep. */
  predicate IsNext(at: int, current: Delegation, p: Delegation) {
    p.nbf <= at <= p.exp && current.parentJti == Some(p.jti) && p.chainDepth == current.chainDepth - 1
  }

  /** A refused parent was verified once its signature, window, link and depth were. */
  predicate CountsAsVerified(reason: Refusal) {
    reason.ScopeWidening? || reason.StatusRefused? || reason.LacksDelegate?
  }

  lemma StopRefuses(
    v: Verifier, rule: Rule, at: int, leaf: Delegation, current: Delegation, tokens: seq<string>, verified: seq<Delegation>, reason: Refusal)
    requires |verified| < |tokens| && Stops(v, rule, at, |verified|, current, tokens[|verified|], reason)
    ensures WalkFrom(v, rule, at, leaf, current, tokens, verified)
         == Refused(
              reason,
              if reason.UnexpectedParent? || reason.DepthDiscontinuity? then leaf.chainDepth else current.chainDepth,
              if CountsAsVerified(reason) then verified + [v.parse(tokens[|verified|]).value] else verified)
  {
    hide WideningAxis, HoldsDelegate, MayDelegate;
    if v.parse(tokens[|verified|]).Some? {
      DelegateRightIsExact(v.parse(tokens[|verified|]).value, at, rule);
    }
  }

  lemma {:induction false} ClimbIsWalked(
    v: Verifier, rule: Rule, at: int, leaf: Delegation, current: Delegation, tokens: seq<string>, verified: seq<Delegation>, above: seq<Delegation>)
    requires |verified| + |above| <= |tokens| && Parses(v, tokens[|verified|..|verified| + |above|], above)
    requires Climbs(v, rule, at, |verified|, current, above)
    ensures WalkFrom(v, rule, at, leaf, current, tokens, verified)
         == WalkFrom(v, rule, at, leaf, Topmost(current, above), tokens, verified + above)
    decreases |above|
  {
    hide WideningAxis, HoldsDelegate, MayDelegate;
    var n := |verified|;
    if above == [] {
      assert verified + above == verified;
    } else {
      DelegateRightIsExact(above[0], at, rule);
      var part := tokens[n..n + |above|];
      assert v.parse(part[0]) == Some(above[0]) && part[1..] == tokens[n + 1..n + |above|];
      ClimbIsWalked(v, rule, at, leaf, above[0], tokens, verified + [above[0]], above[1..]);
      assert verified + [above[0]] + above[1..] == verified + above;
    }
  }

  /**
   A walk over parents that continue each other is refused at the first token that cannot follow: with the reason that
   applies there, the depth that this reason reports, and the parents verified up to it. A parent without the right to
   delegate is one such token.
   */
  lemma WalkStopsWhereItFails(
    v: Verifier, rule: Rule, at: int, leaf: Delegation, tokens: seq<string>, above: seq<Delegation>, reason: Refusal)
    requires |above| < |tokens| == leaf.chainDepth <= MAX_VERIFICATION_CHAIN_DEPTH
    requires Parses(v, tokens[..|above|], above) && Climbs(v, rule, at, 0, leaf, above)
    requires Stops(v, rule, at, |above|, Topmost(leaf, above), tokens[|above|], reason)
    ensures Walk(v, rule, at, leaf, tokens)
         == Refused(
              reason,
              if reason.UnexpectedParent? || reason.DepthDiscontinuity? then leaf.chainDepth else Topmost(leaf, above).chainDepth,
              if CountsAsVerified(reason) then above + [v.parse(tokens[|above|]).value] else above)
  {
    hide WalkFrom, Stops, Climbs;
    assert tokens[0..0 + |above|] == tokens[..|above|] && [] + above == above;
    ClimbIsWalked(v, rule, at, leaf, leaf, tokens, [], above);
    StopRefuses(v, rule, at, leaf, Topmost(leaf, above), tokens, above, reason);
  }

  /** The delegations continue each other, but the topmost is not a root. */
  ghost predicate EndsBelowRoot(v: Verifier, rule: Rule, at: int, leaf: Delegation, above: seq<Delegation>) {
    Climbs(v, rule, at, 0, leaf, above) && (Topmost(leaf, above).parentJti.Some? || Topmost(leaf, above).chainDepth != 0)
  }

  /** Before any token is looked at, and after all of them, the walk asks for depths within the limit and for a root. */
  lemma WalkAsksForWholeAncestry(v: Verifier, rule: Rule, at: int, leaf: Delegation, tokens: seq<string>, above: seq<Delegation>)
    ensures leaf.chainDepth > 64 ==> Walk(v, rule, at, leaf, tokens) == Refused(ResourceLimit, leaf.chainDepth, [])
    ensures leaf.chainDepth <= 64 < |tokens| ==> Walk(v, rule, at, leaf, tokens) == Refused(AncestryTooLong, leaf.chainDepth, [])
    ensures leaf.chainDepth <= 64 && tokens == [] && !(leaf.parentJti.None? && leaf.chainDepth == 0) ==>
      Walk(v, rule, at, leaf, tokens) == Refused(IncompleteChain, leaf.chainDepth, [])
    ensures leaf.chainDepth <= 64 && 0 < |tokens| <= 64 && |tokens| != leaf.chainDepth ==>
      Walk(v, rule, at, leaf, tokens) == Refused(DepthMismatch, leaf.chainDepth, [])
    ensures 0 < |tokens| == leaf.chainDepth <= 64 && Parses(v, tokens, above) && EndsBelowRoot(v, rule, at, leaf, above) ==>
      Walk(v, rule, at, leaf, tokens) == Refused(NoRoot, leaf.chainDepth, above)
  {
    hide Climbs;
    if 0 < |tokens| == leaf.chainDepth <= 64 && Parses(v, tokens, above) && EndsBelowRoot(v, rule, at, leaf, above) {
      assert tokens[0..0 + |above|] == tokens && [] + above == above;
      ClimbIsWalked(v, rule, at, leaf, leaf, tokens, [], above);
    }
  }

  // ---------- end to end ----------

  /** Every delegation of a chain narrows every one above it. */
  lemma {:induction false} NarrowsEveryAncestor(
    v: Verifier, rule: Rule, at: int, i: nat, current: Delegation, above: seq<Delegation>, ancestor: Delegation)
    requires Ascends(v, rule, at, i, current, above) && ancestor in above
    ensures Narrows(v.norm, current, ancestor)
    decreases |above|
  {
    hide Narrows, MayDelegate;
    if ancestor != above[0] {
      NarrowsEveryAncestor(v, rule, at, i + 1, above[0], above[1..], ancestor);
      NarrowsTransitive(v.norm, current, above[0], ancestor);
    }
  }

  /** What the leaf of an accepted chain grants, every ancestor grants. */
  lemma LeafGrantsAreAncestorGrants(
    v: Verifier, rule: Rule, at: int, leaf: Delegation, tokens: seq<string>, ancestor: Delegation, u: Use)
    requires Walk(v, rule, at, leaf, tokens).valid && ancestor in Walk(v, rule, at, leaf, tokens).parents
    requires WellFormed(leaf) && Grants(v.norm, leaf, u)
    ensures Grants(v.norm, ancestor, u)
  {
    hide Narrows, Walk, WellFormed, Grants, Ascends;
    WalkIsExact(v, rule, at, leaf, tokens);
    NarrowsEveryAncestor(v, rule, at, 0, leaf, Walk(v, rule, at, leaf, tokens).parents, ancestor);
    NarrowingIsContainment(v.norm, leaf, ancestor, u);
  }

  /** Unless the depth is exceeded, the leaf is no deeper than any ancestor allows. */
  lemma LeafDepthIsAllowedByAncestors(v: Verifier, rule: Rule, at: int, leaf: Delegation, tokens: seq<string>, ancestor: Delegation)
    requires Walk(v, rule, at, leaf, tokens).valid && ancestor in Walk(v, rule, at, leaf, tokens).parents
    requires !Walk(v, rule, at, leaf, tokens).depthExceeded
    ensures leaf.chainDepth == |tokens| <= ancestor.maxDepth
  {
    hide Narrows, Walk, Ascends;
    WalkIsExact(v, rule, at, leaf, tokens);
    var parents := Walk(v, rule, at, leaf, tokens).parents;
    DepthCountsAncestors(v, rule, at, 0, leaf, parents);
    NarrowsEveryAncestor(v, rule, at, 0, leaf, parents, ancestor);
    NarrowsMeans(v.norm, leaf, ancestor);
  }

  lemma {:induction false} CurrentChainsAreLegacyChains(v: Verifier, at: int, i: nat, current: Delegation, above: seq<Delegation>)
    requires Ascends(v, Current, at, i, current, above) && forall c <- above :: WellFormed(c)
    ensures Ascends(v, Legacy, at, i, current, above)
    decreases |above|
  {
    hide Narrows, WellFormed, MayDelegate;
    if above != [] {
      RightIsInScope(above[0], at);
      CurrentChainsAreLegacyChains(v, at, i + 1, above[0], above[1..]);
    }
  }

  lemma LegacyWalkAcceptsCurrentChains(v: Verifier, at: int, leaf: Delegation, tokens: seq<string>)
    requires Walk(v, Current, at, leaf, tokens).valid
    requires forall t :: v.parse(t).Some? ==> WellFormed(v.parse(t).value)
    ensures Walk(v, Legacy, at, leaf, tokens) == Walk(v, Current, at, leaf, tokens)
  {
    hide Walk, WellFormed, Ascends;
    WalkIsExact(v, Current, at, leaf, tokens);
    WalkIsExact(v, Legacy, at, leaf, tokens);
    CurrentChainsAreLegacyChains(v, at, 0, leaf, Walk(v, Current, at, leaf, tokens).parents);
  }

  lemma RightIsInScope(c: Delegation, at: int)
    requires WellFormed(c) && MayDelegate(c, at, Current)
    ensures MayDelegate(c, at, Legacy)
  {
    if c.capabilities != [] {
      var cap :| cap in c.capabilities && "delegate" in cap.actions && cap.nbf <= at <= cap.exp;
      assert WellFormedCapability(cap, c.scopeActions, c.nbf, c.exp);
    }
  }

  // ---------- replaying a recorded rule ----------

  datatype ReplayResult = Replayed(result: ChainResult, applied: Rule) | Unsupported(depth: int) {
    predicate IsValid() {
      Replayed? && result.valid
    }
  }

  const LEGACY_CHAIN_RULE_VERSION := "1"
  const CHAIN_RULE_VERSION := "2"

  /** A receipt from before rules had versions replays under the legacy rule; an unknown version runs no rule. */
  function ReplayDelegationChain(v: Verifier, recorded: Option<string>, at: int, leaf: Delegation, tokens: seq<string>): ReplayResult {
    if recorded.None? || recorded.value == LEGACY_CHAIN_RULE_VERSION then Replayed(Walk(v, Legacy, at, leaf, tokens), Legacy)
    else if recorded.value == CHAIN_RULE_VERSION then Replayed(Walk(v, Current, at, leaf, tokens), Current)
    else Unsupported(leaf.chainDepth)
  }

  /** A receipt of this version, or of none, is replayed under some rule. */
  predicate IsSupported(recorded: Option<string>) {
    recorded.Some? ==> recorded.value == LEGACY_CHAIN_RULE_VERSION || recorded.value == CHAIN_RULE_VERSION
  }

  /**
   The current rule only adds to the legacy one: a chain that replays under the current rule replays under
   every supported version, with the same result. Under an unknown version no chain is valid, whatever it is.
   */
  lemma LegacyAcceptsCurrentChains(v: Verifier, recorded: Option<string>, at: int, leaf: Delegation, tokens: seq<string>)
    requires forall t :: v.parse(t).Some? ==> WellFormed(v.parse(t).value)
    ensures var current := ReplayDelegationChain(v, Some(CHAIN_RULE_VERSION), at, leaf, tokens);
      var replayed := ReplayDelegationChain(v, recorded, at, leaf, tokens);
      && (IsSupported(recorded) && current.IsValid() ==> replayed.IsValid() && replayed.result == current.result)
      && (!IsSupported(recorded) ==> !replayed.IsValid())
  {
    hide Walk, WellFormed;
    if Walk(v, Current, at, leaf, tokens).valid {
      LegacyWalkAcceptsCurrentChains(v, at, leaf, tokens);
    }
  }
}
