/** Parsed delegation claims, and the well-formedness that the claim parser establishes. */
module Claims {
  import opened Prelude

  /** One signed accounting period, or the first of a sequence of them that repeats from the epoch on. */
  datatype Window = Window(epoch: string, durationMs: int, repeating: bool)

  /**
   A ceiling on one kind of quantity. An aggregated bound is shared by every grant of one authority
   entry; an ordinary one is the grant's own. Absent actions or boundaries mean everywhere.
   */
  datatype Bound = Bound(
    kind: string,
    unit: string,
    amount: nat,
    window: Option<Window>,
    aggregated: bool,
    actions: Option<seq<string>>,
    boundaries: Option<seq<string>>)

  datatype SetRef = SetRef(name: string, contentHash: string, version: nat)
  datatype Quorum = Quorum(signers: SetRef, threshold: int)
  datatype Capability = Capability(actions: seq<string>, nbf: int, exp: int)

  datatype Delegation = Delegation(
    jti: string,
    sub: string,
    scopeActions: seq<string>,
    scopePaths: seq<string>,
    nbf: int,
    exp: int,
    scopeTools: seq<string>,
    scopeDomains: seq<string>,
    parentJti: Option<string>,
    chainDepth: nat,
    maxDepth: nat,
    capabilities: seq<Capability>,
    namedSet: Option<SetRef>,
    bounds: seq<Bound>,
    quorum: Option<Quorum>,
    entryHash: Option<string>,
    ratificationHash: Option<string>,
    aud: Option<seq<string>>,
    maxRevocationAgeMs: Option<int>)

  predicate Subset(a: seq<string>, b: seq<string>) {
    forall x <- a :: x in b
  }

  /** One bound per kind and scope. */
  predicate DistinctKinds(bounds: seq<Bound>) {
    forall i, j :: 0 <= i < j < |bounds| ==> bounds[i].kind != bounds[j].kind || bounds[i].aggregated != bounds[j].aggregated
  }

  predicate WellFormedBound(b: Bound, scopeActions: seq<string>) {
    && (b.window.Some? ==> b.window.value.epoch != "" && b.window.value.durationMs > 0)
    && (b.aggregated ==> b.window.Some?)
    && (b.actions.Some? ==> b.actions.value != [] && Subset(b.actions.value, scopeActions))
    && (b.boundaries.Some? ==> b.boundaries.value != [])
  }

  predicate WellFormedBounds(bounds: seq<Bound>, scopeActions: seq<string>) {
    DistinctKinds(bounds) && forall b <- bounds :: WellFormedBound(b, scopeActions)
  }

  predicate WellFormedCapability(c: Capability, scopeActions: seq<string>, nbf: int, exp: int) {
    c.actions != [] && Subset(c.actions, scopeActions) && nbf <= c.nbf <= c.exp <= exp
  }

  predicate WellFormed(c: Delegation) {
    && WellFormedBounds(c.bounds, c.scopeActions)
    && (forall cap <- c.capabilities :: WellFormedCapability(cap, c.scopeActions, c.nbf, c.exp))
    && c.scopeDomains != []
    && (c.entryHash.Some? <==> c.ratificationHash.Some?)
    && ((exists b <- c.bounds :: b.aggregated) ==> c.entryHash.Some?)
    && c.aud != Some([])
    && (c.maxRevocationAgeMs.Some? ==> c.maxRevocationAgeMs.value > 0)
    && (c.quorum.Some? ==> c.quorum.value.threshold > 0)
  }
}
