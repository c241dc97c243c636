/** Signed slips end to end: what holds of every accepted chain once its claims come through the claim grammar. */
module SignedChains {
  import opened Prelude
  import opened Claims
  import opened ClaimShapes
  import opened Attenuation
  import opened DelegationChain
  import opened Accounts

  /** The claims of a slip whose signature verifies; None for every other token. */
  type Signed = string -> Option<RawClaims>

  function ParseSlip(g: Grammar, signed: Signed, token: string): Option<Delegation> {
    var raw :- signed(token);
    ParsedDelegation(g, raw, false)
  }

  function SlipVerifier(norm: NormPath, g: Grammar, signed: Signed, refused: (nat, Delegation) -> bool): Verifier {
    Verifier(norm, token => ParseSlip(g, signed, token), refused)
  }

  lemma SlipsAreWellFormed(g: Grammar, signed: Signed, token: string)
    ensures ParseSlip(g, signed, token).Some? ==> WellFormed(ParseSlip(g, signed, token).value)
  {
    hide ParsedDelegation, WellFormed;
    if signed(token).Some? {
      ParsedIsWellFormed(g, signed(token).value);
    }
  }

  lemma VerifierSlipsAreWellFormed(norm: NormPath, g: Grammar, signed: Signed, refused: (nat, Delegation) -> bool)
    ensures var v := SlipVerifier(norm, g, signed, refused); forall t :: v.parse(t).Some? ==> WellFormed(v.parse(t).value)
  {
    hide ParseSlip, WellFormed;
    forall t ensures ParseSlip(g, signed, t).Some? ==> WellFormed(ParseSlip(g, signed, t).value) {
      SlipsAreWellFormed(g, signed, t);
    }
  }

  /**
   What an accepted chain of signed slips amounts to, with no further hypothesis. Its accounts never
   contradict each other. Each ancestor grants every use that the leaf grants, and admits every spending
   that the leaf admits.
   */
  lemma AcceptedSlips(
    norm: NormPath, g: Grammar, signed: Signed, refused: (nat, Delegation) -> bool,
    rule: Rule, at: int, leafToken: string, tokens: seq<string>, action: string, boundary: string)
    requires ParseSlip(g, signed, leafToken).Some? && action != "" && boundary != ""
    requires Walk(SlipVerifier(norm, g, signed, refused), rule, at, ParseSlip(g, signed, leafToken).value, tokens).valid
    ensures var leaf := ParseSlip(g, signed, leafToken).value;
      var parents := Walk(SlipVerifier(norm, g, signed, refused), rule, at, leaf, tokens).parents;
      && RequiredRows([leaf] + parents, action, boundary)
         == Ok(OrdinaryRows([leaf] + parents, action, boundary) + SharedRows(leaf, action, boundary))
      && forall ancestor <- parents ::
        && (forall u :: Grants(norm, leaf, u) ==> Grants(norm, ancestor, u))
        && (forall spent :: Admits(leaf, action, boundary, spent) ==> Admits(ancestor, action, boundary, spent))
  {
    hide Walk, WellFormed, Grants, Admits, ParseSlip, RequiredRows, OrdinaryRows, SharedRows;
    var v, leaf := SlipVerifier(norm, g, signed, refused), ParseSlip(g, signed, leafToken).value;
    SlipsAreWellFormed(g, signed, leafToken);
    VerifierSlipsAreWellFormed(norm, g, signed, refused);
    AcceptedChainAccounts(v, rule, at, leaf, tokens, action, boundary);
    forall ancestor, u | ancestor in Walk(v, rule, at, leaf, tokens).parents && Grants(norm, leaf, u) ensures Grants(norm, ancestor, u) {
      LeafGrantsAreAncestorGrants(v, rule, at, leaf, tokens, ancestor, u);
    }
    forall ancestor, spent | ancestor in Walk(v, rule, at, leaf, tokens).parents && Admits(leaf, action, boundary, spent)
      ensures Admits(ancestor, action, boundary, spent)
    {
      SpendingIsSound(v, rule, at, leaf, tokens, ancestor, action, boundary, spent);
    }
  }
}
