/** One-time identifiers: where each comes from, and the memory that refuses an early reuse. */
module OneTime {
  import opened Prelude
  import opened Matching
  import opened Evidence

  /** The last expiry of each identifier consumed so far. */
  type Consumed = map<Name, int>

  function ConsumeOne(c: Consumed, at: int, f: Fact): Option<Consumed> {
    if f.name in c && at <= c[f.name] then None else Some(c[f.name := f.expires])
  }

  function ConsumeAll(c: Consumed, at: int, facts: seq<Fact>): Option<Consumed>
    decreases |facts|
  {
    if facts == [] then Some(c)
    else
      var next :- ConsumeOne(c, at, facts[0]);
      ConsumeAll(next, at, facts[1..])
  }

  method Consume(c: Consumed, at: int, facts: seq<Fact>) returns (after: Option<Consumed>)
    ensures after == ConsumeAll(c, at, facts)
  {
    hide ConsumeOne;
    var consumed := c;
    for i := 0 to |facts|
      invariant ConsumeAll(c, at, facts) == ConsumeAll(consumed, at, facts[i..])
    {
      assert facts[i..][0] == facts[i] && facts[i..][1..] == facts[i + 1..];
      var next := ConsumeOne(consumed, at, facts[i]);
      if next.None? {
        return None;
      }
      consumed := next.value;
    }
    after := Some(consumed);
  }

  predicate DistinctNames(facts: seq<Fact>) {
    forall i, j :: 0 <= i < j < |facts| ==> facts[i].name != facts[j].name
  }

  lemma SeparateFacts(facts: seq<Fact>)
    requires facts != [] && DistinctNames(facts)
    ensures DistinctNames(facts[1..]) && forall f <- facts[1..] :: f.name != facts[0].name
    ensures forall f :: f in facts <==> f == facts[0] || f in facts[1..]
  {
    assert facts == [facts[0]] + facts[1..];
  }

  /** The memory after consuming these identifiers: their new expiries, and the rest as it was. */
  ghost predicate Recorded(before: Consumed, after: Consumed, facts: seq<Fact>) {
    && (forall f <- facts :: f.name in after && after[f.name] == f.expires)
    && (forall name <- before :: name in after)
    && (forall name <- after :: (exists f <- facts :: f.name == name) || (name in before && after[name] == before[name]))
  }

  lemma RecordedStep(c: Consumed, after: Consumed, facts: seq<Fact>)
    requires facts != [] && DistinctNames(facts)
    requires Recorded(c[facts[0].name := facts[0].expires], after, facts[1..])
    ensures Recorded(c, after, facts)
  {
    hide DistinctNames;
    SeparateFacts(facts);
    var mid := c[facts[0].name := facts[0].expires];
    forall name | name in after ensures (exists f <- facts :: f.name == name) || (name in c && after[name] == c[name]) {
      if f :| f in facts[1..] && f.name == name {
        assert f in facts;
      } else if name == facts[0].name {
        assert facts[0] in facts;
      }
    }
    assert facts[0].name in mid;
  }

  /** Consuming asks each identifier's last expiry to have passed, and records the new ones. */
  lemma {:induction false} ConsumeAllChecks(c: Consumed, at: int, facts: seq<Fact>)
    requires DistinctNames(facts)
    ensures ConsumeAll(c, at, facts).Some? <==> forall f <- facts :: f.name in c ==> c[f.name] < at
    ensures ConsumeAll(c, at, facts).Some? ==> Recorded(c, ConsumeAll(c, at, facts).value, facts)
    decreases |facts|
  {
    if facts != [] {
      SeparateFacts(facts);
      if ConsumeOne(c, at, facts[0]).Some? {
        var mid := ConsumeOne(c, at, facts[0]).value;
        hide DistinctNames, Recorded;
        ConsumeAllChecks(mid, at, facts[1..]);
        if ConsumeAll(mid, at, facts[1..]).Some? {
          RecordedStep(c, ConsumeAll(mid, at, facts[1..]).value, facts);
        }
      }
    }
  }

  // ---------- where the identifiers come from ----------

  /** A holder proof's nonce may not come back until the proof is too old to pass. */
  function HolderFact(cfg: Config, adm: Admission, holder: Holder, audience: string, now: int): Option<(Fact, string)> {
    var identity :- cfg.holderVerifies(holder, audience, now, adm);
    var issued :- cfg.clock(holder.proof.issuedAt);
    var age := 1000000 * adm.maxProofAgeSeconds;
    if now - issued > age || issued - now > age || issued + age > MAX_INSTANT then None
    else Some((Fact(Name(ActorNonce, cfg.nonceText(adm.ledgerId, identity.0, identity.1)), issued + age), identity.0))
  }

  function ForeignFact(cfg: Config, d: Decision, adm: Admission): Option<Fact> {
    var f :- cfg.foreignVerifies(d, adm);
    if f.authorizedAt <= d.at <= f.notAfter then Some(Fact(Name(ForeignDispatch, f.dispatchHash), f.notAfter)) else None
  }

  function ApprovalFact(cfg: Config, adm: Admission, fingerprint: string, token: string): Option<Fact> {
    var claims :- cfg.approvalVerifies(token, adm);
    if claims.fingerprint != fingerprint then None else Some(Fact(Name(Approval, claims.jti), claims.expires))
  }

  function ApprovalFacts(cfg: Config, adm: Admission, fingerprint: string, tokens: seq<string>): Option<set<Fact>>
    decreases |tokens|
  {
    if tokens == [] then Some({})
    else
      var before :- ApprovalFacts(cfg, adm, fingerprint, tokens[..|tokens| - 1]);
      var fact :- ApprovalFact(cfg, adm, fingerprint, tokens[|tokens| - 1]);
      Some(before + {fact})
  }

  /** What an authorized decision has to declare as consumed. */
  function ExpectedFacts(cfg: Config, d: Decision, adm: Admission): Option<set<Fact>> {
    var own :- OwnFact(cfg, d, adm);
    var tokens :- d.approvals;
    var approvals :- ApprovalFacts(cfg, adm, d.fingerprint, tokens);
    Some({own} + approvals)
  }

  function OwnFact(cfg: Config, d: Decision, adm: Admission): Option<Fact> {
    if !d.foreign.NoForeign? then ForeignFact(cfg, d, adm)
    else
      var holder :- d.holder;
      var fact :- HolderFact(cfg, adm, holder, adm.ledgerId, d.at);
      Some(fact.0)
  }

  /** Every retained approval has to verify, and contributes its own fact. */
  lemma {:induction false} ApprovalsExactly(cfg: Config, adm: Admission, fingerprint: string, tokens: seq<string>)
    ensures ApprovalFacts(cfg, adm, fingerprint, tokens).Some?
       <==> forall t <- tokens :: ApprovalFact(cfg, adm, fingerprint, t).Some?
    ensures ApprovalFacts(cfg, adm, fingerprint, tokens).Some? ==>
      forall f :: f in ApprovalFacts(cfg, adm, fingerprint, tokens).value <==>
        exists t <- tokens :: ApprovalFact(cfg, adm, fingerprint, t) == Some(f)
    decreases |tokens|
  {
    hide ApprovalFact;
    if tokens != [] {
      ApprovalsExactly(cfg, adm, fingerprint, tokens[..|tokens| - 1]);
      assert tokens == tokens[..|tokens| - 1] + [tokens[|tokens| - 1]];
    }
  }

  lemma ExpectedFactsParts(cfg: Config, d: Decision, adm: Admission)
    ensures ExpectedFacts(cfg, d, adm).Some? <==>
      && OwnFact(cfg, d, adm).Some? && d.approvals.Some?
      && forall t <- d.approvals.value :: ApprovalFact(cfg, adm, d.fingerprint, t).Some?
    ensures ExpectedFacts(cfg, d, adm).Some? ==>
      forall f :: f in ExpectedFacts(cfg, d, adm).value <==>
        f == OwnFact(cfg, d, adm).value || exists t <- d.approvals.value :: ApprovalFact(cfg, adm, d.fingerprint, t) == Some(f)
  {
    hide OwnFact, ApprovalFact, ApprovalFacts;
    if d.approvals.Some? {
      ApprovalsExactly(cfg, adm, d.fingerprint, d.approvals.value);
    }
  }

  // ---------- the facts, said of the evidence ----------

  /**
   The proof was signed by the holder of this key, within the admitted age of this instant; its fact is the nonce,
   filed under ledger and key, until the proof is older than that.
   */
  ghost predicate ProvesHolder(cfg: Config, adm: Admission, holder: Holder, audience: string, now: int, f: Fact, key: string) {
    exists nonce, issued ::
      && cfg.holderVerifies(holder, audience, now, adm) == Some((key, nonce)) && cfg.clock(holder.proof.issuedAt) == Some(issued)
      && issued - 1000000 * adm.maxProofAgeSeconds <= now <= issued + 1000000 * adm.maxProofAgeSeconds <= MAX_INSTANT
      && f.name == Name(ActorNonce, cfg.nonceText(adm.ledgerId, key, nonce))
      && f.expires == issued + 1000000 * adm.maxProofAgeSeconds
  }

  lemma HolderFactIsExact(cfg: Config, adm: Admission, holder: Holder, audience: string, now: int, f: Fact, key: string)
    ensures HolderFact(cfg, adm, holder, audience, now) == Some((f, key)) <==> ProvesHolder(cfg, adm, holder, audience, now, f, key)
  {
  }

  /**
   A nonce is remembered exactly as long as its proof can pass: where the holder check verifies at both instants,
   a proof that passed once passes later if and only if its recorded expiry has not gone by, and with the same fact.
   */
  lemma ProofPassesUntilItsExpiry(cfg: Config, adm: Admission, holder: Holder, audience: string, now: int, later: int)
    requires HolderFact(cfg, adm, holder, audience, now).Some? && now <= later
    requires cfg.holderVerifies(holder, audience, later, adm) == cfg.holderVerifies(holder, audience, now, adm)
    ensures var fact := HolderFact(cfg, adm, holder, audience, now).value.0;
      && (HolderFact(cfg, adm, holder, audience, later).Some? <==> later <= fact.expires)
      && (HolderFact(cfg, adm, holder, audience, later).Some? ==>
            HolderFact(cfg, adm, holder, audience, later) == HolderFact(cfg, adm, holder, audience, now))
  {
  }

  /** A foreign dispatch is remembered exactly as long as it can be used. */
  lemma DispatchPassesUntilItsExpiry(cfg: Config, adm: Admission, d: Decision, later: Decision)
    requires ForeignFact(cfg, d, adm).Some? && d.at <= later.at && cfg.foreignVerifies(later, adm) == cfg.foreignVerifies(d, adm)
    ensures ForeignFact(cfg, later, adm).Some? <==> later.at <= ForeignFact(cfg, d, adm).value.expires
    ensures ForeignFact(cfg, later, adm).Some? ==> ForeignFact(cfg, later, adm) == ForeignFact(cfg, d, adm)
  {
  }

  /** The one fact of a decision's holder proof, or of the foreign dispatch that stands in for it. */
  ghost predicate StatesOwn(cfg: Config, d: Decision, adm: Admission, f: Fact) {
    if d.foreign.NoForeign? then d.holder.Some? && exists key :: ProvesHolder(cfg, adm, d.holder.value, adm.ledgerId, d.at, f, key)
    else
      exists dispatch ::
        && cfg.foreignVerifies(d, adm) == Some(dispatch) && dispatch.authorizedAt <= d.at <= dispatch.notAfter
        && f.name == Name(ForeignDispatch, dispatch.dispatchHash) && f.expires == dispatch.notAfter
  }

  /** The approval verifies and binds the request; its fact is its jti until it expires. */
  ghost predicate StatesApproval(cfg: Config, adm: Admission, fingerprint: string, token: string, f: Fact) {
    exists claims ::
      && cfg.approvalVerifies(token, adm) == Some(claims) && claims.fingerprint == fingerprint
      && f.name == Name(Approval, claims.jti) && f.expires == claims.expires
  }

  lemma OwnFactIsExact(cfg: Config, d: Decision, adm: Admission, f: Fact)
    ensures OwnFact(cfg, d, adm) == Some(f) <==> StatesOwn(cfg, d, adm, f)
  {
    if d.foreign.NoForeign? && d.holder.Some? {
      hide HolderFact, ProvesHolder;
      forall key ensures HolderFact(cfg, adm, d.holder.value, adm.ledgerId, d.at) == Some((f, key))
                     <==> ProvesHolder(cfg, adm, d.holder.value, adm.ledgerId, d.at, f, key)
      {
        HolderFactIsExact(cfg, adm, d.holder.value, adm.ledgerId, d.at, f, key);
      }
    }
  }

  lemma ApprovalFactIsExact(cfg: Config, adm: Admission, fingerprint: string, token: string, f: Fact)
    ensures ApprovalFact(cfg, adm, fingerprint, token) == Some(f) <==> StatesApproval(cfg, adm, fingerprint, token, f)
  {
  }

  /**
   A decision has to declare the fact of its own proof or foreign dispatch, one fact for every approval, each of which
   has to verify and bind the request, and no other.
   */
  lemma ExpectedFactsExactly(cfg: Config, d: Decision, adm: Admission, facts: set<Fact>)
    ensures ExpectedFacts(cfg, d, adm) == Some(facts) <==>
      && d.approvals.Some?
      && (forall t <- d.approvals.value :: exists f :: StatesApproval(cfg, adm, d.fingerprint, t, f))
      && exists own ::
        && StatesOwn(cfg, d, adm, own)
        && forall f :: f in facts <==> f == own || exists t <- d.approvals.value :: StatesApproval(cfg, adm, d.fingerprint, t, f)
  {
    hide OwnFact, ApprovalFact, StatesOwn, StatesApproval, ExpectedFacts;
    forall f ensures OwnFact(cfg, d, adm) == Some(f) <==> StatesOwn(cfg, d, adm, f) {
      OwnFactIsExact(cfg, d, adm, f);
    }
    forall t, f ensures ApprovalFact(cfg, adm, d.fingerprint, t) == Some(f) <==> StatesApproval(cfg, adm, d.fingerprint, t, f) {
      ApprovalFactIsExact(cfg, adm, d.fingerprint, t, f);
    }
    ExpectedFactsParts(cfg, d, adm);
    FactsBySome(cfg, d, adm, facts);
  }

  lemma FactsBySome(cfg: Config, d: Decision, adm: Admission, facts: set<Fact>)
    ensures ExpectedFacts(cfg, d, adm) == Some(facts) <==>
      && ExpectedFacts(cfg, d, adm).Some? && forall f :: f in ExpectedFacts(cfg, d, adm).value <==> f in facts
  {
    hide ExpectedFacts;
    if ExpectedFacts(cfg, d, adm).Some? && forall f :: f in ExpectedFacts(cfg, d, adm).value <==> f in facts {
      assert ExpectedFacts(cfg, d, adm).value == facts;
    }
  }

  lemma {:induction false} ApprovalFailurePersists(cfg: Config, adm: Admission, fingerprint: string, tokens: seq<string>, n: nat)
    requires n <= |tokens| && ApprovalFacts(cfg, adm, fingerprint, tokens[..n]).None?
    ensures ApprovalFacts(cfg, adm, fingerprint, tokens).None?
    decreases |tokens|
  {
    if n < |tokens| {
      assert tokens[..|tokens| - 1][..n] == tokens[..n];
      ApprovalFailurePersists(cfg, adm, fingerprint, tokens[..|tokens| - 1], n);
    } else {
      assert tokens[..n] == tokens;
    }
  }

  method ExpectedConsumedFacts(cfg: Config, d: Decision, adm: Admission) returns (facts: Option<set<Fact>>)
    ensures facts == ExpectedFacts(cfg, d, adm)
  {
    hide OwnFact, ApprovalFact;
    var own := OwnFact(cfg, d, adm);
    if own.None? || d.approvals.None? {
      return None;
    }
    var tokens := d.approvals.value;
    var expected := {own.value};
    ghost var approvals := {};
    for i := 0 to |tokens|
      invariant ApprovalFacts(cfg, adm, d.fingerprint, tokens[..i]) == Some(approvals)
      invariant expected == {own.value} + approvals
    {
      assert tokens[..i + 1][..i] == tokens[..i];
      var fact := ApprovalFact(cfg, adm, d.fingerprint, tokens[i]);
      if fact.None? {
        ApprovalFailurePersists(cfg, adm, d.fingerprint, tokens, i + 1);
        return None;
      }
      expected := expected + {fact.value};
      approvals := approvals + {fact.value};
    }
    assert tokens[..|tokens|] == tokens;
    facts := Some(expected);
  }

  // ---------- the identifiers that bind for good ----------

  /** The namespaces whose identifiers are only ever consumed before they expire. */
  predicate IsGuarded(space: Namespace) {
    space.ActorNonce? || space.ForeignDispatch?
  }

  lemma {:induction false} ApprovalFactsAreApprovals(cfg: Config, adm: Admission, fingerprint: string, tokens: seq<string>)
    ensures var facts := ApprovalFacts(cfg, adm, fingerprint, tokens);
      facts.Some? ==> forall f <- facts.value :: f.name.space.Approval?
    decreases |tokens|
  {
    if tokens != [] {
      ApprovalFactsAreApprovals(cfg, adm, fingerprint, tokens[..|tokens| - 1]);
    }
  }

  /** A decision uses its nonce or dispatch no later than its expiry. */
  lemma DecisionUsesInTime(cfg: Config, d: Decision, adm: Admission, f: Fact)
    requires ExpectedFacts(cfg, d, adm).Some? && f in ExpectedFacts(cfg, d, adm).value && IsGuarded(f.name.space)
    ensures d.at <= f.expires
  {
    ApprovalFactsAreApprovals(cfg, adm, d.fingerprint, d.approvals.value);
  }

  /** The memory holds an expiry of the identifier no earlier than this one. */
  ghost predicate Remembers(c: Consumed, name: Name, expires: int) {
    name in c && expires <= c[name]
  }

  /** Uses in time keep the memory of every earlier use, although only the last expiry is stored. */
  lemma ConsumeKeepsMemory(c: Consumed, at: int, facts: seq<Fact>, name: Name, expires: int)
    requires ConsumeAll(c, at, facts).Some? && DistinctNames(facts)
    requires forall f <- facts :: f.name == name ==> at <= f.expires
    requires Remembers(c, name, expires)
    ensures Remembers(ConsumeAll(c, at, facts).value, name, expires)
  {
    ConsumeAllChecks(c, at, facts);
  }

  lemma ConsumeRemembers(c: Consumed, at: int, facts: seq<Fact>, f: Fact)
    requires ConsumeAll(c, at, facts).Some? && DistinctNames(facts) && f in facts
    ensures Remembers(ConsumeAll(c, at, facts).value, f.name, f.expires)
  {
    ConsumeAllChecks(c, at, facts);
  }

  /** A remembered identifier is only consumed again after its expiry. */
  lemma ConsumeWaits(c: Consumed, at: int, facts: seq<Fact>, f: Fact, expires: int)
    requires ConsumeAll(c, at, facts).Some? && DistinctNames(facts) && f in facts && Remembers(c, f.name, expires)
    ensures expires < at
  {
    ConsumeAllChecks(c, at, facts);
  }

  /**
   A late use does forget. After a use that expires at 10, one at 11 that had already expired at 3 lowers the
   memory, and then a use at 7 is let in although the first has not expired.
   */
  lemma LateUseForgets(name: Name)
    ensures var first := ConsumeAll(map[], 5, [Fact(name, 10)]);
      && first.Some?
      && var second := ConsumeAll(first.value, 11, [Fact(name, 3)]);
      second.Some? && !Remembers(second.value, name, 10) && ConsumeAll(second.value, 7, [Fact(name, 20)]).Some?
  {
    ConsumeOnly(map[], 5, Fact(name, 10));
    ConsumeOnly(map[name := 10], 11, Fact(name, 3));
    assert map[][name := 10] == map[name := 10] && map[name := 10][name := 3] == map[name := 3];
    ConsumeOnly(map[name := 3], 7, Fact(name, 20));
  }

  lemma ConsumeOnly(c: Consumed, at: int, f: Fact)
    ensures ConsumeAll(c, at, [f]) == ConsumeOne(c, at, f)
  {
    assert [f][1..] == [];
  }
}
