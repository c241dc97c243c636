/** A concrete run: two publications under a signed limit of one push, which spell the start of its period with "Z" and with "+00:00". */
module SpellingExample {
  import opened Prelude
  import opened Claims
  import opened Accounts
  import opened Matching
  import opened Evidence
  import opened OneTime
  import opened ForeignPoints
  import opened Lifecycle
  import opened Replay
  import opened Capacity
  import opened Budget
  import opened Overspending
  import Books

  const ZULU := "2026-01-01T00:00:00Z"
  const OFFSET := "2026-01-01T00:00:00+00:00"
  const TOMORROW := "2026-01-02T00:00:00Z"

  /** Microseconds from the first representable instant to the start of 2026. */
  const NEW_YEAR: int := 63871286400000000
  const DAY_MS: int := 86400000
  const PROOF_AGE_SECONDS: int := 300

  function ReadThree(text: string): Option<int> {
    if text == ZULU || text == OFFSET then Some(NEW_YEAR)
    else if text == TOMORROW then Some(NEW_YEAR + 1000 * DAY_MS)
    else None
  }

  /** A digest that repeats one character. */
  function Digest(c: char, size: nat := 64): string {
    seq(size, _ => c)
  }

  /** The canonical text under which a nonce is filed. */
  function NonceText(ledger: string, key: string, nonce: string): string {
    "{\"key_fingerprint\":\"" + key + "\",\"ledger_id\":\"" + ledger + "\",\"nonce\":\"" + nonce + "\"}"
  }

  const DOMAIN := "example.org"
  const LEDGER := "ledger"
  const BRANCH := "refs/heads/main"
  const REMOTE := "git.example.org/main"

  function OnlyAdmission(): Admission {
    Admission(Some("git"), DOMAIN, LEDGER, "point", true, None, PROOF_AGE_SECONDS, Some("outcome key"))
  }

  /** The dispatch of the first publication, good for a day. */
  function OnlyDispatch(): DispatchClaims {
    var o := PublishOperation('a');
    DispatchClaims(
      o.domainId, o.ledgerId, o.pointId, o.operationId, o.requestHash, o.payloadHash, o.bindingHash, BRANCH, GitPublication,
      None, false, Some(ZULU), Some(TOMORROW), "")
  }

  /** Every signature verifies, and plain ASCII counts as text; the timestamps are read as they should be. */
  function Trusting(): Config {
    Config(
      adapters := {"git"},
      ledgerId := LEDGER,
      pointId := "point",
      pointKey := Digest('e'),
      clock := ReadThree,
      isText := IsWord,
      callRules := CallRules(text => text, IsWord, plan => Digest('9')),
      authority := e => true,
      admit := (token, at, adapter) => Some(OnlyAdmission()),
      holderVerifies := (holder: Holder, audience, now, adm) => Some((Digest('f'), holder.proof.content)),
      nonceText := NonceText,
      foreignVerifies := (d, adm) => None,
      approvalVerifies := (token, adm) => None,
      dispatchClaims := token => Some(OnlyDispatch()),
      dispatchSigned := (token, key) => true,
      reconciliationVerifies := (request, key) => Some(Reconciliation(Query, NEW_YEAR, NEW_YEAR + 1000 * DAY_MS, "")),
      reconciliationJoins := (request, claims) => true,
      cancellationJoins := (request, claims) => true,
      outcomeVerifies := (receipt, key) => Some(Outcome(OutcomeCommitted, Some(NEW_YEAR), None, None, "")),
      outcomeJoins := (outcome, claims) => true,
      consentHash := (token, parents) => Digest('0'),
      sha := text => Digest('0'),
      descriptorHash := claims => Some(Digest('0')),
      operationHash := operation => Digest('0'),
      ackVerifies := (ack, expectation) => true,
      payload := (d, claims) => Some(None),
      tokenAdapter := token => None)
  }

  /** Nonempty text with no white space in it. */
  predicate IsWord(text: string) {
    text != "" && forall c <- text :: '!' <= c <= '~'
  }

  /** One push a day, from the start of 2026 on. */
  const ONE_PUSH := Bound("git_push", "count:push", 1, Some(Window(ZULU, DAY_MS, true)), false, None, None)

  const GRANT := Delegation(
    "grant", "agent", ["push"], [BRANCH], NEW_YEAR, NEW_YEAR + 1000 * DAY_MS, [], ["git"], None, 0, 0, [], None, [ONE_PUSH],
    None, None, None, None, None)

  const ONE_PUSH_ROW := Row("grant", None, "git_push", "count:push", 1, Window(ZULU, DAY_MS, true))

  function PublishCall(): Call {
    Call(
      "git.publish",
      GitArguments(
        "agent", BRANCH, REMOTE, BRANCH, Digest('1', 40), Digest('2', 40), Digest('1', 40) + ".." + Digest('2', 40), false, Digest('9')),
      0, 400,
      Target(BRANCH, Some("git")),
      Binding(GitPublication, "git", REMOTE, BRANCH, "", ""))
  }

  function PublishOperation(c: char): Operation {
    Operation([c], DOMAIN, LEDGER, "point", Digest('f'), Digest(c), Digest('7'), Digest('8'))
  }

  /** A publication that charges its one push under this text, with a nonce, a reservation and an operation of its own. */
  function Publication(c: char, epoch: string): Decision {
    Decision(
      adapter := Some("git"),
      at := NEW_YEAR,
      state := IsAuthorized,
      operation := PublishOperation(c),
      identifiers := [
        Fact(Name(ActorNonce, NonceText(LEDGER, Digest('f'), Digest(c, 32))), NEW_YEAR + 1000000 * PROOF_AGE_SECONDS)],
      accounts := [WholeCeiling(ONE_PUSH_ROW, epoch, Reserved(c))],
      admissionToken := Some("claims.signature"),
      foreign := NoForeign,
      holder := Some(Holder("agent", Proof(ZULU, Digest(c, 32)), Digest(c))),
      approvals := Some([]),
      fingerprint := Digest(c),
      chain := Some([GRANT]),
      action := "push",
      boundary := "git",
      call := PublishCall())
  }

  function Reserved(c: char): string {
    "reservation-" + [c]
  }

  function Published(seqNo: nat, c: char, epoch: string): Sealed<Decision> {
    Sealed(seqNo, Digest(c), Publication(c, epoch))
  }

  lemma GrantRequiresOnePush()
    ensures RequiredRows([GRANT], "push", "git") == Ok([ONE_PUSH_ROW])
  {
    var nothing := Collected([], []);
    assert [GRANT][..0] == [] && [ONE_PUSH][..0] == [];
    assert CollectBounds(nothing, GRANT, [ONE_PUSH], "push", "git") == CollectBound(nothing, GRANT, ONE_PUSH, "push", "git");
    assert Relevant(ONE_PUSH, "push", "git");
    assert Describe(GRANT, ONE_PUSH, None) == ONE_PUSH_ROW;
    assert nothing.rows + [ONE_PUSH_ROW] == [ONE_PUSH_ROW] && [ONE_PUSH_ROW] + nothing.shared == [ONE_PUSH_ROW];
    assert CollectBound(nothing, GRANT, ONE_PUSH, "push", "git") == Ok(Collected([ONE_PUSH_ROW], []));
    assert CollectChain([GRANT], "push", "git") == Ok(Collected([ONE_PUSH_ROW], []));
  }

  lemma DigestIsDigest(c: char, size: nat)
    requires IsHex(c)
    ensures IsDigest(Digest(c, size), size)
  {
  }

  lemma AccountMatches(reservation: string, epoch: string)
    requires epoch == ZULU || epoch == OFFSET
    ensures Matches(ReadThree, NEW_YEAR, WholeCeiling(ONE_PUSH_ROW, epoch, reservation), ONE_PUSH_ROW)
  {
  }

  /** No character of the branch is a dot, and no two of its slashes touch. */
  lemma BranchIsBranch()
    ensures IsBranchRef(BRANCH)
  {
    assert BRANCH == "refs/heads/main";
    assert BRANCH[..11] == BRANCH_PREFIX;
    forall c | c in BRANCH ensures IsRefChar(c) && c != '.' {
      var i :| 0 <= i < |BRANCH| && BRANCH[i] == c;
    }
    forall i | 0 <= i < |BRANCH| - 1 ensures !(BRANCH[i] == '/' && BRANCH[i + 1] == '/') {
    }
    forall i | 0 <= i <= |BRANCH| - 5 ensures !EndsInLock(BRANCH, i) {
      assert BRANCH[i] in BRANCH && BRANCH[i..i + 5][0] == BRANCH[i];
    }
  }

  lemma WordsAreWords()
    ensures IsWord(DOMAIN) && IsWord(LEDGER) && IsWord("point") && IsWord(REMOTE)
  {
    assert DOMAIN == "example.org" && LEDGER == "ledger" && REMOTE == "git.example.org/main";
  }

  lemma CallFitsResource()
    ensures IsSupported(Trusting().callRules, PublishCall())
  {
    BranchIsBranch();
    WordsAreWords();
    DigestIsDigest('1', 40);
    DigestIsDigest('2', 40);
    DigestIsDigest('9', 64);
    hide IsBranchRef, IsWord;
    assert Digest('1', 40)[0] == '1' && Digest('2', 40)[0] == '2';
    assert Digest('1', 40)[0] in Digest('1', 40) && Digest('2', 40)[0] in Digest('2', 40);
    assert IsPublication(Trusting().callRules, PublishCall().arguments);
  }

  lemma ScopeHolds()
    ensures SignedScope(Trusting().callRules, PublishCall(), [GRANT], "push", "git", NEW_YEAR)
  {
    BranchIsBranch();
    hide IsBranchRef;
    assert "git" in GRANT.scopeDomains && BRANCH in GRANT.scopePaths && "push" in GRANT.scopeActions;
    assert ScopeCoversRef(BRANCH, BRANCH);
    assert DelegationCovers(Trusting().callRules, PublishCall(), GRANT, "push", "git", NEW_YEAR);
  }

  lemma AccountIsExact(c: char, epoch: string)
    requires epoch == ZULU || epoch == OFFSET
    ensures AccountsAreExact(Trusting(), Publication(c, epoch))
  {
    var accounts := Publication(c, epoch).accounts;
    GrantRequiresOnePush();
    AccountMatches(Reserved(c), epoch);
    CallFitsResource();
    ScopeHolds();
    hide Matches, RequiredRows, SignedScope, IsSupported;
    assert accounts[1..] == [] && RemoveAt([ONE_PUSH_ROW], 0) == [];
    assert FirstMatch(ReadThree, NEW_YEAR, accounts[0], [ONE_PUSH_ROW]) == Some(0);
    assert MatchAll(ReadThree, NEW_YEAR, SpendingOf(PublishCall()), accounts, [ONE_PUSH_ROW]);
  }

  lemma PublicationIsBacked(seqNo: nat, c: char, epoch: string)
    requires epoch == ZULU || epoch == OFFSET
    ensures IsBacked(Trusting(), Published(seqNo, c, epoch))
  {
    var d, adm := Publication(c, epoch), OnlyAdmission();
    AccountIsExact(c, epoch);
    hide AccountsAreExact, NonceText, Digest, PublishCall, PublishOperation;
    assert AdaptedAdmission(Trusting(), d) == Some(adm);
    assert ApprovalFacts(Trusting(), adm, d.fingerprint, []) == Some({});
    assert OwnFact(Trusting(), d, adm) == Some(d.identifiers[0]);
    assert ElementsOf(d.identifiers) == {d.identifiers[0]};
    assert {d.identifiers[0]} + {} == {d.identifiers[0]};
    assert ExpectedFacts(Trusting(), d, adm) == Some({d.identifiers[0]});
  }

  lemma OperationIsValid(c: char)
    requires IsHex(c)
    ensures ValidOperation(IsWord, PublishOperation(c))
  {
    WordsAreWords();
    DigestIsDigest('f', 64);
    DigestIsDigest(c, 64);
    DigestIsDigest('7', 64);
    DigestIsDigest('8', 64);
    assert Digest('f') != "";
    assert IsOperationIdChar(c);
  }

  lemma PublicationIsWellFormed(c: char, epoch: string)
    requires IsHex(c) && (epoch == ZULU || epoch == OFFSET)
    ensures ValidConsumption(Trusting(), Publication(c, epoch))
  {
    OperationIsValid(c);
    hide ValidOperation, NonceText, Digest, PublishCall, PublishOperation;
    assert ValidAccountPeriod(Trusting(), NEW_YEAR, Publication(c, epoch).accounts[0]);
  }

  lemma OneAccountFits(a: Account)
    requires a.amount <= a.ceiling
    ensures Fits(Books.NO_BOOKS, [a])
  {
    assert [a][1..] == [];
    assert Asked([a][1..], Books.KeyOf(a)) == 0;
    assert HasRoom(Books.NO_BOOKS, [a], a);
  }

  lemma PublicationRequiresOnePush(seqNo: nat, c: char, epoch: string)
    ensures Requires(AsRecord(Published(seqNo, c, epoch)), ONE_PUSH_ROW)
  {
    GrantRequiresOnePush();
    hide RequiredRows, Digest, NonceText;
  }

  lemma PublicationIsAccepted(seqNo: nat, c: char, epoch: string)
    requires IsHex(c) && (epoch == ZULU || epoch == OFFSET)
    ensures SpendsAll(Trusting(), Published(seqNo, c, epoch), ONE_PUSH_ROW, epoch, Reserved(c))
  {
    var e := Published(seqNo, c, epoch);
    PublicationIsBacked(seqNo, c, epoch);
    PublicationIsWellFormed(c, epoch);
    PublicationRequiresOnePush(seqNo, c, epoch);
    OneAccountFits(WholeCeiling(ONE_PUSH_ROW, epoch, Reserved(c)));
    AuthorizationAcceptedExactly(Trusting(), START, e);
    hide NextDecision, IsBacked, ValidConsumption, Requires, Fits, Digest, NonceText, PublishCall, PublishOperation, AdaptedAdmission;
  }

  lemma NoncesDiffer(c: char, d: char)
    requires c != d
    ensures NonceText(LEDGER, Digest('f'), Digest(c, 32)) != NonceText(LEDGER, Digest('f'), Digest(d, 32))
  {
    var before := "{\"key_fingerprint\":\"" + Digest('f') + "\",\"ledger_id\":\"" + LEDGER + "\",\"nonce\":\"";
    assert NonceText(LEDGER, Digest('f'), Digest(c, 32))[|before|] == Digest(c, 32)[0];
    assert NonceText(LEDGER, Digest('f'), Digest(d, 32))[|before|] == Digest(d, 32)[0];
  }

  lemma PublicationsAreSeparate(x: string, y: string)
    ensures AreSeparate(Published(1, 'a', x), Published(2, 'b', y))
  {
    NoncesDiffer('a', 'b');
    hide NonceText, Digest, PublishCall;
    assert PublishOperation('a').operationId[0] != PublishOperation('b').operationId[0];
    assert Reserved('a')[12] == 'a' && Reserved('b')[12] == 'b';
  }

  /**
   The replay accepts both publications in one run, and they spend two pushes against a signed limit of one. Both
   records carry well-formed operations and different digests.
   */
  lemma TwoPushesUnderALimitOfOne(intents: Intents)
    ensures var e, f := Published(1, 'a', ZULU), Published(2, 'b', OFFSET);
      && ValidOperation(IsWord, e.value.operation) && ValidOperation(IsWord, f.value.operation)
      && IsDigest(e.hash) && IsDigest(f.hash) && e.hash != f.hash
    ensures var rs := [AsRecord(Published(1, 'a', ZULU)), AsRecord(Published(2, 'b', OFFSET))];
      && Run(Trusting(), intents, rs).Some?
      && PeriodSpending(Run(Trusting(), intents, rs).value.ops, rs, ONE_PUSH_ROW, NEW_YEAR) == 2
      && ONE_PUSH_ROW.ceiling == 1
  {
    var e, f := Published(1, 'a', ZULU), Published(2, 'b', OFFSET);
    PublicationIsAccepted(1, 'a', ZULU);
    PublicationIsAccepted(2, 'b', OFFSET);
    PublicationsAreSeparate(ZULU, OFFSET);
    OperationIsValid('a');
    OperationIsValid('b');
    DigestIsDigest('a', 64);
    DigestIsDigest('b', 64);
    assert Digest('a')[0] != Digest('b')[0];
    assert ZULU != OFFSET by { assert |ZULU| != |OFFSET|; }
    hide SpendsAll, AreSeparate, Run, PeriodSpending, ValidOperation, Digest, NonceText, PublishCall, PublishOperation;
    TwoSpellingsDoubleTheBudget(Trusting(), intents, e, f, ONE_PUSH_ROW, ZULU, OFFSET, Reserved('a'), Reserved('b'));
  }
}
