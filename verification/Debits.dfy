/** What an accepted decision debits, and which calls it may debit for, said field by field. */
module Debits {
  import opened Prelude
  import opened Claims
  import opened Accounts
  import opened Matching

  // ---------- accounts and periods ----------

  /**
   The account names the signed account field by field, and states a period that the window allows and that holds the
   instant: the window's one period, or for a repeating window any whole number of periods after its epoch.
   */
  ghost predicate BelongsTo(clock: Clock, at: int, account: Account, row: Row) {
    && account.jti == row.jti && account.entry == row.entry && account.kind == row.kind && account.unit == row.unit
    && account.ceiling == row.ceiling && account.durationMs == row.window.durationMs > 0
    && exists start, base ::
      && clock(account.epoch) == Some(start) && clock(row.window.epoch) == Some(base)
      && (if row.window.repeating then exists periods: nat :: start == After(base, account.durationMs, periods) else start == base)
      && start <= at < After(start, account.durationMs, 1) <= MAX_INSTANT
  }

  /** The instant a number of periods later. */
  function After(base: int, durationMs: int, periods: nat): int {
    base + periods * (1000 * durationMs)
  }

  lemma WholePeriodsAfter(base: int, start: int, durationMs: int)
    requires durationMs > 0
    ensures start >= base && (start - base) % (1000 * durationMs) == 0 <==> exists periods: nat :: start == After(base, durationMs, periods)
  {
    var d := 1000 * durationMs;
    if start >= base && (start - base) % d == 0 {
      var periods := (start - base) / d;
      Quotient(start - base, d);
      assert start == After(base, durationMs, periods);
    }
    if periods: nat :| start == After(base, durationMs, periods) {
      assert start - base == periods * d;
      MultipleOfPeriod(periods, d);
    }
  }

  lemma Quotient(x: int, d: int)
    requires x >= 0 && d > 0 && x % d == 0
    ensures x / d >= 0 && x == (x / d) * d
  {
  }

  lemma MultipleOfPeriod(n: nat, d: int)
    requires d > 0
    ensures n * d >= 0 && (n * d) % d == 0
  {
    WholePeriods(n * d, d, n * d - (n * d) % d);
    var q := (n * d) / d;
    assert n * d == d * q + (n * d) % d;
    assert d * (n - q) == n * d - d * q;
    SmallMultipleIsZero(d, n - q);
  }

  lemma MatchesIsExact(clock: Clock, at: int, account: Account, row: Row)
    ensures Matches(clock, at, account, row) <==> BelongsTo(clock, at, account, row)
  {
    hide After;
    if clock(account.epoch).Some? && clock(row.window.epoch).Some? && row.window.durationMs > 0 {
      var start, base := clock(account.epoch).value, clock(row.window.epoch).value;
      WholePeriodsAfter(base, start, row.window.durationMs);
      OnePeriodAfter(start, row.window.durationMs);
    }
  }

  lemma OnePeriodAfter(start: int, durationMs: int)
    ensures After(start, durationMs, 1) == start + 1000 * durationMs
  {
  }

  // ---------- quantities ----------

  /** The exact quantity of a call: the records it sends, the bytes of its payload, or the one push; nothing else can be debited. */
  predicate IsDebit(call: Call, kind: string, unit: string, amount: nat) {
    match call.binding.profile
    case RecordEgress =>
      || (kind == "record_count" && unit == "count:records" && amount == call.recordCount)
      || (kind == "payload_size" && unit == "bytes" && amount == call.payloadSize)
    case CustomerDelete => kind == "payload_size" && unit == "bytes" && amount == call.payloadSize
    case GitPublication => kind == "git_push" && unit == "count:push" && amount == 1
    case _ => false
  }

  lemma SpentIsExact(call: Call, kind: string, unit: string, amount: nat)
    requires call.binding.profile.RecordEgress? || call.binding.profile.CustomerDelete? || call.binding.profile.GitPublication?
    ensures Spent(call, kind, unit) == Some(amount) <==> IsDebit(call, kind, unit, amount)
  {
    assert "record_count" != "payload_size" by { assert |"record_count"| == |"payload_size"| && "record_count"[0] != "payload_size"[0]; }
  }

  // ---------- calls ----------

  /** A structured grant has a capability for the action that holds at that instant. */
  predicate MayAct(c: Delegation, action: string, at: int) {
    action in c.scopeActions && (c.capabilities != [] ==> exists cap <- c.capabilities :: action in cap.actions && cap.nbf <= at <= cap.exp)
  }

  predicate NamesFolded(rules: CallRules, c: Delegation, domain: string) {
    domain != "" && exists item <- c.scopeDomains :: rules.fold(item) == domain
  }

  /** A scope path is the reference, or a prefix of it with a slash and an asterisk at the end. */
  ghost predicate NamesRef(c: Delegation, ref: string) {
    ref in c.scopePaths || exists prefix, rest: string :: rest != "" && prefix + "/*" in c.scopePaths && ref == prefix + "/" + rest
  }

  /** The call is exactly what its resource admits, and every delegation of the chain covers it, profile by profile. */
  ghost predicate IsSignedCall(rules: CallRules, call: Call, chain: seq<Delegation>, action: string, boundary: string, at: int) {
    var domain := call.target.domain;
    match call.binding.profile
    case RecordEgress =>
      && call.recordCount > 0 && action == "send" && boundary == "network_egress" && domain.Some?
      && rules.fold(domain.value) != ""
      && forall c <- chain :: MayAct(c, "send", at) && NamesFolded(rules, c, rules.fold(domain.value)) && "." in c.scopePaths
    case CustomerDelete =>
      && call.tool == "customer.delete" && call.arguments.CustomerArguments?
      && var a := call.arguments;
      && call.binding.adapterId == "http" && rules.isText(a.customerId) && rules.isText(a.destination) && rules.isText(a.route)
      && call.target.id == a.destination && a.route == call.binding.downstreamPath
      && a.destination == call.binding.downstreamUrl + call.binding.downstreamPath
      && action == "delete" && boundary == "network_egress" && domain == Some("http")
      && forall c <- chain :: MayAct(c, "delete", at) && NamesFolded(rules, c, "http") && "." in c.scopePaths
    case GitPublication =>
      && call.tool == "git.publish" && call.arguments.GitArguments?
      && var a := call.arguments;
      && call.target.id == a.ref == a.codeId == call.binding.gitRef && a.remote == call.binding.gitRemote
      && a.actorId != "" && |a.planHash| == 64 && a.planHash == rules.planHash(a) && !a.force
      && rules.isText(a.remote) && IsBranchRef(a.ref)
      && (|a.expectedOldOid| == |a.newOid| == 40 || |a.expectedOldOid| == |a.newOid| == 64)
      && (forall c <- a.expectedOldOid + a.newOid + a.planHash :: '0' <= c <= '9' || 'a' <= c <= 'f')
      && (exists c <- a.expectedOldOid :: c != '0') && (exists c <- a.newOid :: c != '0')
      && a.expectedOldOid != a.newOid && a.range == a.expectedOldOid + ".." + a.newOid
      && domain.Some? && domain != Some("")
      && forall c <- chain :: MayAct(c, action, at) && NamesFolded(rules, c, domain.value) && NamesRef(c, a.ref)
    case _ => false
  }

  lemma RefIsExact(scope: string, ref: string)
    ensures ScopeCoversRef(scope, ref) <==>
      scope == ref || exists prefix, rest: string :: rest != "" && scope == prefix + "/*" && ref == prefix + "/" + rest
  {
    if scope != ref && ScopeCoversRef(scope, ref) {
      var prefix := scope[..|scope| - 2];
      assert scope == prefix + "/*" && scope[..|scope| - 1] == prefix + "/";
      assert ref == prefix + "/" + ref[|scope| - 1..];
    }
    if prefix, rest: string :| rest != "" && scope == prefix + "/*" && ref == prefix + "/" + rest {
      assert scope[..|scope| - 1] == prefix + "/" && scope[|scope| - 2..] == "/*";
    }
  }

  lemma RefsAreExact(c: Delegation, ref: string)
    ensures (exists scope <- c.scopePaths :: ScopeCoversRef(scope, ref)) <==> NamesRef(c, ref)
  {
    hide ScopeCoversRef;
    forall scope ensures ScopeCoversRef(scope, ref) <==>
      scope == ref || exists prefix, rest: string :: rest != "" && scope == prefix + "/*" && ref == prefix + "/" + rest
    {
      RefIsExact(scope, ref);
    }
  }

  lemma CoverIsExact(rules: CallRules, call: Call, c: Delegation, action: string, domain: string, at: int)
    requires domain != ""
    ensures DelegationCovers(rules, call, c, action, domain, at) <==>
      && MayAct(c, action, at) && NamesFolded(rules, c, domain)
      && if call.binding.profile.GitPublication? then
           call.arguments.GitArguments? && IsBranchRef(call.arguments.ref) && NamesRef(c, call.arguments.ref)
         else "." in c.scopePaths
  {
    hide ScopeCoversRef, NamesRef, IsBranchRef;
    if call.arguments.GitArguments? {
      RefsAreExact(c, call.arguments.ref);
    }
  }

  lemma PublicationIsExact(rules: CallRules, a: Arguments)
    requires a.GitArguments?
    ensures IsPublication(rules, a) <==>
      && rules.isText(a.remote) && IsBranchRef(a.ref) && !a.force
      && (|a.expectedOldOid| == |a.newOid| == 40 || |a.expectedOldOid| == |a.newOid| == 64)
      && (forall c <- a.expectedOldOid + a.newOid :: IsHex(c))
      && (exists c <- a.expectedOldOid :: c != '0') && (exists c <- a.newOid :: c != '0')
      && a.expectedOldOid != a.newOid && a.range == a.expectedOldOid + ".." + a.newOid
  {
    hide IsBranchRef, IsHex;
    assert forall c :: c in a.expectedOldOid + a.newOid <==> c in a.expectedOldOid || c in a.newOid;
  }

  lemma AllHex(oids: string, digest: string)
    ensures (forall c <- oids :: IsHex(c)) && IsDigest(digest) <==>
      |digest| == 64 && forall c <- oids + digest :: '0' <= c <= '9' || 'a' <= c <= 'f'
  {
    assert forall c :: c in oids + digest <==> c in oids || c in digest;
  }

  /** The checks of a profile accept a call exactly when it is a signed call of that profile. */
  lemma SignedCallIsExact(rules: CallRules, call: Call, chain: seq<Delegation>, action: string, boundary: string, at: int)
    ensures IsSupported(rules, call) && SignedScope(rules, call, chain, action, boundary, at)
       <==> IsSignedCall(rules, call, chain, action, boundary, at)
  {
    hide DelegationCovers, NamesRef, IsBranchRef, IsPublication, MayAct, NamesFolded;
    if call.arguments.GitArguments? {
      PublicationIsExact(rules, call.arguments);
      AllHex(call.arguments.expectedOldOid + call.arguments.newOid, call.arguments.planHash);
      hide IsDigest;
    }
    var domain := ScopedDomain(rules, call, action, boundary);
    if domain.Some? {
      forall c ensures DelegationCovers(rules, call, c, action, domain.value, at) <==>
        && MayAct(c, action, at) && NamesFolded(rules, c, domain.value)
        && if call.binding.profile.GitPublication? then
             call.arguments.GitArguments? && IsBranchRef(call.arguments.ref) && NamesRef(c, call.arguments.ref)
           else "." in c.scopePaths
      {
        CoverIsExact(rules, call, c, action, domain.value, at);
      }
    }
  }

  // ---------- branches ----------

  /** The part of the reference between two neighbouring slashes, or before the first or after the last one. */
  predicate IsComponent(ref: string, i: nat, j: nat) {
    && i <= j <= |ref| && '/' !in ref[i..j]
    && (i == 0 || ref[i - 1] == '/') && (j == |ref| || ref[j] == '/')
  }

  predicate IsGoodComponent(part: string) {
    part != "" && part[0] != '.' && !(|part| >= 5 && part[|part| - 5..] == ".lock")
  }

  lemma ComponentEnd(ref: string, i: nat) returns (j: nat)
    requires i <= |ref|
    ensures i <= j <= |ref| && '/' !in ref[i..j] && (j == |ref| || ref[j] == '/')
  {
    j := i;
    while j < |ref| && ref[j] != '/'
      invariant i <= j <= |ref| && '/' !in ref[i..j]
    {
      assert ref[i..j + 1] == ref[i..j] + [ref[j]];
      j := j + 1;
    }
  }

  lemma ComponentStart(ref: string, j: nat) returns (i: nat)
    requires j <= |ref|
    ensures i <= j && '/' !in ref[i..j] && (i == 0 || ref[i - 1] == '/')
  {
    i := j;
    while i > 0 && ref[i - 1] != '/'
      invariant i <= j && '/' !in ref[i..j]
    {
      assert ref[i - 1..j] == [ref[i - 1]] + ref[i..j];
      i := i - 1;
    }
  }

  /** A component that is empty or starts with a dot shows as two neighbouring characters. */
  lemma NoEmptyComponent(ref: string)
    requires BRANCH_PREFIX <= ref && ref[|ref| - 1] != '/'
    ensures !HasPair(ref, '/', '/') && !HasPair(ref, '/', '.') <==>
      forall i, j :: 0 <= i <= j && IsComponent(ref, i, j) ==> i < j && ref[i] != '.'
  {
    assert ref[0] == BRANCH_PREFIX[0] == 'r';
    if HasPair(ref, '/', '/') || HasPair(ref, '/', '.') {
      var k :| 0 <= k < |ref| - 1 && ref[k] == '/' && (ref[k + 1] == '/' || ref[k + 1] == '.');
      var j := ComponentEnd(ref, k + 1);
      assert IsComponent(ref, k + 1, j);
    } else {
      forall i, j | 0 <= i <= j && IsComponent(ref, i, j) ensures i < j && ref[i] != '.' {
        if i > 0 {
          assert ref[i - 1] == '/';
          assert i < |ref|;
        }
      }
    }
  }

  lemma NoLockComponent(ref: string)
    ensures !HasLockComponent(ref) <==>
      forall i, j :: 0 <= i <= j && IsComponent(ref, i, j) ==> !(j - i >= 5 && ref[i..j][j - i - 5..] == ".lock")
  {
    forall i, j | 0 <= i <= j && IsComponent(ref, i, j) && j - i >= 5 && ref[i..j][j - i - 5..] == ".lock" ensures HasLockComponent(ref) {
      assert ref[j - 5..j] == ref[i..j][j - i - 5..];
      assert EndsInLock(ref, j - 5);
    }
    if k :| 0 <= k <= |ref| - 5 && EndsInLock(ref, k) {
      var i := ComponentStart(ref, k);
      assert ref[i..k + 5] == ref[i..k] + ".lock";
      assert IsComponent(ref, i, k + 5);
    }
  }

  /** A branch: under the heads, of the allowed characters, with no two dots together or dot at the end, and with good components. */
  lemma BranchIsExact(ref: string)
    ensures IsBranchRef(ref) <==>
      && "refs/heads/" <= ref && ref[|ref| - 1] != '.'
      && (forall c <- ref :: 'a' <= c <= 'z' || 'A' <= c <= 'Z' || '0' <= c <= '9' || c in "._/-")
      && (forall i, j :: 0 <= i < j < |ref| && j == i + 1 ==> ref[i] != '.' || ref[j] != '.')
      && forall i, j :: 0 <= i <= j && IsComponent(ref, i, j) ==> IsGoodComponent(ref[i..j])
  {
    hide HasLockComponent, IsComponent, EndsInLock;
    if BRANCH_PREFIX <= ref {
      NoLockComponent(ref);
      LastComponent(ref);
      GoodComponents(ref);
      if ref[|ref| - 1] != '/' {
        NoEmptyComponent(ref);
      }
    }
    assert forall c :: IsRefChar(c) <==> 'a' <= c <= 'z' || 'A' <= c <= 'Z' || '0' <= c <= '9' || c in "._/-";
  }

  lemma GoodComponents(ref: string)
    ensures (forall i, j :: 0 <= i <= j && IsComponent(ref, i, j) ==> IsGoodComponent(ref[i..j])) <==>
      && (forall i, j :: 0 <= i <= j && IsComponent(ref, i, j) ==> i < j && ref[i] != '.')
      && forall i, j :: 0 <= i <= j && IsComponent(ref, i, j) ==> !(j - i >= 5 && ref[i..j][j - i - 5..] == ".lock")
  {
    forall i, j | 0 <= i <= j && IsComponent(ref, i, j)
      ensures IsGoodComponent(ref[i..j]) <==> i < j && ref[i] != '.' && !(j - i >= 5 && ref[i..j][j - i - 5..] == ".lock")
    {
    }
    hide IsGoodComponent, IsComponent;
  }

  lemma LastComponent(ref: string)
    requires ref != []
    ensures ref[|ref| - 1] == '/' ==> IsComponent(ref, |ref|, |ref|)
  {
  }

  // ---------- the accounting of a decision ----------

  /** Account `i` belongs to row `p[i]` and debits the exact quantity, and every row has its one account. */
  ghost predicate PaysFor(clock: Clock, at: int, call: Call, accounts: seq<Account>, rows: seq<Row>, p: seq<nat>) {
    && |p| == |accounts| == |rows| && NoRepeats(p)
    && forall i :: 0 <= i < |accounts| ==>
      p[i] < |rows| && BelongsTo(clock, at, accounts[i], rows[p[i]]) && IsDebit(call, accounts[i].kind, accounts[i].unit, accounts[i].amount)
  }

  /** A call without a profile, or through the HTTP profile with another tool: it has no signed effect. */
  predicate HasNoEffect(call: Call) {
    call.binding.profile == NoProfile || (call.binding.profile == CustomerDelete && call.tool != "customer.delete")
  }

  lemma PairedIsPaid(clock: Clock, at: int, call: Call, account: Account, row: Row)
    requires call.binding.profile.RecordEgress? || call.binding.profile.CustomerDelete? || call.binding.profile.GitPublication?
    ensures Paired(clock, at, SpendingOf(call), account, row) <==>
      BelongsTo(clock, at, account, row) && IsDebit(call, account.kind, account.unit, account.amount)
  {
    MatchesIsExact(clock, at, account, row);
    SpentIsExact(call, account.kind, account.unit, account.amount);
    if BelongsTo(clock, at, account, row) {
      NamesTheRow(clock, at, account, row);
    }
    hide Matches, BelongsTo, Spent, IsDebit;
  }

  lemma NamesTheRow(clock: Clock, at: int, account: Account, row: Row)
    requires BelongsTo(clock, at, account, row)
    ensures account.kind == row.kind && account.unit == row.unit
  {
  }

  lemma PairingPays(clock: Clock, at: int, call: Call, accounts: seq<Account>, rows: seq<Row>, p: seq<nat>)
    requires call.binding.profile.RecordEgress? || call.binding.profile.CustomerDelete? || call.binding.profile.GitPublication?
    ensures Pairing(clock, at, SpendingOf(call), accounts, rows, p) <==> PaysFor(clock, at, call, accounts, rows, p)
  {
    hide Paired, BelongsTo, IsDebit, SpendingOf;
    forall account, row ensures Paired(clock, at, SpendingOf(call), account, row) <==>
      BelongsTo(clock, at, account, row) && IsDebit(call, account.kind, account.unit, account.amount)
    {
      PairedIsPaid(clock, at, call, account, row);
    }
  }

  /**
   The chain requires as many accounts as the decision charges, and either the call has no effect and none is required,
   or it is a signed call and every required account is paid for with the exact quantity.
   */
  ghost predicate IsPaid(
    clock: Clock, rules: CallRules, at: int, chain: seq<Delegation>, action: string, boundary: string, call: Call, accounts: seq<Account>)
  {
    && RequiredRows(chain, action, boundary).Ok?
    && var rows := RequiredRows(chain, action, boundary).value;
    && |accounts| == |rows|
    && if HasNoEffect(call) then rows == []
       else
         && IsSignedCall(rules, call, chain, action, boundary, at)
         && exists p :: PaysFor(clock, at, call, accounts, rows, p)
  }

  lemma DecisionDebitsExactly(
    clock: Clock, rules: CallRules, at: int, chain: seq<Delegation>, action: string, boundary: string, call: Call, accounts: seq<Account>)
    ensures Accounted(clock, rules, at, chain, action, boundary, call, accounts)
       <==> IsPaid(clock, rules, at, chain, action, boundary, call, accounts)
  {
    AccountingIsExact(clock, rules, at, chain, action, boundary, call, accounts);
    SignedCallIsExact(rules, call, chain, action, boundary, at);
    hide Accounted, RequiredRows, IsSupported, SignedScope, PaysFor, Pairing;
    if RequiredRows(chain, action, boundary).Ok? && IsSignedCall(rules, call, chain, action, boundary, at) {
      SignedCallHasProfile(rules, call, chain, action, boundary, at);
      hide IsSignedCall;
      var rows := RequiredRows(chain, action, boundary).value;
      forall p ensures Pairing(clock, at, SpendingOf(call), accounts, rows, p) <==> PaysFor(clock, at, call, accounts, rows, p) {
        PairingPays(clock, at, call, accounts, rows, p);
      }
    }
  }

  lemma SignedCallHasProfile(rules: CallRules, call: Call, chain: seq<Delegation>, action: string, boundary: string, at: int)
    requires IsSignedCall(rules, call, chain, action, boundary, at)
    ensures call.binding.profile.RecordEgress? || call.binding.profile.CustomerDelete? || call.binding.profile.GitPublication?
  {
  }
}
