/** Accounting periods, and the pairing of a decision's accounts with the accounts its signed chain requires. */
module Matching {
  import opened Prelude
  import opened Claims
  import opened Attenuation
  import opened DelegationChain
  import opened Accounts

  /** Instants are microseconds from the first representable one; the last is 9999-12-31T23:59:59.999999. */
  const MAX_INSTANT: int := 315537897599999999

  /** Reads a timestamp; None stands for text that is no timestamp with a timezone. */
  type Clock = string -> Option<int>

  // ---------- period starts ----------

  function PeriodMicros(w: Window): int {
    1000 * w.durationMs
  }

  /** `start` is a period start that the window allows, and the period holds the instant `at`. */
  predicate IsPeriodStart(w: Window, base: int, start: int, at: int) {
    && w.durationMs > 0
    && (if w.repeating then start >= base && (start - base) % PeriodMicros(w) == 0 else start == base)
    && start <= at && start + PeriodMicros(w) <= MAX_INSTANT && at < start + PeriodMicros(w)
  }

  predicate PeriodStartIsAuthorized(clock: Clock, supplied: string, w: Window, at: int) {
    clock(supplied).Some? && clock(w.epoch).Some? && IsPeriodStart(w, clock(w.epoch).value, clock(supplied).value, at)
  }

  /** The start of the period that holds `at`, if there is one. */
  function PeriodStart(w: Window, base: int, at: int): Option<int> {
    if w.durationMs <= 0 || at < base then None
    else
      var start := if w.repeating then at - (at - base) % PeriodMicros(w) else base;
      if start + PeriodMicros(w) <= MAX_INSTANT && at < start + PeriodMicros(w) then Some(start) else None
  }

  lemma SmallMultipleIsZero(d: int, n: int)
    requires -d < d * n < d
    ensures n == 0
  {
  }

  /** The whole periods of length `d` before `x` end less than `d` before `x`, and nothing else does. */
  lemma WholePeriods(x: int, d: int, m: int)
    requires d > 0
    ensures m % d == 0 && m <= x < m + d <==> m == x - x % d
  {
    var q, k := x / d, m / d;
    assert x == d * q + x % d;
    assert m == d * k + m % d;
    assert x - x % d == d * q;
    if m % d == 0 && m <= x < m + d {
      assert d * (q - k) == d * q - d * k;
      SmallMultipleIsZero(d, q - k);
    }
    if m == x - x % d {
      assert d * (q - k) == d * q - d * k;
      SmallMultipleIsZero(d, q - k);
    }
  }

  /** Each instant has at most one accepted period start, the one that `PeriodStart` computes. */
  lemma PeriodStartIsUnique(w: Window, base: int, start: int, at: int)
    ensures IsPeriodStart(w, base, start, at) <==> PeriodStart(w, base, at) == Some(start)
  {
    hide PeriodMicros;
    if w.durationMs > 0 && w.repeating && at >= base {
      PeriodIsPositive(w);
      WholePeriods(at - base, PeriodMicros(w), start - base);
      OffsetBounds(at - base, PeriodMicros(w));
    }
  }

  lemma PeriodIsPositive(w: Window)
    requires w.durationMs > 0
    ensures PeriodMicros(w) > 0
  {
  }

  lemma OffsetBounds(x: int, d: int)
    requires x >= 0 && d > 0
    ensures 0 <= x % d <= x
  {
    if x < d {
      SmallMultipleIsZero(d, x / d);
    }
  }

  /**
   A repeating window has a period for exactly the instants from its epoch on, and a fixed one for the
   instants of its one period, as long as the end of the period is a representable instant.
   */
  lemma PeriodStartExists(w: Window, base: int, at: int)
    requires w.durationMs > 0
    ensures w.repeating && at + PeriodMicros(w) <= MAX_INSTANT ==>
      (PeriodStart(w, base, at).Some? <==> base <= at)
    ensures !w.repeating && base + PeriodMicros(w) <= MAX_INSTANT ==>
      (PeriodStart(w, base, at).Some? <==> base <= at < base + PeriodMicros(w))
    ensures PeriodStart(w, base, at).Some? ==>
      base <= PeriodStart(w, base, at).value <= at < PeriodStart(w, base, at).value + PeriodMicros(w)
  {
    hide PeriodMicros;
    PeriodIsPositive(w);
    if at >= base {
      OffsetBounds(at - base, PeriodMicros(w));
    }
  }

  // ---------- pairing ----------

  /** One charged account of a decision. `epoch` is the text that the decision states for the period start. */
  datatype Account = Account(
    jti: string,
    entry: Option<string>,
    kind: string,
    unit: string,
    ceiling: nat,
    epoch: string,
    durationMs: int,
    amount: nat,
    reservation: string)

  predicate Matches(clock: Clock, at: int, account: Account, row: Row) {
    && account.jti == row.jti && account.entry == row.entry
    && account.kind == row.kind && account.unit == row.unit
    && account.ceiling == row.ceiling && account.durationMs == row.window.durationMs
    && PeriodStartIsAuthorized(clock, account.epoch, row.window, at)
  }

  /** The exact quantity that the call spends of a kind in a unit; None where the profile derives none. */
  type Spending = (string, string) -> Option<nat>

  function FirstMatch(clock: Clock, at: int, account: Account, rows: seq<Row>): (found: Option<nat>)
    ensures found.Some? ==> found.value < |rows| && Matches(clock, at, account, rows[found.value])
    ensures found.None? ==> forall row <- rows :: !Matches(clock, at, account, row)
  {
    if rows == [] then None
    else if Matches(clock, at, account, rows[0]) then Some(0)
    else
      var later := FirstMatch(clock, at, account, rows[1..]);
      assert rows == [rows[0]] + rows[1..];
      if later.Some? then Some(later.value + 1) else None
  }

  /** Each account in turn takes the first unmatched row that it agrees with; in the end none may be left. */
  function MatchAll(clock: Clock, at: int, spending: Spending, accounts: seq<Account>, rows: seq<Row>): bool
    decreases |accounts|
  {
    if accounts == [] then rows == []
    else
      match FirstMatch(clock, at, accounts[0], rows)
      case None => false
      case Some(j) =>
        spending(rows[j].kind, rows[j].unit) == Some(accounts[0].amount)
        && MatchAll(clock, at, spending, accounts[1..], RemoveAt(rows, j))
  }

  method MatchAccounts(clock: Clock, at: int, spending: Spending, accounts: seq<Account>, expected: seq<Row>) returns (ok: bool)
    ensures ok == MatchAll(clock, at, spending, accounts, expected)
  {
    hide Matches;
    var unmatched := expected;
    for i := 0 to |accounts|
      invariant MatchAll(clock, at, spending, accounts, expected) == MatchAll(clock, at, spending, accounts[i..], unmatched)
    {
      assert accounts[i..][0] == accounts[i] && accounts[i..][1..] == accounts[i + 1..];
      var found := FirstMatch(clock, at, accounts[i], unmatched);
      if found.None? {
        return false;
      }
      var row := unmatched[found.value];
      if spending(row.kind, row.unit) != Some(accounts[i].amount) {
        return false;
      }
      unmatched := RemoveAt(unmatched, found.value);
    }
    ok := unmatched == [];
  }

  /** A one-to-one pairing: account `i` belongs to row `p[i]`, in a period that the row's window allows, and spends the exact quantity. */
  ghost predicate Pairing(clock: Clock, at: int, spending: Spending, accounts: seq<Account>, rows: seq<Row>, p: seq<nat>) {
    && |p| == |accounts| == |rows| && NoRepeats(p)
    && forall i :: 0 <= i < |accounts| ==> p[i] < |rows| && Paired(clock, at, spending, accounts[i], rows[p[i]])
  }

  ghost predicate Paired(clock: Clock, at: int, spending: Spending, account: Account, row: Row) {
    Matches(clock, at, account, row) && spending(row.kind, row.unit) == Some(account.amount)
  }

  function Lift(k: nat, gap: nat): nat {
    if k < gap then k else k + 1
  }

  function LiftAll(p: seq<nat>, gap: nat): seq<nat> {
    seq(|p|, i requires 0 <= i < |p| => Lift(p[i], gap))
  }

  lemma PairingWithFirst(
    clock: Clock, at: int, spending: Spending, accounts: seq<Account>, rows: seq<Row>, j: nat, rest: seq<nat>) returns (p: seq<nat>)
    requires accounts != [] && j < |rows| && Paired(clock, at, spending, accounts[0], rows[j])
    requires Pairing(clock, at, spending, accounts[1..], RemoveAt(rows, j), rest)
    ensures Pairing(clock, at, spending, accounts, rows, p)
  {
    hide Paired;
    p := [j] + LiftAll(rest, j);
    forall i, k | 0 <= i < k < |p| ensures p[i] != p[k] {
      assert p[k] == Lift(rest[k - 1], j);
      if i > 0 {
        assert p[i] == Lift(rest[i - 1], j);
      }
    }
    forall i | 0 <= i < |accounts| ensures p[i] < |rows| && Paired(clock, at, spending, accounts[i], rows[p[i]]) {
      if i > 0 {
        assert p[i] == Lift(rest[i - 1], j);
        assert Paired(clock, at, spending, accounts[1..][i - 1], RemoveAt(rows, j)[rest[i - 1]]);
      }
    }
  }

  /** The greedy matching finds a pairing whenever it accepts. */
  lemma {:induction false} MatchingIsSound(clock: Clock, at: int, spending: Spending, accounts: seq<Account>, rows: seq<Row>) returns (p: seq<nat>)
    requires MatchAll(clock, at, spending, accounts, rows)
    ensures Pairing(clock, at, spending, accounts, rows, p)
    decreases |accounts|
  {
    hide Matches;
    if accounts == [] {
      return [];
    }
    var j := FirstMatch(clock, at, accounts[0], rows).value;
    hide Pairing;
    var rest := MatchingIsSound(clock, at, spending, accounts[1..], RemoveAt(rows, j));
    p := PairingWithFirst(clock, at, spending, accounts, rows, j, rest);
  }

  /** Rows that one account agrees with agree with the same accounts: at a given instant each has only one period start. */
  lemma MatchesAgree(clock: Clock, at: int, a: Account, b: Account, r: Row, s: Row)
    requires Matches(clock, at, a, r) && Matches(clock, at, a, s) && Matches(clock, at, b, r)
    ensures Matches(clock, at, b, s)
  {
    hide IsPeriodStart, PeriodStart;
    PeriodStartIsUnique(r.window, clock(r.window.epoch).value, clock(a.epoch).value, at);
    PeriodStartIsUnique(r.window, clock(r.window.epoch).value, clock(b.epoch).value, at);
  }

  function Drop(k: nat, gap: nat): (r: nat)
    requires k != gap
    ensures Lift(r, gap) == k
  {
    if k < gap then k else k - 1
  }

  /** The numbers after the first, renumbered as if the first did not exist. */
  lemma DropFirst(p: seq<nat>, n: nat) returns (rest: seq<nat>)
    requires p != [] && NoRepeats(p) && forall k <- p :: k < n
    ensures |rest| == |p| - 1 && NoRepeats(rest)
    ensures forall i :: 0 <= i < |rest| ==> Lift(rest[i], p[0]) == p[i + 1]
    ensures forall i :: 0 <= i < |rest| ==> rest[i] < n - 1
  {
    hide Drop, Lift;
    assert forall i :: 1 <= i < |p| ==> p[i] != p[0];
    rest := seq(|p| - 1, i requires 0 <= i < |p| - 1 => Drop(p[i + 1], p[0]));
    forall i | 0 <= i < |rest| ensures Lift(rest[i], p[0]) == p[i + 1] && rest[i] < n - 1 {
      assert p[i + 1] in p && p[0] in p;
      LiftedBound(rest[i], p[0], n);
    }
    forall i, k | 0 <= i < k < |rest| ensures rest[i] != rest[k] {
      assert Lift(rest[i], p[0]) != Lift(rest[k], p[0]);
    }
  }

  lemma LiftedBound(k: nat, gap: nat, n: nat)
    requires Lift(k, gap) < n && gap < n
    ensures k < n - 1
  {
  }

  /** Without account 0 and its row, the other accounts still pair with the other rows. */
  lemma PairingOfRest(clock: Clock, at: int, spending: Spending, accounts: seq<Account>, rows: seq<Row>, p: seq<nat>) returns (rest: seq<nat>)
    requires accounts != [] && Pairing(clock, at, spending, accounts, rows, p)
    ensures Pairing(clock, at, spending, accounts[1..], RemoveAt(rows, p[0]), rest)
  {
    hide Paired;
    rest := DropFirst(p, |rows|);
    forall i | 0 <= i < |rest|
      ensures rest[i] < |rows| - 1 && Paired(clock, at, spending, accounts[1..][i], RemoveAt(rows, p[0])[rest[i]])
    {
      assert Paired(clock, at, spending, accounts[i + 1], rows[p[i + 1]]);
      assert Lift(rest[i], p[0]) == p[i + 1];
    }
  }

  /** A pairing can be changed to give account 0 any row that it agrees with. */
  lemma Exchange(clock: Clock, at: int, spending: Spending, accounts: seq<Account>, rows: seq<Row>, p: seq<nat>, j: nat) returns (q: seq<nat>)
    requires accounts != [] && Pairing(clock, at, spending, accounts, rows, p)
    requires j < |rows| && Matches(clock, at, accounts[0], rows[j])
    ensures Pairing(clock, at, spending, accounts, rows, q) && q[0] == j
  {
    hide Matches;
    var i := Preimage(p, |rows|, j);
    assert Paired(clock, at, spending, accounts[0], rows[p[0]]) && Paired(clock, at, spending, accounts[i], rows[j]);
    MatchesAgree(clock, at, accounts[0], accounts[i], rows[j], rows[p[0]]);
    MatchesMeans(clock, at, accounts[0], rows[j]);
    MatchesMeans(clock, at, accounts[0], rows[p[0]]);
    q := p[0 := j][i := p[0]];
    if i == 0 {
      assert q == p;
    }
  }

  lemma MatchesMeans(clock: Clock, at: int, account: Account, row: Row)
    requires Matches(clock, at, account, row)
    ensures account.kind == row.kind && account.unit == row.unit
  {
  }

  /** `n` different numbers below `n` are all the numbers below `n`. */
  lemma {:induction false} Preimage(p: seq<nat>, n: nat, j: nat) returns (i: nat)
    requires |p| == n && NoRepeats(p) && (forall k <- p :: k < n) && j < n
    ensures i < n && p[i] == j
  {
    if k :| 0 <= k < n && p[k] == j {
      return k;
    }
    assert forall k :: 0 <= k < n ==> p[k] in p;
    TooManyNumbers(p, n, j);
    assert false;
  }

  lemma {:induction false} TooManyNumbers(p: seq<nat>, n: nat, gap: nat)
    requires NoRepeats(p) && gap < n && forall k <- p :: k < n && k != gap
    ensures |p| < n
    decreases n
  {
    if p != [] {
      assert p[0] in p;
      var rest := DropFirst(p, n);
      forall k | k in rest ensures k < n - 1 && k != Drop(gap, p[0]) {
        var i :| 0 <= i < |rest| && rest[i] == k;
        assert Lift(rest[i], p[0]) == p[i + 1] && p[i + 1] in p;
      }
      TooManyNumbers(rest, n - 1, Drop(gap, p[0]));
    }
  }

  /** Greedy matching loses nothing: whenever any pairing exists it succeeds, in whatever order the accounts come. */
  lemma {:induction false} MatchingIsComplete(clock: Clock, at: int, spending: Spending, accounts: seq<Account>, rows: seq<Row>, p: seq<nat>)
    requires Pairing(clock, at, spending, accounts, rows, p)
    ensures MatchAll(clock, at, spending, accounts, rows)
    decreases |accounts|
  {
    hide Matches;
    if accounts != [] {
      assert Paired(clock, at, spending, accounts[0], rows[p[0]]);
      assert rows[p[0]] in rows;
      var j := FirstMatch(clock, at, accounts[0], rows).value;
      var q := Exchange(clock, at, spending, accounts, rows, p, j);
      assert Paired(clock, at, spending, accounts[0], rows[q[0]]);
      var rest := PairingOfRest(clock, at, spending, accounts, rows, q);
      MatchingIsComplete(clock, at, spending, accounts[1..], RemoveAt(rows, j), rest);
    }
  }

  // ---------- the accounting of a decision ----------

  datatype Profile = NoProfile | RecordEgress | CustomerDelete | GitPublication | UnknownProfile

  /** The arguments of a retained call, by the key set they have. */
  datatype Arguments =
    | GitArguments(
        actorId: string,
        codeId: string,
        remote: string,
        ref: string,
        expectedOldOid: string,
        newOid: string,
        range: string,
        force: bool,
        planHash: string)
    | CustomerArguments(customerId: string, destination: string, route: string)
    | OtherArguments

  /** The resource that the decision's admission binds; absent text reads as empty. */
  datatype Binding = Binding(profile: Profile, adapterId: string, gitRemote: string, gitRef: string, downstreamUrl: string, downstreamPath: string)

  datatype Target = Target(id: string, domain: Option<string>)

  /** The retained resource call, with the number of records it sends and the size of its payload. */
  datatype Call = Call(
    tool: string, arguments: Arguments, recordCount: nat, payloadSize: nat, target: Target, binding: Binding)

  /**
   The library behaviour that the checks of a call rest on: `fold` strips a text and lowers its case, `isText`
   says which texts are nonempty and carry no white space around them, and `planHash` hashes a publication plan.
   */
  datatype CallRules = CallRules(fold: string -> string, isText: string -> bool, planHash: Arguments -> string)

  /** A call without a signed effect; it may not have quantitative obligations. */
  predicate IsGeneric(call: Call) {
    call.binding.profile.NoProfile? || (call.binding.profile.CustomerDelete? && call.tool != "customer.delete")
  }

  const BRANCH_PREFIX := "refs/heads/"

  predicate IsRefChar(c: char) {
    'a' <= c <= 'z' || 'A' <= c <= 'Z' || '0' <= c <= '9' || c == '.' || c == '_' || c == '/' || c == '-'
  }

  /** Two neighbouring characters of the reference. */
  predicate HasPair(ref: string, c: char, d: char) {
    exists i :: 0 <= i < |ref| - 1 && ref[i] == c && ref[i + 1] == d
  }

  /** Some component of the reference ends with ".lock". */
  predicate HasLockComponent(ref: string) {
    exists i :: 0 <= i <= |ref| - 5 && EndsInLock(ref, i)
  }

  predicate EndsInLock(ref: string, i: nat)
    requires i + 5 <= |ref|
  {
    ref[i..i + 5] == ".lock" && (i + 5 == |ref| || ref[i + 5] == '/')
  }

  /** A branch reference: every component is nonempty, does not start with a dot and does not end with ".lock". */
  predicate IsBranchRef(ref: string) {
    && BRANCH_PREFIX <= ref && (forall c <- ref :: IsRefChar(c))
    && ref[|ref| - 1] != '.' && ref[|ref| - 1] != '/'
    && !HasPair(ref, '.', '.') && !HasPair(ref, '/', '/') && !HasPair(ref, '/', '.')
    && !HasLockComponent(ref)
  }

  /** A full Git object name: SHA-1 or SHA-256. */
  predicate IsObjectName(s: string) {
    IsDigest(s, 40) || IsDigest(s)
  }

  predicate IsZero(s: string) {
    forall c <- s :: c == '0'
  }

  /** A publication moves one existing branch, without force, over exactly the range between two objects. */
  predicate IsPublication(rules: CallRules, a: Arguments)
    requires a.GitArguments?
  {
    && rules.isText(a.remote) && IsBranchRef(a.ref)
    && IsObjectName(a.expectedOldOid) && IsObjectName(a.newOid) && |a.expectedOldOid| == |a.newOid|
    && !IsZero(a.expectedOldOid) && !IsZero(a.newOid) && a.expectedOldOid != a.newOid
    && a.range == a.expectedOldOid + ".." + a.newOid && !a.force
  }

  predicate FitsGitResource(rules: CallRules, call: Call) {
    && call.tool == "git.publish" && call.arguments.GitArguments?
    && var a := call.arguments;
    && call.target.id == a.ref && a.codeId == a.ref && a.remote == call.binding.gitRemote && a.ref == call.binding.gitRef
    && a.actorId != "" && IsDigest(a.planHash)
    && IsPublication(rules, a) && a.planHash == rules.planHash(a)
  }

  predicate FitsCustomerResource(rules: CallRules, call: Call) {
    && call.tool == "customer.delete" && call.arguments.CustomerArguments? && call.binding.adapterId == "http"
    && var a := call.arguments;
    && rules.isText(a.customerId) && rules.isText(a.destination) && rules.isText(a.route)
    && call.target.id == a.destination && a.route == call.binding.downstreamPath
    && a.destination == call.binding.downstreamUrl + call.binding.downstreamPath
  }

  /** The profile derives quantities, and the call is exactly one that its resource admits. */
  predicate IsSupported(rules: CallRules, call: Call) {
    match call.binding.profile
    case RecordEgress => call.recordCount > 0
    case CustomerDelete => FitsCustomerResource(rules, call)
    case GitPublication => FitsGitResource(rules, call)
    case _ => false
  }

  /** The domain that every delegation has to name, when action, boundary and target are the ones that the profile fixes. */
  function ScopedDomain(rules: CallRules, call: Call, action: string, boundary: string): Option<string> {
    var domain :- call.target.domain;
    match call.binding.profile
    case RecordEgress =>
      if action == "send" && boundary == "network_egress" && rules.fold(domain) != "" then Some(rules.fold(domain)) else None
    case CustomerDelete => if action == "delete" && boundary == "network_egress" && domain == "http" then Some(domain) else None
    case GitPublication => if domain != "" then Some(domain) else None
    case _ => None
  }

  predicate NamesDomain(rules: CallRules, c: Delegation, domain: string) {
    exists item <- c.scopeDomains :: rules.fold(item) != "" && rules.fold(item) == domain
  }

  /** A scope names one reference, or with a final slash and asterisk every longer one below it. */
  predicate ScopeCoversRef(scope: string, ref: string) {
    scope == ref || (|scope| >= 2 && scope[|scope| - 2..] == "/*" && scope[..|scope| - 1] <= ref && |ref| > |scope| - 1)
  }

  predicate NamesTarget(call: Call, c: Delegation) {
    if call.binding.profile.GitPublication? then
      call.arguments.GitArguments? && IsBranchRef(call.arguments.ref)
      && exists scope <- c.scopePaths :: ScopeCoversRef(scope, call.arguments.ref)
    else "." in c.scopePaths
  }

  /** A structured grant has to hold the action at that instant; a flat one is not asked again. */
  predicate CapabilityCovers(c: Delegation, action: string, at: int) {
    c.capabilities == [] || exists cap <- c.capabilities :: action in cap.actions && cap.nbf <= at <= cap.exp
  }

  predicate DelegationCovers(rules: CallRules, call: Call, c: Delegation, action: string, domain: string, at: int) {
    action in c.scopeActions && NamesDomain(rules, c, domain) && NamesTarget(call, c) && CapabilityCovers(c, action, at)
  }

  /** Every delegation of the chain covers the call. */
  predicate SignedScope(rules: CallRules, call: Call, chain: seq<Delegation>, action: string, boundary: string, at: int) {
    var domain := ScopedDomain(rules, call, action, boundary);
    domain.Some? && forall c <- chain :: DelegationCovers(rules, call, c, action, domain.value, at)
  }

  function Spent(call: Call, kind: string, unit: string): Option<nat> {
    if call.binding.profile.GitPublication? then
      if kind == "git_push" && unit == "count:push" then Some(1) else None
    else if kind == "payload_size" && unit == "bytes" then Some(call.payloadSize)
    else if call.binding.profile.RecordEgress? && kind == "record_count" && unit == "count:records" then Some(call.recordCount)
    else None
  }

  function SpendingOf(call: Call): Spending {
    (kind, unit) => Spent(call, kind, unit)
  }

  predicate Accounted(
    clock: Clock, rules: CallRules, at: int, chain: seq<Delegation>, action: string, boundary: string, call: Call, accounts: seq<Account>)
  {
    match RequiredRows(chain, action, boundary)
    case Err(_) => false
    case Ok(rows) =>
      && |accounts| == |rows|
      && (if IsGeneric(call) then rows == []
          else
            && IsSupported(rules, call) && SignedScope(rules, call, chain, action, boundary, at)
            && MatchAll(clock, at, SpendingOf(call), accounts, rows))
  }

  method Accounting(
    clock: Clock, rules: CallRules, at: int, chain: seq<Delegation>, action: string, boundary: string, call: Call, accounts: seq<Account>)
    returns (ok: bool)
    ensures ok == Accounted(clock, rules, at, chain, action, boundary, call, accounts)
  {
    hide MatchAll, RequiredRows, SignedScope;
    var expected := RequiredAccountBounds(chain, action, boundary);
    if expected.Err? || |accounts| != |expected.value| {
      return false;
    }
    if IsGeneric(call) {
      return expected.value == [];
    }
    if !IsSupported(rules, call) || !SignedScope(rules, call, chain, action, boundary, at) {
      return false;
    }
    ok := MatchAccounts(clock, at, SpendingOf(call), accounts, expected.value);
  }

  /** A decision's accounts are accepted exactly when they pair one to one with the required ones. */
  lemma AccountingIsExact(
    clock: Clock, rules: CallRules, at: int, chain: seq<Delegation>, action: string, boundary: string, call: Call, accounts: seq<Account>)
    ensures Accounted(clock, rules, at, chain, action, boundary, call, accounts) <==>
      && RequiredRows(chain, action, boundary).Ok?
      && var rows := RequiredRows(chain, action, boundary).value;
      && |accounts| == |rows|
      && if IsGeneric(call) then rows == []
         else
           && IsSupported(rules, call) && SignedScope(rules, call, chain, action, boundary, at)
           && exists p :: Pairing(clock, at, SpendingOf(call), accounts, rows, p)
  {
    hide RequiredRows, Pairing, MatchAll, IsSupported, SignedScope;
    if RequiredRows(chain, action, boundary).Ok? && !IsGeneric(call) {
      var rows := RequiredRows(chain, action, boundary).value;
      if MatchAll(clock, at, SpendingOf(call), accounts, rows) {
        var p := MatchingIsSound(clock, at, SpendingOf(call), accounts, rows);
      }
      forall p | Pairing(clock, at, SpendingOf(call), accounts, rows, p)
        ensures MatchAll(clock, at, SpendingOf(call), accounts, rows)
      {
        MatchingIsComplete(clock, at, SpendingOf(call), accounts, rows, p);
      }
    }
  }

  // ---------- the scope of a chain ----------

  lemma ScopeDescends(rules: CallRules, norm: NormPath, child: Delegation, parent: Delegation, action: string, domain: string, at: int)
    requires Narrows(norm, child, parent) && WellFormed(child)
    requires action in child.scopeActions && NamesDomain(rules, child, domain)
    requires exists w <- GrantWindows(child, action) :: InWindow(at, w)
    ensures action in parent.scopeActions && NamesDomain(rules, parent, domain) && CapabilityCovers(parent, action, at)
  {
    NarrowsMeans(norm, child, parent);
    hide Narrows, PathsNarrow, WellFormed, BoundsNarrow, AggregatesKept;
    var item :| item in child.scopeDomains && rules.fold(item) != "" && rules.fold(item) == domain;
    assert item in parent.scopeDomains;
    var w :| w in GrantWindows(child, action) && InWindow(at, w);
    assert WindowsNarrowFor(child, parent, action);
    var v :| v in GrantWindows(parent, action) && Within(w, v);
    if parent.capabilities != [] {
      var cap :| cap in parent.capabilities && action in cap.actions && v == (cap.nbf, cap.exp);
    }
  }

  /**
   In an accepted chain whose leaf grants the action at that instant, the scope check of the ancestors comes down to
   their paths: the action, the domain and the capability that the leaf has, they have too.
   */
  lemma LeafScopeCoversAncestors(
    v: Verifier, rule: Rule, leaf: Delegation, tokens: seq<string>, rules: CallRules, call: Call, action: string, boundary: string, at: int)
    requires Walk(v, rule, at, leaf, tokens).valid && WellFormed(leaf)
    requires exists w <- GrantWindows(leaf, action) :: InWindow(at, w)
    ensures var parents := Walk(v, rule, at, leaf, tokens).parents;
      SignedScope(rules, call, [leaf] + parents, action, boundary, at) <==>
        && SignedScope(rules, call, [leaf], action, boundary, at)
        && forall c <- parents :: NamesTarget(call, c)
  {
    hide Narrows, WellFormed, Walk, Ascends, ScopedDomain, NamesDomain, NamesTarget, CapabilityCovers, GrantWindows;
    WalkIsExact(v, rule, at, leaf, tokens);
    var parents := Walk(v, rule, at, leaf, tokens).parents;
    assert forall c :: c in [leaf] + parents <==> c == leaf || c in parents;
    if SignedScope(rules, call, [leaf], action, boundary, at) {
      var domain := ScopedDomain(rules, call, action, boundary).value;
      assert leaf in [leaf];
      forall c | c in parents
        ensures action in c.scopeActions && NamesDomain(rules, c, domain) && CapabilityCovers(c, action, at)
      {
        NarrowsEveryAncestor(v, rule, at, 0, leaf, parents, c);
        ScopeDescends(rules, v.norm, leaf, c, action, domain, at);
      }
    }
  }
}
