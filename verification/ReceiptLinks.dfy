/**
 The receipt-link verifier: decisions, the consequence intents that name them, and the outcomes that
 name both. Several passes over dictionaries keyed by record number collect a list of issues; an
 empty list amounts to a one-to-one structure over the records.
 */
module ReceiptLinks {
  import opened Prelude
  import opened Values

  datatype RecordType = Decision | ConsequenceIntent | Outcome | OtherType
  datatype Verdict = Allow | Deny | Escalate | OtherVerdict(v: Value)
  datatype Mode = Discovery | DecisionMode | Enforcement | Constitutional | Undeclared
  datatype Reason = NotAnObject | Reason(ruleId: Value, result: Value)
  datatype Actor = NoActor | Actor(id: Value)

  /** The fields that the verifier reads. A number, a flag or a list of another JSON type reads as `None`. */
  datatype Receipt = Receipt(
    seqNo: Option<int>,
    recordType: RecordType,
    actorId: Value,
    adapterId: Value,
    fingerprint: Value,
    verdict: Verdict,
    mode: Mode,
    dryRun: Option<bool>,
    policyHash: Value,
    ontologyHash: Value,
    actor: Actor,
    reasons: Option<seq<Reason>>,
    decisionSeq: Option<int>,
    intentSeq: Option<int>,
    success: Option<Value>)

  predicate Positive(n: Option<int>) {
    n.Some? && n.value > 0
  }

  predicate NonEmptyString(v: Value) {
    v.Text? && v.s != ""
  }

  predicate IsSha256(v: Value) {
    v.Text? && IsDigest(v.s)
  }

  datatype Field = ActorId | AdapterId | Fingerprint

  datatype Code =
    | InvalidRecordSeq
    | DuplicateRecordSeq
    | InvalidField(field: Field)
    | FieldMismatch(field: Field)
    | DecisionInvalidVerdict
    | DecisionInvalidMode
    | DecisionInvalidDryRun
    | DecisionInvalidPolicyHash
    | DecisionInvalidOntologyHash
    | DecisionActorInvalid
    | DecisionActorIdMismatch
    | IntentInvalidDecisionSeq
    | IntentUnanchoredDecision
    | IntentNotAfterDecision
    | DuplicateConsequenceIntent
    | OutcomeInvalidSuccess
    | OutcomeNotAfterDecision
    | OutcomeInvalidDecisionSeq
    | OutcomeUnanchoredDecision
    | OutcomeDecisionMismatch
    | OutcomeInvalidIntentSeq
    | OutcomeUnanchoredIntent
    | OutcomeNotAfterIntent
    | OutcomeLinkMismatch
    | OutcomeIntentFieldMismatch(field: Field)
    | IntentMissingOutcome
    | DuplicateConsequenceOutcome
    | DryRunDecisionHasConsequence
    | AllowMissingIntent
    | BlockedDecisionHasConsequence

  datatype Issue = Issue(code: Code, seqNo: Option<int>, relatedSeq: Option<int>)

  function When(condition: bool, code: Code, at: int, related: Option<int> := None): seq<Issue> {
    if condition then [Issue(code, Some(at), related)] else []
  }

  function LinkFieldIssues(r: Receipt, at: int): seq<Issue> {
    When(!NonEmptyString(r.actorId), InvalidField(ActorId), at)
    + When(!NonEmptyString(r.adapterId), InvalidField(AdapterId), at)
    + When(!IsSha256(r.fingerprint), InvalidField(Fingerprint), at)
  }

  function SameFieldIssues(child: Receipt, parent: Receipt, childSeq: int, parentSeq: int): seq<Issue> {
    When(child.actorId != parent.actorId, FieldMismatch(ActorId), childSeq, Some(parentSeq))
    + When(child.adapterId != parent.adapterId, FieldMismatch(AdapterId), childSeq, Some(parentSeq))
    + When(child.fingerprint != parent.fingerprint, FieldMismatch(Fingerprint), childSeq, Some(parentSeq))
  }

  function DecisionIssues(d: Receipt, at: int): seq<Issue> {
    When(d.verdict.OtherVerdict?, DecisionInvalidVerdict, at)
    + LinkFieldIssues(d, at)
    + When(d.mode == Undeclared, DecisionInvalidMode, at)
    + When(d.dryRun.None?, DecisionInvalidDryRun, at)
    + When(!IsSha256(d.policyHash), DecisionInvalidPolicyHash, at)
    + When(!IsSha256(d.ontologyHash), DecisionInvalidOntologyHash, at)
    + (if d.actor.NoActor? || !NonEmptyString(d.actor.id) then [Issue(DecisionActorInvalid, Some(at), None)]
       else When(d.actor.id != d.actorId, DecisionActorIdMismatch, at))
  }

  function IntentIssues(intent: Receipt, at: int, decisions: map<int, Receipt>): seq<Issue> {
    LinkFieldIssues(intent, at)
    + (if !Positive(intent.decisionSeq) then [Issue(IntentInvalidDecisionSeq, Some(at), None)]
       else
         var d := intent.decisionSeq.value;
         if d !in decisions then [Issue(IntentUnanchoredDecision, Some(at), Some(d))]
         else When(d >= at, IntentNotAfterDecision, at, Some(d)) + SameFieldIssues(intent, decisions[d], at, d))
  }

  predicate ValidSuccess(success: Option<Value>) {
    success.Some? && (success.value.Bool? || success.value.Null?)
  }

  function OutcomeDecisionIssues(outcome: Receipt, at: int, decisions: map<int, Receipt>): seq<Issue> {
    if !Positive(outcome.decisionSeq) then [Issue(OutcomeInvalidDecisionSeq, Some(at), None)]
    else
      var d := outcome.decisionSeq.value;
      When(d >= at, OutcomeNotAfterDecision, at, Some(d))
      + (if d !in decisions then [Issue(OutcomeUnanchoredDecision, Some(at), Some(d))]
         else SameFieldIssues(outcome, decisions[d], at, d)
              + When(outcome.verdict != decisions[d].verdict, OutcomeDecisionMismatch, at, Some(d)))
  }

  function OutcomeIntentIssues(outcome: Receipt, at: int, intents: map<int, Receipt>): seq<Issue> {
    if !Positive(outcome.intentSeq) then [Issue(OutcomeInvalidIntentSeq, Some(at), None)]
    else
      var i := outcome.intentSeq.value;
      if i !in intents then [Issue(OutcomeUnanchoredIntent, Some(at), Some(i))]
      else
        When(i >= at, OutcomeNotAfterIntent, at, Some(i))
        + When(PositiveOrNone(outcome.decisionSeq) != PositiveOrNone(intents[i].decisionSeq), OutcomeLinkMismatch, at, Some(i))
        + When(outcome.actorId != intents[i].actorId, OutcomeIntentFieldMismatch(ActorId), at, Some(i))
        + When(outcome.adapterId != intents[i].adapterId, OutcomeIntentFieldMismatch(AdapterId), at, Some(i))
        + When(outcome.fingerprint != intents[i].fingerprint, OutcomeIntentFieldMismatch(Fingerprint), at, Some(i))
  }

  function PositiveOrNone(n: Option<int>): Option<int> {
    if Positive(n) then n else None
  }

  function OutcomeIssues(outcome: Receipt, at: int, decisions: map<int, Receipt>, intents: map<int, Receipt>): seq<Issue> {
    LinkFieldIssues(outcome, at)
    + When(!ValidSuccess(outcome.success), OutcomeInvalidSuccess, at)
    + OutcomeDecisionIssues(outcome, at, decisions)
    + OutcomeIntentIssues(outcome, at, intents)
  }

  // ---------- the declarative link relation ----------

  predicate SameLink(a: Receipt, b: Receipt) {
    a.actorId == b.actorId && a.adapterId == b.adapterId && a.fingerprint == b.fingerprint
  }

  predicate ValidLinkFields(r: Receipt) {
    NonEmptyString(r.actorId) && NonEmptyString(r.adapterId) && IsSha256(r.fingerprint)
  }

  predicate ValidDecision(d: Receipt) {
    && ValidLinkFields(d) && !d.verdict.OtherVerdict? && d.mode != Undeclared && d.dryRun.Some?
    && IsSha256(d.policyHash) && IsSha256(d.ontologyHash)
    && d.actor == Actor(d.actorId)
  }

  /** `r` names `d` as its decision, comes after it, and repeats its actor, adapter and fingerprint. */
  predicate FollowsDecision(r: Receipt, d: Receipt) {
    d.recordType == Decision && Positive(d.seqNo) && r.decisionSeq == d.seqNo
    && r.seqNo.Some? && d.seqNo.value < r.seqNo.value && SameLink(r, d)
  }

  /** `o` names `i` as its intent, comes after it, names the same decision, and repeats its identities. */
  predicate FollowsIntent(o: Receipt, i: Receipt) {
    i.recordType == ConsequenceIntent && Positive(i.seqNo) && o.intentSeq == i.seqNo
    && o.seqNo.Some? && i.seqNo.value < o.seqNo.value && o.decisionSeq == i.decisionSeq && SameLink(o, i)
  }

  predicate HardDelegation(d: Receipt) {
    && d.reasons.Some?
    && (forall r <- d.reasons.value :: r.Reason? && NonEmptyString(r.ruleId) && NonEmptyString(r.result))
    && exists r <- d.reasons.value :: IsDelegationMatch(r)
  }

  predicate IsDelegationMatch(r: Reason) {
    r.Reason? && r.ruleId.Text? && r.result == Text("match") && "delegation_" <= r.ruleId.s
  }

  /** A refusal that the recorded governance mode shows to have been enforced. */
  predicate Blocked(d: Receipt) {
    && (d.verdict == Deny || d.verdict == Escalate)
    && d.dryRun == Some(false)
    && (d.mode == Enforcement || d.mode == Constitutional || (d.mode == DecisionMode && HardDelegation(d)))
  }

  predicate DistinctSeqs(records: seq<Receipt>) {
    && (forall r <- records :: Positive(r.seqNo))
    && forall i, j :: 0 <= i < j < |records| ==> records[i].seqNo != records[j].seqNo
  }

  ghost predicate DecisionsHold(records: seq<Receipt>) {
    forall d <- records :: d.recordType == Decision ==> ValidDecision(d)
  }

  ghost predicate IntentsHold(records: seq<Receipt>) {
    forall i <- records :: i.recordType == ConsequenceIntent ==>
      ValidLinkFields(i) && exists d <- records :: FollowsDecision(i, d)
  }

  /** What an outcome has to satisfy by itself. */
  ghost predicate OutcomeHolds(records: seq<Receipt>, o: Receipt) {
    && ValidLinkFields(o) && ValidSuccess(o.success)
    && (exists d <- records :: FollowsDecision(o, d) && o.verdict == d.verdict)
    && (exists i <- records :: FollowsIntent(o, i))
  }

  ghost predicate OutcomesHold(records: seq<Receipt>) {
    forall o <- records :: o.recordType == Outcome ==> OutcomeHolds(records, o)
  }

  /** No decision is named by two intents, and every intent is named by exactly one outcome. */
  ghost predicate LinksAreUnique(records: seq<Receipt>) {
    OneIntentEach(records) && OneOutcomeEach(records)
  }

  ghost predicate OneIntentEach(records: seq<Receipt>) {
    forall i, j | i in records && j in records && i.recordType == j.recordType == ConsequenceIntent && i.decisionSeq == j.decisionSeq :: i == j
  }

  ghost predicate OneOutcomeEach(records: seq<Receipt>) {
    && (forall i <- records :: i.recordType == ConsequenceIntent ==>
          exists o <- records :: o.recordType == Outcome && o.intentSeq == i.seqNo)
    && (forall o, p | o in records && p in records && o.recordType == p.recordType == Outcome && o.intentSeq == p.intentSeq :: o == p)
  }

  ghost predicate HasConsequence(records: seq<Receipt>, d: Receipt) {
    exists r <- records :: (r.recordType == ConsequenceIntent || r.recordType == Outcome) && r.decisionSeq == d.seqNo
  }

  ghost predicate HasIntent(records: seq<Receipt>, d: Receipt) {
    exists r <- records :: r.recordType == ConsequenceIntent && r.decisionSeq == d.seqNo
  }

  ghost predicate ConsequencesFit(records: seq<Receipt>) {
    forall d <- records :: d.recordType == Decision ==>
      && (d.dryRun == Some(true) || Blocked(d) ==> !HasConsequence(records, d))
      && (d.verdict == Allow && d.dryRun != Some(true) ==> HasIntent(records, d))
  }

  /** What an empty list of issues should mean. */
  ghost predicate LinksHold(records: seq<Receipt>) {
    && DistinctSeqs(records) && DecisionsHold(records) && IntentsHold(records) && OutcomesHold(records)
    && LinksAreUnique(records) && ConsequencesFit(records)
  }

  // ---------- the passes ----------

  /** A dictionary of the records of one type by number, with its keys in order of insertion. */
  datatype Index = Index(records: map<int, Receipt>, order: seq<int>)

  function SeenSeqs(records: seq<Receipt>): set<int> {
    if records == [] then {}
    else
      var last := records[|records| - 1];
      SeenSeqs(records[..|records| - 1]) + if Positive(last.seqNo) then {last.seqNo.value} else {}
  }

  predicate FirstOfItsSeq(earlier: seq<Receipt>, r: Receipt) {
    Positive(r.seqNo) && r.seqNo.value !in SeenSeqs(earlier)
  }

  function Extended(index: Index, r: Receipt, t: RecordType): Index
    requires Positive(r.seqNo)
  {
    if r.recordType == t then Index(index.records[r.seqNo.value := r], index.order + [r.seqNo.value]) else index
  }

  function IndexOf(records: seq<Receipt>, t: RecordType): Index {
    if records == [] then Index(map[], [])
    else
      var front, last := records[..|records| - 1], records[|records| - 1];
      if FirstOfItsSeq(front, last) then Extended(IndexOf(front, t), last, t) else IndexOf(front, t)
  }

  function SeqIssues(records: seq<Receipt>): seq<Issue> {
    if records == [] then []
    else
      var front, last := records[..|records| - 1], records[|records| - 1];
      SeqIssues(front)
      + if !Positive(last.seqNo) then [Issue(InvalidRecordSeq, None, None)]
        else if last.seqNo.value in SeenSeqs(front) then [Issue(DuplicateRecordSeq, last.seqNo, None)]
        else []
  }

  method IndexRecords(records: seq<Receipt>)
    returns (issues: seq<Issue>, decisions: Index, intents: Index, outcomes: Index)
    ensures issues == SeqIssues(records)
    ensures decisions == IndexOf(records, Decision)
    ensures intents == IndexOf(records, ConsequenceIntent)
    ensures outcomes == IndexOf(records, Outcome)
  {
    issues, decisions, intents, outcomes := [], Index(map[], []), Index(map[], []), Index(map[], []);
    var bySeq: set<int> := {};
    for n := 0 to |records|
      invariant bySeq == SeenSeqs(records[..n])
      invariant issues == SeqIssues(records[..n])
      invariant decisions == IndexOf(records[..n], Decision)
      invariant intents == IndexOf(records[..n], ConsequenceIntent)
      invariant outcomes == IndexOf(records[..n], Outcome)
    {
      var r := records[n];
      assert records[..n + 1][..n] == records[..n];
      if !Positive(r.seqNo) {
        issues := issues + [Issue(InvalidRecordSeq, None, None)];
      } else if r.seqNo.value in bySeq {
        issues := issues + [Issue(DuplicateRecordSeq, r.seqNo, None)];
      } else {
        bySeq := bySeq + {r.seqNo.value};
        match r.recordType {
          case Decision => decisions := Extended(decisions, r, Decision);
          case ConsequenceIntent => intents := Extended(intents, r, ConsequenceIntent);
          case Outcome => outcomes := Extended(outcomes, r, Outcome);
          case OtherType =>
        }
      }
    }
    assert records[..|records|] == records;
  }

  /** Which records name which number: the lists in a dictionary, and its keys in order of insertion. */
  datatype Groups = Groups(lists: map<int, seq<int>>, order: seq<int>) {
    function At(k: int): seq<int> {
      if k in lists then lists[k] else []
    }

    /** `setdefault(k, []).append(member)` */
    function Append(k: int, member: int): Groups {
      Groups(lists[k := At(k) + [member]], if k in lists then order else order + [k])
    }
  }

  datatype Name = ByDecision | ByIntent

  function Named(link: Name, r: Receipt): Option<int> {
    PositiveOrNone(if link == ByDecision then r.decisionSeq else r.intentSeq)
  }

  /** How the first `n` records of an index refer to the records of another one. */
  function GroupedBy(link: Name, index: Index, n: nat, anchors: map<int, Receipt>): Groups
    requires n <= |index.order|
  {
    if n == 0 then Groups(map[], [])
    else
      var earlier, at := GroupedBy(link, index, n - 1, anchors), index.order[n - 1];
      if at !in index.records then earlier
      else
        var name := Named(link, index.records[at]);
        if name.Some? && name.value in anchors then earlier.Append(name.value, at) else earlier
  }

  /** The checks that a pass makes at each number. */
  datatype Pass =
    | CheckDecisions(decisions: map<int, Receipt>)
    | CheckIntents(intents: map<int, Receipt>, decisions: map<int, Receipt>)
    | CheckDuplicateIntents(intentsBy: Groups)
    | CheckOutcomes(outcomes: map<int, Receipt>, decisions: map<int, Receipt>, intents: map<int, Receipt>)
    | CheckIntentOutcomes(outcomesByIntent: Groups)
    | CheckConsequences(decisions: map<int, Receipt>, intentsBy: Groups, outcomesBy: Groups)

  function IssuesAt(p: Pass, at: int): seq<Issue> {
    match p
    case CheckDecisions(decisions) => if at in decisions then DecisionIssues(decisions[at], at) else []
    case CheckIntents(intents, decisions) => if at in intents then IntentIssues(intents[at], at, decisions) else []
    case CheckDuplicateIntents(intentsBy) => When(|intentsBy.At(at)| > 1, DuplicateConsequenceIntent, at)
    case CheckOutcomes(outcomes, decisions, intents) =>
      if at in outcomes then OutcomeIssues(outcomes[at], at, decisions, intents) else []
    case CheckIntentOutcomes(byIntent) =>
      When(|byIntent.At(at)| == 0, IntentMissingOutcome, at) + When(|byIntent.At(at)| > 1, DuplicateConsequenceOutcome, at)
    case CheckConsequences(decisions, intentsBy, outcomesBy) =>
      if at in decisions then
        ConsequenceIssues(decisions[at], at, intentsBy.At(at) != [], outcomesBy.At(at) != [], Blocked(decisions[at]))
      else []
  }

  function ConsequenceIssues(d: Receipt, at: int, hasIntent: bool, hasOutcome: bool, blocked: bool): seq<Issue> {
    if d.dryRun == Some(true) && (hasIntent || hasOutcome) then [Issue(DryRunDecisionHasConsequence, Some(at), None)]
    else if d.verdict == Allow && d.dryRun != Some(true) then When(!hasIntent, AllowMissingIntent, at)
    else When(blocked && (hasIntent || hasOutcome), BlockedDecisionHasConsequence, at)
  }

  function PassIssues(p: Pass, order: seq<int>): seq<Issue> {
    if order == [] then [] else PassIssues(p, order[..|order| - 1]) + IssuesAt(p, order[|order| - 1])
  }

  method RunPass(p: Pass, order: seq<int>) returns (issues: seq<Issue>)
    requires !p.CheckConsequences?
    ensures issues == PassIssues(p, order)
  {
    issues := [];
    for n := 0 to |order|
      invariant issues == PassIssues(p, order[..n])
    {
      assert order[..n + 1][..n] == order[..n];
      issues := issues + IssuesAt(p, order[n]);
    }
    assert order[..|order|] == order;
  }

  method LinkIntents(intents: Index, decisions: map<int, Receipt>) returns (issues: seq<Issue>, byDecision: Groups)
    requires forall k <- intents.order :: k in intents.records
    ensures issues == PassIssues(CheckIntents(intents.records, decisions), intents.order)
    ensures byDecision == GroupedBy(ByDecision, intents, |intents.order|, decisions)
  {
    hide OutcomeIssues, DecisionIssues, IntentIssues, ConsequenceIssues;
    issues, byDecision := [], Groups(map[], []);
    for n := 0 to |intents.order|
      invariant issues == PassIssues(CheckIntents(intents.records, decisions), intents.order[..n])
      invariant byDecision == GroupedBy(ByDecision, intents, n, decisions)
    {
      var at := intents.order[n];
      var intent := intents.records[at];
      assert intents.order[..n + 1][..n] == intents.order[..n];
      issues := issues + IntentIssues(intent, at, decisions);
      if Positive(intent.decisionSeq) && intent.decisionSeq.value in decisions {
        byDecision := byDecision.Append(intent.decisionSeq.value, at);
      }
    }
    assert intents.order[..|intents.order|] == intents.order;
  }

  /** The outcome states neither success nor failure. */
  predicate LeftOpen(outcome: Receipt) {
    outcome.success == Some(Null)
  }

  function Unconfirmed(outcomes: Index, n: nat): nat
    requires n <= |outcomes.order| && forall k <- outcomes.order :: k in outcomes.records
  {
    if n == 0 then 0
    else Unconfirmed(outcomes, n - 1) + if LeftOpen(outcomes.records[outcomes.order[n - 1]]) then 1 else 0
  }

  method LinkOutcomes(outcomes: Index, decisions: map<int, Receipt>, intents: map<int, Receipt>)
    returns (issues: seq<Issue>, byIntent: Groups, byDecision: Groups, unconfirmed: nat)
    requires forall k <- outcomes.order :: k in outcomes.records
    ensures issues == PassIssues(CheckOutcomes(outcomes.records, decisions, intents), outcomes.order)
    ensures byIntent == GroupedBy(ByIntent, outcomes, |outcomes.order|, intents)
    ensures byDecision == GroupedBy(ByDecision, outcomes, |outcomes.order|, decisions)
    ensures unconfirmed == Unconfirmed(outcomes, |outcomes.order|)
  {
    hide OutcomeIssues, DecisionIssues, IntentIssues, ConsequenceIssues, LeftOpen;
    issues, byIntent, byDecision, unconfirmed := [], Groups(map[], []), Groups(map[], []), 0;
    for n := 0 to |outcomes.order|
      invariant issues == PassIssues(CheckOutcomes(outcomes.records, decisions, intents), outcomes.order[..n])
      invariant byIntent == GroupedBy(ByIntent, outcomes, n, intents)
      invariant byDecision == GroupedBy(ByDecision, outcomes, n, decisions)
      invariant unconfirmed == Unconfirmed(outcomes, n)
    {
      var at := outcomes.order[n];
      var outcome := outcomes.records[at];
      assert outcomes.order[..n + 1][..n] == outcomes.order[..n];
      issues := issues + OutcomeIssues(outcome, at, decisions, intents);
      if LeftOpen(outcome) {
        unconfirmed := unconfirmed + 1;
      }
      if Positive(outcome.decisionSeq) && outcome.decisionSeq.value in decisions {
        byDecision := byDecision.Append(outcome.decisionSeq.value, at);
      }
      if Positive(outcome.intentSeq) && outcome.intentSeq.value in intents {
        byIntent := byIntent.Append(outcome.intentSeq.value, at);
      }
    }
    assert outcomes.order[..|outcomes.order|] == outcomes.order;
  }

  /** The complete-reasons predicate: one malformed reason voids them all. */
  method DecisionModeHasHardDelegation(d: Receipt) returns (hard: bool)
    ensures hard == HardDelegation(d)
  {
    if d.reasons.None? {
      return false;
    }
    hard := false;
    var reasons := d.reasons.value;
    for n := 0 to |reasons|
      invariant forall r <- reasons[..n] :: r.Reason? && NonEmptyString(r.ruleId) && NonEmptyString(r.result)
      invariant hard <==> exists r <- reasons[..n] :: IsDelegationMatch(r)
    {
      var reason := reasons[n];
      assert reasons[..n + 1] == reasons[..n] + [reason];
      if !reason.Reason? || !NonEmptyString(reason.ruleId) || !NonEmptyString(reason.result) {
        assert reason in reasons;
        return false;
      }
      if IsDelegationMatch(reason) {
        assert reason in reasons[..n + 1];
        hard := true;
      }
    }
    assert reasons[..|reasons|] == reasons;
  }

  method DecisionWasBlocked(d: Receipt) returns (blocked: bool)
    ensures blocked == Blocked(d)
  {
    if (d.verdict != Deny && d.verdict != Escalate) || d.dryRun != Some(false) || d.mode == Undeclared {
      return false;
    }
    if d.mode == Enforcement || d.mode == Constitutional {
      return true;
    }
    if d.mode != DecisionMode {
      return false;
    }
    blocked := DecisionModeHasHardDelegation(d);
  }

  method JudgeConsequences(decisions: Index, intentsBy: Groups, outcomesBy: Groups) returns (issues: seq<Issue>)
    requires forall k <- decisions.order :: k in decisions.records
    ensures issues == PassIssues(CheckConsequences(decisions.records, intentsBy, outcomesBy), decisions.order)
  {
    issues := [];
    for n := 0 to |decisions.order|
      invariant issues == PassIssues(CheckConsequences(decisions.records, intentsBy, outcomesBy), decisions.order[..n])
    {
      var at := decisions.order[n];
      assert decisions.order[..n + 1][..n] == decisions.order[..n];
      var blocked := DecisionWasBlocked(decisions.records[at]);
      issues := issues + ConsequenceIssues(decisions.records[at], at, intentsBy.At(at) != [], outcomesBy.At(at) != [], blocked);
    }
    assert decisions.order[..|decisions.order|] == decisions.order;
  }

  /** The numbers of the first `n` outcomes that were left open. */
  ghost function OpenAmong(outcomes: Index, n: nat): set<int>
    requires n <= |outcomes.order| && forall k <- outcomes.order :: k in outcomes.records
  {
    set k | k in outcomes.order[..n] && LeftOpen(outcomes.records[k])
  }

  lemma OneMoreOutcome(outcomes: Index, n: nat)
    requires 0 < n <= |outcomes.order| && NoRepeats(outcomes.order) && forall k <- outcomes.order :: k in outcomes.records
    ensures var at := outcomes.order[n - 1];
      && at !in OpenAmong(outcomes, n - 1)
      && OpenAmong(outcomes, n) == OpenAmong(outcomes, n - 1) + if LeftOpen(outcomes.records[at]) then {at} else {}
  {
    hide LeftOpen;
    assert outcomes.order[..n] == outcomes.order[..n - 1] + [outcomes.order[n - 1]];
  }

  lemma {:induction false} UnconfirmedCounts(outcomes: Index, n: nat)
    requires n <= |outcomes.order| && NoRepeats(outcomes.order) && forall k <- outcomes.order :: k in outcomes.records
    ensures Unconfirmed(outcomes, n) == |OpenAmong(outcomes, n)|
  {
    hide LeftOpen, OpenAmong, NoRepeats;
    if n > 0 {
      UnconfirmedCounts(outcomes, n - 1);
      OneMoreOutcome(outcomes, n);
    } else {
      NoneOpen(outcomes);
    }
  }

  lemma NoneOpen(outcomes: Index)
    requires forall k <- outcomes.order :: k in outcomes.records
    ensures OpenAmong(outcomes, 0) == {}
  {
  }

  lemma AllOpen(outcomes: Index)
    requires forall k :: k in outcomes.order <==> k in outcomes.records
    ensures OpenAmong(outcomes, |outcomes.order|) == set k <- outcomes.records | LeftOpen(outcomes.records[k])
  {
    hide LeftOpen;
    var open := set k <- outcomes.records | LeftOpen(outcomes.records[k]);
    assert outcomes.order[..|outcomes.order|] == outcomes.order;
    forall k ensures k in OpenAmong(outcomes, |outcomes.order|) <==> k in open {
      assert k in outcomes.order <==> k in outcomes.records;
    }
  }

  /** The dictionaries that the passes over some records fill. */
  datatype Tables = Tables(decisions: Index, intents: Index, outcomes: Index, intentsBy: Groups, outcomesByIntent: Groups, outcomesBy: Groups)

  function TablesOf(records: seq<Receipt>): Tables {
    var decisions, intents, outcomes := IndexOf(records, Decision), IndexOf(records, ConsequenceIntent), IndexOf(records, Outcome);
    Tables(decisions, intents, outcomes,
           GroupedBy(ByDecision, intents, |intents.order|, decisions.records),
           GroupedBy(ByIntent, outcomes, |outcomes.order|, intents.records),
           GroupedBy(ByDecision, outcomes, |outcomes.order|, decisions.records))
  }

  /** Every issue, in the order in which the passes find them. */
  function AllIssues(records: seq<Receipt>): seq<Issue> {
    var t := TablesOf(records);
    SeqIssues(records)
    + PassIssues(CheckDecisions(t.decisions.records), t.decisions.order)
    + PassIssues(CheckIntents(t.intents.records, t.decisions.records), t.intents.order)
    + PassIssues(CheckDuplicateIntents(t.intentsBy), t.intentsBy.order)
    + PassIssues(CheckOutcomes(t.outcomes.records, t.decisions.records, t.intents.records), t.outcomes.order)
    + PassIssues(CheckIntentOutcomes(t.outcomesByIntent), t.intents.order)
    + PassIssues(CheckConsequences(t.decisions.records, t.intentsBy, t.outcomesBy), t.decisions.order)
  }

  datatype Report = Report(
    recordCount: nat, decisionCount: nat, allowCount: nat, refusalCount: nat, blockedRefusalCount: nat,
    intentCount: nat, outcomeCount: nat, unconfirmedCount: nat, issues: seq<Issue>)

  /** The counts of a report, as sizes of sets of record numbers. */
  ghost predicate Counted(report: Report, records: seq<Receipt>, t: Tables) {
    && report.recordCount == |records| && report.decisionCount == |t.decisions.records|
    && report.intentCount == |t.intents.records| && report.outcomeCount == |t.outcomes.records|
    && report.allowCount == |set k <- t.decisions.records | t.decisions.records[k].verdict == Allow|
    && report.refusalCount == |set k <- t.decisions.records | t.decisions.records[k].verdict in {Deny, Escalate}|
    && report.blockedRefusalCount == |set k <- t.decisions.records | Blocked(t.decisions.records[k])|
    && report.unconfirmedCount == |set k <- t.outcomes.records | LeftOpen(t.outcomes.records[k])|
  }

  method Count(records: seq<Receipt>, t: Tables, unconfirmed: nat, issues: seq<Issue>) returns (report: Report)
    requires NoRepeats(t.outcomes.order) && forall k :: k in t.outcomes.order <==> k in t.outcomes.records
    requires unconfirmed == Unconfirmed(t.outcomes, |t.outcomes.order|)
    ensures Counted(report, records, t) && report.issues == issues
  {
    hide Blocked, Unconfirmed, NoRepeats, LeftOpen, OpenAmong;
    UnconfirmedCounts(t.outcomes, |t.outcomes.order|);
    AllOpen(t.outcomes);
    report := Report(
      |records|, |t.decisions.records|,
      |set k <- t.decisions.records | t.decisions.records[k].verdict == Allow|,
      |set k <- t.decisions.records | t.decisions.records[k].verdict in {Deny, Escalate}|,
      |set k <- t.decisions.records | Blocked(t.decisions.records[k])|,
      |t.intents.records|, |t.outcomes.records|, unconfirmed, issues);
  }

  method VerifyReceiptRecords(records: seq<Receipt>) returns (report: Report)
    ensures report.issues == AllIssues(records)
    ensures Counted(report, records, TablesOf(records))
  {
    hide SeqIssues, PassIssues, IndexOf, GroupedBy, Unconfirmed, Counted;
    var seqIssues, decisions, intents, outcomes := IndexRecords(records);
    IndexIsFaithful(records, Decision);
    IndexIsFaithful(records, ConsequenceIntent);
    IndexIsFaithful(records, Outcome);
    var decisionIssues := RunPass(CheckDecisions(decisions.records), decisions.order);
    var intentIssues, intentsBy := LinkIntents(intents, decisions.records);
    var duplicateIssues := RunPass(CheckDuplicateIntents(intentsBy), intentsBy.order);
    var outcomeIssues, byIntent, byDecision, unconfirmed := LinkOutcomes(outcomes, decisions.records, intents.records);
    var missingIssues := RunPass(CheckIntentOutcomes(byIntent), intents.order);
    var consequenceIssues := JudgeConsequences(decisions, intentsBy, byDecision);
    report := Count(
      records, Tables(decisions, intents, outcomes, intentsBy, byIntent, byDecision), unconfirmed,
      seqIssues + decisionIssues + intentIssues + duplicateIssues + outcomeIssues + missingIssues + consequenceIssues);
  }

  // ---------- what the tables hold ----------

  ghost predicate Faithful(index: Index, records: seq<Receipt>, t: RecordType) {
    && NoRepeats(index.order) && (forall k :: k in index.order <==> k in index.records)
    && forall k <- index.records ::
         k > 0 && index.records[k].seqNo == Some(k) && index.records[k].recordType == t && index.records[k] in records
  }

  ghost predicate Complete(index: Index, records: seq<Receipt>, t: RecordType) {
    forall r <- records :: r.recordType == t ==> Positive(r.seqNo) && r.seqNo.value in index.records && index.records[r.seqNo.value] == r
  }

  lemma {:induction false} SeenMeans(records: seq<Receipt>, k: int)
    ensures k in SeenSeqs(records) <==> k > 0 && exists i :: 0 <= i < |records| && records[i].seqNo == Some(k)
  {
    if records != [] {
      var front := records[..|records| - 1];
      SeenMeans(front, k);
      forall i | 0 <= i < |front| ensures front[i] == records[i] {}
    }
  }

  lemma {:induction false} SeqIssuesMean(records: seq<Receipt>)
    ensures SeqIssues(records) == [] <==> DistinctSeqs(records)
  {
    if records != [] {
      var front, last := records[..|records| - 1], records[|records| - 1];
      SeqIssuesMean(front);
      assert records == front + [last];
      if last.seqNo.Some? { SeenMeans(front, last.seqNo.value); }
    }
  }

  lemma ExtendedIsFaithful(index: Index, front: seq<Receipt>, last: Receipt, t: RecordType)
    requires Faithful(index, front, t)
    ensures Faithful(index, front + [last], t)
    ensures Positive(last.seqNo) && last.seqNo.value !in index.records ==> Faithful(Extended(index, last, t), front + [last], t)
  {
  }

  lemma ExtendedIsComplete(index: Index, front: seq<Receipt>, last: Receipt, t: RecordType)
    requires Complete(index, front, t) && Positive(last.seqNo) && last.seqNo.value !in index.records
    ensures Complete(Extended(index, last, t), front + [last], t)
  {
  }

  lemma DistinctFront(front: seq<Receipt>, last: Receipt)
    requires DistinctSeqs(front + [last])
    ensures DistinctSeqs(front) && FirstOfItsSeq(front, last)
  {
    var records := front + [last];
    assert records[|front|] == last && last in records;
    assert forall r <- front :: r in records;
    SeenMeans(front, last.seqNo.value);
    forall i | 0 <= i < |front| ensures front[i].seqNo != last.seqNo {
      assert records[i] == front[i];
    }
    forall i, j | 0 <= i < j < |front| ensures front[i].seqNo != front[j].seqNo {
      assert records[i] == front[i] && records[j] == front[j];
    }
  }

  lemma {:induction false} IndexIsFaithful(records: seq<Receipt>, t: RecordType)
    ensures Faithful(IndexOf(records, t), records, t)
    ensures IndexOf(records, t).records.Keys <= SeenSeqs(records)
    ensures DistinctSeqs(records) ==> Complete(IndexOf(records, t), records, t)
  {
    if records != [] {
      var front, last := records[..|records| - 1], records[|records| - 1];
      assert records == front + [last];
      IndexIsFaithful(front, t);
      hide Faithful, Complete, DistinctSeqs;
      ExtendedIsFaithful(IndexOf(front, t), front, last, t);
      if DistinctSeqs(records) {
        DistinctFront(front, last);
        ExtendedIsComplete(IndexOf(front, t), front, last, t);
      }
    }
  }

  lemma {:induction false} PassIssuesMean(p: Pass, order: seq<int>)
    ensures PassIssues(p, order) == [] <==> forall k <- order :: IssuesAt(p, k) == []
  {
    hide IssuesAt;
    if order != [] {
      var front, last := order[..|order| - 1], order[|order| - 1];
      PassIssuesMean(p, front);
      assert order == front + [last];
      assert forall k :: k in order <==> k in front || k == last;
      assert PassIssues(p, order) == [] <==> PassIssues(p, front) == [] && IssuesAt(p, last) == [];
    }
  }

  /** The list at `k` holds, once each, the records that name `k`. */
  ghost predicate ListMeans(groups: Groups, link: Name, index: Index, n: nat, anchors: map<int, Receipt>, k: int)
    requires n <= |index.order|
  {
    && NoRepeats(groups.At(k))
    && forall member :: member in groups.At(k) <==>
         member in index.order[..n] && member in index.records && k in anchors && Named(link, index.records[member]) == Some(k)
  }

  ghost predicate GroupsMean(groups: Groups, link: Name, index: Index, n: nat, anchors: map<int, Receipt>)
    requires n <= |index.order|
  {
    && (forall k :: k in groups.order <==> k in groups.lists)
    && forall k :: ListMeans(groups, link, index, n, anchors, k)
  }

  lemma ListGrows(link: Name, index: Index, n: nat, anchors: map<int, Receipt>, k: int)
    requires 0 < n <= |index.order| && NoRepeats(index.order)
    requires ListMeans(GroupedBy(link, index, n - 1, anchors), link, index, n - 1, anchors, k)
    ensures ListMeans(GroupedBy(link, index, n, anchors), link, index, n, anchors, k)
  {
    hide Named;
    var at := index.order[n - 1];
    assert forall member :: member in index.order[..n] <==> member in index.order[..n - 1] || member == at by {
      assert index.order[..n] == index.order[..n - 1] + [at];
    }
    assert at !in index.order[..n - 1];
  }

  lemma {:induction false} GroupedByMeans(link: Name, index: Index, n: nat, anchors: map<int, Receipt>)
    requires n <= |index.order| && NoRepeats(index.order)
    ensures GroupsMean(GroupedBy(link, index, n, anchors), link, index, n, anchors)
  {
    hide Named;
    if n > 0 {
      GroupedByMeans(link, index, n - 1, anchors);
      hide ListMeans, NoRepeats;
      forall k ensures ListMeans(GroupedBy(link, index, n, anchors), link, index, n, anchors, k) {
        ListGrows(link, index, n, anchors, k);
      }
    }
  }

  // ---------- the passes against the declarative relation ----------

  ghost predicate Tabled(t: Tables, records: seq<Receipt>) {
    && Faithful(t.decisions, records, Decision) && Complete(t.decisions, records, Decision)
    && Faithful(t.intents, records, ConsequenceIntent) && Complete(t.intents, records, ConsequenceIntent)
    && Faithful(t.outcomes, records, Outcome) && Complete(t.outcomes, records, Outcome)
  }

  lemma TablesAreFaithful(records: seq<Receipt>)
    requires DistinctSeqs(records)
    ensures Tabled(TablesOf(records), records)
  {
    hide Faithful, Complete, DistinctSeqs, GroupedBy, IndexOf;
    IndexIsFaithful(records, Decision);
    IndexIsFaithful(records, ConsequenceIntent);
    IndexIsFaithful(records, Outcome);
  }

  lemma DecisionPassMeans(records: seq<Receipt>, decisions: Index)
    requires Faithful(decisions, records, Decision) && Complete(decisions, records, Decision)
    ensures PassIssues(CheckDecisions(decisions.records), decisions.order) == [] <==> DecisionsHold(records)
  {
    PassIssuesMean(CheckDecisions(decisions.records), decisions.order);
    hide PassIssues, IsSha256;
    forall k | k in decisions.records ensures IssuesAt(CheckDecisions(decisions.records), k) == [] <==> ValidDecision(decisions.records[k]) {
      assert DecisionIssues(decisions.records[k], k) == [] <==> ValidDecision(decisions.records[k]);
    }
  }

  lemma IntentIssuesMean(records: seq<Receipt>, decisions: Index, r: Receipt, at: int)
    requires Faithful(decisions, records, Decision) && Complete(decisions, records, Decision)
    requires r.seqNo == Some(at)
    ensures IntentIssues(r, at, decisions.records) == [] <==>
      ValidLinkFields(r) && exists d <- records :: FollowsDecision(r, d)
  {
    hide IsSha256;
    if Positive(r.decisionSeq) && r.decisionSeq.value in decisions.records {
      var d := decisions.records[r.decisionSeq.value];
      assert d in records;
      assert FollowsDecision(r, d) <==> r.decisionSeq.value < at && SameLink(r, d);
    }
  }

  lemma IntentPassMeans(records: seq<Receipt>, t: Tables)
    requires Tabled(t, records)
    ensures PassIssues(CheckIntents(t.intents.records, t.decisions.records), t.intents.order) == [] <==> IntentsHold(records)
  {
    var pass := CheckIntents(t.intents.records, t.decisions.records);
    PassIssuesMean(pass, t.intents.order);
    hide PassIssues, IntentIssues, FollowsDecision;
    forall k | k in t.intents.records
      ensures IssuesAt(pass, k) == [] <==>
        ValidLinkFields(t.intents.records[k]) && exists d <- records :: FollowsDecision(t.intents.records[k], d)
    {
      IntentIssuesMean(records, t.decisions, t.intents.records[k], k);
    }
  }

  lemma OutcomeDecisionIssuesMean(records: seq<Receipt>, decisions: Index, r: Receipt, at: int)
    requires Faithful(decisions, records, Decision) && Complete(decisions, records, Decision)
    requires r.seqNo == Some(at)
    ensures OutcomeDecisionIssues(r, at, decisions.records) == [] <==>
      exists d <- records :: FollowsDecision(r, d) && r.verdict == d.verdict
  {
    if Positive(r.decisionSeq) && r.decisionSeq.value in decisions.records {
      var d := decisions.records[r.decisionSeq.value];
      assert d in records;
      assert FollowsDecision(r, d) <==> r.decisionSeq.value < at && SameLink(r, d);
    }
  }

  lemma OutcomeIntentIssuesMean(records: seq<Receipt>, intents: Index, r: Receipt, at: int)
    requires Faithful(intents, records, ConsequenceIntent) && Complete(intents, records, ConsequenceIntent)
    requires r.seqNo == Some(at) && Positive(r.decisionSeq)
    requires forall i <- records :: i.recordType == ConsequenceIntent ==> Positive(i.decisionSeq)
    ensures OutcomeIntentIssues(r, at, intents.records) == [] <==> exists i <- records :: FollowsIntent(r, i)
  {
    if Positive(r.intentSeq) && r.intentSeq.value in intents.records {
      var i := intents.records[r.intentSeq.value];
      assert i in records;
      assert FollowsIntent(r, i) <==> r.intentSeq.value < at && r.decisionSeq == i.decisionSeq && SameLink(r, i);
    }
  }

  lemma OutcomeIssuesAt(records: seq<Receipt>, t: Tables, k: int)
    requires Tabled(t, records) && (forall i <- records :: i.recordType == ConsequenceIntent ==> Positive(i.decisionSeq))
    requires k in t.outcomes.records
    ensures IssuesAt(CheckOutcomes(t.outcomes.records, t.decisions.records, t.intents.records), k) == []
       <==> OutcomeHolds(records, t.outcomes.records[k])
  {
    hide OutcomeDecisionIssues, OutcomeIntentIssues, FollowsIntent, IsSha256;
    var o := t.outcomes.records[k];
    OutcomeDecisionIssuesMean(records, t.decisions, o, k);
    if Positive(o.decisionSeq) {
      OutcomeIntentIssuesMean(records, t.intents, o, k);
    }
    assert LinkFieldIssues(o, k) == [] <==> ValidLinkFields(o);
  }

  lemma OutcomePassMeans(records: seq<Receipt>, t: Tables)
    requires Tabled(t, records) && IntentsHold(records)
    ensures PassIssues(CheckOutcomes(t.outcomes.records, t.decisions.records, t.intents.records), t.outcomes.order) == []
       <==> OutcomesHold(records)
  {
    var pass := CheckOutcomes(t.outcomes.records, t.decisions.records, t.intents.records);
    PassIssuesMean(pass, t.outcomes.order);
    assert forall i <- records :: i.recordType == ConsequenceIntent ==> Positive(i.decisionSeq);
    hide PassIssues, IssuesAt, OutcomeHolds, IntentsHold;
    forall k | k in t.outcomes.records ensures IssuesAt(pass, k) == [] <==> OutcomeHolds(records, t.outcomes.records[k]) {
      OutcomeIssuesAt(records, t, k);
    }
  }

  lemma AtMostOne(s: seq<int>)
    requires NoRepeats(s)
    ensures |s| <= 1 <==> forall a, b | a in s && b in s :: a == b
  {
    if |s| > 1 {
      assert s[0] in s && s[1] in s && s[0] != s[1];
    }
  }

  lemma DuplicatePassMeans(records: seq<Receipt>, t: Tables)
    requires Tabled(t, records) && IntentsHold(records)
    requires GroupsMean(t.intentsBy, ByDecision, t.intents, |t.intents.order|, t.decisions.records)
    ensures PassIssues(CheckDuplicateIntents(t.intentsBy), t.intentsBy.order) == [] <==> OneIntentEach(records)
  {
    var pass := CheckDuplicateIntents(t.intentsBy);
    PassIssuesMean(pass, t.intentsBy.order);
    hide PassIssues;
    assert t.intents.order[..|t.intents.order|] == t.intents.order;
    forall k
      ensures IssuesAt(pass, k) == [] <==> forall a, b | a in t.intentsBy.At(k) && b in t.intentsBy.At(k) :: a == b
      ensures ListMeans(t.intentsBy, ByDecision, t.intents, |t.intents.order|, t.decisions.records, k)
    {
      AtMostOne(t.intentsBy.At(k));
    }
    if PassIssues(pass, t.intentsBy.order) == [] {
      forall i, j | i in records && j in records && i.recordType == j.recordType == ConsequenceIntent && i.decisionSeq == j.decisionSeq
        ensures i == j
      {
        var k := i.decisionSeq.value;
        assert i.seqNo.value in t.intentsBy.At(k) && j.seqNo.value in t.intentsBy.At(k);
        assert IssuesAt(pass, k) == [];
      }
    }
    if OneIntentEach(records) {
      forall k, a, b | a in t.intentsBy.At(k) && b in t.intentsBy.At(k) ensures a == b {
        assert t.intents.records[a] == t.intents.records[b];
      }
    }
  }

  lemma IntentOutcomeIssuesMean(records: seq<Receipt>, t: Tables, k: int)
    requires GroupsMean(t.outcomesByIntent, ByIntent, t.outcomes, |t.outcomes.order|, t.intents.records)
    ensures IssuesAt(CheckIntentOutcomes(t.outcomesByIntent), k) == [] <==>
      && (exists member :: member in t.outcomesByIntent.At(k))
      && forall a, b | a in t.outcomesByIntent.At(k) && b in t.outcomesByIntent.At(k) :: a == b
    ensures forall member :: member in t.outcomesByIntent.At(k) <==>
      member in t.outcomes.order && member in t.outcomes.records && k in t.intents.records
      && Named(ByIntent, t.outcomes.records[member]) == Some(k)
  {
    assert ListMeans(t.outcomesByIntent, ByIntent, t.outcomes, |t.outcomes.order|, t.intents.records, k);
    assert t.outcomes.order[..|t.outcomes.order|] == t.outcomes.order;
    AtMostOne(t.outcomesByIntent.At(k));
    var list := t.outcomesByIntent.At(k);
    assert IssuesAt(CheckIntentOutcomes(t.outcomesByIntent), k) == [] <==> |list| != 0 && |list| <= 1;
    if |list| != 0 {
      var first := list[0];
      assert first in list;
    }
  }

  lemma CleanPassGivesOutcomes(records: seq<Receipt>, t: Tables)
    requires Tabled(t, records) && OutcomesHold(records)
    requires GroupsMean(t.outcomesByIntent, ByIntent, t.outcomes, |t.outcomes.order|, t.intents.records)
    requires forall k <- t.intents.order :: IssuesAt(CheckIntentOutcomes(t.outcomesByIntent), k) == []
    ensures OneOutcomeEach(records)
  {
    hide GroupsMean, IssuesAt, Groups.At;
    forall i | i in records && i.recordType == ConsequenceIntent
      ensures exists o <- records :: o.recordType == Outcome && o.intentSeq == i.seqNo
    {
      IntentOutcomeIssuesMean(records, t, i.seqNo.value);
      var member :| member in t.outcomesByIntent.At(i.seqNo.value);
      assert t.outcomes.records[member] in records;
    }
    forall o, p | o in records && p in records && o.recordType == p.recordType == Outcome && o.intentSeq == p.intentSeq
      ensures o == p
    {
      IntentOutcomeIssuesMean(records, t, o.intentSeq.value);
      assert o.seqNo.value in t.outcomesByIntent.At(o.intentSeq.value);
      assert p.seqNo.value in t.outcomesByIntent.At(o.intentSeq.value);
    }
  }

  lemma OutcomeOfIntent(records: seq<Receipt>, t: Tables, k: int) returns (member: int)
    requires Tabled(t, records) && OneOutcomeEach(records) && k in t.intents.order
    ensures member in t.outcomes.order && member in t.outcomes.records && Named(ByIntent, t.outcomes.records[member]) == Some(k)
  {
    var o :| o in records && o.recordType == Outcome && o.intentSeq == t.intents.records[k].seqNo;
    member := o.seqNo.value;
  }

  lemma OneOutcomePerIntent(records: seq<Receipt>, t: Tables, a: int, b: int)
    requires Faithful(t.outcomes, records, Outcome) && OneOutcomeEach(records) && a in t.outcomes.records && b in t.outcomes.records
    requires t.outcomes.records[a].intentSeq == t.outcomes.records[b].intentSeq
    ensures a == b
  {
    assert t.outcomes.records[a] == t.outcomes.records[b];
  }

  lemma NamedByIntent(r: Receipt, k: int)
    requires Named(ByIntent, r) == Some(k)
    ensures r.intentSeq == Some(k)
  {
  }

  lemma OutcomesGiveCleanPass(records: seq<Receipt>, t: Tables, k: int)
    requires Tabled(t, records) && OneOutcomeEach(records) && k in t.intents.order
    requires GroupsMean(t.outcomesByIntent, ByIntent, t.outcomes, |t.outcomes.order|, t.intents.records)
    ensures IssuesAt(CheckIntentOutcomes(t.outcomesByIntent), k) == []
  {
    IntentOutcomeIssuesMean(records, t, k);
    var member := OutcomeOfIntent(records, t, k);
    hide GroupsMean, IssuesAt, Groups.At, OneOutcomeEach, Complete, Named;
    assert member in t.outcomesByIntent.At(k);
    forall a, b | a in t.outcomesByIntent.At(k) && b in t.outcomesByIntent.At(k) ensures a == b {
      NamedByIntent(t.outcomes.records[a], k);
      NamedByIntent(t.outcomes.records[b], k);
      OneOutcomePerIntent(records, t, a, b);
    }
  }

  lemma IntentOutcomePassMeans(records: seq<Receipt>, t: Tables)
    requires Tabled(t, records) && OutcomesHold(records)
    requires GroupsMean(t.outcomesByIntent, ByIntent, t.outcomes, |t.outcomes.order|, t.intents.records)
    ensures PassIssues(CheckIntentOutcomes(t.outcomesByIntent), t.intents.order) == [] <==> OneOutcomeEach(records)
  {
    hide PassIssues, GroupsMean, IssuesAt, Tabled, OutcomesHold, OneOutcomeEach;
    PassIssuesMean(CheckIntentOutcomes(t.outcomesByIntent), t.intents.order);
    if PassIssues(CheckIntentOutcomes(t.outcomesByIntent), t.intents.order) == [] {
      CleanPassGivesOutcomes(records, t);
    }
    if OneOutcomeEach(records) {
      forall k | k in t.intents.order ensures IssuesAt(CheckIntentOutcomes(t.outcomesByIntent), k) == [] {
        OutcomesGiveCleanPass(records, t, k);
      }
    }
  }

  lemma GroupIsEmpty(groups: Groups, link: Name, index: Index, anchors: map<int, Receipt>, records: seq<Receipt>, t: RecordType, k: int)
    requires Faithful(index, records, t) && Complete(index, records, t) && k in anchors && k > 0
    requires GroupsMean(groups, link, index, |index.order|, anchors)
    ensures groups.At(k) != [] <==>
      exists r <- records :: r.recordType == t && (if link == ByDecision then r.decisionSeq else r.intentSeq) == Some(k)
  {
    assert index.order[..|index.order|] == index.order;
    assert ListMeans(groups, link, index, |index.order|, anchors, k);
    if groups.At(k) != [] {
      var first := groups.At(k)[0];
      assert first in groups.At(k);
      assert index.records[first] in records;
    }
    if r :| r in records && r.recordType == t && (if link == ByDecision then r.decisionSeq else r.intentSeq) == Some(k) {
      assert r.seqNo.value in groups.At(k);
    }
  }

  lemma ConsequencePassMeans(records: seq<Receipt>, t: Tables)
    requires Tabled(t, records)
    requires GroupsMean(t.intentsBy, ByDecision, t.intents, |t.intents.order|, t.decisions.records)
    requires GroupsMean(t.outcomesBy, ByDecision, t.outcomes, |t.outcomes.order|, t.decisions.records)
    ensures PassIssues(CheckConsequences(t.decisions.records, t.intentsBy, t.outcomesBy), t.decisions.order) == []
       <==> ConsequencesFit(records)
  {
    var pass := CheckConsequences(t.decisions.records, t.intentsBy, t.outcomesBy);
    PassIssuesMean(pass, t.decisions.order);
    hide PassIssues, GroupsMean, HardDelegation;
    forall k | k in t.decisions.records
      ensures var d := t.decisions.records[k];
        IssuesAt(pass, k) == [] <==>
          && (d.dryRun == Some(true) || Blocked(d) ==> !HasConsequence(records, d))
          && (d.verdict == Allow && d.dryRun != Some(true) ==> HasIntent(records, d))
    {
      GroupIsEmpty(t.intentsBy, ByDecision, t.intents, t.decisions.records, records, ConsequenceIntent, k);
      GroupIsEmpty(t.outcomesBy, ByDecision, t.outcomes, t.decisions.records, records, Outcome, k);
    }
  }

  /** The verifier reports no issue exactly when the declarative link relation holds. */
  lemma NoIssuesMeansLinksHold(records: seq<Receipt>)
    ensures AllIssues(records) == [] <==> LinksHold(records)
  {
    SeqIssuesMean(records);
    hide DistinctSeqs, Tabled, GroupsMean, IntentsHold, OutcomesHold, DecisionsHold, OneIntentEach, OneOutcomeEach, ConsequencesFit;
    hide SeqIssues, PassIssues, GroupedBy;
    if DistinctSeqs(records) {
      var t := TablesOf(records);
      TablesAreFaithful(records);
      GroupsOfTables(records);
      DecisionPassOf(records, t);
      IntentPassMeans(records, t);
      ConsequencePassMeans(records, t);
      if IntentsHold(records) {
        OutcomePassMeans(records, t);
        DuplicatePassMeans(records, t);
      }
      if OutcomesHold(records) { IntentOutcomePassMeans(records, t); }
    }
  }

  lemma DecisionPassOf(records: seq<Receipt>, t: Tables)
    requires Tabled(t, records)
    ensures PassIssues(CheckDecisions(t.decisions.records), t.decisions.order) == [] <==> DecisionsHold(records)
  {
    DecisionPassMeans(records, t.decisions);
  }

  lemma GroupsOfTables(records: seq<Receipt>)
    ensures var t := TablesOf(records);
      && GroupsMean(t.intentsBy, ByDecision, t.intents, |t.intents.order|, t.decisions.records)
      && GroupsMean(t.outcomesByIntent, ByIntent, t.outcomes, |t.outcomes.order|, t.intents.records)
      && GroupsMean(t.outcomesBy, ByDecision, t.outcomes, |t.outcomes.order|, t.decisions.records)
  {
    hide GroupsMean, GroupedBy, IndexOf;
    var t := TablesOf(records);
    IndexIsFaithful(records, ConsequenceIntent);
    IndexIsFaithful(records, Outcome);
    GroupedByMeans(ByDecision, t.intents, |t.intents.order|, t.decisions.records);
    GroupedByMeans(ByIntent, t.outcomes, |t.outcomes.order|, t.intents.records);
    GroupedByMeans(ByDecision, t.outcomes, |t.outcomes.order|, t.decisions.records);
  }

  // ---------- what a clean report is worth ----------

  ghost function OfType(records: seq<Receipt>, t: RecordType): set<Receipt> {
    set r <- records | r.recordType == t
  }

  ghost predicate MapsInto(a: set<Receipt>, b: set<Receipt>, rel: (Receipt, Receipt) -> bool) {
    forall x <- a :: exists y <- b :: rel(x, y)
  }

  ghost predicate OneToOne(a: set<Receipt>, b: set<Receipt>, rel: (Receipt, Receipt) -> bool) {
    forall x, y, z | x in a && y in a && z in b && rel(x, z) && rel(y, z) :: x == y
  }

  lemma {:induction false} OneToOneBounds(a: set<Receipt>, b: set<Receipt>, rel: (Receipt, Receipt) -> bool)
    requires MapsInto(a, b, rel) && OneToOne(a, b, rel)
    ensures |a| <= |b|
  {
    if a != {} {
      var x :| x in a;
      var y :| y in b && rel(x, y);
      OneToOneBounds(a - {x}, b - {y}, rel);
    }
  }

  lemma LinkedIntent(o: Receipt, i: Receipt)
    requires FollowsIntent(o, i)
    ensures i.recordType == ConsequenceIntent && o.intentSeq == i.seqNo && o.decisionSeq == i.decisionSeq
  {
  }

  lemma LinkedDecision(r: Receipt, d: Receipt)
    requires FollowsDecision(r, d)
    ensures d.recordType == Decision && r.decisionSeq == d.seqNo
  {
  }

  lemma SeqNamesOneRecord(records: seq<Receipt>, a: Receipt, b: Receipt)
    requires DistinctSeqs(records) && a in records && b in records && a.seqNo == b.seqNo
    ensures a == b
  {
  }

  /** The outcome of an intent. */
  lemma OutcomeFor(records: seq<Receipt>, i: Receipt) returns (o: Receipt)
    requires LinksHold(records) && i in records && i.recordType == ConsequenceIntent
    ensures o in records && o.recordType == Outcome && FollowsIntent(o, i)
  {
    hide ConsequencesFit, DecisionsHold, IntentsHold, OneIntentEach, DistinctSeqs, FollowsIntent, FollowsDecision;
    o :| o in records && o.recordType == Outcome && o.intentSeq == i.seqNo;
    var j :| j in records && FollowsIntent(o, j);
    LinkedIntent(o, j);
    SeqNamesOneRecord(records, i, j);
  }

  /**
   Outcomes and intents pair off: every outcome follows one intent, every intent is followed by one
   outcome, and a pair names the same decision with the same actor, adapter and fingerprint.
   */
  lemma OutcomesPairWithIntents(records: seq<Receipt>)
    requires LinksHold(records)
    ensures MapsInto(OfType(records, Outcome), OfType(records, ConsequenceIntent), FollowsIntent)
    ensures OneToOne(OfType(records, Outcome), OfType(records, ConsequenceIntent), FollowsIntent)
    ensures MapsInto(OfType(records, ConsequenceIntent), OfType(records, Outcome), (i, o) => FollowsIntent(o, i))
    ensures OneToOne(OfType(records, ConsequenceIntent), OfType(records, Outcome), (i, o) => FollowsIntent(o, i))
  {
    hide ConsequencesFit, DecisionsHold, IntentsHold, OneIntentEach, DistinctSeqs, FollowsIntent, FollowsDecision;
    forall o | o in OfType(records, Outcome) ensures exists i <- OfType(records, ConsequenceIntent) :: FollowsIntent(o, i) {
      var i :| i in records && FollowsIntent(o, i);
      LinkedIntent(o, i);
      assert i in OfType(records, ConsequenceIntent);
    }
    forall i | i in OfType(records, ConsequenceIntent) ensures exists o <- OfType(records, Outcome) :: FollowsIntent(o, i) {
      var o := OutcomeFor(records, i);
      assert o in OfType(records, Outcome);
    }
    forall a, b, z | a in records && b in records && z in records && FollowsIntent(z, a) && FollowsIntent(z, b) ensures a == b {
      LinkedIntent(z, a);
      LinkedIntent(z, b);
      SeqNamesOneRecord(records, a, b);
    }
    forall a, b, z | a in OfType(records, Outcome) && b in OfType(records, Outcome) && FollowsIntent(a, z) && FollowsIntent(b, z) ensures a == b {
      LinkedIntent(a, z);
      LinkedIntent(b, z);
    }
  }

  /** Every intent follows a decision of its own. */
  lemma IntentsInjectIntoDecisions(records: seq<Receipt>)
    requires LinksHold(records)
    ensures MapsInto(OfType(records, ConsequenceIntent), OfType(records, Decision), FollowsDecision)
    ensures OneToOne(OfType(records, ConsequenceIntent), OfType(records, Decision), FollowsDecision)
  {
    hide ConsequencesFit, DecisionsHold, OutcomesHold, OneOutcomeEach, IsSha256, SameLink, DistinctSeqs;
    forall i | i in OfType(records, ConsequenceIntent) ensures exists d <- OfType(records, Decision) :: FollowsDecision(i, d) {
      var d :| d in records && FollowsDecision(i, d);
      assert d in OfType(records, Decision);
    }
  }

  /** As many outcomes as intents, and no more of either than decisions. */
  lemma CleanCounts(records: seq<Receipt>)
    requires LinksHold(records)
    ensures |OfType(records, Outcome)| == |OfType(records, ConsequenceIntent)| <= |OfType(records, Decision)|
  {
    hide LinksHold, MapsInto, OneToOne;
    OutcomesPairWithIntents(records);
    IntentsInjectIntoDecisions(records);
    OneToOneBounds(OfType(records, Outcome), OfType(records, ConsequenceIntent), FollowsIntent);
    OneToOneBounds(OfType(records, ConsequenceIntent), OfType(records, Outcome), (i, o) => FollowsIntent(o, i));
    OneToOneBounds(OfType(records, ConsequenceIntent), OfType(records, Decision), FollowsDecision);
  }

  lemma TableSizes(records: seq<Receipt>, t: RecordType)
    requires DistinctSeqs(records)
    ensures |IndexOf(records, t).records| == |OfType(records, t)|
  {
    IndexIsFaithful(records, t);
    hide IndexOf, DistinctSeqs;
    var table := IndexOf(records, t).records;
    forall r | r in OfType(records, t) ensures exists k <- table :: table[k] == r {
      assert table[r.seqNo.value] == r;
    }
    forall j, k | j in table && k in table && table[j] == table[k] ensures j == k {
      assert table[j].seqNo == Some(j) && table[k].seqNo == Some(k);
    }
    TableSize(table, OfType(records, t));
  }

  /** What a reader of a clean report may conclude from its counts. */
  lemma CleanReport(records: seq<Receipt>, report: Report)
    requires report.issues == [] == AllIssues(records) && Counted(report, records, TablesOf(records))
    ensures report.outcomeCount == report.intentCount <= report.decisionCount
  {
    hide LinksHold, AllIssues, IndexOf;
    NoIssuesMeansLinksHold(records);
    CleanCounts(records);
    assert DistinctSeqs(records) by { LinksHaveDistinctSeqs(records); }
    TableSizes(records, Decision);
    TableSizes(records, ConsequenceIntent);
    TableSizes(records, Outcome);
  }

  lemma LinksHaveDistinctSeqs(records: seq<Receipt>)
    requires LinksHold(records)
    ensures DistinctSeqs(records)
  {
  }

  /** An outcome comes after its intent, which comes after the decision that both name, with its verdict. */
  lemma OutcomeOrder(records: seq<Receipt>, o: Receipt) returns (i: Receipt, d: Receipt)
    requires LinksHold(records) && o in OfType(records, Outcome)
    ensures i in OfType(records, ConsequenceIntent) && d in OfType(records, Decision)
    ensures FollowsIntent(o, i) && FollowsDecision(i, d) && FollowsDecision(o, d) && o.verdict == d.verdict
    ensures d.seqNo.value < i.seqNo.value < o.seqNo.value
  {
    hide ConsequencesFit, DecisionsHold, LinksAreUnique, IsSha256, SameLink;
    i :| i in records && FollowsIntent(o, i);
    d :| d in records && FollowsDecision(o, d) && o.verdict == d.verdict;
    var e :| e in records && FollowsDecision(i, e);
    assert d == e;
  }

  /** An ALLOW that was not a dry run has one intent and one outcome, and nothing else names it. */
  lemma AllowedDecisionHasItsConsequence(records: seq<Receipt>, d: Receipt) returns (i: Receipt, o: Receipt)
    requires LinksHold(records) && d in OfType(records, Decision) && d.verdict == Allow && d.dryRun == Some(false)
    ensures i in OfType(records, ConsequenceIntent) && o in OfType(records, Outcome)
    ensures FollowsDecision(i, d) && FollowsIntent(o, i)
    ensures forall r <- OfType(records, ConsequenceIntent) :: FollowsDecision(r, d) ==> r == i
    ensures forall r <- OfType(records, Outcome) :: FollowsDecision(r, d) ==> r == o
  {
    hide DecisionsHold, FollowsDecision, FollowsIntent, Blocked, DistinctSeqs, HasConsequence;
    i :| i in records && i.recordType == ConsequenceIntent && i.decisionSeq == d.seqNo;
    o := OutcomeFor(records, i);
    var e :| e in records && FollowsDecision(i, e);
    LinkedDecision(i, e);
    SeqNamesOneRecord(records, d, e);
    forall r | r in records && FollowsDecision(r, d)
      ensures r.recordType == ConsequenceIntent ==> r == i
      ensures r.recordType == Outcome ==> r == o
    {
      LinkedDecision(r, d);
      if r.recordType == Outcome {
        var j :| j in records && FollowsIntent(r, j);
        LinkedIntent(r, j);
        LinkedIntent(o, i);
        assert j == i;
      }
    }
  }

  /** Nothing follows a dry run, or a refusal that was enforced. */
  lemma BlockedDecisionHasNoConsequence(records: seq<Receipt>, d: Receipt, r: Receipt)
    requires LinksHold(records) && d in OfType(records, Decision) && (d.dryRun == Some(true) || Blocked(d))
    requires r in OfType(records, ConsequenceIntent) + OfType(records, Outcome)
    ensures !FollowsDecision(r, d)
  {
    hide Blocked;
  }
}
