/** Which issues the receipt-link verifier reports: for each code, exactly the receipts that it is about and what is wrong with them. */
module ReceiptIssues {
  import opened Prelude
  import opened Values
  import opened ReceiptLinks

  predicate IsNonemptyText(v: Value) {
    v.Text? && v.s != ""
  }

  predicate IsHashText(v: Value) {
    v.Text? && |v.s| == 64 && forall c <- v.s :: '0' <= c <= '9' || 'a' <= c <= 'f'
  }

  /** Actor and adapter have to be nonempty texts, and the fingerprint a SHA-256 digest. */
  predicate LacksField(r: Receipt, field: Field) {
    match field
    case ActorId => !IsNonemptyText(r.actorId)
    case AdapterId => !IsNonemptyText(r.adapterId)
    case Fingerprint => !IsHashText(r.fingerprint)
  }

  predicate DiffersIn(field: Field, r: Receipt, s: Receipt) {
    match field
    case ActorId => r.actorId != s.actorId
    case AdapterId => r.adapterId != s.adapterId
    case Fingerprint => r.fingerprint != s.fingerprint
  }

  /** The number that a receipt names, if it is a positive one. */
  predicate Names(link: Option<int>, n: int) {
    link == Some(n) && n >= 1
  }

  // ---------- decisions ----------

  predicate IsFaultyDecision(d: Receipt, code: Code) {
    match code
    case InvalidField(field) => LacksField(d, field)
    case DecisionInvalidVerdict => d.verdict != Allow && d.verdict != Deny && d.verdict != Escalate
    case DecisionInvalidMode => d.mode == Undeclared
    case DecisionInvalidDryRun => d.dryRun == None
    case DecisionInvalidPolicyHash => !IsHashText(d.policyHash)
    case DecisionInvalidOntologyHash => !IsHashText(d.ontologyHash)
    case DecisionActorInvalid => d.actor == NoActor || !IsNonemptyText(d.actor.id)
    case DecisionActorIdMismatch => d.actor != NoActor && IsNonemptyText(d.actor.id) && d.actor.id != d.actorId
    case _ => false
  }

  lemma FieldsAreExact(r: Receipt, at: int, issue: Issue)
    ensures issue in LinkFieldIssues(r, at) <==>
      issue.code.InvalidField? && LacksField(r, issue.code.field) && issue == Issue(issue.code, Some(at), None)
  {
  }

  lemma DecisionIssuesAreExact(d: Receipt, at: int, issue: Issue)
    ensures issue in DecisionIssues(d, at) <==> IsFaultyDecision(d, issue.code) && issue == Issue(issue.code, Some(at), None)
  {
    FieldsAreExact(d, at, issue);
    hide LinkFieldIssues, LacksField, IsDigest;
    HashIsExact(d.policyHash);
    HashIsExact(d.ontologyHash);
    hide IsSha256, IsHashText;
  }

  lemma HashIsExact(v: Value)
    ensures IsSha256(v) <==> IsHashText(v)
  {
  }

  lemma DifferencesAreExact(child: Receipt, parent: Receipt, at: int, n: int, issue: Issue)
    ensures issue in SameFieldIssues(child, parent, at, n) <==>
      issue.code.FieldMismatch? && DiffersIn(issue.code.field, child, parent) && issue == Issue(issue.code, Some(at), Some(n))
  {
  }

  // ---------- intents ----------

  /** `related` is the decision that the intent names. */
  predicate IsFaultyIntent(r: Receipt, at: int, decisions: map<int, Receipt>, code: Code, related: Option<int>) {
    match related
    case None =>
      (code == IntentInvalidDecisionSeq && (r.decisionSeq == None || r.decisionSeq.value < 1))
      || (code.InvalidField? && LacksField(r, code.field))
    case Some(d) =>
      && Names(r.decisionSeq, d)
      && match code
         case IntentUnanchoredDecision => d !in decisions
         case IntentNotAfterDecision => d in decisions && at <= d
         case FieldMismatch(field) => d in decisions && DiffersIn(field, r, decisions[d])
         case _ => false
  }

  lemma IntentIssuesAreExact(r: Receipt, at: int, decisions: map<int, Receipt>, issue: Issue)
    ensures issue in IntentIssues(r, at, decisions) <==>
      issue.seqNo == Some(at) && IsFaultyIntent(r, at, decisions, issue.code, issue.relatedSeq)
  {
    FieldsAreExact(r, at, issue);
    if r.decisionSeq.Some? && r.decisionSeq.value in decisions {
      DifferencesAreExact(r, decisions[r.decisionSeq.value], at, r.decisionSeq.value, issue);
    }
    hide LinkFieldIssues, SameFieldIssues, LacksField, DiffersIn;
  }

  // ---------- outcomes ----------

  /** What is wrong with an outcome by itself, and in relation to the decision or the intent that it names. */
  ghost predicate IsFaultyOutcome(
    o: Receipt, at: int, decisions: map<int, Receipt>, intents: map<int, Receipt>, code: Code, related: Option<int>)
  {
    match related
    case None =>
      (match code
       case InvalidField(field) => LacksField(o, field)
       case OutcomeInvalidSuccess => o.success == None || !(o.success.value.Bool? || o.success.value == Null)
       case OutcomeInvalidDecisionSeq => o.decisionSeq == None || o.decisionSeq.value < 1
       case OutcomeInvalidIntentSeq => o.intentSeq == None || o.intentSeq.value < 1
       case _ => false)
    case Some(n) => IsUnlikeDecision(o, at, decisions, code, n) || IsUnlikeIntent(o, at, intents, code, n)
  }

  predicate IsUnlikeDecision(o: Receipt, at: int, decisions: map<int, Receipt>, code: Code, d: int) {
    && Names(o.decisionSeq, d)
    && match code
       case OutcomeNotAfterDecision => at <= d
       case OutcomeUnanchoredDecision => d !in decisions
       case FieldMismatch(field) => d in decisions && DiffersIn(field, o, decisions[d])
       case OutcomeDecisionMismatch => d in decisions && o.verdict != decisions[d].verdict
       case _ => false
  }

  ghost predicate IsUnlikeIntent(o: Receipt, at: int, intents: map<int, Receipt>, code: Code, i: int) {
    && Names(o.intentSeq, i)
    && match code
       case OutcomeUnanchoredIntent => i !in intents
       case OutcomeNotAfterIntent => i in intents && at <= i
       case OutcomeLinkMismatch =>
         i in intents && exists d: int :: Names(o.decisionSeq, d) != Names(intents[i].decisionSeq, d)
       case OutcomeIntentFieldMismatch(field) => i in intents && DiffersIn(field, o, intents[i])
       case _ => false
  }

  lemma OutcomeDecisionsAreExact(o: Receipt, at: int, decisions: map<int, Receipt>, issue: Issue)
    ensures issue in OutcomeDecisionIssues(o, at, decisions) <==>
      && issue.seqNo == Some(at)
      && match issue.relatedSeq
         case None => issue.code == OutcomeInvalidDecisionSeq && (o.decisionSeq == None || o.decisionSeq.value < 1)
         case Some(d) => IsUnlikeDecision(o, at, decisions, issue.code, d)
  {
    if o.decisionSeq.Some? && o.decisionSeq.value in decisions {
      DifferencesAreExact(o, decisions[o.decisionSeq.value], at, o.decisionSeq.value, issue);
    }
    hide SameFieldIssues, DiffersIn;
  }

  lemma OutcomeIntentsAreExact(o: Receipt, at: int, intents: map<int, Receipt>, issue: Issue)
    ensures issue in OutcomeIntentIssues(o, at, intents) <==>
      && issue.seqNo == Some(at)
      && match issue.relatedSeq
         case None => issue.code == OutcomeInvalidIntentSeq && (o.intentSeq == None || o.intentSeq.value < 1)
         case Some(i) => IsUnlikeIntent(o, at, intents, issue.code, i)
  {
    if o.intentSeq.Some? && o.intentSeq.value in intents {
      SameNumberNamed(o.decisionSeq, intents[o.intentSeq.value].decisionSeq);
    }
    hide PositiveOrNone;
  }

  lemma SameNumberNamed(a: Option<int>, b: Option<int>)
    ensures PositiveOrNone(a) != PositiveOrNone(b) <==> exists n: int :: Names(a, n) != Names(b, n)
  {
    if PositiveOrNone(a) != PositiveOrNone(b) {
      var n := if Positive(a) then a.value else b.value;
      assert Names(a, n) != Names(b, n);
    }
  }

  lemma OutcomeIssuesAreExact(o: Receipt, at: int, decisions: map<int, Receipt>, intents: map<int, Receipt>, issue: Issue)
    ensures issue in OutcomeIssues(o, at, decisions, intents) <==>
      issue.seqNo == Some(at) && IsFaultyOutcome(o, at, decisions, intents, issue.code, issue.relatedSeq)
  {
    FieldsAreExact(o, at, issue);
    OutcomeDecisionsAreExact(o, at, decisions, issue);
    OutcomeIntentsAreExact(o, at, intents, issue);
    hide LinkFieldIssues, OutcomeDecisionIssues, OutcomeIntentIssues, LacksField;
  }

  // ---------- consequences ----------

  /** The recorded mode shows that the refusal was enforced: by the mode itself, or in decision mode by a delegation rule that matched. */
  predicate WasEnforced(d: Receipt) {
    && (d.verdict == Deny || d.verdict == Escalate) && d.dryRun == Some(false)
    && (match d.mode
        case Enforcement => true
        case Constitutional => true
        case DecisionMode =>
          && d.reasons.Some?
          && (forall r <- d.reasons.value :: r.Reason? && IsNonemptyText(r.ruleId) && IsNonemptyText(r.result))
          && exists r <- d.reasons.value ::
            r.Reason? && r.result == Text("match") && r.ruleId.Text? && |r.ruleId.s| >= 11 && r.ruleId.s[..11] == "delegation_"
        case _ => false)
  }

  lemma BlockedIsExact(d: Receipt)
    ensures Blocked(d) <==> WasEnforced(d)
  {
    if d.reasons.Some? {
      forall r | r in d.reasons.value ensures IsDelegationMatch(r) <==>
        r.Reason? && r.result == Text("match") && r.ruleId.Text? && |r.ruleId.s| >= 11 && r.ruleId.s[..11] == "delegation_"
      {
        assert |"delegation_"| == 11;
      }
      hide IsDelegationMatch;
    }
  }

  /** A dry run or an enforced refusal has no consequence, and an effective permission has an intent. */
  predicate IsFaultyConsequence(d: Receipt, hasIntent: bool, hasOutcome: bool, code: Code) {
    match code
    case DryRunDecisionHasConsequence => d.dryRun == Some(true) && (hasIntent || hasOutcome)
    case AllowMissingIntent => d.verdict == Allow && d.dryRun != Some(true) && !hasIntent
    case BlockedDecisionHasConsequence => WasEnforced(d) && (hasIntent || hasOutcome)
    case _ => false
  }

  lemma ConsequencesAreExact(d: Receipt, at: int, hasIntent: bool, hasOutcome: bool, issue: Issue)
    ensures issue in ConsequenceIssues(d, at, hasIntent, hasOutcome, Blocked(d)) <==>
      IsFaultyConsequence(d, hasIntent, hasOutcome, issue.code) && issue == Issue(issue.code, Some(at), None)
  {
    BlockedIsExact(d);
    hide HardDelegation;
  }

  // ---------- passes ----------

  /** The issues of a pass are those at each of its numbers. */
  lemma {:induction false} PassIsExact(p: Pass, order: seq<int>, issue: Issue)
    ensures issue in PassIssues(p, order) <==> exists at <- order :: issue in IssuesAt(p, at)
  {
    hide IssuesAt;
    if order != [] {
      PassIsExact(p, order[..|order| - 1], issue);
      assert order == order[..|order| - 1] + [order[|order| - 1]];
    }
  }

  // ---------- the whole report ----------

  /** Record `i` is the first with the number `k`. */
  predicate IsFirst(records: seq<Receipt>, i: nat, k: int) {
    i < |records| && records[i].seqNo == Some(k) && k >= 1 && forall j :: 0 <= j < i ==> records[j].seqNo != Some(k)
  }

  ghost predicate IsFirstOf(records: seq<Receipt>, k: int, r: Receipt) {
    exists i: nat :: IsFirst(records, i, k) && records[i] == r
  }

  /** The first records of their numbers, those that are of this type. */
  ghost predicate HoldsFirsts(m: map<int, Receipt>, records: seq<Receipt>, t: RecordType) {
    forall k, r :: k in m && m[k] == r <==> r.recordType == t && IsFirstOf(records, k, r)
  }

  lemma FirstsGrow(records: seq<Receipt>, k: int, r: Receipt)
    requires records != []
    ensures var front, last := records[..|records| - 1], records[|records| - 1];
      IsFirstOf(records, k, r) <==> IsFirstOf(front, k, r) || (r == last && FirstOfItsSeq(front, last) && last.seqNo == Some(k))
  {
    var front, last := records[..|records| - 1], records[|records| - 1];
    SeenMeans(front, k);
    assert forall i :: 0 <= i < |front| ==> front[i] == records[i];
    if IsFirstOf(front, k, r) {
      var i: nat :| IsFirst(front, i, k) && front[i] == r;
      assert IsFirst(records, i, k);
    }
    if r == last && FirstOfItsSeq(front, last) && last.seqNo == Some(k) {
      assert IsFirst(records, |front|, k);
    }
    if IsFirstOf(records, k, r) {
      var i: nat :| IsFirst(records, i, k) && records[i] == r;
      if i < |front| {
        assert IsFirst(front, i, k);
      }
    }
  }

  lemma IndexGrows(records: seq<Receipt>, t: RecordType, k: int, r: Receipt)
    requires records != [] && IndexOf(records[..|records| - 1], t).records.Keys <= SeenSeqs(records[..|records| - 1])
    ensures var front, last := records[..|records| - 1], records[|records| - 1];
      k in IndexOf(records, t).records && IndexOf(records, t).records[k] == r <==>
        || (k in IndexOf(front, t).records && IndexOf(front, t).records[k] == r)
        || (r == last && r.recordType == t && FirstOfItsSeq(front, last) && last.seqNo == Some(k))
  {
    hide SeenSeqs;
  }

  lemma {:induction false} IndexHoldsFirsts(records: seq<Receipt>, t: RecordType)
    ensures HoldsFirsts(IndexOf(records, t).records, records, t)
  {
    if records == [] {
      NothingIsFirst(t);
    } else {
      var front := records[..|records| - 1];
      IndexHoldsFirsts(front, t);
      IndexIsFaithful(front, t);
      hide IndexOf, IsFirstOf, SeenSeqs, FirstOfItsSeq;
      forall k, r ensures k in IndexOf(records, t).records && IndexOf(records, t).records[k] == r
                      <==> r.recordType == t && IsFirstOf(records, k, r)
      {
        FirstsGrow(records, k, r);
        IndexGrows(records, t, k, r);
      }
    }
  }

  lemma NothingIsFirst(t: RecordType)
    ensures HoldsFirsts(map[], [], t)
  {
  }

  lemma {:induction false} SeqIssuesAreExact(records: seq<Receipt>, issue: Issue)
    ensures issue in SeqIssues(records) <==>
      || (issue == Issue(InvalidRecordSeq, None, None) && exists r <- records :: r.seqNo == None || r.seqNo.value < 1)
      || (exists i, j ::
            && 0 <= i < j < |records| && records[i].seqNo == records[j].seqNo && Positive(records[j].seqNo)
            && issue == Issue(DuplicateRecordSeq, records[j].seqNo, None))
  {
    if records != [] {
      var front, last := records[..|records| - 1], records[|records| - 1];
      SeqIssuesAreExact(front, issue);
      assert records == front + [last];
      if Positive(last.seqNo) {
        SeenMeans(front, last.seqNo.value);
        if i :| 0 <= i < |front| && front[i].seqNo == last.seqNo {
          assert records[i].seqNo == records[|front|].seqNo;
        }
      }
      forall i, j | 0 <= i < j < |front| && front[i].seqNo == front[j].seqNo ensures records[i].seqNo == records[j].seqNo == front[j].seqNo {
      }
    }
  }

  function LinkOf(link: Name, r: Receipt): Option<int> {
    match link case ByDecision => r.decisionSeq case ByIntent => r.intentSeq
  }

  ghost predicate IsNamed(link: Name, m: map<int, Receipt>, k: int) {
    exists a :: a in m && Names(LinkOf(link, m[a]), k)
  }

  ghost predicate IsNamedTwice(link: Name, m: map<int, Receipt>, k: int) {
    exists a, b :: a in m && b in m && a != b && Names(LinkOf(link, m[a]), k) && Names(LinkOf(link, m[b]), k)
  }

  lemma GroupIsExact(link: Name, records: seq<Receipt>, t: RecordType, anchors: map<int, Receipt>, k: int)
    ensures var index := IndexOf(records, t);
      var groups := GroupedBy(link, index, |index.order|, anchors);
      && (groups.At(k) != [] <==> k in anchors && IsNamed(link, index.records, k))
      && (|groups.At(k)| > 1 <==> k in anchors && IsNamedTwice(link, index.records, k))
      && (k in groups.order <== |groups.At(k)| > 1)
  {
    var index := IndexOf(records, t);
    IndexIsFaithful(records, t);
    GroupedByMeans(link, index, |index.order|, anchors);
    var groups := GroupedBy(link, index, |index.order|, anchors);
    assert index.order[..|index.order|] == index.order;
    assert ListMeans(groups, link, index, |index.order|, anchors, k);
    hide GroupedBy, IndexOf;
    forall m | m in index.records ensures Named(link, index.records[m]) == Some(k) <==> Names(LinkOf(link, index.records[m]), k) {
    }
    hide Named, Names, LinkOf;
    MembersOf(groups.At(k));
  }

  lemma MembersOf(s: seq<int>)
    requires NoRepeats(s)
    ensures s != [] <==> exists m :: m in s
    ensures |s| > 1 <==> exists m, n :: m in s && n in s && m != n
  {
    if |s| > 1 {
      assert s[0] in s && s[1] in s && s[0] != s[1];
    } else if |s| == 1 {
      assert s[0] in s && forall m <- s :: m == s[0];
    }
  }

  ghost predicate IsReportedDecision(decisions: map<int, Receipt>, intents: map<int, Receipt>, outcomes: map<int, Receipt>, at: int, code: Code) {
    && at in decisions
    && (|| IsFaultyDecision(decisions[at], code)
        || IsFaultyConsequence(decisions[at], IsNamed(ByDecision, intents, at), IsNamed(ByDecision, outcomes, at), code)
        || (code == DuplicateConsequenceIntent && IsNamedTwice(ByDecision, intents, at)))
  }

  ghost predicate IsReportedIntent(
    decisions: map<int, Receipt>, intents: map<int, Receipt>, outcomes: map<int, Receipt>, at: int, code: Code, related: Option<int>)
  {
    && at in intents
    && (|| IsFaultyIntent(intents[at], at, decisions, code, related)
        || (related == None && code == IntentMissingOutcome && !IsNamed(ByIntent, outcomes, at))
        || (related == None && code == DuplicateConsequenceOutcome && IsNamedTwice(ByIntent, outcomes, at)))
  }

  /** What is wrong at a number, given the first records of each type. */
  ghost predicate IsReportedAt(decisions: map<int, Receipt>, intents: map<int, Receipt>, outcomes: map<int, Receipt>, at: int, issue: Issue) {
    && issue.seqNo == Some(at)
    && (|| (issue.relatedSeq == None && IsReportedDecision(decisions, intents, outcomes, at, issue.code))
        || IsReportedIntent(decisions, intents, outcomes, at, issue.code, issue.relatedSeq)
        || (at in outcomes && IsFaultyOutcome(outcomes[at], at, decisions, intents, issue.code, issue.relatedSeq)))
  }

  /** What the passes over the tables report at a number. */
  predicate IsFoundAt(t: Tables, at: int, issue: Issue) {
    IsFoundAtDecision(t, at, issue) || IsFoundAtIntent(t, at, issue) || IsFoundAtOutcome(t, at, issue)
  }

  predicate IsFoundAtDecision(t: Tables, at: int, issue: Issue) {
    || (at in t.decisions.order && issue in IssuesAt(CheckDecisions(t.decisions.records), at))
    || (at in t.intentsBy.order && issue in IssuesAt(CheckDuplicateIntents(t.intentsBy), at))
    || (at in t.decisions.order && issue in IssuesAt(CheckConsequences(t.decisions.records, t.intentsBy, t.outcomesBy), at))
  }

  predicate IsFoundAtIntent(t: Tables, at: int, issue: Issue) {
    || (at in t.intents.order && issue in IssuesAt(CheckIntents(t.intents.records, t.decisions.records), at))
    || (at in t.intents.order && issue in IssuesAt(CheckIntentOutcomes(t.outcomesByIntent), at))
  }

  predicate IsFoundAtOutcome(t: Tables, at: int, issue: Issue) {
    at in t.outcomes.order && issue in IssuesAt(CheckOutcomes(t.outcomes.records, t.decisions.records, t.intents.records), at)
  }

  lemma PassIsFound(p: Pass, order: seq<int>, t: Tables, issue: Issue)
    requires forall at <- order :: issue in IssuesAt(p, at) ==> IsFoundAt(t, at, issue)
    ensures issue in PassIssues(p, order) ==> exists at :: IsFoundAt(t, at, issue)
    ensures issue !in PassIssues(p, order) ==> forall at <- order :: issue !in IssuesAt(p, at)
  {
    PassIsExact(p, order, issue);
    hide IssuesAt, IsFoundAt, PassIssues;
  }

  lemma FoundInPasses(records: seq<Receipt>, issue: Issue)
    ensures issue in AllIssues(records) <==> issue in SeqIssues(records) || exists at :: IsFoundAt(TablesOf(records), at, issue)
  {
    hide IssuesAt, PassIssues, TablesOf, SeqIssues;
    var t := TablesOf(records);
    PassIsFound(CheckDecisions(t.decisions.records), t.decisions.order, t, issue);
    PassIsFound(CheckIntents(t.intents.records, t.decisions.records), t.intents.order, t, issue);
    PassIsFound(CheckDuplicateIntents(t.intentsBy), t.intentsBy.order, t, issue);
    PassIsFound(CheckOutcomes(t.outcomes.records, t.decisions.records, t.intents.records), t.outcomes.order, t, issue);
    PassIsFound(CheckIntentOutcomes(t.outcomesByIntent), t.intents.order, t, issue);
    PassIsFound(CheckConsequences(t.decisions.records, t.intentsBy, t.outcomesBy), t.decisions.order, t, issue);
  }

  lemma FoundAtDecision(records: seq<Receipt>, at: int, issue: Issue)
    ensures var t := TablesOf(records);
      IsFoundAtDecision(t, at, issue) <==>
        && issue.seqNo == Some(at) && issue.relatedSeq == None
        && IsReportedDecision(t.decisions.records, t.intents.records, t.outcomes.records, at, issue.code)
  {
    var t := TablesOf(records);
    var decisions := t.decisions.records;
    IndexIsFaithful(records, Decision);
    GroupIsExact(ByDecision, records, ConsequenceIntent, decisions, at);
    GroupIsExact(ByDecision, records, Outcome, decisions, at);
    hide IndexOf, GroupedBy, IsNamed, IsNamedTwice, NoRepeats, SeenSeqs;
    if at in decisions {
      DecisionIssuesAreExact(decisions[at], at, issue);
      ConsequencesAreExact(decisions[at], at, t.intentsBy.At(at) != [], t.outcomesBy.At(at) != [], issue);
    }
    hide DecisionIssues, ConsequenceIssues, IsFaultyDecision, IsFaultyConsequence, Blocked;
  }

  lemma FoundAtIntent(records: seq<Receipt>, at: int, issue: Issue)
    ensures var t := TablesOf(records);
      IsFoundAtIntent(t, at, issue) <==>
        && issue.seqNo == Some(at)
        && IsReportedIntent(t.decisions.records, t.intents.records, t.outcomes.records, at, issue.code, issue.relatedSeq)
  {
    var t := TablesOf(records);
    var intents := t.intents.records;
    IndexIsFaithful(records, ConsequenceIntent);
    GroupIsExact(ByIntent, records, Outcome, intents, at);
    hide IndexOf, GroupedBy, IsNamed, IsNamedTwice, NoRepeats, SeenSeqs;
    if at in intents {
      IntentIssuesAreExact(intents[at], at, t.decisions.records, issue);
    }
    hide IntentIssues, IsFaultyIntent;
  }

  lemma FoundAtOutcome(records: seq<Receipt>, at: int, issue: Issue)
    ensures var t := TablesOf(records);
      IsFoundAtOutcome(t, at, issue) <==>
        && issue.seqNo == Some(at) && at in t.outcomes.records
        && IsFaultyOutcome(t.outcomes.records[at], at, t.decisions.records, t.intents.records, issue.code, issue.relatedSeq)
  {
    var t := TablesOf(records);
    IndexIsFaithful(records, Outcome);
    hide IndexOf, GroupedBy, NoRepeats, SeenSeqs;
    if at in t.outcomes.records {
      OutcomeIssuesAreExact(t.outcomes.records[at], at, t.decisions.records, t.intents.records, issue);
    }
    hide OutcomeIssues, IsFaultyOutcome;
  }

  lemma FoundIsReported(records: seq<Receipt>, at: int, issue: Issue)
    ensures var t := TablesOf(records);
      IsFoundAt(t, at, issue) <==> IsReportedAt(t.decisions.records, t.intents.records, t.outcomes.records, at, issue)
  {
    hide TablesOf, IsFoundAtDecision, IsFoundAtIntent, IsFoundAtOutcome, IsReportedDecision, IsReportedIntent, IsFaultyOutcome;
    FoundAtDecision(records, at, issue);
    FoundAtIntent(records, at, issue);
    FoundAtOutcome(records, at, issue);
  }

  /** An issue is reported exactly when two records share its number, a record has none, or it is wrong with the first record of its number. */
  lemma ReportIsExact(
    records: seq<Receipt>, decisions: map<int, Receipt>, intents: map<int, Receipt>, outcomes: map<int, Receipt>, issue: Issue)
    requires HoldsFirsts(decisions, records, Decision) && HoldsFirsts(intents, records, ConsequenceIntent)
    requires HoldsFirsts(outcomes, records, Outcome)
    ensures issue in AllIssues(records) <==>
      || (issue == Issue(InvalidRecordSeq, None, None) && exists r <- records :: r.seqNo == None || r.seqNo.value < 1)
      || (exists i, j ::
            && 0 <= i < j < |records| && records[i].seqNo == records[j].seqNo && Positive(records[j].seqNo)
            && issue == Issue(DuplicateRecordSeq, records[j].seqNo, None))
      || exists at :: IsReportedAt(decisions, intents, outcomes, at, issue)
  {
    FoundInPasses(records, issue);
    SeqIssuesAreExact(records, issue);
    IndexHoldsFirsts(records, Decision);
    IndexHoldsFirsts(records, ConsequenceIntent);
    IndexHoldsFirsts(records, Outcome);
    OneTable(decisions, IndexOf(records, Decision).records, records, Decision);
    OneTable(intents, IndexOf(records, ConsequenceIntent).records, records, ConsequenceIntent);
    OneTable(outcomes, IndexOf(records, Outcome).records, records, Outcome);
    hide AllIssues, SeqIssues, IsFoundAt, IsReportedAt, HoldsFirsts, GroupedBy, IndexOf;
    forall at ensures IsFoundAt(TablesOf(records), at, issue) <==> IsReportedAt(decisions, intents, outcomes, at, issue) {
      FoundIsReported(records, at, issue);
    }
  }

  lemma OneTable(m: map<int, Receipt>, n: map<int, Receipt>, records: seq<Receipt>, t: RecordType)
    requires HoldsFirsts(m, records, t) && HoldsFirsts(n, records, t)
    ensures m == n
  {
    hide IsFirstOf;
    forall k | k in m ensures k in n && m[k] == n[k] {
      assert IsFirstOf(records, k, m[k]) && m[k].recordType == t;
    }
    forall k | k in n ensures k in m {
      assert IsFirstOf(records, k, n[k]) && n[k].recordType == t;
    }
  }
}
