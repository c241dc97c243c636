/** A prefix of an accepted ledger prefix is accepted, although the replay first collects the intents of the whole of it. */
module Prefixes {
  import opened Prelude
  import opened Evidence
  import opened ForeignPoints
  import opened Lifecycle
  import opened Replay
  import Books

  /** The fewer intents are among the more, and have all of those numbered up to `n`. */
  ghost predicate AgreeUpTo(fewer: Intents, more: Intents, n: nat) {
    && (forall hash <- fewer :: hash in more && more[hash] == fewer[hash])
    && (forall hash <- more :: more[hash].seqNo <= n ==> hash in fewer)
  }

  // ---------- with fewer intents ----------

  /** A join only reads an intent with a lower number than the record that joins it. */
  lemma IntentStillJoins(fewer: Intents, more: Intents, n: nat, hash: string, e: Sealed<Decision>, operation: Operation, seqNo: nat)
    requires AgreeUpTo(fewer, more, n) && seqNo <= n
    ensures IntentJoins(fewer, hash, e, operation, seqNo) == IntentJoins(more, hash, e, operation, seqNo)
  {
  }

  lemma LinksStay(fewer: Intents, more: Intents, n: nat, seqNo: nat)
    requires AgreeUpTo(fewer, more, n) && IsLinked(fewer, seqNo)
    ensures IsLinked(more, seqNo)
  {
  }

  lemma FenceStays(cfg: Config, fewer: Intents, more: Intents, n: nat, s: State, f: Sealed<Fence>)
    requires AgreeUpTo(fewer, more, n) && f.seqNo <= n
    ensures NextFence(cfg, fewer, s, f) == NextFence(cfg, more, s, f)
  {
    hide FenceForeign, FencedBy, ClaimsJoinOperation, IntentJoins, Books.FenceAll;
    var e := Joined(s.ops, f.value.operation, f.value.decisionHash, f.seqNo);
    if e.Some? {
      IntentStillJoins(fewer, more, n, f.value.intentHash, e.value, f.value.operation, f.seqNo);
    }
    hide Joined;
  }

  lemma SettlementStays(cfg: Config, fewer: Intents, more: Intents, n: nat, s: State, t: Sealed<Settlement>)
    requires AgreeUpTo(fewer, more, n) && t.seqNo <= n
    ensures NextSettlement(cfg, fewer, s, t) == NextSettlement(cfg, more, s, t)
  {
    hide SettledBy, IntentJoins, SettleBooks, ClosesFence, ReceiptProves;
    var e := Joined(s.ops, t.value.operation, t.value.decisionHash, t.seqNo);
    if e.Some? && t.value.intentHash.Some? {
      IntentStillJoins(fewer, more, n, t.value.intentHash.value, e.value, t.value.operation, t.seqNo);
    }
    hide Joined;
  }

  /** A record that is accepted with more intents is accepted with fewer, and does the same. */
  lemma StepStays(cfg: Config, fewer: Intents, more: Intents, n: nat, s: State, r: Record)
    requires AgreeUpTo(fewer, more, n) && r.seqNo <= n && Next(cfg, more, s, r).Some?
    ensures Next(cfg, fewer, s, r) == Next(cfg, more, s, r)
  {
    hide NextDecision, NextCancellation, NextAuthentication, NextRecovery, NextFence, NextPending, NextResume, NextSettlement;
    match r.value {
      case Legacy(_) =>
        if IsLinked(fewer, r.seqNo) {
          LinksStay(fewer, more, n, r.seqNo);
        }
      case FencedDispatch(f) => FenceStays(cfg, fewer, more, n, s, Sealed(r.seqNo, r.hash, f));
      case Settled(t) => SettlementStays(cfg, fewer, more, n, s, Sealed(r.seqNo, r.hash, t));
      case _ =>
    }
  }

  lemma {:induction false} RunStays(cfg: Config, fewer: Intents, more: Intents, n: nat, rs: seq<Record>)
    requires AgreeUpTo(fewer, more, n) && (forall r <- rs :: r.seqNo <= n) && Run(cfg, more, rs).Some?
    ensures Run(cfg, fewer, rs) == Run(cfg, more, rs)
  {
    hide Next, AgreeUpTo;
    if rs != [] {
      var front, last := rs[..|rs| - 1], rs[|rs| - 1];
      assert last in rs && forall r <- front :: r in rs;
      RunStays(cfg, fewer, more, n, front);
      StepStays(cfg, fewer, more, n, Run(cfg, more, front).value, last);
    }
  }

  // ---------- the intents of a prefix ----------

  /** Numbered from one in order, with a hash of its own each: the records of any linked ledger. */
  ghost predicate IsNumbered(rs: seq<Record>) {
    && (forall i :: 0 <= i < |rs| ==> rs[i].seqNo == i + 1)
    && forall i, j :: 0 <= i < j < |rs| ==> rs[i].hash != rs[j].hash
  }

  lemma NumberedPrefix(rs: seq<Record>, n: nat)
    requires IsNumbered(rs) && n <= |rs|
    ensures IsNumbered(rs[..n])
  {
  }

  lemma {:induction false} IntentsAreRecords(rs: seq<Record>)
    ensures forall hash <- IntentsOf(rs) :: exists r <- rs :: r.hash == hash && IntentsOf(rs)[hash].seqNo == r.seqNo
  {
    if rs != [] {
      var front, last := rs[..|rs| - 1], rs[|rs| - 1];
      IntentsAreRecords(front);
      assert last in rs && forall r <- front :: r in rs;
      forall hash | hash in IntentsOf(rs) ensures exists r <- rs :: r.hash == hash && IntentsOf(rs)[hash].seqNo == r.seqNo {
        if hash in IntentsOf(front) && IntentsOf(rs)[hash] == IntentsOf(front)[hash] {
          var r :| r in front && r.hash == hash && IntentsOf(front)[hash].seqNo == r.seqNo;
          assert r in rs;
        }
      }
    }
  }

  lemma NewIntentIsNew(rs: seq<Record>)
    requires rs != [] && IsNumbered(rs)
    ensures rs[|rs| - 1].hash !in IntentsOf(rs[..|rs| - 1])
  {
    var front, last := rs[..|rs| - 1], rs[|rs| - 1];
    IntentsAreRecords(front);
    forall r | r in front ensures r.hash != last.hash {
      var i :| 0 <= i < |front| && front[i] == r;
      assert rs[i].hash != rs[|rs| - 1].hash;
    }
  }

  /** The intents of a prefix are those of the whole with the lower numbers. */
  lemma {:induction false} IntentsOfPrefix(rs: seq<Record>, n: nat)
    requires IsNumbered(rs) && n <= |rs|
    ensures AgreeUpTo(IntentsOf(rs[..n]), IntentsOf(rs), n)
    decreases |rs|
  {
    if n == |rs| {
      assert rs[..n] == rs;
    } else {
      var front := rs[..|rs| - 1];
      assert front[..n] == rs[..n];
      NumberedPrefix(rs, |rs| - 1);
      IntentsOfPrefix(front, n);
      NewIntentIsNew(rs);
    }
  }

  /** Every prefix of an accepted ledger prefix is accepted, and its replay ends in the state that the whole one went through. */
  lemma PrefixIsAccepted(cfg: Config, rs: seq<Record>, n: nat)
    requires IsNumbered(rs) && n <= |rs| && Accepts(cfg, rs)
    ensures Accepts(cfg, rs[..n])
    ensures Run(cfg, IntentsOf(rs[..n]), rs[..n]) == Run(cfg, IntentsOf(rs), rs[..n])
  {
    hide Run, AgreeUpTo, IntentsOf, IsLinked;
    var fewer, more, prefix := IntentsOf(rs[..n]), IntentsOf(rs), rs[..n];
    IntentsOfPrefix(rs, n);
    PrefixRuns(cfg, more, rs, n);
    forall r | r in prefix ensures r.seqNo <= n && !IsUnsupportedLegacy(fewer, r) {
      var i :| 0 <= i < n && prefix[i] == r;
      assert r == rs[i] && r in rs && !IsUnsupportedLegacy(more, r);
      if IsLinked(fewer, r.seqNo) {
        LinksStay(fewer, more, n, r.seqNo);
      }
    }
    RunStays(cfg, fewer, more, n, prefix);
  }
}
