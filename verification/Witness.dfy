/** A ledger checked against the heads that an independent witness recorded in a ledger of its own. */
module Witness {
  import opened Prelude
  import opened Values
  import opened Ledger
  import opened Heads

  /** `readBlock` rebuilds an attestation from an attestation block, when the block has the exact shape. */
  datatype Witness = Witness(ledgerId: string, verifier: HeadVerifier, readBlock: Record -> Option<HeadAttestation>)

  /** The attestation that a record of the witness ledger contributes, if it contributes one. */
  function Authentic(w: Witness, record: Record): Option<HeadAttestation> {
    if Get(record, "record_type") != Text("head_witness") then None
    else if Get(record, "witnessed_ledger_id") != Text(w.ledgerId) then None
    else match Get(record, "attestation")
      case Object(block) =>
        var attestation :- w.readBlock(block);
        if attestation.ledgerId == Some(w.ledgerId) && w.verifier(attestation) then Some(attestation) else None
      case _ => None
  }

  datatype Seen = Seen(best: Option<HeadAttestation>, equivocationSeq: Option<int>)

  function Absorb(w: Witness, seen: Seen, record: Record): Seen {
    match Authentic(w, record)
    case None => seen
    case Some(a) =>
      if seen.best.None? || a.maxSeq > seen.best.value.maxSeq then Seen(Some(a), None)
      else if a.maxSeq == seen.best.value.maxSeq && a.headRecordHash != seen.best.value.headRecordHash then
        seen.(equivocationSeq := Some(a.maxSeq))
      else seen
  }

  function Folded(w: Witness, records: seq<Record>): Seen {
    if records == [] then Seen(None, None)
    else Absorb(w, Folded(w, records[..|records| - 1]), records[|records| - 1])
  }

  /** The visitor of the walk over the witness ledger; its fields outlive the individual records. */
  class Inspector {
    const w: Witness
    var best: Option<HeadAttestation>
    var equivocationSeq: Option<int>
    ghost var inspected: seq<Record>

    ghost predicate Valid()
      reads this
    {
      Seen(best, equivocationSeq) == Folded(w, inspected)
    }

    constructor (w: Witness)
      ensures Valid() && this.w == w && inspected == []
    {
      this.w := w;
      best, equivocationSeq, inspected := None, None, [];
    }

    method Inspect(record: Record)
      requires Valid()
      modifies this
      ensures Valid() && inspected == old(inspected) + [record]
    {
      assert (inspected + [record])[..|inspected|] == inspected;
      inspected := inspected + [record];
      var attestation := Authentic(w, record);
      if attestation.None? {
        return;
      }
      if best.None? || attestation.value.maxSeq > best.value.maxSeq {
        best := attestation;
        equivocationSeq := None;
      } else if attestation.value.maxSeq == best.value.maxSeq
        && attestation.value.headRecordHash != best.value.headRecordHash {
        equivocationSeq := Some(attestation.value.maxSeq);
      }
    }
  }

  /** The walk shows the inspector every record that it verified. */
  method WalkWitnessLedger(codec: Codec, w: Witness, files: seq<seq<Line>>) returns (chain: Chain, seen: Seen)
    ensures var p := Walked(codec, Concat(files)); chain == ChainOf(p, 0) && seen == Folded(w, p.records)
  {
    var visited;
    chain, visited := WalkChain(codec, files, 0);
    var inspector := new Inspector(w);
    for i := 0 to |visited|
      invariant inspector.Valid() && inspector.w == w && inspector.inspected == visited[..i]
    {
      inspector.Inspect(visited[i]);
    }
    assert visited[..|visited|] == visited;
    seen := Seen(inspector.best, inspector.equivocationSeq);
  }

  /** A head-witness record that names the witnessed ledger, with an attestation that names it too and verifies. */
  ghost predicate IsHeadWitness(w: Witness, r: Record, a: HeadAttestation) {
    && "record_type" in r.fields && r.fields["record_type"] == Text("head_witness")
    && "witnessed_ledger_id" in r.fields && r.fields["witnessed_ledger_id"] == Text(w.ledgerId)
    && a.ledgerId == Some(w.ledgerId) && w.verifier(a)
    && "attestation" in r.fields && exists block :: r.fields["attestation"] == Object(block) && w.readBlock(block) == Some(a)
  }

  lemma AuthenticIsExact(w: Witness, r: Record, a: HeadAttestation)
    ensures Authentic(w, r) == Some(a) <==> IsHeadWitness(w, r, a)
  {
  }

  /** The attestations that some records contribute, whatever their order. */
  ghost predicate Contributes(w: Witness, records: multiset<Record>, a: HeadAttestation) {
    exists r <- records :: IsHeadWitness(w, r, a)
  }

  /** What the fold should amount to, as a property of the bag of records. */
  ghost predicate Settled(w: Witness, records: multiset<Record>, seen: Seen) {
    match seen.best
    case None => seen.equivocationSeq.None? && forall a :: !Contributes(w, records, a)
    case Some(best) =>
      && Contributes(w, records, best)
      && (forall a :: Contributes(w, records, a) ==> a.maxSeq <= best.maxSeq)
      && (seen.equivocationSeq.Some? ==> seen.equivocationSeq.value == best.maxSeq)
      && (seen.equivocationSeq.Some? <==>
          exists a :: Contributes(w, records, a) && a.maxSeq == best.maxSeq && a.headRecordHash != best.headRecordHash)
  }

  lemma ContributionsGrow(w: Witness, records: seq<Record>, record: Record, a: HeadAttestation)
    ensures Contributes(w, multiset(records + [record]), a)
       <==> Contributes(w, multiset(records), a) || Authentic(w, record) == Some(a)
  {
    AuthenticIsExact(w, record, a);
    hide Authentic, IsHeadWitness;
    if IsHeadWitness(w, record, a) {
      assert record in multiset(records + [record]);
    }
    if Contributes(w, multiset(records), a) {
      var r :| r in multiset(records) && IsHeadWitness(w, r, a);
      assert r in multiset(records + [record]);
    }
  }

  /** The fold ends with the greatest authenticated number, and flags exactly a contradiction at that number. */
  lemma {:induction false} FoldSettles(w: Witness, records: seq<Record>)
    ensures Settled(w, multiset(records), Folded(w, records))
  {
    hide Authentic;
    if records != [] {
      var front, last := records[..|records| - 1], records[|records| - 1];
      assert records == front + [last];
      FoldSettles(w, front);
      forall a ensures Contributes(w, multiset(records), a) <==> Contributes(w, multiset(front), a) || Authentic(w, last) == Some(a) {
        ContributionsGrow(w, front, last, a);
      }
      SettledStep(w, multiset(front), multiset(records), Folded(w, front), last);
    }
  }

  lemma SettledStep(w: Witness, before: multiset<Record>, after: multiset<Record>, seen: Seen, record: Record)
    requires Settled(w, before, seen)
    requires forall a :: Contributes(w, after, a) <==> Contributes(w, before, a) || Authentic(w, record) == Some(a)
    ensures Settled(w, after, Absorb(w, seen, record))
  {
    hide Authentic, Contributes;
    var next := Absorb(w, seen, record);
    if next.equivocationSeq.Some? && seen.equivocationSeq.Some? && next.best == seen.best {
      var a :| Contributes(w, before, a) && a.maxSeq == seen.best.value.maxSeq && a.headRecordHash != seen.best.value.headRecordHash;
      assert Contributes(w, after, a);
    }
  }

  /** What the flag means without reference to the attestation the fold happened to keep. */
  ghost predicate Equivocates(w: Witness, records: multiset<Record>, at: int) {
    exists a, b :: Contributes(w, records, a) && Contributes(w, records, b)
      && a.maxSeq == at && b.maxSeq == at && a.headRecordHash != b.headRecordHash
  }

  lemma FlagMeansEquivocation(w: Witness, records: seq<Record>)
    requires Folded(w, records).best.Some?
    ensures Folded(w, records).equivocationSeq.Some?
       <==> Equivocates(w, multiset(records), Folded(w, records).best.value.maxSeq)
  {
    hide Authentic, Contributes;
    FoldSettles(w, records);
    var seen, bag := Folded(w, records), multiset(records);
    if Equivocates(w, bag, seen.best.value.maxSeq) {
      var a, b :| Contributes(w, bag, a) && Contributes(w, bag, b)
        && a.maxSeq == seen.best.value.maxSeq && b.maxSeq == seen.best.value.maxSeq && a.headRecordHash != b.headRecordHash;
      assert a.headRecordHash != seen.best.value.headRecordHash || b.headRecordHash != seen.best.value.headRecordHash;
    }
  }

  /** Permuting the witness records changes neither the number, nor the flag, nor an unflagged head hash. */
  lemma FoldIgnoresOrder(w: Witness, a: seq<Record>, b: seq<Record>)
    requires multiset(a) == multiset(b)
    ensures var sa, sb := Folded(w, a), Folded(w, b);
      && sa.equivocationSeq == sb.equivocationSeq
      && sa.best.Some? == sb.best.Some?
      && (sa.best.Some? ==> sa.best.value.maxSeq == sb.best.value.maxSeq)
      && (sa.best.Some? && sa.equivocationSeq.None? ==> sa.best.value.headRecordHash == sb.best.value.headRecordHash)
  {
    hide Authentic, Contributes;
    FoldSettles(w, a);
    FoldSettles(w, b);
    if Folded(w, a).best.Some? && Folded(w, b).best.Some? {
      FlagMeansEquivocation(w, a);
      FlagMeansEquivocation(w, b);
    }
  }

  datatype WitnessRefusal =
    | NoLedgerId
    | WitnessLedgerInvalid
    | WitnessEquivocation
    | NoHeadWitness
    | LedgerInvalid
    | Rollback
    | StaleWitness
    | HeadForgery

  /** `own` is the attestation of the witness ledger itself. */
  function WitnessedHeadRefusal(
    codec: Codec, w: Witness, ledger: seq<seq<Line>>, witnessLedger: seq<seq<Line>>, own: Option<HeadAttestation>): Option<WitnessRefusal>
  {
    var p := Walked(codec, Concat(witnessLedger));
    var seen := Folded(w, p.records);
    var chain := ChainOf(Walked(codec, Concat(ledger)), 0);
    if w.ledgerId == "" then Some(NoLedgerId)
    else if p.error.Some? || HeadAttestationRefusal(ChainOf(p, 0), w.verifier, own).Some? then Some(WitnessLedgerInvalid)
    else if seen.equivocationSeq.Some? then Some(WitnessEquivocation)
    else if seen.best.None? then Some(NoHeadWitness)
    else if !chain.ok then Some(WitnessRefusal.LedgerInvalid)
    else if chain.count < seen.best.value.maxSeq then Some(WitnessRefusal.Rollback)
    else if chain.count > seen.best.value.maxSeq then Some(StaleWitness)
    else if chain.headHash != seen.best.value.headRecordHash then Some(HeadForgery)
    else None
  }

  /** The ledger's head is the one that the witness records name at their greatest number. */
  ghost predicate SitsAtWitnessedHead(w: Witness, ledger: seq<Record>, witnessed: multiset<Record>) {
    && (exists a :: Contributes(w, witnessed, a) && a.maxSeq == |ledger|)
    && forall a :: Contributes(w, witnessed, a) ==>
         a.maxSeq <= |ledger| && (a.maxSeq == |ledger| ==> a.headRecordHash == HeadHash(ledger))
  }

  /**
   A ledger is accepted exactly when its id is given, the witness ledger is attested, the ledger verifies, no authenticated
   witness record is ahead of it, and the ones at its number, of which there is one, all name its head.
   */
  lemma WitnessedHeadIsExact(
    codec: Codec, w: Witness, ledger: seq<seq<Line>>, witnessLedger: seq<seq<Line>>, own: Option<HeadAttestation>)
    ensures WitnessedHeadRefusal(codec, w, ledger, witnessLedger, own).None? <==>
      && w.ledgerId != "" && AttestedChain(codec, witnessLedger, w.verifier, own) && Walked(codec, Concat(ledger)).error.None?
      && SitsAtWitnessedHead(w, Walked(codec, Concat(ledger)).records, multiset(Walked(codec, Concat(witnessLedger)).records))
  {
    hide Authentic, Contributes, Walked, Folded, HeadAttestationRefusal, HeadHash, HashAt, Concat;
    FoldSettles(w, Walked(codec, Concat(witnessLedger)).records);
  }

  /** The reason for a refusal, once the witness ledger is attested: what is wrong with its records, or how the ledger's head differs. */
  ghost predicate IsWitnessRefusal(w: Witness, ledger: Progress, witnessed: seq<Record>, reason: WitnessRefusal) {
    var bag, count := multiset(witnessed), |ledger.records|;
    match reason
    case NoLedgerId => false
    case WitnessLedgerInvalid => false
    case WitnessEquivocation => exists a :: IsTop(w, bag, a) && Equivocates(w, bag, a.maxSeq)
    case NoHeadWitness => forall a :: !Contributes(w, bag, a)
    case _ =>
      exists a ::
        && IsTop(w, bag, a) && !Equivocates(w, bag, a.maxSeq)
        && match reason
           case LedgerInvalid => ledger.error.Some?
           case Rollback => ledger.error.None? && count < a.maxSeq
           case StaleWitness => ledger.error.None? && count > a.maxSeq
           case _ => ledger.error.None? && count == a.maxSeq && HeadHash(ledger.records) != a.headRecordHash
  }

  /** An authenticated attestation with the greatest number. */
  ghost predicate IsTop(w: Witness, records: multiset<Record>, a: HeadAttestation) {
    Contributes(w, records, a) && forall b :: Contributes(w, records, b) ==> b.maxSeq <= a.maxSeq
  }

  lemma WitnessRefusalIsExact(
    codec: Codec, w: Witness, ledger: seq<seq<Line>>, witnessLedger: seq<seq<Line>>, own: Option<HeadAttestation>, reason: WitnessRefusal)
    ensures WitnessedHeadRefusal(codec, w, ledger, witnessLedger, own) == Some(reason) <==>
      if w.ledgerId == "" then reason == NoLedgerId
      else if AttestedChain(codec, witnessLedger, w.verifier, own) then
        IsWitnessRefusal(w, Walked(codec, Concat(ledger)), Walked(codec, Concat(witnessLedger)).records, reason)
      else reason == WitnessLedgerInvalid
  {
    hide Authentic, Contributes, Walked, Folded, HeadAttestationRefusal, HeadHash, HashAt, Concat;
    var records := Walked(codec, Concat(witnessLedger)).records;
    FoldSettles(w, records);
    if Folded(w, records).best.Some? {
      FlagMeansEquivocation(w, records);
      hide Equivocates;
      var best := Folded(w, records).best.value;
      assert IsTop(w, multiset(records), best);
      forall a | IsTop(w, multiset(records), a) && !Equivocates(w, multiset(records), a.maxSeq)
        ensures a.maxSeq == best.maxSeq && a.headRecordHash == best.headRecordHash
      {
        SameTop(w, multiset(records), a, best);
      }
    }
  }

  lemma SameTop(w: Witness, records: multiset<Record>, a: HeadAttestation, b: HeadAttestation)
    requires IsTop(w, records, a) && IsTop(w, records, b) && !Equivocates(w, records, a.maxSeq)
    ensures a.maxSeq == b.maxSeq && a.headRecordHash == b.headRecordHash
  {
    hide Contributes;
  }

  /** Two ledgers accepted against witness ledgers that hold the same records in any order are the same. */
  lemma WitnessPinsHistory(
    codec: Codec, w: Witness, a: seq<seq<Line>>, b: seq<seq<Line>>, wa: seq<seq<Line>>, wb: seq<seq<Line>>,
    oa: Option<HeadAttestation>, ob: Option<HeadAttestation>)
    requires Injective(codec.hash)
    requires WitnessedHeadRefusal(codec, w, a, wa, oa).None? && WitnessedHeadRefusal(codec, w, b, wb, ob).None?
    requires multiset(Walked(codec, Concat(wa)).records) == multiset(Walked(codec, Concat(wb)).records)
    ensures Walked(codec, Concat(a)).records == Walked(codec, Concat(b)).records
  {
    hide Injective, Linked, Walked, Folded, HeadAttestationRefusal, HeadHash, HashAt, Concat;
    FoldIgnoresOrder(w, Walked(codec, Concat(wa)).records, Walked(codec, Concat(wb)).records);
    AcceptedLines(codec, Concat(a));
    AcceptedLines(codec, Concat(b));
    HeadPinsHistory(codec.hash, Walked(codec, Concat(a)).records, Walked(codec, Concat(b)).records);
  }
}
