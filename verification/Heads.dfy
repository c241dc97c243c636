/**
 Everything that compares a ledger with a head somebody signed or retained: the head attestation,
 the countersigned checkpoint, and the pinned head of an execution bundle.
 */
module Heads {
  import opened Prelude
  import opened Values
  import opened Ledger

  datatype HeadAttestation = HeadAttestation(
    maxSeq: int,
    headRecordHash: string,
    recordedAt: string,
    trustRootId: string,
    signature: string,
    ledgerId: Option<string>)

  type HeadVerifier = HeadAttestation -> bool

  predicate WellFormed(attestation: HeadAttestation) {
    && attestation.maxSeq >= 0
    && IsDigest(attestation.headRecordHash)
    && attestation.recordedAt != "" && attestation.trustRootId != "" && attestation.signature != ""
    && attestation.ledgerId != Some("")
  }

  datatype HeadRefusal = Missing | Malformed | Unauthentic | Truncated | Stale | EmptyIsNotGenesis | Forgery

  /** `attestation` is the caller's copy, or else the sidecar beside the ledger. */
  function HeadAttestationRefusal(chain: Chain, verifier: HeadVerifier, attestation: Option<HeadAttestation>): Option<HeadRefusal> {
    match attestation
    case None => Some(Missing)
    case Some(a) =>
      if !WellFormed(a) then Some(Malformed)
      else if !verifier(a) then Some(Unauthentic)
      else if chain.count < a.maxSeq then Some(Truncated)
      else if chain.count > a.maxSeq then Some(Stale)
      else if chain.headHash != a.headRecordHash then
        Some(if a.maxSeq == 0 then EmptyIsNotGenesis else Forgery)
      else None
  }

  /** Whether `verify_chain` accepts the ledger under a verifier. */
  predicate AttestedChain(codec: Codec, files: seq<seq<Line>>, verifier: HeadVerifier, attestation: Option<HeadAttestation>) {
    var chain := ChainOf(Walked(codec, Concat(files)), 0);
    chain.ok && HeadAttestationRefusal(chain, verifier, attestation).None?
  }

  /** An accepted walk over segments, as a fact about the records alone. */
  lemma AcceptedLines(codec: Codec, lines: seq<Line>)
    requires Walked(codec, lines).error.None?
    ensures Linked(codec.hash, Walked(codec, lines).records)
  {
    WalkAcceptsLinkedRecords(codec, lines, Walked(codec, lines).records);
  }

  /** A ledger is attested exactly when it verifies, and the well-formed, authentic attestation names its count and head. */
  lemma AttestationIsExact(codec: Codec, files: seq<seq<Line>>, verifier: HeadVerifier, attestation: Option<HeadAttestation>)
    ensures AttestedChain(codec, files, verifier, attestation) <==>
      && Walked(codec, Concat(files)).error.None? && attestation.Some?
      && var a := attestation.value;
      && verifier(a) && a.maxSeq == |Walked(codec, Concat(files)).records|
      && a.headRecordHash == HeadHash(Walked(codec, Concat(files)).records)
      && |a.headRecordHash| == 64 && (forall c <- a.headRecordHash :: '0' <= c <= '9' || 'a' <= c <= 'f')
      && a.recordedAt != "" && a.trustRootId != "" && a.signature != "" && a.ledgerId != Some("")
  {
    hide HashAt, Walked;
  }

  /** The reason for a refusal: the first check that fails, of presence, form, signature, number and head. */
  ghost predicate IsHeadRefusal(chain: Chain, verifier: HeadVerifier, attestation: Option<HeadAttestation>, reason: HeadRefusal) {
    match attestation
    case None => reason == Missing
    case Some(a) =>
      var formed := a.maxSeq >= 0 && IsDigest(a.headRecordHash) && "" !in {a.recordedAt, a.trustRootId, a.signature} && a.ledgerId != Some("");
      match reason
      case Missing => false
      case Malformed => !formed
      case Unauthentic => formed && !verifier(a)
      case Truncated => formed && verifier(a) && chain.count < a.maxSeq
      case Stale => formed && verifier(a) && chain.count > a.maxSeq
      case EmptyIsNotGenesis => formed && verifier(a) && chain.count == a.maxSeq == 0 && chain.headHash != a.headRecordHash
      case Forgery => formed && verifier(a) && chain.count == a.maxSeq > 0 && chain.headHash != a.headRecordHash
  }

  lemma HeadRefusalIsExact(chain: Chain, verifier: HeadVerifier, attestation: Option<HeadAttestation>, reason: HeadRefusal)
    ensures HeadAttestationRefusal(chain, verifier, attestation) == Some(reason) <==> IsHeadRefusal(chain, verifier, attestation, reason)
  {
  }

  /**
   With a collision-free hash, two ledgers accepted under one attestation hold the same records,
   however each of them is split into segments.
   */
  lemma AttestationPinsHistory(
    codec: Codec, a: seq<seq<Line>>, b: seq<seq<Line>>, va: HeadVerifier, vb: HeadVerifier, attestation: HeadAttestation)
    requires Injective(codec.hash)
    requires AttestedChain(codec, a, va, Some(attestation)) && AttestedChain(codec, b, vb, Some(attestation))
    ensures Walked(codec, Concat(a)).records == Walked(codec, Concat(b)).records
    ensures |Walked(codec, Concat(a)).records| == attestation.maxSeq
  {
    hide Injective, Linked;
    AcceptedLines(codec, Concat(a));
    AcceptedLines(codec, Concat(b));
    HeadPinsHistory(codec.hash, Walked(codec, Concat(a)).records, Walked(codec, Concat(b)).records);
  }

  // ---------- the countersigned checkpoint ----------

  /** A parsed checkpoint: one head, the writer's and the witness's attestations of it, and the holder's signature. */
  datatype Checkpoint = Checkpoint(
    seqNo: nat,
    recordHash: string,
    attestation: HeadAttestation,
    attestationHash: string,
    witnessAttestation: HeadAttestation,
    witnessRecordHash: string,
    countersignature: string)

  datatype CheckpointPayload = CheckpointPayload(
    seqNo: nat, recordHash: string, attestationHash: string, witnessRecordHash: string)

  datatype CheckpointKeys = CheckpointKeys(
    witnessKey: HeadVerifier, countersign: (CheckpointPayload, string) -> bool, authority: Option<HeadVerifier>)

  datatype CheckpointRefusal =
    | DifferentLedgers
    | AttestationNamesAnotherHead
    | WitnessNamesAnotherHead
    | AttestationUnauthentic
    | WitnessUnauthentic
    | CountersignatureInvalid
    | LedgerInvalid
    | LedgerTruncated
    | Rollback

  function CheckpointSignatureRefusal(c: Checkpoint, keys: CheckpointKeys): Option<CheckpointRefusal> {
    if c.attestation.ledgerId != c.witnessAttestation.ledgerId then Some(DifferentLedgers)
    else if c.attestation.maxSeq != c.seqNo || c.attestation.headRecordHash != c.recordHash then
      Some(AttestationNamesAnotherHead)
    else if c.witnessAttestation.maxSeq != c.seqNo || c.witnessAttestation.headRecordHash != c.recordHash then
      Some(WitnessNamesAnotherHead)
    else if keys.authority.Some? && !keys.authority.value(c.attestation) then Some(AttestationUnauthentic)
    else if !keys.witnessKey(c.witnessAttestation) then Some(WitnessUnauthentic)
    else if !keys.countersign(CheckpointPayload(c.seqNo, c.recordHash, c.attestationHash, c.witnessRecordHash), c.countersignature) then
      Some(CountersignatureInvalid)
    else None
  }

  function VerifyCheckpoint(codec: Codec, files: seq<seq<Line>>, c: Checkpoint, keys: CheckpointKeys): Option<CheckpointRefusal> {
    match CheckpointSignatureRefusal(c, keys)
    case Some(refusal) => Some(refusal)
    case None =>
      var chain := ChainOf(Walked(codec, Concat(files)), c.seqNo);
      if !chain.ok then Some(LedgerInvalid)
      else if chain.count < c.seqNo then Some(LedgerTruncated)
      else if chain.hashAt != Some(c.recordHash) then Some(Rollback)
      else None
  }

  /**
   A checkpoint passes exactly when its signatures hold and the ledger verifies, reaches the
   checkpointed number, and still carries the checkpointed record there. A shorter ledger fails.
   */
  lemma CheckpointIsExact(codec: Codec, files: seq<seq<Line>>, c: Checkpoint, keys: CheckpointKeys)
    requires 1 <= c.seqNo
    ensures var p := Walked(codec, Concat(files));
      VerifyCheckpoint(codec, files, c, keys).None? <==>
        && c.attestation.ledgerId == c.witnessAttestation.ledgerId
        && c.seqNo == c.attestation.maxSeq == c.witnessAttestation.maxSeq
        && c.recordHash == c.attestation.headRecordHash == c.witnessAttestation.headRecordHash
        && keys.witnessKey(c.witnessAttestation) && (keys.authority == None || keys.authority.value(c.attestation))
        && keys.countersign(
             CheckpointPayload(
               seqNo := c.seqNo, recordHash := c.recordHash, attestationHash := c.attestationHash,
               witnessRecordHash := c.witnessRecordHash),
             c.countersignature)
        && p.error.None? && c.seqNo <= |p.records|
        && p.records[c.seqNo - 1].recordHash == Text(c.recordHash)
  {
    var p := Walked(codec, Concat(files));
    if p.error.None? && c.seqNo <= |p.records| {
      AcceptedLines(codec, Concat(files));
      assert IsSealed(codec.hash, p.records, c.seqNo - 1);
    }
  }

  /** The reason for a refusal: the first check that fails, of the signed blocks and then of the ledger. */
  ghost predicate IsCheckpointRefusal(p: Progress, c: Checkpoint, keys: CheckpointKeys, reason: CheckpointRefusal)
    requires 1 <= c.seqNo
  {
    var oneLedger := c.attestation.ledgerId == c.witnessAttestation.ledgerId;
    var own := oneLedger && (c.attestation.maxSeq, c.attestation.headRecordHash) == (c.seqNo as int, c.recordHash);
    var both := own && (c.witnessAttestation.maxSeq, c.witnessAttestation.headRecordHash) == (c.seqNo as int, c.recordHash);
    var authentic := both && (keys.authority != None ==> keys.authority.value(c.attestation));
    var witnessed := authentic && keys.witnessKey(c.witnessAttestation);
    var signed := witnessed
      && keys.countersign(CheckpointPayload(c.seqNo, c.recordHash, c.attestationHash, c.witnessRecordHash), c.countersignature);
    match reason
    case DifferentLedgers => !oneLedger
    case AttestationNamesAnotherHead => oneLedger && !own
    case WitnessNamesAnotherHead => own && !both
    case AttestationUnauthentic => both && !authentic
    case WitnessUnauthentic => authentic && !witnessed
    case CountersignatureInvalid => witnessed && !signed
    case LedgerInvalid => signed && p.error.Some?
    case LedgerTruncated => signed && p.error.None? && |p.records| < c.seqNo
    case Rollback => signed && p.error.None? && |p.records| >= c.seqNo && p.records[c.seqNo - 1].recordHash != Text(c.recordHash)
  }

  lemma CheckpointRefusalIsExact(codec: Codec, files: seq<seq<Line>>, c: Checkpoint, keys: CheckpointKeys, reason: CheckpointRefusal)
    requires 1 <= c.seqNo
    ensures VerifyCheckpoint(codec, files, c, keys) == Some(reason)
       <==> IsCheckpointRefusal(Walked(codec, Concat(files)), c, keys, reason)
  {
    var p := Walked(codec, Concat(files));
    hide Walked, Concat;
    if p.error.None? && c.seqNo <= |p.records| {
      AcceptedLines(codec, Concat(files));
      assert IsSealed(codec.hash, p.records, c.seqNo - 1);
    }
  }

  /** Two ledgers that pass one checkpoint agree on every record up to it. */
  lemma CheckpointPinsPrefix(
    codec: Codec, a: seq<seq<Line>>, b: seq<seq<Line>>, c: Checkpoint, ka: CheckpointKeys, kb: CheckpointKeys)
    requires Injective(codec.hash) && 1 <= c.seqNo
    requires VerifyCheckpoint(codec, a, c, ka).None? && VerifyCheckpoint(codec, b, c, kb).None?
    ensures var ra, rb := Walked(codec, Concat(a)).records, Walked(codec, Concat(b)).records;
      c.seqNo <= |ra| && c.seqNo <= |rb| && ra[..c.seqNo] == rb[..c.seqNo]
  {
    hide Injective, Linked, IsSealed;
    var ra, rb := Walked(codec, Concat(a)).records, Walked(codec, Concat(b)).records;
    AcceptedLines(codec, Concat(a));
    AcceptedLines(codec, Concat(b));
    LinkedPrefix(codec.hash, ra, c.seqNo);
    LinkedPrefix(codec.hash, rb, c.seqNo);
    HeadPinsHistory(codec.hash, ra[..c.seqNo], rb[..c.seqNo]);
  }

  lemma {:induction false} WalkOfExtension(codec: Codec, lines: seq<Line>, more: seq<Line>)
    requires Walked(codec, lines + more).error.None?
    ensures Walked(codec, lines).error.None?
    ensures Walked(codec, lines).records <= Walked(codec, lines + more).records
  {
    if more == [] {
      assert lines + more == lines;
    } else {
      assert (lines + more)[..|lines + more| - 1] == lines + more[..|more| - 1];
      WalkOfExtension(codec, lines, more[..|more| - 1]);
    }
  }

  /** Appending to a ledger, in place or by rotating segments, never breaks a checkpoint. */
  lemma CheckpointSurvivesAppend(
    codec: Codec, files: seq<seq<Line>>, longer: seq<seq<Line>>, c: Checkpoint, keys: CheckpointKeys)
    requires 1 <= c.seqNo && Concat(files) <= Concat(longer)
    requires VerifyCheckpoint(codec, files, c, keys).None? && Walked(codec, Concat(longer)).error.None?
    ensures VerifyCheckpoint(codec, longer, c, keys).None?
  {
    var more := Concat(longer)[|Concat(files)|..];
    assert Concat(files) + more == Concat(longer);
    WalkOfExtension(codec, Concat(files), more);
    CheckpointIsExact(codec, files, c, keys);
    CheckpointIsExact(codec, longer, c, keys);
  }

  // ---------- the pinned head of an execution bundle ----------

  /** The head a caller pins: exactly a sequence number and a record hash. */
  datatype ExpectedHead = ExpectedHead(seqNo: Value, recordHash: Value)

  predicate ValidExpectedHead(head: ExpectedHead) {
    head.seqNo.Int? && head.seqNo.n > 0 && head.recordHash.Text? && IsDigest(head.recordHash.s)
  }

  function Objects(records: seq<Record>): seq<Value> {
    seq(|records|, i requires 0 <= i < |records| => Object(records[i]))
  }

  /** The bundle value is the list of these records, and they form a whole ledger prefix that ends at the pinned head. */
  ghost predicate EndsAtPinnedHead(hash: Record -> string, grammar: Record -> bool, value: Value, head: ExpectedHead, records: seq<Record>) {
    && records != [] && value == List(Objects(records))
    && Linked(hash, records) && (forall r <- records :: grammar(r))
    && head == ExpectedHead(Int(|records|), records[|records| - 1].recordHash)
  }

  lemma SameObjects(a: seq<Record>, b: seq<Record>)
    requires Objects(a) == Objects(b)
    ensures a == b
  {
    assert |Objects(a)| == |Objects(b)|;
    forall i | 0 <= i < |a| ensures a[i] == b[i] {
      assert Objects(a)[i] == Objects(b)[i];
    }
  }

  lemma PinnedHeadIsValid(hash: Record -> string, grammar: Record -> bool, value: Value, head: ExpectedHead, records: seq<Record>)
    requires EndsAtPinnedHead(hash, grammar, value, head, records)
    ensures ValidExpectedHead(head)
  {
    assert IsSealed(hash, records, |records| - 1);
  }

  /** If the bundle is acceptable at all, the next record continues the accepted ones. */
  lemma NextRecordContinues(
    hash: Record -> string, grammar: Record -> bool, value: Value, head: ExpectedHead, accepted: seq<Record>, all: seq<Record>)
    requires EndsAtPinnedHead(hash, grammar, value, head, all)
    requires |accepted| < |all| && Objects(accepted) == value.items[..|accepted|]
    ensures Linked(hash, accepted + [all[|accepted|]]) && grammar(all[|accepted|])
    ensures value.items[|accepted|] == Object(all[|accepted|])
  {
    var n := |accepted|;
    forall i | 0 <= i < n ensures accepted[i] == all[i] {
      assert Objects(accepted)[i] == value.items[i];
    }
    LinkedPrefix(hash, all, n + 1);
    assert all[..n + 1] == accepted + [all[n]];
  }

  /** `grammar` decides whether a record that carries consumption evidence is well formed. */
  method Records(hash: Record -> string, grammar: Record -> bool, value: Value, head: ExpectedHead)
    returns (accepted: Option<seq<Record>>)
    ensures accepted.Some? ==> EndsAtPinnedHead(hash, grammar, value, head, accepted.value)
    ensures accepted.None? ==> !exists records :: EndsAtPinnedHead(hash, grammar, value, head, records)
  {
    if !ValidExpectedHead(head) || !value.List? || value.items == [] {
      forall records | EndsAtPinnedHead(hash, grammar, value, head, records) ensures false {
        PinnedHeadIsValid(hash, grammar, value, head, records);
      }
      return None;
    }
    var previous := Text(GenesisHash());
    var result: seq<Record> := [];
    for index := 0 to |value.items|
      invariant Objects(result) == value.items[..index]
      invariant previous == PreviousHash(result, index)
      invariant Linked(hash, result) && forall r <- result :: grammar(r)
    {
      if !value.items[index].Object? {
        return None;
      }
      var record := value.items[index].record;
      var continues := record.seqNo == Int(index + 1) && record.prevHash == previous;
      var sealed := record.recordHash.Text? && IsDigest(record.recordHash.s) && hash(Unsigned(record)) == record.recordHash.s;
      LinkedSnoc(hash, result, record);
      if !continues || !sealed || !grammar(record) {
        forall records | EndsAtPinnedHead(hash, grammar, value, head, records) ensures false {
          NextRecordContinues(hash, grammar, value, head, result, records);
        }
        return None;
      }
      previous := record.recordHash;
      result := result + [record];
    }
    assert value.items[..|value.items|] == value.items;
    if Int(|result|) != head.seqNo || previous != head.recordHash {
      forall records | EndsAtPinnedHead(hash, grammar, value, head, records) ensures false {
        SameObjects(result, records);
      }
      return None;
    }
    accepted := Some(result);
  }

  /**
   The bundle check and the ledger walk agree: a bundle accepted at a pinned head holds exactly the
   records of any ledger that the walk accepts at that head.
   */
  lemma BundleIsLedgerPrefix(
    codec: Codec, grammar: Record -> bool, value: Value, head: ExpectedHead, records: seq<Record>, lines: seq<Line>)
    requires Injective(codec.hash)
    requires EndsAtPinnedHead(codec.hash, grammar, value, head, records)
    requires Walked(codec, lines).error.None?
    requires head == ExpectedHead(Int(|Walked(codec, lines).records|), Text(HeadHash(Walked(codec, lines).records)))
    ensures Walked(codec, lines).records == records
  {
    hide Injective, Linked;
    AcceptedLines(codec, lines);
    HeadPinsHistory(codec.hash, records, Walked(codec, lines).records);
  }
}
