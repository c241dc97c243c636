/** The hash-chained ledger: the walk over its segments, and what a head says about the records before it. */
module Ledger {
  import opened Prelude
  import opened Values

  /** What the first record names as its predecessor's hash: 64 zeros. */
  function GenesisHash(): (genesis: string)
    ensures |genesis| == 64 && forall c <- genesis :: c == '0'
  {
    seq(64, _ => '0')
  }

  const MAX_LEDGER_RECORDS: nat := 1_000_000

  /** `parse` is the strict JSON parser, `hash` the SHA-256 of the canonical text of an object. */
  datatype Codec = Codec(parse: string -> Option<Value>, hash: Record -> string)

  /** One non-blank line of a ledger file, after stripping. */
  datatype Line = NotUtf8 | Line(text: string)

  datatype ChainError =
    | FileNotUtf8
    | RecordLimit
    | InvalidJson
    | NotAnObject
    | UnexpectedSeq
    | PrevHashMismatch
    | InvalidRecordHash
    | RecordHashMismatch

  datatype Chain = Chain(ok: bool, count: nat, error: Option<ChainError>, headHash: string, hashAt: Option<string>)

  function Unsigned(record: Record): Record {
    record.(recordHash := Null)
  }

  /** The hash of the last record, or the genesis hash. */
  function HeadHash(records: seq<Record>): string {
    if records == [] then GenesisHash()
    else match records[|records| - 1].recordHash case Text(s) => s case _ => ""
  }

  /** Whether `record` may follow a verified prefix of `count` records whose head hash is `prev`. */
  function CheckFields(hash: Record -> string, record: Record, count: nat, prev: string): Option<ChainError> {
    if record.seqNo != Int(count + 1) then Some(UnexpectedSeq)
    else if record.prevHash != Text(prev) then Some(PrevHashMismatch)
    else match record.recordHash
      case Text(digest) =>
        if !IsDigest(digest) then Some(InvalidRecordHash)
        else if hash(Unsigned(record)) != digest then Some(RecordHashMismatch)
        else None
      case _ => Some(InvalidRecordHash)
  }

  function CheckRecord(codec: Codec, text: string, count: nat, prev: string): Result<Record, ChainError> {
    match codec.parse(text)
    case None => Err(InvalidJson)
    case Some(Object(record)) =>
      (match CheckFields(codec.hash, record, count, prev)
       case Some(error) => Err(error)
       case None => Ok(record))
    case Some(_) => Err(NotAnObject)
  }

  /** The record on the next line of a ledger whose verified prefix has `count` records and head hash `prev`. */
  function NextRecord(codec: Codec, line: Line, count: nat, prev: string): Result<Record, ChainError> {
    match line
    case NotUtf8 => Err(FileNotUtf8)
    case Line(text) => if count >= MAX_LEDGER_RECORDS then Err(RecordLimit) else CheckRecord(codec, text, count, prev)
  }

  /** What the walk has verified of some lines: the records before its first failure, and that failure. */
  datatype Progress = Progress(records: seq<Record>, error: Option<ChainError>)

  function Advance(codec: Codec, p: Progress, line: Line): Progress {
    if p.error.Some? then p
    else match NextRecord(codec, line, |p.records|, HeadHash(p.records))
      case Err(e) => p.(error := Some(e))
      case Ok(record) => p.(records := p.records + [record])
  }

  function Walked(codec: Codec, lines: seq<Line>): Progress {
    if lines == [] then Progress([], None)
    else Advance(codec, Walked(codec, lines[..|lines| - 1]), lines[|lines| - 1])
  }

  /** The hash of the record numbered `wantSeq`, if there is one. */
  function HashAt(records: seq<Record>, wantSeq: nat): Option<string> {
    if 1 <= wantSeq <= |records| then Some(HeadHash(records[..wantSeq])) else None
  }

  function ChainOf(p: Progress, wantSeq: nat): Chain {
    Chain(p.error.None?, |p.records|, p.error, HeadHash(p.records), HashAt(p.records, wantSeq))
  }

  lemma {:induction false} FailurePersists(codec: Codec, seen: seq<Line>, lines: seq<Line>)
    requires seen <= lines && Walked(codec, seen).error.Some?
    ensures Walked(codec, lines) == Walked(codec, seen)
    decreases |lines|
  {
    if seen == lines {
    } else {
      FailurePersists(codec, seen, lines[..|lines| - 1]);
    }
  }

  lemma HashesOfExtension(records: seq<Record>, record: Record, wantSeq: nat)
    ensures HeadHash(records + [record]) == HeadHash([record])
    ensures HashAt(records + [record], wantSeq)
         == if wantSeq == |records| + 1 then Some(HeadHash([record])) else HashAt(records, wantSeq)
  {
    if 1 <= wantSeq <= |records| {
      assert (records + [record])[..wantSeq] == records[..wantSeq];
    } else if wantSeq == |records| + 1 {
      assert (records + [record])[..wantSeq] == records + [record];
    }
  }

  /** The lines of the segments, one after the other. */
  method Lines(files: seq<seq<Line>>) returns (lines: seq<Line>)
    ensures lines == Concat(files)
  {
    lines := [];
    for i := 0 to |files|
      invariant lines == Concat(files[..i])
    {
      assert files[..i + 1][..i] == files[..i];
      for j := 0 to |files[i]|
        invariant lines == Concat(files[..i]) + files[i][..j]
      {
        lines := lines + [files[i][j]];
      }
      assert files[i][..|files[i]|] == files[i];
    }
    assert files[..|files|] == files;
  }

  lemma WalkStep(codec: Codec, lines: seq<Line>, i: nat, visited: seq<Record>)
    requires i < |lines| && Walked(codec, lines[..i]) == Progress(visited, None)
    ensures Walked(codec, lines[..i + 1]) ==
      match NextRecord(codec, lines[i], |visited|, HeadHash(visited))
      case Err(e) => Progress(visited, Some(e))
      case Ok(record) => Progress(visited + [record], None)
  {
    hide NextRecord, HeadHash;
    assert lines[..i + 1][..i] == lines[..i];
  }

  /** The walk hands each record that it verifies to its caller, and stops at the first failure. */
  method WalkChain(codec: Codec, files: seq<seq<Line>>, wantSeq: nat) returns (chain: Chain, visited: seq<Record>)
    ensures var p := Walked(codec, Concat(files)); chain == ChainOf(p, wantSeq) && visited == p.records
  {
    assert HeadHash([]) == GenesisHash() && HashAt([], wantSeq).None?;
    assert Walked(codec, []) == Progress([], None);
    hide NextRecord, HeadHash, HashAt, GenesisHash, Concat, Walked;
    var count, prevHash, hashAt := 0, GenesisHash(), None;
    visited := [];
    var lines := Lines(files);
    for i := 0 to |lines|
      invariant Walked(codec, lines[..i]) == Progress(visited, None)
      invariant count == |visited| && prevHash == HeadHash(visited) && hashAt == HashAt(visited, wantSeq)
    {
      WalkStep(codec, lines, i, visited);
      var result := NextRecord(codec, lines[i], count, prevHash);
      match result {
        case Err(error) =>
          FailurePersists(codec, lines[..i + 1], lines);
          return Chain(false, count, Some(error), prevHash, hashAt), visited;
        case Ok(record) =>
          HashesOfExtension(visited, record, wantSeq);
          visited := visited + [record];
          prevHash := HeadHash([record]);
          count := count + 1;
          if count == wantSeq {
            hashAt := Some(prevHash);
          }
      }
    }
    assert lines[..|lines|] == lines;
    chain := Chain(true, count, None, prevHash, hashAt);
  }

  /** The hash that record `i` must name as its predecessor's. */
  function PreviousHash(records: seq<Record>, i: nat): Value
    requires i <= |records|
  {
    if i == 0 then Text(GenesisHash()) else records[i - 1].recordHash
  }

  /** Record `i` names its place, its predecessor and its own digest. */
  ghost predicate IsSealed(hash: Record -> string, records: seq<Record>, i: nat)
    requires i < |records|
  {
    && records[i].seqNo == Int(i + 1)
    && records[i].prevHash == PreviousHash(records, i)
    && records[i].recordHash == Text(hash(Unsigned(records[i])))
    && IsDigest(hash(Unsigned(records[i])))
  }

  /** The records of an accepted ledger, said without any walk: numbered from one, linked, and self-hashed. */
  ghost predicate Linked(hash: Record -> string, records: seq<Record>) {
    forall i :: 0 <= i < |records| ==> IsSealed(hash, records, i)
  }

  /** The objects that all the lines hold, if every one of them holds an object. */
  function ParsedObjects(codec: Codec, lines: seq<Line>): Option<seq<Record>> {
    if lines == [] then Some([])
    else
      var front :- ParsedObjects(codec, lines[..|lines| - 1]);
      match lines[|lines| - 1]
      case NotUtf8 => None
      case Line(text) => match codec.parse(text) case Some(Object(record)) => Some(front + [record]) case _ => None
  }

  lemma LinkedPrefix(hash: Record -> string, records: seq<Record>, n: nat)
    requires Linked(hash, records) && n <= |records|
    ensures Linked(hash, records[..n])
  {
    forall i | 0 <= i < n ensures IsSealed(hash, records[..n], i) {
      assert IsSealed(hash, records, i);
    }
  }

  lemma LinkedSnoc(hash: Record -> string, records: seq<Record>, record: Record)
    ensures Linked(hash, records + [record])
       <==> Linked(hash, records) && IsSealed(hash, records + [record], |records|)
  {
    var longer := records + [record];
    if Linked(hash, longer) {
      LinkedPrefix(hash, longer, |records|);
      assert longer[..|records|] == records;
    }
    if Linked(hash, records) && IsSealed(hash, longer, |records|) {
      forall i | 0 <= i < |longer| ensures IsSealed(hash, longer, i) {
        assert i < |records| ==> IsSealed(hash, records, i);
      }
    }
  }

  lemma SealIsChecked(hash: Record -> string, records: seq<Record>, record: Record)
    requires Linked(hash, records)
    ensures CheckFields(hash, record, |records|, HeadHash(records)).None?
       <==> IsSealed(hash, records + [record], |records|)
  {
    var n := |records|;
    if n > 0 {
      assert IsSealed(hash, records, n - 1);
    }
  }

  /** The walk accepts exactly the ledgers whose lines are linked records, and returns those records. */
  lemma {:induction false} WalkAcceptsLinkedRecords(codec: Codec, lines: seq<Line>, records: seq<Record>)
    ensures Walked(codec, lines) == Progress(records, None)
       <==> ParsedObjects(codec, lines) == Some(records) && |records| <= 1_000_000 && Linked(codec.hash, records)
    decreases |lines|
  {
    if lines != [] {
      hide HeadHash, CheckFields, Linked, IsSealed, Unsigned;
      var front, last := lines[..|lines| - 1], lines[|lines| - 1];
      if records != [] {
        var earlier, record := records[..|records| - 1], records[|records| - 1];
        assert records == earlier + [record];
        WalkAcceptsLinkedRecords(codec, front, earlier);
        LinkedSnoc(codec.hash, earlier, record);
        if Linked(codec.hash, earlier) { SealIsChecked(codec.hash, earlier, record); }
      }
    }
  }

  lemma NoCollision(hash: Record -> string, a: Record, b: Record)
    requires Injective(hash) && hash(a) == hash(b)
    ensures a == b
  {
  }

  /**
   The head pins the history: with a collision-free hash, two linked ledgers of one length and one
   head hash are the same, record for record.
   */
  lemma {:induction false} HeadPinsHistory(hash: Record -> string, a: seq<Record>, b: seq<Record>)
    requires Injective(hash) && Linked(hash, a) && Linked(hash, b)
    requires |a| == |b| && HeadHash(a) == HeadHash(b)
    ensures a == b
  {
    hide Injective;
    if a != [] {
      var n := |a| - 1;
      assert IsSealed(hash, a, n) && IsSealed(hash, b, n);
      NoCollision(hash, Unsigned(a[n]), Unsigned(b[n]));
      LinkedPrefix(hash, a, n);
      LinkedPrefix(hash, b, n);
      HeadPinsHistory(hash, a[..n], b[..n]);
      assert a == a[..n] + [a[n]] && b == b[..n] + [b[n]];
    }
  }

  // ---------- failures ----------

  /** Why an object cannot be the next record: its number, its predecessor, or its own digest, in that order. */
  ghost predicate CannotFollow(hash: Record -> string, records: seq<Record>, r: Record, e: ChainError) {
    var numbered, linked := r.seqNo == Int(|records| + 1), r.prevHash == PreviousHash(records, |records|);
    match e
    case UnexpectedSeq => !numbered
    case PrevHashMismatch => numbered && !linked
    case InvalidRecordHash =>
      && numbered && linked
      && !(r.recordHash.Text? && |r.recordHash.s| == 64 && forall c <- r.recordHash.s :: '0' <= c <= '9' || 'a' <= c <= 'f')
    case RecordHashMismatch =>
      && numbered && linked && r.recordHash.Text? && r.recordHash.s != hash(Unsigned(r))
      && |r.recordHash.s| == 64 && forall c <- r.recordHash.s :: '0' <= c <= '9' || 'a' <= c <= 'f'
    case _ => false
  }

  /** Why the walk stops at this line after these records. */
  ghost predicate StopsAt(codec: Codec, records: seq<Record>, line: Line, e: ChainError) {
    match line
    case NotUtf8 => e == FileNotUtf8
    case Line(text) =>
      if |records| >= 1_000_000 then e == RecordLimit
      else
        match codec.parse(text)
        case None => e == InvalidJson
        case Some(Object(r)) => CannotFollow(codec.hash, records, r, e)
        case Some(_) => e == NotAnObject
  }

  lemma LinkedHead(hash: Record -> string, records: seq<Record>)
    requires Linked(hash, records)
    ensures PreviousHash(records, |records|) == Text(HeadHash(records))
  {
    if records != [] {
      assert IsSealed(hash, records, |records| - 1);
    }
  }

  lemma StopIsExact(codec: Codec, records: seq<Record>, line: Line, e: ChainError)
    requires Linked(codec.hash, records)
    ensures NextRecord(codec, line, |records|, HeadHash(records)) == Err(e) <==> StopsAt(codec, records, line, e)
  {
    LinkedHead(codec.hash, records);
    hide Linked, HeadHash, GenesisHash, Unsigned;
  }

  /** The walk fails exactly at the first line that cannot follow the linked records before it, and for that line's reason. */
  lemma {:induction false} FailureIsExact(codec: Codec, lines: seq<Line>, records: seq<Record>, e: ChainError)
    ensures Walked(codec, lines) == Progress(records, Some(e)) <==>
      && |records| < |lines| && Walked(codec, lines[..|records|]) == Progress(records, None)
      && StopsAt(codec, records, lines[|records|], e)
    decreases |lines|
  {
    hide NextRecord, StopsAt, Linked, HeadHash;
    if lines != [] {
      var front, last := lines[..|lines| - 1], lines[|lines| - 1];
      FailureIsExact(codec, front, records, e);
      WalkCounts(codec, front);
      if |records| < |front| {
        assert front[..|records|] == lines[..|records|];
        if Walked(codec, lines[..|records|]) == Progress(records, None) {
          FailureComesNext(codec, lines, records, e);
        }
      } else if |records| == |front| {
        if Walked(codec, front) == Progress(records, None) {
          WalkAcceptsLinkedRecords(codec, front, records);
          StopIsExact(codec, records, last, e);
        }
      }
    }
  }

  /** The walk verifies one record per line until it fails. */
  lemma {:induction false} WalkCounts(codec: Codec, lines: seq<Line>)
    ensures var p := Walked(codec, lines); if p.error.None? then |p.records| == |lines| else |p.records| < |lines|
  {
    hide NextRecord, HeadHash;
    if lines != [] {
      WalkCounts(codec, lines[..|lines| - 1]);
    }
  }

  lemma FailureComesNext(codec: Codec, lines: seq<Line>, records: seq<Record>, e: ChainError)
    requires |records| < |lines| && Walked(codec, lines[..|records|]) == Progress(records, None)
    ensures StopsAt(codec, records, lines[|records|], e) ==> Walked(codec, lines) == Progress(records, Some(e))
  {
    hide NextRecord, StopsAt, Linked, HeadHash;
    WalkAcceptsLinkedRecords(codec, lines[..|records|], records);
    StopIsExact(codec, records, lines[|records|], e);
    assert lines[..|records| + 1][..|records|] == lines[..|records|];
    if StopsAt(codec, records, lines[|records|], e) {
      FailurePersists(codec, lines[..|records| + 1], lines);
    }
  }
}
