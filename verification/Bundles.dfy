/** An execution bundle: a ledger prefix that ends at a pinned head, and the replay of what it records. */
module Bundles {
  import opened Prelude
  import Values
  import Ledger
  import Heads
  import opened Evidence
  import opened Lifecycle
  import opened Replay
  import opened Machine
  import opened FrozenTransport
  import opened Prefixes

  /** What a JSON record says to the replay. */
  type Reading = Values.Record -> Body

  function AsRecord(read: Reading, r: Values.Record): Record {
    Sealed(if r.seqNo.Int? && r.seqNo.n >= 0 then r.seqNo.n else 0, if r.recordHash.Text? then r.recordHash.s else "", read(r))
  }

  function ReadAll(read: Reading, records: seq<Values.Record>): seq<Record> {
    seq(|records|, i requires 0 <= i < |records| => AsRecord(read, records[i]))
  }

  /** The bundle holds these records, they end at the pinned head, and the replay accepts them. */
  ghost predicate Replays(
    cfg: Config, hash: Values.Record -> string, grammar: Values.Record -> bool, read: Reading,
    value: Values.Value, head: Heads.ExpectedHead, records: seq<Values.Record>)
  {
    Heads.EndsAtPinnedHead(hash, grammar, value, head, records) && Accepts(cfg, ReadAll(read, records))
  }

  method VerifyPrefix(
    cfg: Config, hash: Values.Record -> string, grammar: Values.Record -> bool, read: Reading, value: Values.Value, head: Heads.ExpectedHead)
    returns (ok: bool)
    ensures ok <==> exists records :: Replays(cfg, hash, grammar, read, value, head, records)
  {
    hide Accepts, Heads.EndsAtPinnedHead;
    var records := Heads.Records(hash, grammar, value, head);
    if records.None? {
      assert forall other :: Replays(cfg, hash, grammar, read, value, head, other) ==> Heads.EndsAtPinnedHead(hash, grammar, value, head, other);
      return false;
    }
    ok := ReplayPrefix(cfg, ReadAll(read, records.value));
    forall other | Heads.EndsAtPinnedHead(hash, grammar, value, head, other) ensures other == records.value {
      OneReading(hash, grammar, value, head, other, records.value);
    }
    assert ok ==> Replays(cfg, hash, grammar, read, value, head, records.value);
  }

  lemma OneReading(
    hash: Values.Record -> string, grammar: Values.Record -> bool, value: Values.Value, head: Heads.ExpectedHead,
    a: seq<Values.Record>, b: seq<Values.Record>)
    requires Heads.EndsAtPinnedHead(hash, grammar, value, head, a) && Heads.EndsAtPinnedHead(hash, grammar, value, head, b)
    ensures a == b
  {
    Heads.SameObjects(a, b);
  }

  /** With a collision-free hash the records of a linked ledger have different hashes. */
  lemma LinkedHashesDiffer(hash: Values.Record -> string, read: Reading, records: seq<Values.Record>, m: nat, n: nat)
    requires Injective(hash) && Ledger.Linked(hash, records) && m < n < |records|
    ensures ReadAll(read, records)[m].hash != ReadAll(read, records)[n].hash
  {
    hide Injective;
    assert Ledger.IsSealed(hash, records, m) && Ledger.IsSealed(hash, records, n);
    if hash(Ledger.Unsigned(records[m])) == hash(Ledger.Unsigned(records[n])) {
      Ledger.NoCollision(hash, Ledger.Unsigned(records[m]), Ledger.Unsigned(records[n]));
    }
  }

  /** In an accepted bundle each authentication record licenses at most one resume or recovery. */
  lemma BundleAuthenticationLicensesOne(
    cfg: Config, hash: Values.Record -> string, grammar: Values.Record -> bool, read: Reading,
    value: Values.Value, head: Heads.ExpectedHead, records: seq<Values.Record>, i: nat, j: nat)
    requires Injective(hash) && Replays(cfg, hash, grammar, read, value, head, records)
    requires i < j < |records|
    requires Spends(read(records[i])).Some? && Spends(read(records[j])).Some?
    ensures Spends(read(records[i])) != Spends(read(records[j]))
  {
    hide Injective, Run, Ledger.Linked, Spends, IntentsOf, IsUnsupportedLegacy;
    var rs := ReadAll(read, records);
    forall m, n | 0 <= m < n < |rs| ensures rs[m].hash != rs[n].hash {
      LinkedHashesDiffer(hash, read, records, m, n);
    }
    AuthenticationLicensesOne(cfg, IntentsOf(rs), rs, i, j);
  }

  /** The pinned head fixes the whole replay: two bundles accepted at one head hold the same records. */
  lemma PinnedHeadFixesReplay(
    cfg: Config, hash: Values.Record -> string, grammar: Values.Record -> bool, read: Reading, head: Heads.ExpectedHead,
    a: Values.Value, b: Values.Value, ra: seq<Values.Record>, rb: seq<Values.Record>)
    requires Injective(hash)
    requires Replays(cfg, hash, grammar, read, a, head, ra) && Replays(cfg, hash, grammar, read, b, head, rb)
    ensures ra == rb && a == b
  {
    hide Injective, Accepts, Ledger.Linked;
    Ledger.HeadPinsHistory(hash, ra, rb);
  }

  lemma ReadRecords(read: Reading, records: seq<Values.Record>, n: nat)
    requires n <= |records|
    ensures ReadAll(read, records[..n]) == ReadAll(read, records)[..n]
  {
  }

  lemma LinkedIsNumbered(hash: Values.Record -> string, read: Reading, records: seq<Values.Record>)
    requires Injective(hash) && Ledger.Linked(hash, records)
    ensures IsNumbered(ReadAll(read, records))
  {
    hide Injective;
    var rs := ReadAll(read, records);
    forall i | 0 <= i < |rs| ensures rs[i].seqNo == i + 1 {
      assert Ledger.IsSealed(hash, records, i);
    }
    forall m, n | 0 <= m < n < |rs| ensures rs[m].hash != rs[n].hash {
      LinkedHashesDiffer(hash, read, records, m, n);
    }
  }

  lemma PrefixEndsAtItsHead(
    hash: Values.Record -> string, grammar: Values.Record -> bool, value: Values.Value, head: Heads.ExpectedHead,
    records: seq<Values.Record>, n: nat)
    requires Heads.EndsAtPinnedHead(hash, grammar, value, head, records) && 1 <= n <= |records|
    ensures Heads.EndsAtPinnedHead(
      hash, grammar, Values.List(Heads.Objects(records[..n])), Heads.ExpectedHead(Values.Int(n), records[n - 1].recordHash), records[..n])
  {
    Ledger.LinkedPrefix(hash, records, n);
    assert forall r <- records[..n] :: r in records;
  }

  /** An accepted bundle cut off after any record is an accepted bundle at the head that this record makes. */
  lemma EveryPrefixReplays(
    cfg: Config, hash: Values.Record -> string, grammar: Values.Record -> bool, read: Reading,
    value: Values.Value, head: Heads.ExpectedHead, records: seq<Values.Record>, n: nat)
    requires Injective(hash) && Replays(cfg, hash, grammar, read, value, head, records) && 1 <= n <= |records|
    ensures Replays(
      cfg, hash, grammar, read,
      Values.List(Heads.Objects(records[..n])), Heads.ExpectedHead(Values.Int(n), records[n - 1].recordHash), records[..n])
  {
    PrefixEndsAtItsHead(hash, grammar, value, head, records, n);
    LinkedIsNumbered(hash, read, records);
    hide Injective, Accepts, IsNumbered, Ledger.Linked;
    ReadRecords(read, records, n);
    PrefixIsAccepted(cfg, ReadAll(read, records), n);
  }
}
