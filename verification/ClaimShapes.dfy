/** The grammar of delegation claims: what a signed claim set has to look like to become a delegation. */
module ClaimShapes {
  import opened Prelude
  import opened Amounts
  import opened Values
  import opened Claims

  /** A claim that is missing or null, has the wrong JSON type or the wrong keys, or has the right ones. */
  datatype Raw<+T> = Absent | Misshapen | Present(value: T)

  datatype RawAppliesTo = RawAppliesTo(actions: Option<Value>, boundaries: Option<Value>)

  /** One bound entry with its required keys; optional keys that default when null read as null when missing. */
  datatype RawBound = RawBound(
    kind: Value,
    unit: Value,
    amount: Value,
    windowEpoch: Option<Value>,
    windowDurationMs: Option<Value>,
    windowKind: Value,
    aggregation: Value,
    appliesTo: Raw<RawAppliesTo>)

  datatype RawCapability = RawCapability(actions: Value, nbf: Option<Value>, exp: Option<Value>)

  datatype RawSetRef = RawSetRef(name: Value, contentHash: Value, version: Value)

  datatype RawQuorum = RawQuorum(signers: Raw<RawSetRef>, threshold: Value)

  datatype RawClaims = RawClaims(
    hasUnknownKeys: bool,
    jti: Value,
    sub: Value,
    scopeActions: Value,
    scopePaths: Value,
    nbf: Value,
    exp: Value,
    scopeTools: Value,
    scopeDomains: Value,
    iss: Option<Value>,
    parentJti: Option<Value>,
    chainDepth: Option<Value>,
    maxDepth: Option<Value>,
    namedSet: Raw<RawSetRef>,
    bounds: Raw<seq<Raw<RawBound>>>,
    quorum: Raw<RawQuorum>,
    entryHash: Option<Value>,
    ratificationHash: Option<Value>,
    aud: Value,
    maxRevocationAgeMs: Value,
    capabilities: Raw<seq<Raw<RawCapability>>>)

  /** The library behaviour the grammar rests on. */
  datatype Grammar = Grammar(
    strip: string -> string, instant: string -> Option<int>, isPrivilegeTier: string -> bool, digitLimit: Option<nat>)

  // ---------- texts and lists ----------

  function RequiredText(v: Value): Option<string> {
    if v.Text? && v.s != "" then Some(v.s) else None
  }

  /** Nonblank text, without the white space around it. */
  function Stripped(g: Grammar, v: Value): Option<string> {
    if v.Text? && g.strip(v.s) != "" then Some(g.strip(v.s)) else None
  }

  function Texts(v: Value): Option<seq<string>> {
    if v.List? && forall item <- v.items :: item.Text? then
      Some(seq(|v.items|, i requires 0 <= i < |v.items| => assert v.items[i] in v.items; v.items[i].s))
    else None
  }

  function OptionalTexts(v: Value): Option<seq<string>> {
    if v.Null? then Some([]) else Texts(v)
  }

  function CleanedItems(g: Grammar, items: seq<Value>): Option<seq<string>> {
    if items == [] then Some([])
    else
      var before :- CleanedItems(g, items[..|items| - 1]);
      var item :- Stripped(g, items[|items| - 1]);
      if item in before then None else Some(before + [item])
  }

  /** A list of nonblank texts that differ once stripped. */
  function Cleaned(g: Grammar, v: Value): Option<seq<string>> {
    if !v.List? || v.items == [] then None else CleanedItems(g, v.items)
  }

  lemma {:induction false} CleanedFailurePersists(g: Grammar, items: seq<Value>, n: nat)
    requires n <= |items| && CleanedItems(g, items[..n]).None?
    ensures CleanedItems(g, items).None?
    decreases |items|
  {
    if n < |items| {
      assert items[..|items| - 1][..n] == items[..n];
      CleanedFailurePersists(g, items[..|items| - 1], n);
    } else {
      assert items[..n] == items;
    }
  }

  method CleanList(g: Grammar, v: Value) returns (cleaned: Option<seq<string>>)
    ensures cleaned == Cleaned(g, v)
  {
    if !v.List? || v.items == [] {
      return None;
    }
    var items := v.items;
    var result: seq<string> := [];
    var seen: set<string> := {};
    for i := 0 to |items|
      invariant CleanedItems(g, items[..i]) == Some(result)
      invariant seen == set text | text in result
    {
      assert items[..i + 1][..i] == items[..i];
      var item := Stripped(g, items[i]);
      if item.None? || item.value in seen {
        CleanedFailurePersists(g, items, i + 1);
        return None;
      }
      seen := seen + {item.value};
      result := result + [item.value];
    }
    assert items[..|items|] == items;
    cleaned := Some(result);
  }

  /** A list is accepted exactly when its items are nonblank and differ, and then each comes out stripped. */
  lemma {:induction false} CleanedExactly(g: Grammar, items: seq<Value>, cleaned: seq<string>)
    ensures CleanedItems(g, items) == Some(cleaned)
       <==> |cleaned| == |items| && NoRepeats(cleaned) && forall i :: 0 <= i < |items| ==> Stripped(g, items[i]) == Some(cleaned[i])
  {
    hide Stripped;
    if items != [] {
      var front, last := items[..|items| - 1], items[|items| - 1];
      if cleaned != [] {
        CleanedExactly(g, front, cleaned[..|cleaned| - 1]);
        assert cleaned == cleaned[..|cleaned| - 1] + [cleaned[|cleaned| - 1]];
      }
      if CleanedItems(g, items) == Some(cleaned) {
        assert CleanedItems(g, front) == Some(cleaned[..|cleaned| - 1]);
      }
    }
  }

  // ---------- bounds ----------

  /** The kind of an entry, and whether its ceiling is shared by the authority entry. */
  function BoundScope(g: Grammar, e: RawBound): Option<(string, bool)> {
    var kind :- Stripped(g, e.kind);
    if e.aggregation.Null? then Some((kind, false))
    else if e.aggregation == Text("entry") then Some((kind, true))
    else None
  }

  /** None is a refusal, and Some(None) an entry that states no window. */
  function BoundWindow(g: Grammar, e: RawBound): Option<Option<(string, int)>> {
    if e.windowEpoch.Some? != e.windowDurationMs.Some? then None
    else if e.windowEpoch.None? then Some(None)
    else
      var epoch :- Stripped(g, e.windowEpoch.value);
      var _ :- g.instant(e.windowEpoch.value.s);
      if e.windowDurationMs.value.Int? && e.windowDurationMs.value.n > 0 then Some(Some((epoch, e.windowDurationMs.value.n)))
      else None
  }

  /** Whether the window repeats; the fixed window is stated by no key. */
  function BoundRepeats(e: RawBound): Option<bool> {
    if e.windowKind.Null? then Some(false)
    else if e.windowKind == Text("repeating") then Some(true)
    else None
  }

  predicate NamesActions(g: Grammar, actions: seq<string>, scopeActions: seq<string>) {
    Subset(actions, scopeActions) && forall a <- actions :: !g.isPrivilegeTier(a)
  }

  function AppliesToSides(g: Grammar, raw: Raw<RawAppliesTo>, scopeActions: seq<string>): Option<(Option<seq<string>>, Option<seq<string>>)> {
    match raw
    case Absent => Some((None, None))
    case Misshapen => None
    case Present(sides) =>
      var actions :- OptionalSide(g, sides.actions);
      var boundaries :- OptionalSide(g, sides.boundaries);
      if actions.Some? && !NamesActions(g, actions.value, scopeActions) then None
      else if actions.None? && boundaries.None? then None
      else Some((actions, boundaries))
  }

  function OptionalSide(g: Grammar, side: Option<Value>): Option<Option<seq<string>>> {
    if side.None? then Some(None)
    else
      var cleaned :- Cleaned(g, side.value);
      Some(Some(cleaned))
  }

  function ValidatedBound(g: Grammar, raw: Raw<RawBound>, scopeActions: seq<string>): Option<Bound> {
    if !raw.Present? then None
    else
      var e := raw.value;
      var scope :- BoundScope(g, e);
      var unit :- Stripped(g, e.unit);
      var text :- RequiredText(e.amount);
      var amount :- ParseAmount(text, g.digitLimit);
      var window :- BoundWindow(g, e);
      var repeats :- BoundRepeats(e);
      var sides :- AppliesToSides(g, e.appliesTo, scopeActions);
      if window.None? then
        if repeats || scope.1 then None
        else Some(Bound(scope.0, unit, amount, None, false, sides.0, sides.1))
      else Some(Bound(scope.0, unit, amount, Some(Window(window.value.0, window.value.1, repeats)), scope.1, sides.0, sides.1))
  }

  function Scopes(bounds: seq<Bound>): set<(string, bool)> {
    set b | b in bounds :: (b.kind, b.aggregated)
  }

  function ValidatedEntries(g: Grammar, entries: seq<Raw<RawBound>>, scopeActions: seq<string>): Option<seq<Bound>> {
    if entries == [] then Some([])
    else
      var before :- ValidatedEntries(g, entries[..|entries| - 1], scopeActions);
      var b :- ValidatedBound(g, entries[|entries| - 1], scopeActions);
      if (b.kind, b.aggregated) in Scopes(before) then None else Some(before + [b])
  }

  function ValidatedBounds(g: Grammar, raw: Raw<seq<Raw<RawBound>>>, scopeActions: seq<string>): Option<seq<Bound>> {
    match raw
    case Absent => Some([])
    case Misshapen => None
    case Present(entries) => if entries == [] then None else ValidatedEntries(g, entries, scopeActions)
  }

  lemma {:induction false} EntriesFailurePersists(g: Grammar, entries: seq<Raw<RawBound>>, scopeActions: seq<string>, n: nat)
    requires n <= |entries| && ValidatedEntries(g, entries[..n], scopeActions).None?
    ensures ValidatedEntries(g, entries, scopeActions).None?
    decreases |entries|
  {
    hide ValidatedBound;
    if n < |entries| {
      assert entries[..|entries| - 1][..n] == entries[..n];
      EntriesFailurePersists(g, entries[..|entries| - 1], scopeActions, n);
    } else {
      assert entries[..n] == entries;
    }
  }

  method ValidateBounds(g: Grammar, raw: Raw<seq<Raw<RawBound>>>, scopeActions: seq<string>) returns (bounds: Option<seq<Bound>>)
    ensures bounds == ValidatedBounds(g, raw, scopeActions)
  {
    hide ValidatedBound;
    if raw.Absent? {
      return Some([]);
    }
    if raw.Misshapen? || raw.value == [] {
      return None;
    }
    var entries := raw.value;
    var validated: seq<Bound> := [];
    var seenKinds: set<(string, bool)> := {};
    for i := 0 to |entries|
      invariant ValidatedEntries(g, entries[..i], scopeActions) == Some(validated)
      invariant seenKinds == Scopes(validated)
    {
      assert entries[..i + 1][..i] == entries[..i];
      var b := ValidatedBound(g, entries[i], scopeActions);
      if b.None? || (b.value.kind, b.value.aggregated) in seenKinds {
        EntriesFailurePersists(g, entries, scopeActions, i + 1);
        return None;
      }
      ScopesOfMore(validated, b.value);
      seenKinds := seenKinds + {(b.value.kind, b.value.aggregated)};
      validated := validated + [b.value];
    }
    assert entries[..|entries|] == entries;
    bounds := Some(validated);
  }

  lemma ScopesOfMore(bounds: seq<Bound>, b: Bound)
    ensures Scopes(bounds + [b]) == Scopes(bounds) + {(b.kind, b.aggregated)}
  {
    forall s | s in Scopes(bounds) + {(b.kind, b.aggregated)} ensures s in Scopes(bounds + [b]) {
      if s == (b.kind, b.aggregated) {
        assert (bounds + [b])[|bounds|] == b;
      } else {
        var c :| c in bounds && s == (c.kind, c.aggregated);
        assert c in bounds + [b];
      }
    }
  }

  lemma DistinctKindsOfMore(bounds: seq<Bound>, b: Bound)
    ensures DistinctKinds(bounds + [b]) <==> DistinctKinds(bounds) && (b.kind, b.aggregated) !in Scopes(bounds)
  {
    var all := bounds + [b];
    if (b.kind, b.aggregated) in Scopes(bounds) {
      var c :| c in bounds && c.kind == b.kind && c.aggregated == b.aggregated;
      var i :| 0 <= i < |bounds| && bounds[i] == c;
      assert all[i].kind == all[|bounds|].kind && all[i].aggregated == all[|bounds|].aggregated;
    }
    if DistinctKinds(all) {
      forall i, j | 0 <= i < j < |bounds| ensures bounds[i].kind != bounds[j].kind || bounds[i].aggregated != bounds[j].aggregated {
        assert all[i] == bounds[i] && all[j] == bounds[j];
      }
    }
    forall i | 0 <= i < |bounds| ensures (bounds[i].kind, bounds[i].aggregated) in Scopes(bounds) {
      assert bounds[i] in bounds;
    }
  }

  /** Bounds are accepted exactly when every entry is valid by itself and no kind occurs twice in one scope. */
  lemma {:induction false} BoundsAcceptedExactly(g: Grammar, entries: seq<Raw<RawBound>>, scopeActions: seq<string>, bounds: seq<Bound>)
    ensures ValidatedEntries(g, entries, scopeActions) == Some(bounds)
       <==>
         && |bounds| == |entries| && DistinctKinds(bounds)
         && forall i :: 0 <= i < |entries| ==> ValidatedBound(g, entries[i], scopeActions) == Some(bounds[i])
  {
    hide ValidatedBound, Scopes, DistinctKinds;
    if entries == [] {
      NoKinds();
    } else {
      var front, last := entries[..|entries| - 1], entries[|entries| - 1];
      if bounds != [] {
        var before, b := bounds[..|bounds| - 1], bounds[|bounds| - 1];
        assert bounds == before + [b];
        BoundsAcceptedExactly(g, front, scopeActions, before);
        DistinctKindsOfMore(before, b);
        if ValidatedEntries(g, entries, scopeActions) == Some(bounds) {
          assert ValidatedEntries(g, front, scopeActions) == Some(before);
        }
      }
    }
  }

  lemma NoKinds()
    ensures DistinctKinds([])
  {
  }

  lemma ValidBoundIsWellFormed(g: Grammar, raw: Raw<RawBound>, scopeActions: seq<string>)
    ensures ValidatedBound(g, raw, scopeActions).Some? ==> WellFormedBound(ValidatedBound(g, raw, scopeActions).value, scopeActions)
  {
    hide Stripped, ParseAmount, CleanedItems, Subset;
    if raw.Present? {
      SidesAreNonempty(g, raw.value.appliesTo, scopeActions);
      WindowIsPositive(g, raw.value);
      hide AppliesToSides, BoundWindow, BoundScope, BoundRepeats;
    }
  }

  lemma WindowIsPositive(g: Grammar, e: RawBound)
    ensures BoundWindow(g, e).Some? && BoundWindow(g, e).value.Some? ==>
      BoundWindow(g, e).value.value.0 != "" && BoundWindow(g, e).value.value.1 > 0
  {
  }

  lemma SidesAreNonempty(g: Grammar, raw: Raw<RawAppliesTo>, scopeActions: seq<string>)
    ensures var sides := AppliesToSides(g, raw, scopeActions);
      sides.Some? ==>
        && (sides.value.0.Some? ==> sides.value.0.value != [] && Subset(sides.value.0.value, scopeActions))
        && (sides.value.1.Some? ==> sides.value.1.value != [])
  {
    if raw.Present? {
      if raw.value.actions.Some? && Cleaned(g, raw.value.actions.value).Some? {
        CleanedExactly(g, raw.value.actions.value.items, Cleaned(g, raw.value.actions.value).value);
      }
      if raw.value.boundaries.Some? && Cleaned(g, raw.value.boundaries.value).Some? {
        CleanedExactly(g, raw.value.boundaries.value.items, Cleaned(g, raw.value.boundaries.value).value);
      }
    }
  }

  lemma ValidBoundsAreWellFormed(g: Grammar, raw: Raw<seq<Raw<RawBound>>>, scopeActions: seq<string>)
    ensures ValidatedBounds(g, raw, scopeActions).Some? ==> WellFormedBounds(ValidatedBounds(g, raw, scopeActions).value, scopeActions)
  {
    hide ValidatedBound, ValidatedEntries, WellFormedBound;
    var result := ValidatedBounds(g, raw, scopeActions);
    if raw.Present? && result.Some? {
      BoundsAcceptedExactly(g, raw.value, scopeActions, result.value);
      forall b | b in result.value ensures WellFormedBound(b, scopeActions) {
        var i :| 0 <= i < |result.value| && result.value[i] == b;
        ValidBoundIsWellFormed(g, raw.value[i], scopeActions);
      }
    }
  }

  // ---------- capabilities ----------

  function CapabilityStart(g: Grammar, c: RawCapability, nbf: int): Option<int> {
    if c.nbf.None? then Some(nbf) else if c.nbf.value.Text? then g.instant(c.nbf.value.s) else None
  }

  function ParsedCapability(g: Grammar, raw: Raw<RawCapability>, scopeActions: seq<string>, nbf: int, exp: int): Option<Capability> {
    if !raw.Present? then None
    else
      var actions :- Texts(raw.value.actions);
      if actions == [] || (exists a <- actions :: g.strip(a) == "") || !Subset(actions, scopeActions) then None
      else
        var end :- raw.value.exp;
        if !end.Text? then None
        else
          var stop :- g.instant(end.s);
          var start :- CapabilityStart(g, raw.value, nbf);
          if nbf <= start <= stop <= exp then Some(Capability(actions, start, stop)) else None
  }

  function CapabilitiesFrom(g: Grammar, raw: seq<Raw<RawCapability>>, scopeActions: seq<string>, nbf: int, exp: int): Option<seq<Capability>> {
    if raw == [] then Some([])
    else
      var before :- CapabilitiesFrom(g, raw[..|raw| - 1], scopeActions, nbf, exp);
      var c :- ParsedCapability(g, raw[|raw| - 1], scopeActions, nbf, exp);
      Some(before + [c])
  }

  function ParsedCapabilities(g: Grammar, raw: Raw<seq<Raw<RawCapability>>>, scopeActions: seq<string>, nbf: int, exp: int): Option<seq<Capability>> {
    match raw
    case Absent => Some([])
    case Misshapen => None
    case Present(entries) => if entries == [] then None else CapabilitiesFrom(g, entries, scopeActions, nbf, exp)
  }

  lemma {:induction false} CapabilityFailurePersists(g: Grammar, raw: seq<Raw<RawCapability>>, scopeActions: seq<string>, nbf: int, exp: int, n: nat)
    requires n <= |raw| && CapabilitiesFrom(g, raw[..n], scopeActions, nbf, exp).None?
    ensures CapabilitiesFrom(g, raw, scopeActions, nbf, exp).None?
    decreases |raw|
  {
    hide ParsedCapability;
    if n < |raw| {
      assert raw[..|raw| - 1][..n] == raw[..n];
      CapabilityFailurePersists(g, raw[..|raw| - 1], scopeActions, nbf, exp, n);
    } else {
      assert raw[..n] == raw;
    }
  }

  method ParseCapabilities(g: Grammar, raw: Raw<seq<Raw<RawCapability>>>, scopeActions: seq<string>, nbf: int, exp: int)
    returns (capabilities: Option<seq<Capability>>)
    ensures capabilities == ParsedCapabilities(g, raw, scopeActions, nbf, exp)
  {
    hide ParsedCapability;
    if raw.Absent? {
      return Some([]);
    }
    if raw.Misshapen? || raw.value == [] {
      return None;
    }
    var entries := raw.value;
    var parsed: seq<Capability> := [];
    for i := 0 to |entries|
      invariant CapabilitiesFrom(g, entries[..i], scopeActions, nbf, exp) == Some(parsed)
    {
      assert entries[..i + 1][..i] == entries[..i];
      var c := ParsedCapability(g, entries[i], scopeActions, nbf, exp);
      if c.None? {
        CapabilityFailurePersists(g, entries, scopeActions, nbf, exp, i + 1);
        return None;
      }
      parsed := parsed + [c.value];
    }
    assert entries[..|entries|] == entries;
    capabilities := Some(parsed);
  }

  lemma ParsedCapabilityIsWellFormed(g: Grammar, raw: Raw<RawCapability>, scopeActions: seq<string>, nbf: int, exp: int)
    ensures var c := ParsedCapability(g, raw, scopeActions, nbf, exp);
      c.Some? ==> WellFormedCapability(c.value, scopeActions, nbf, exp)
  {
    hide Subset, Texts;
  }

  lemma {:induction false} CapabilitiesAreWellFormed(
    g: Grammar, raw: seq<Raw<RawCapability>>, scopeActions: seq<string>, nbf: int, exp: int)
    requires CapabilitiesFrom(g, raw, scopeActions, nbf, exp).Some?
    ensures forall c <- CapabilitiesFrom(g, raw, scopeActions, nbf, exp).value :: WellFormedCapability(c, scopeActions, nbf, exp)
    decreases |raw|
  {
    hide ParsedCapability, WellFormedCapability;
    if raw != [] {
      CapabilitiesAreWellFormed(g, raw[..|raw| - 1], scopeActions, nbf, exp);
      ParsedCapabilityIsWellFormed(g, raw[|raw| - 1], scopeActions, nbf, exp);
    }
  }

  // ---------- the other claims ----------

  function InstantClaim(g: Grammar, v: Value): Option<int> {
    var text :- RequiredText(v);
    g.instant(text)
  }

  function Depth(v: Option<Value>, default: nat): Option<nat> {
    if v.None? then Some(default)
    else if v.value.Int? && v.value.n >= 0 then Some(v.value.n)
    else None
  }

  predicate IsOptionalText(v: Option<Value>) {
    v.Some? ==> v.value.Text?
  }

  /** A parent's jti; null says that there is none. */
  function ParentJti(v: Option<Value>): Option<Option<string>> {
    if v.None? || v.value.Null? then Some(None)
    else if v.value.Text? then Some(Some(v.value.s))
    else None
  }

  function SetRefOf(g: Grammar, raw: Raw<RawSetRef>): Option<Option<SetRef>> {
    match raw
    case Absent => Some(None)
    case Misshapen => None
    case Present(r) =>
      var name :- Stripped(g, r.name);
      var hash :- Stripped(g, r.contentHash);
      if r.version.Int? && r.version.n >= 0 then Some(Some(SetRef(name, hash, r.version.n))) else None
  }

  function QuorumOf(g: Grammar, raw: Raw<RawQuorum>): Option<Option<Quorum>> {
    match raw
    case Absent => Some(None)
    case Misshapen => None
    case Present(q) =>
      var signers :- SetRefOf(g, q.signers);
      var signerSet :- signers;
      if q.threshold.Int? && q.threshold.n >= 1 then Some(Some(Quorum(signerSet, q.threshold.n))) else None
  }

  function DigestOf(v: Value): Option<string> {
    if v.Text? && IsDigest(v.s) then Some(v.s) else None
  }

  /** The lineage pair: both or neither. */
  function Lineage(entryHash: Option<Value>, ratificationHash: Option<Value>): Option<(Option<string>, Option<string>)> {
    if entryHash.None? && ratificationHash.None? then Some((None, None))
    else
      var entry :- entryHash;
      var ratification :- ratificationHash;
      var e :- DigestOf(entry);
      var r :- DigestOf(ratification);
      Some((Some(e), Some(r)))
  }

  function Audience(v: Value): Option<Option<seq<string>>> {
    if v.Null? then Some(None)
    else
      var points :- Texts(v);
      if points != [] && NoRepeats(points) && (forall p <- points :: IsDigest(p, 16)) then Some(Some(points)) else None
  }

  function RevocationAge(v: Value): Option<Option<int>> {
    if v.Null? then Some(None) else if v.Int? && v.n > 0 then Some(Some(v.n)) else None
  }

  predicate LineageCoversAggregates(entryHash: Option<string>, bounds: seq<Bound>) {
    entryHash.None? ==> forall b <- bounds :: !b.aggregated
  }

  /**
   The delegation that a claim set states. `lineagePending` is set for a ratification candidate only,
   whose lineage is attached later.
   */
  function ParsedDelegation(g: Grammar, raw: RawClaims, lineagePending: bool): Option<Delegation> {
    if raw.hasUnknownKeys || !IsOptionalText(raw.iss) then None
    else
      var nbf :- InstantClaim(g, raw.nbf);
      var exp :- InstantClaim(g, raw.exp);
      var scopeActions :- Texts(raw.scopeActions);
      var lineage :- Lineage(raw.entryHash, raw.ratificationHash);
      var jti :- RequiredText(raw.jti);
      var sub :- RequiredText(raw.sub);
      var scopePaths :- Texts(raw.scopePaths);
      var scopeTools :- OptionalTexts(raw.scopeTools);
      var scopeDomains :- Cleaned(g, raw.scopeDomains);
      var parentJti :- ParentJti(raw.parentJti);
      var chainDepth :- Depth(raw.chainDepth, 0);
      var maxDepth :- Depth(raw.maxDepth, 1);
      var namedSet :- SetRefOf(g, raw.namedSet);
      var bounds :- ValidatedBounds(g, raw.bounds, scopeActions);
      var quorum :- QuorumOf(g, raw.quorum);
      var aud :- Audience(raw.aud);
      var age :- RevocationAge(raw.maxRevocationAgeMs);
      if exists a <- scopeActions :: g.isPrivilegeTier(a) then None
      else if !lineagePending && !LineageCoversAggregates(lineage.0, bounds) then None
      else
        var capabilities :- ParsedCapabilities(g, raw.capabilities, scopeActions, nbf, exp);
        Some(Delegation(
          jti, sub, scopeActions, scopePaths, nbf, exp, scopeTools, scopeDomains, parentJti, chainDepth, maxDepth,
          capabilities, namedSet, bounds, quorum, lineage.0, lineage.1, aud, age))
  }

  lemma CapabilitiesPart(g: Grammar, raw: RawClaims, d: Delegation)
    requires ParsedCapabilities(g, raw.capabilities, d.scopeActions, d.nbf, d.exp) == Some(d.capabilities)
    ensures forall c <- d.capabilities :: WellFormedCapability(c, d.scopeActions, d.nbf, d.exp)
  {
    hide CapabilitiesFrom, WellFormedCapability;
    if raw.capabilities.Present? {
      CapabilitiesAreWellFormed(g, raw.capabilities.value, d.scopeActions, d.nbf, d.exp);
    }
  }

  lemma DomainsPart(g: Grammar, v: Value)
    ensures Cleaned(g, v).Some? ==> Cleaned(g, v).value != []
  {
    if Cleaned(g, v).Some? {
      CleanedExactly(g, v.items, Cleaned(g, v).value);
    }
  }

  /** The rest of well-formedness comes from the small claims. */
  lemma SmallParts(g: Grammar, raw: RawClaims)
    requires ParsedDelegation(g, raw, false).Some?
    ensures var d := ParsedDelegation(g, raw, false).value;
      && ValidatedBounds(g, raw.bounds, d.scopeActions) == Some(d.bounds)
      && ParsedCapabilities(g, raw.capabilities, d.scopeActions, d.nbf, d.exp) == Some(d.capabilities)
      && Cleaned(g, raw.scopeDomains) == Some(d.scopeDomains)
      && Lineage(raw.entryHash, raw.ratificationHash) == Some((d.entryHash, d.ratificationHash))
      && LineageCoversAggregates(d.entryHash, d.bounds)
      && Audience(raw.aud) == Some(d.aud) && RevocationAge(raw.maxRevocationAgeMs) == Some(d.maxRevocationAgeMs)
      && QuorumOf(g, raw.quorum) == Some(d.quorum)
  {
    hide ValidatedBounds, ParsedCapabilities, Cleaned, Texts, OptionalTexts, RequiredText, SetRefOf, InstantClaim, Depth, ParentJti;
    hide Lineage, LineageCoversAggregates, Audience, RevocationAge, QuorumOf;
  }

  /** Every parsed delegation is well formed, and so is a candidate once it carries its lineage. */
  lemma ParsedIsWellFormed(g: Grammar, raw: RawClaims)
    ensures ParsedDelegation(g, raw, false).Some? ==> WellFormed(ParsedDelegation(g, raw, false).value)
  {
    if ParsedDelegation(g, raw, false).Some? {
      SmallParts(g, raw);
      var d := ParsedDelegation(g, raw, false).value;
      hide ParsedDelegation, ValidatedBounds, WellFormedBounds, ParsedCapabilities, WellFormedCapability, Cleaned, Texts;
      hide SetRefOf, DigestOf, NoRepeats, IsDigest;
      ValidBoundsAreWellFormed(g, raw.bounds, d.scopeActions);
      CapabilitiesPart(g, raw, d);
      DomainsPart(g, raw.scopeDomains);
    }
  }
}
