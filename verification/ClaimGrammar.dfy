/** The claim grammar said as a relation: which claim sets state a delegation, entry by entry, and that parsing finds exactly it. */
module ClaimGrammar {
  import opened Prelude
  import opened Amounts
  import opened Values
  import opened Claims
  import opened ClaimShapes

  // ---------- texts, lists and instants ----------

  function AsTexts(texts: seq<string>): Value {
    List(seq(|texts|, i requires 0 <= i < |texts| => Text(texts[i])))
  }

  /** A text that is this nonblank one once the white space around it is gone. */
  ghost predicate IsPadded(g: Grammar, v: Value, text: string) {
    text != "" && exists s :: v == Text(s) && g.strip(s) == text
  }

  /** A nonempty list of nonblank texts that differ once stripped. */
  ghost predicate IsCleanList(g: Grammar, v: Value, texts: seq<string>) {
    && texts != [] && NoRepeats(texts)
    && exists items ::
      && v == List(items) && |items| == |texts|
      && forall i :: 0 <= i < |items| ==> IsPadded(g, items[i], texts[i])
  }

  ghost predicate IsInstant(g: Grammar, v: Value, at: int) {
    exists s :: v == Text(s) && g.instant(s) == Some(at)
  }

  lemma StrippedIsExact(g: Grammar, v: Value, text: string)
    ensures Stripped(g, v) == Some(text) <==> IsPadded(g, v, text)
  {
  }

  lemma CleanedIsExact(g: Grammar, v: Value, texts: seq<string>)
    ensures Cleaned(g, v) == Some(texts) <==> IsCleanList(g, v, texts)
  {
    hide Stripped, IsPadded;
    forall item, text ensures Stripped(g, item) == Some(text) <==> IsPadded(g, item, text) {
      StrippedIsExact(g, item, text);
    }
    if v.List? {
      CleanedExactly(g, v.items, texts);
    }
  }

  lemma TextsAreExact(v: Value, texts: seq<string>)
    ensures Texts(v) == Some(texts) <==> v == AsTexts(texts)
  {
    if v == AsTexts(texts) {
      forall item | item in v.items ensures item.Text? {
        var i :| 0 <= i < |v.items| && v.items[i] == item;
      }
      assert Texts(v).value == texts;
    }
    if Texts(v) == Some(texts) {
      forall i | 0 <= i < |v.items| ensures v.items[i] == Text(texts[i]) {
        assert v.items[i] in v.items;
      }
      assert v.items == AsTexts(texts).items;
    }
  }

  // ---------- bounds ----------

  ghost predicate StatesWindow(g: Grammar, e: RawBound, window: Option<Window>) {
    match window
    case None => e.windowEpoch == None && e.windowDurationMs == None && e.windowKind == Null
    case Some(w) =>
      && e.windowDurationMs == Some(Int(w.durationMs)) && w.durationMs > 0
      && e.windowKind == (if w.repeating then Text("repeating") else Null)
      && exists s :: e.windowEpoch == Some(Text(s)) && g.strip(s) == w.epoch && w.epoch != "" && g.instant(s) != None
  }

  ghost predicate StatesSide(g: Grammar, v: Option<Value>, side: Option<seq<string>>) {
    match side
    case None => v == None
    case Some(names) => exists list :: v == Some(list) && IsCleanList(g, list, names)
  }

  /** Either side may be left out, or both by leaving out the whole entry; named actions are in scope and no privilege tiers. */
  ghost predicate StatesSides(
    g: Grammar, raw: Raw<RawAppliesTo>, scopeActions: seq<string>, actions: Option<seq<string>>, boundaries: Option<seq<string>>)
  {
    match raw
    case Absent => actions == None && boundaries == None
    case Misshapen => false
    case Present(sides) =>
      && StatesSide(g, sides.actions, actions) && StatesSide(g, sides.boundaries, boundaries)
      && (actions != None || boundaries != None)
      && (actions != None ==> forall a <- actions.value :: a in scopeActions && !g.isPrivilegeTier(a))
  }

  ghost predicate StatesBound(g: Grammar, raw: Raw<RawBound>, scopeActions: seq<string>, b: Bound) {
    && raw.Present?
    && var e := raw.value;
    && IsPadded(g, e.kind, b.kind) && IsPadded(g, e.unit, b.unit)
    && e.amount == Text(PrintAmount(b.amount)) && (g.digitLimit != None ==> |PrintAmount(b.amount)| <= g.digitLimit.value)
    && e.aggregation == (if b.aggregated then Text("entry") else Null) && (b.aggregated ==> b.window != None)
    && StatesWindow(g, e, b.window) && StatesSides(g, e.appliesTo, scopeActions, b.actions, b.boundaries)
  }

  lemma SideIsExact(g: Grammar, v: Option<Value>, side: Option<seq<string>>)
    ensures OptionalSide(g, v) == Some(side) <==> StatesSide(g, v, side)
  {
    hide Cleaned, IsCleanList;
    if v.Some? {
      forall names ensures Cleaned(g, v.value) == Some(names) <==> IsCleanList(g, v.value, names) {
        CleanedIsExact(g, v.value, names);
      }
    }
  }

  lemma SidesAreExact(
    g: Grammar, raw: Raw<RawAppliesTo>, scopeActions: seq<string>, actions: Option<seq<string>>, boundaries: Option<seq<string>>)
    ensures AppliesToSides(g, raw, scopeActions) == Some((actions, boundaries)) <==> StatesSides(g, raw, scopeActions, actions, boundaries)
  {
    hide OptionalSide, StatesSide;
    if raw.Present? {
      SideIsExact(g, raw.value.actions, actions);
      SideIsExact(g, raw.value.boundaries, boundaries);
    }
  }

  /** The window, the repetition and the sharing of an entry, which restrict each other. */
  ghost predicate ParsesWindow(g: Grammar, e: RawBound, window: Option<Window>, aggregated: bool) {
    && BoundWindow(g, e).Some? && BoundRepeats(e).Some?
    && var w, repeats := BoundWindow(g, e).value, BoundRepeats(e).value;
    match window
    case None => w.None? && !repeats && !aggregated
    case Some(v) => w == Some((v.epoch, v.durationMs)) && repeats == v.repeating
  }

  lemma WindowIsExact(g: Grammar, e: RawBound, window: Option<Window>, aggregated: bool)
    ensures ParsesWindow(g, e, window, aggregated) <==> StatesWindow(g, e, window) && (aggregated ==> window != None)
  {
  }

  lemma BoundParts(g: Grammar, e: RawBound, scopeActions: seq<string>, b: Bound)
    ensures ValidatedBound(g, Present(e), scopeActions) == Some(b) <==>
      && BoundScope(g, e) == Some((b.kind, b.aggregated)) && Stripped(g, e.unit) == Some(b.unit)
      && RequiredText(e.amount).Some? && ParseAmount(RequiredText(e.amount).value, g.digitLimit) == Some(b.amount)
      && ParsesWindow(g, e, b.window, b.aggregated)
      && AppliesToSides(g, e.appliesTo, scopeActions) == Some((b.actions, b.boundaries))
  {
    hide BoundScope, Stripped, RequiredText, ParseAmount, BoundWindow, BoundRepeats, AppliesToSides;
  }

  lemma BoundIsExact(g: Grammar, raw: Raw<RawBound>, scopeActions: seq<string>, b: Bound)
    ensures ValidatedBound(g, raw, scopeActions) == Some(b) <==> StatesBound(g, raw, scopeActions, b)
  {
    if raw.Present? {
      BoundParts(g, raw.value, scopeActions, b);
      StrippedIsExact(g, raw.value.kind, b.kind);
      StrippedIsExact(g, raw.value.unit, b.unit);
      WindowIsExact(g, raw.value, b.window, b.aggregated);
      SidesAreExact(g, raw.value.appliesTo, scopeActions, b.actions, b.boundaries);
      if raw.value.amount.Text? {
        ParseInvertsPrint(raw.value.amount.s, g.digitLimit, b.amount);
      }
      hide Stripped, IsPadded, ParseAmount, AppliesToSides, StatesSides, StatesWindow, ParsesWindow, ValidatedBound, PrintAmount;
    }
  }

  ghost predicate StatesBounds(g: Grammar, raw: Raw<seq<Raw<RawBound>>>, scopeActions: seq<string>, bounds: seq<Bound>) {
    match raw
    case Absent => bounds == []
    case Misshapen => false
    case Present(entries) =>
      && |entries| == |bounds| > 0 && (forall i :: 0 <= i < |entries| ==> StatesBound(g, entries[i], scopeActions, bounds[i]))
      && forall i, j :: 0 <= i < j < |bounds| ==> (bounds[i].kind, bounds[i].aggregated) != (bounds[j].kind, bounds[j].aggregated)
  }

  lemma BoundsAreExact(g: Grammar, raw: Raw<seq<Raw<RawBound>>>, scopeActions: seq<string>, bounds: seq<Bound>)
    ensures ValidatedBounds(g, raw, scopeActions) == Some(bounds) <==> StatesBounds(g, raw, scopeActions, bounds)
  {
    hide ValidatedBound, StatesBound, ValidatedEntries;
    forall entry, b ensures ValidatedBound(g, entry, scopeActions) == Some(b) <==> StatesBound(g, entry, scopeActions, b) {
      BoundIsExact(g, entry, scopeActions, b);
    }
    if raw.Present? {
      BoundsAcceptedExactly(g, raw.value, scopeActions, bounds);
    }
  }

  // ---------- capabilities ----------

  /** Named actions of the scope, within a window that the claim set's own window contains; the start may be left to it. */
  ghost predicate StatesCapability(g: Grammar, raw: Raw<RawCapability>, scopeActions: seq<string>, nbf: int, exp: int, c: Capability) {
    && raw.Present? && raw.value.actions == AsTexts(c.actions)
    && c.actions != [] && (forall a <- c.actions :: a in scopeActions && g.strip(a) != "")
    && nbf <= c.nbf <= c.exp <= exp && raw.value.exp != None && IsInstant(g, raw.value.exp.value, c.exp)
    && (if raw.value.nbf == None then c.nbf == nbf else IsInstant(g, raw.value.nbf.value, c.nbf))
  }

  lemma CapabilityIsExact(g: Grammar, raw: Raw<RawCapability>, scopeActions: seq<string>, nbf: int, exp: int, c: Capability)
    ensures ParsedCapability(g, raw, scopeActions, nbf, exp) == Some(c) <==> StatesCapability(g, raw, scopeActions, nbf, exp, c)
  {
    hide Texts, AsTexts;
    if raw.Present? {
      forall texts ensures Texts(raw.value.actions) == Some(texts) <==> raw.value.actions == AsTexts(texts) {
        TextsAreExact(raw.value.actions, texts);
      }
    }
  }

  ghost predicate StatesCapabilities(
    g: Grammar, raw: Raw<seq<Raw<RawCapability>>>, scopeActions: seq<string>, nbf: int, exp: int, capabilities: seq<Capability>)
  {
    match raw
    case Absent => capabilities == []
    case Misshapen => false
    case Present(entries) =>
      && |entries| == |capabilities| > 0
      && forall i :: 0 <= i < |entries| ==> StatesCapability(g, entries[i], scopeActions, nbf, exp, capabilities[i])
  }

  lemma {:induction false} CapabilitiesAcceptedExactly(
    g: Grammar, raw: seq<Raw<RawCapability>>, scopeActions: seq<string>, nbf: int, exp: int, capabilities: seq<Capability>)
    ensures CapabilitiesFrom(g, raw, scopeActions, nbf, exp) == Some(capabilities) <==>
      && |capabilities| == |raw|
      && forall i :: 0 <= i < |raw| ==> ParsedCapability(g, raw[i], scopeActions, nbf, exp) == Some(capabilities[i])
    decreases |raw|
  {
    hide ParsedCapability;
    if raw != [] && capabilities != [] {
      var front, before, c := raw[..|raw| - 1], capabilities[..|capabilities| - 1], capabilities[|capabilities| - 1];
      assert capabilities == before + [c];
      CapabilitiesAcceptedExactly(g, front, scopeActions, nbf, exp, before);
      if CapabilitiesFrom(g, raw, scopeActions, nbf, exp) == Some(capabilities) {
        assert CapabilitiesFrom(g, front, scopeActions, nbf, exp) == Some(before);
      }
    }
  }

  lemma CapabilitiesAreExact(
    g: Grammar, raw: Raw<seq<Raw<RawCapability>>>, scopeActions: seq<string>, nbf: int, exp: int, capabilities: seq<Capability>)
    ensures ParsedCapabilities(g, raw, scopeActions, nbf, exp) == Some(capabilities)
       <==> StatesCapabilities(g, raw, scopeActions, nbf, exp, capabilities)
  {
    hide ParsedCapability, StatesCapability, CapabilitiesFrom;
    forall entry, c ensures ParsedCapability(g, entry, scopeActions, nbf, exp) == Some(c)
                        <==> StatesCapability(g, entry, scopeActions, nbf, exp, c)
    {
      CapabilityIsExact(g, entry, scopeActions, nbf, exp, c);
    }
    if raw.Present? {
      CapabilitiesAcceptedExactly(g, raw.value, scopeActions, nbf, exp, capabilities);
    }
  }

  // ---------- the small claims ----------

  ghost predicate StatesSet(g: Grammar, raw: Raw<RawSetRef>, stated: Option<SetRef>) {
    match stated
    case None => raw == Absent
    case Some(r) =>
      && raw.Present? && raw.value.version == Int(r.version)
      && IsPadded(g, raw.value.name, r.name) && IsPadded(g, raw.value.contentHash, r.contentHash)
  }

  lemma SetIsExact(g: Grammar, raw: Raw<RawSetRef>, stated: Option<SetRef>)
    ensures SetRefOf(g, raw) == Some(stated) <==> StatesSet(g, raw, stated)
  {
    hide Stripped, IsPadded;
    if raw.Present? && stated.Some? {
      StrippedIsExact(g, raw.value.name, stated.value.name);
      StrippedIsExact(g, raw.value.contentHash, stated.value.contentHash);
    }
  }

  ghost predicate StatesQuorum(g: Grammar, raw: Raw<RawQuorum>, stated: Option<Quorum>) {
    match stated
    case None => raw == Absent
    case Some(q) =>
      && raw.Present? && raw.value.threshold == Int(q.threshold) && q.threshold > 0 && StatesSet(g, raw.value.signers, Some(q.signers))
  }

  lemma QuorumIsExact(g: Grammar, raw: Raw<RawQuorum>, stated: Option<Quorum>)
    ensures QuorumOf(g, raw) == Some(stated) <==> StatesQuorum(g, raw, stated)
  {
    hide SetRefOf, StatesSet;
    if raw.Present? && stated.Some? {
      SetIsExact(g, raw.value.signers, Some(stated.value.signers));
    }
  }

  ghost predicate StatesDigest(v: Option<Value>, digest: Option<string>) {
    match digest
    case None => v == None
    case Some(s) => v == Some(Text(s)) && |s| == 64 && forall c <- s :: '0' <= c <= '9' || 'a' <= c <= 'f'
  }

  lemma LineageIsExact(entry: Option<Value>, ratification: Option<Value>, e: Option<string>, r: Option<string>)
    ensures Lineage(entry, ratification) == Some((e, r)) <==>
      StatesDigest(entry, e) && StatesDigest(ratification, r) && (e == None <==> r == None)
  {
  }

  ghost predicate StatesAudience(v: Value, aud: Option<seq<string>>) {
    match aud
    case None => v == Null
    case Some(points) =>
      && v == AsTexts(points) && points != [] && NoRepeats(points)
      && forall p <- points :: |p| == 16 && forall c <- p :: '0' <= c <= '9' || 'a' <= c <= 'f'
  }

  lemma AudienceIsExact(v: Value, aud: Option<seq<string>>)
    ensures Audience(v) == Some(aud) <==> StatesAudience(v, aud)
  {
    hide Texts, AsTexts, NoRepeats;
    if aud.Some? {
      TextsAreExact(v, aud.value);
      TextsAreNotNull(aud.value);
    }
  }

  lemma TextsAreNotNull(texts: seq<string>)
    ensures AsTexts(texts) != Null
  {
  }

  /** The claims with one simple form each; a missing depth is zero, and a missing maximum one. */
  ghost predicate StatesPlain(g: Grammar, raw: RawClaims, d: Delegation) {
    && !raw.hasUnknownKeys && (raw.iss != None ==> raw.iss.value.Text?)
    && raw.jti == Text(d.jti) && d.jti != "" && raw.sub == Text(d.sub) && d.sub != ""
    && raw.scopeActions == AsTexts(d.scopeActions) && raw.scopePaths == AsTexts(d.scopePaths)
    && (raw.scopeTools == AsTexts(d.scopeTools) || (raw.scopeTools == Null && d.scopeTools == []))
    && raw.nbf != Text("") && IsInstant(g, raw.nbf, d.nbf) && raw.exp != Text("") && IsInstant(g, raw.exp, d.exp)
    && (match d.parentJti case Some(jti) => raw.parentJti == Some(Text(jti)) case None => raw.parentJti == None || raw.parentJti == Some(Null))
    && (raw.chainDepth == Some(Int(d.chainDepth)) || (raw.chainDepth == None && d.chainDepth == 0))
    && (raw.maxDepth == Some(Int(d.maxDepth)) || (raw.maxDepth == None && d.maxDepth == 1))
    && (match d.maxRevocationAgeMs case Some(age) => raw.maxRevocationAgeMs == Int(age) && age > 0 case None => raw.maxRevocationAgeMs == Null)
  }

  predicate ParsesPlain(g: Grammar, raw: RawClaims, d: Delegation) {
    && !raw.hasUnknownKeys && IsOptionalText(raw.iss)
    && RequiredText(raw.jti) == Some(d.jti) && RequiredText(raw.sub) == Some(d.sub)
    && Texts(raw.scopeActions) == Some(d.scopeActions) && Texts(raw.scopePaths) == Some(d.scopePaths)
    && OptionalTexts(raw.scopeTools) == Some(d.scopeTools)
    && InstantClaim(g, raw.nbf) == Some(d.nbf) && InstantClaim(g, raw.exp) == Some(d.exp)
    && ParentJti(raw.parentJti) == Some(d.parentJti)
    && Depth(raw.chainDepth, 0) == Some(d.chainDepth) && Depth(raw.maxDepth, 1) == Some(d.maxDepth)
    && RevocationAge(raw.maxRevocationAgeMs) == Some(d.maxRevocationAgeMs)
  }

  lemma PlainIsExact(g: Grammar, raw: RawClaims, d: Delegation)
    ensures ParsesPlain(g, raw, d) <==> StatesPlain(g, raw, d)
  {
    hide Texts, AsTexts;
    TextsAreExact(raw.scopeActions, d.scopeActions);
    TextsAreExact(raw.scopePaths, d.scopePaths);
    TextsAreExact(raw.scopeTools, d.scopeTools);
    TextsAreNotNull(d.scopeTools);
  }

  // ---------- the whole claim set ----------

  ghost predicate States(g: Grammar, raw: RawClaims, d: Delegation, lineagePending: bool) {
    && StatesPlain(g, raw, d) && IsCleanList(g, raw.scopeDomains, d.scopeDomains)
    && (forall a <- d.scopeActions :: !g.isPrivilegeTier(a))
    && StatesSet(g, raw.namedSet, d.namedSet) && StatesQuorum(g, raw.quorum, d.quorum) && StatesAudience(raw.aud, d.aud)
    && StatesDigest(raw.entryHash, d.entryHash) && StatesDigest(raw.ratificationHash, d.ratificationHash)
    && (d.entryHash == None <==> d.ratificationHash == None)
    && StatesBounds(g, raw.bounds, d.scopeActions, d.bounds)
    && (lineagePending || d.entryHash != None || forall b <- d.bounds :: !b.aggregated)
    && StatesCapabilities(g, raw.capabilities, d.scopeActions, d.nbf, d.exp, d.capabilities)
  }

  lemma DelegationParts(g: Grammar, raw: RawClaims, d: Delegation, lineagePending: bool)
    ensures ParsedDelegation(g, raw, lineagePending) == Some(d) <==>
      && ParsesPlain(g, raw, d) && Cleaned(g, raw.scopeDomains) == Some(d.scopeDomains)
      && (forall a <- d.scopeActions :: !g.isPrivilegeTier(a))
      && SetRefOf(g, raw.namedSet) == Some(d.namedSet) && QuorumOf(g, raw.quorum) == Some(d.quorum) && Audience(raw.aud) == Some(d.aud)
      && Lineage(raw.entryHash, raw.ratificationHash) == Some((d.entryHash, d.ratificationHash))
      && ValidatedBounds(g, raw.bounds, d.scopeActions) == Some(d.bounds)
      && (lineagePending || LineageCoversAggregates(d.entryHash, d.bounds))
      && ParsedCapabilities(g, raw.capabilities, d.scopeActions, d.nbf, d.exp) == Some(d.capabilities)
  {
    hide ValidatedBounds, ParsedCapabilities, Cleaned, Texts, OptionalTexts, RequiredText, SetRefOf, InstantClaim, Depth, ParentJti;
    hide Lineage, LineageCoversAggregates, Audience, RevocationAge, QuorumOf, IsOptionalText;
  }

  /** Parsing a claim set gives a delegation exactly when the claim set states it. */
  lemma ParsedExactly(g: Grammar, raw: RawClaims, d: Delegation, lineagePending: bool)
    ensures ParsedDelegation(g, raw, lineagePending) == Some(d) <==> States(g, raw, d, lineagePending)
  {
    hide ParsedDelegation, ParsesPlain, StatesPlain, Cleaned, IsCleanList, SetRefOf, StatesSet, QuorumOf, StatesQuorum, Audience;
    hide StatesAudience, Lineage, StatesDigest, ValidatedBounds, StatesBounds, ParsedCapabilities, StatesCapabilities;
    DelegationParts(g, raw, d, lineagePending);
    PlainIsExact(g, raw, d);
    CleanedIsExact(g, raw.scopeDomains, d.scopeDomains);
    SetIsExact(g, raw.namedSet, d.namedSet);
    QuorumIsExact(g, raw.quorum, d.quorum);
    AudienceIsExact(raw.aud, d.aud);
    LineageIsExact(raw.entryHash, raw.ratificationHash, d.entryHash, d.ratificationHash);
    BoundsAreExact(g, raw.bounds, d.scopeActions, d.bounds);
    CapabilitiesAreExact(g, raw.capabilities, d.scopeActions, d.nbf, d.exp, d.capabilities);
  }
}
