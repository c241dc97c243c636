/** Operations of a foreign enforcement point: which one a raw dispatch names, and its fences and cancellations. */
module ForeignPoints {
  import opened Prelude
  import opened Matching
  import opened Evidence

  /** A foreign operation: the enforcement point and the operation id there. */
  datatype Identity = Identity(pointId: string, operationId: string)

  const POINT_ID_LENGTH := 16

  predicate IsAscii(s: string) {
    forall c <- s :: c as int < 128
  }

  predicate IsToken(cfg: Config, s: string) {
    cfg.isText(s) && IsAscii(s)
  }

  predicate ValidPoint(cfg: Config, point: Point) {
    && cfg.isText(point.domainId) && cfg.isText(point.ledgerId) && cfg.isText(point.resourceId) && cfg.isText(point.consentToken)
    && IsDigest(point.bindingHash) && IsDigest(point.publicKey)
    && point.profile.CustomerDelete?
    && point.consentParents.Some? && (forall token <- point.consentParents.value :: cfg.isText(token))
  }

  predicate ClaimsMatchPoint(cfg: Config, claims: DispatchClaims, id: string, point: Point)
    requires point.consentParents.Some?
  {
    && !claims.nestsDependency
    && claims.profile.CustomerDelete? && claims.pointId == id
    && claims.domainId == point.domainId && claims.ledgerId == point.ledgerId
    && claims.resourceId == point.resourceId && claims.bindingHash == point.bindingHash
    && claims.consentHash == Some(cfg.consentHash(point.consentToken, point.consentParents.value))
  }

  /** The claims of a raw dispatch as one admitted point verifies them. */
  function PointDispatch(cfg: Config, raw: string, id: string, point: Point): Option<DispatchClaims> {
    if !IsDigest(id, POINT_ID_LENGTH) || !ValidPoint(cfg, point) then None
    else
      var claims :- VerifiedDispatch(cfg, raw, point.publicKey);
      if ClaimsMatchPoint(cfg, claims, id, point) then Some(claims) else None
  }

  /** The only admitted point that verifies the raw dispatch. */
  ghost predicate Selects(cfg: Config, raw: string, points: map<string, Point>, id: string) {
    && IsToken(cfg, raw) && id in points && PointDispatch(cfg, raw, id, points[id]).Some?
    && forall other <- points :: PointDispatch(cfg, raw, other, points[other]).Some? ==> other == id
  }

  ghost function ForeignIdentity(cfg: Config, raw: string, points: map<string, Point>): (r: Option<(string, DispatchClaims)>)
    ensures r.Some? ==> Selects(cfg, raw, points, r.value.0) && PointDispatch(cfg, raw, r.value.0, points[r.value.0]) == Some(r.value.1)
    ensures r.None? ==> forall id :: !Selects(cfg, raw, points, id)
  {
    if exists id :: Selects(cfg, raw, points, id) then
      var id :| Selects(cfg, raw, points, id);
      Some((id, PointDispatch(cfg, raw, id, points[id]).value))
    else None
  }

  method CounterpartyForeignDispatchIdentity(cfg: Config, raw: string, points: map<string, Point>)
    returns (selected: Option<(string, DispatchClaims)>)
    ensures selected == ForeignIdentity(cfg, raw, points)
  {
    hide PointDispatch;
    if !IsToken(cfg, raw) {
      return None;
    }
    var candidates: seq<(string, DispatchClaims)> := [];
    var todo := points.Keys;
    while todo != {}
      invariant todo <= points.Keys
      invariant forall c <- candidates :: c.0 in points && c.0 !in todo && PointDispatch(cfg, raw, c.0, points[c.0]) == Some(c.1)
      invariant forall id <- points :: id !in todo && PointDispatch(cfg, raw, id, points[id]).Some? ==> exists c <- candidates :: c.0 == id
      invariant forall i, j :: 0 <= i < j < |candidates| ==> candidates[i].0 != candidates[j].0
    {
      var id :| id in todo;
      var claims := PointDispatch(cfg, raw, id, points[id]);
      ghost var before := candidates;
      if claims.Some? {
        candidates := candidates + [(id, claims.value)];
        assert (id, claims.value) in candidates;
      }
      assert forall c :: c in before ==> c in candidates;
      todo := todo - {id};
    }
    if |candidates| != 1 {
      if |candidates| > 1 {
        assert candidates[0] in candidates && candidates[1] in candidates;
      }
      return None;
    }
    assert candidates[0] in candidates;
    assert forall c <- candidates :: c == candidates[0];
    assert Selects(cfg, raw, points, candidates[0].0);
    selected := Some(candidates[0]);
  }

  // ---------- the selected point, said of the evidence ----------

  /** An admitted point that is complete and signed the dispatch, whose claims name it, its resource and its consent. */
  ghost predicate IsSigner(cfg: Config, raw: string, id: string, point: Point, claims: DispatchClaims) {
    && |id| == 16 && (forall c <- id :: '0' <= c <= '9' || 'a' <= c <= 'f')
    && cfg.isText(point.domainId) && cfg.isText(point.ledgerId) && cfg.isText(point.resourceId) && cfg.isText(point.consentToken)
    && IsDigest(point.bindingHash) && IsDigest(point.publicKey) && point.profile == claims.profile == CustomerDelete
    && cfg.dispatchSigned(raw, point.publicKey) && cfg.dispatchClaims(raw) == Some(claims) && !claims.nestsDependency
    && claims.pointId == id && claims.domainId == point.domainId && claims.ledgerId == point.ledgerId
    && claims.resourceId == point.resourceId && claims.bindingHash == point.bindingHash
    && exists parents ::
      && point.consentParents == Some(parents) && (forall token <- parents :: cfg.isText(token))
      && claims.consentHash == Some(cfg.consentHash(point.consentToken, parents))
  }

  lemma PointDispatchIsExact(cfg: Config, raw: string, id: string, point: Point, claims: DispatchClaims)
    ensures PointDispatch(cfg, raw, id, point) == Some(claims) <==> IsSigner(cfg, raw, id, point, claims)
  {
  }

  /** The point is the only admitted one that signed the dispatch. */
  ghost predicate IsOnlySigner(cfg: Config, raw: string, points: map<string, Point>, id: string, claims: DispatchClaims) {
    && cfg.isText(raw) && (forall c <- raw :: c as int <= 127)
    && id in points && IsSigner(cfg, raw, id, points[id], claims)
    && forall other, c :: other in points && IsSigner(cfg, raw, other, points[other], c) ==> other == id
  }

  lemma ForeignIdentityIsExact(cfg: Config, raw: string, points: map<string, Point>, id: string, claims: DispatchClaims)
    ensures ForeignIdentity(cfg, raw, points) == Some((id, claims)) <==> IsOnlySigner(cfg, raw, points, id, claims)
  {
    hide PointDispatch, IsSigner;
    if IsOnlySigner(cfg, raw, points, id, claims) {
      PointDispatchIsExact(cfg, raw, id, points[id], claims);
      forall other | other in points && PointDispatch(cfg, raw, other, points[other]).Some? ensures other == id {
        PointDispatchIsExact(cfg, raw, other, points[other], PointDispatch(cfg, raw, other, points[other]).value);
      }
      assert Selects(cfg, raw, points, id);
    }
    if ForeignIdentity(cfg, raw, points) == Some((id, claims)) {
      PointDispatchIsExact(cfg, raw, id, points[id], claims);
      forall other, c | other in points && IsSigner(cfg, raw, other, points[other], c) ensures other == id {
        PointDispatchIsExact(cfg, raw, other, points[other], c);
      }
    }
  }

  // ---------- what the replay remembers ----------

  datatype Foreign = Foreign(authorizations: map<string, Identity>, fences: set<Identity>, cancellations: map<Identity, Sealed<Cancellation>>)

  const NOTHING_FOREIGN: Foreign := Foreign(map[], {}, map[])

  /** The foreign operation that an authorized decision serves. */
  ghost function AuthorizedIdentity(cfg: Config, adm: Admission, d: Decision): Option<Identity> {
    if !d.foreign.ForeignToken? || adm.points.None? then None
    else
      var selected :- ForeignIdentity(cfg, d.foreign.raw, adm.points.value);
      Some(Identity(selected.0, selected.1.operationId))
  }

  ghost function AuthorizeForeign(cfg: Config, f: Foreign, adm: Admission, d: Decision): Option<Foreign> {
    if d.foreign.NoForeign? then Some(f)
    else
      var identity :- AuthorizedIdentity(cfg, adm, d);
      if identity in f.cancellations then None
      else Some(f.(authorizations := f.authorizations[d.operation.operationId := identity]))
  }

  method AuthorizeForeignOperation(cfg: Config, f: Foreign, adm: Admission, d: Decision) returns (after: Option<Foreign>)
    ensures after == AuthorizeForeign(cfg, f, adm, d)
  {
    if d.foreign.NoForeign? {
      return Some(f);
    }
    if !d.foreign.ForeignToken? || adm.points.None? {
      return None;
    }
    var selected := CounterpartyForeignDispatchIdentity(cfg, d.foreign.raw, adm.points.value);
    if selected.None? {
      return None;
    }
    var identity := Identity(selected.value.0, selected.value.1.operationId);
    if identity in f.cancellations {
      return None;
    }
    after := Some(f.(authorizations := f.authorizations[d.operation.operationId := identity]));
  }

  function FenceForeign(f: Foreign, operationId: string): (r: Option<Foreign>)
    ensures r.Some? ==> r.value.authorizations == f.authorizations && r.value.cancellations == f.cancellations
  {
    if operationId !in f.authorizations then Some(f)
    else if f.authorizations[operationId] in f.cancellations then None
    else Some(f.(fences := f.fences + {f.authorizations[operationId]}))
  }

  /** The admission that a cancellation record rests on. */
  function CancellingAdmission(cfg: Config, c: Cancellation): Option<Admission> {
    if c.adapter !in cfg.adapters then None
    else
      var adm :- cfg.admit(c.admissionToken, c.at, c.adapter);
      if adm.currentSchema && adm.domainId == c.domainId && adm.ledgerId == c.ledgerId && adm.pointId == c.pointId
        && adm.adapter == Some(c.adapter) && adm.points.Some?
      then Some(adm) else None
  }

  /** The cancel request is signed by the selected point, joins the dispatch and is active. */
  function CancelledThrough(cfg: Config, c: Cancellation, id: string, point: Point): Option<Identity> {
    var dispatch :- PointDispatch(cfg, c.foreignDispatch, id, point);
    var r :- cfg.reconciliationVerifies(c.request, point.publicKey);
    if r.verb.Cancel? && cfg.cancellationJoins(r, dispatch) && r.issuedAt <= c.at < r.expiresAt && IsToken(cfg, c.request)
    then Some(Identity(dispatch.pointId, dispatch.operationId)) else None
  }

  /** The foreign operation that a cancellation record closes. */
  ghost function CancelledIdentity(cfg: Config, c: Cancellation): Option<Identity> {
    var adm :- CancellingAdmission(cfg, c);
    var selected :- ForeignIdentity(cfg, c.foreignDispatch, adm.points.value);
    CancelledThrough(cfg, c, selected.0, adm.points.value[selected.0])
  }

  method VerifyCancellation(cfg: Config, c: Cancellation) returns (identity: Option<Identity>)
    ensures identity == CancelledIdentity(cfg, c)
  {
    var adm := CancellingAdmission(cfg, c);
    if adm.None? {
      return None;
    }
    var points := adm.value.points.value;
    var selected := CounterpartyForeignDispatchIdentity(cfg, c.foreignDispatch, points);
    if selected.None? {
      return None;
    }
    identity := CancelledThrough(cfg, c, selected.value.0, points[selected.value.0]);
  }

  function CancelForeign(f: Foreign, identity: Identity, record: Sealed<Cancellation>): Option<Foreign> {
    if identity in f.cancellations || identity in f.fences then None
    else Some(f.(cancellations := f.cancellations[identity := record]))
  }

  /** The point's own signed request cancels the dispatch, now. */
  ghost predicate IsCancelRequest(cfg: Config, c: Cancellation, point: Point, dispatch: DispatchClaims) {
    && IsToken(cfg, c.request)
    && exists r ::
      && cfg.reconciliationVerifies(c.request, point.publicKey) == Some(r)
      && r.verb.Cancel? && cfg.cancellationJoins(r, dispatch) && r.issuedAt <= c.at < r.expiresAt
  }

  /**
   A record cancels an operation exactly when its admission holds, the named point is the only admitted one
   that verifies the dispatch, the dispatch names the operation, and that point signed an active cancel request.
   */
  lemma CancellationIsExact(cfg: Config, c: Cancellation, identity: Identity)
    ensures CancelledIdentity(cfg, c) == Some(identity) <==>
      && CancellingAdmission(cfg, c).Some?
      && var points := CancellingAdmission(cfg, c).value.points.value;
      && Selects(cfg, c.foreignDispatch, points, identity.pointId)
      && var dispatch := PointDispatch(cfg, c.foreignDispatch, identity.pointId, points[identity.pointId]).value;
      dispatch.operationId == identity.operationId && IsCancelRequest(cfg, c, points[identity.pointId], dispatch)
  {
    hide IsToken;
    if CancellingAdmission(cfg, c).Some? {
      var points := CancellingAdmission(cfg, c).value.points.value;
      RawDispatchNamesOperation(cfg, c.foreignDispatch, points);
      hide PointDispatch, CancellingAdmission;
    }
  }

  /**
   Fence and cancellation name a foreign operation alike. Each has its own admission, verified at its own
   instant, with its own points; but the raw dispatch states its point and operation itself.
   */
  lemma BothSidesNameOneOperation(cfg: Config, adm: Admission, d: Decision, c: Cancellation)
    requires d.foreign == ForeignToken(c.foreignDispatch)
    requires AuthorizedIdentity(cfg, adm, d).Some? && CancelledIdentity(cfg, c).Some?
    ensures AuthorizedIdentity(cfg, adm, d) == CancelledIdentity(cfg, c)
  {
    RawDispatchNamesOperation(cfg, c.foreignDispatch, adm.points.value);
    RawDispatchNamesOperation(cfg, c.foreignDispatch, CancellingAdmission(cfg, c).value.points.value);
    hide ForeignIdentity, CancellingAdmission, PointDispatch;
    CancellationIsExact(cfg, c, CancelledIdentity(cfg, c).value);
  }

  /** Whatever the points, a raw dispatch selects the point and the operation that it claims. */
  lemma RawDispatchNamesOperation(cfg: Config, raw: string, points: map<string, Point>)
    ensures forall id <- points :: PointDispatch(cfg, raw, id, points[id]).Some? ==>
      PointDispatch(cfg, raw, id, points[id]) == cfg.dispatchClaims(raw) && cfg.dispatchClaims(raw).value.pointId == id
  {
    hide ValidPoint, IsDigest;
  }

  ghost predicate Excludes(f: Foreign) {
    f.fences !! f.cancellations.Keys
  }
}
