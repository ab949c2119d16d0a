/** The certificate inventory and what upload, delete and the two activations do to it (shield_service.py). */
module ShieldModel {
  import opened Common

  datatype CertId = CertId(uuid: string)
  datatype CertType = CA | SERVER | CLIENT

  datatype Cert = Cert(
    id: CertId,
    ty: CertType,
    fingerprint: string,
    hasKey: bool,
    notAfter: int,
    isActive: bool,
    activatedAt: Option<int>)

  /** The certificates that the privileged helper last put in place. */
  datatype Live = Live(ca: Option<CertId>, server: Option<CertId>)

  datatype State = State(certs: seq<Cert>, live: Live)

  /**
   * What the privileged helper does: it applies and says so; refuses or rolls back; puts only the CA of a bundle
   * in place and fails; or fails for its caller with everything in place, because it applied after the caller
   * had stopped waiting, or because its rollback found no earlier file to restore.
   */
  datatype Helper = Ok | Failed | HalfDone | LeftInPlace

  datatype KeySource = NoKey | PrivateKey | Csr(known: bool, keyOnDisk: bool)

  datatype Answer =
    | Uploaded | NotACa | FingerprintTaken | CsrNotFound | KeyMissing | KeyMismatch
    | Deleted | NotFound | ActiveIsKept
    | WrongType | NoPrivateKey | CertExpired | HelperFailed | Activated

  datatype Call =
    | Upload(id: CertId, ty: CertType, isCa: bool, fingerprint: string, key: KeySource, keyMatches: bool, notAfter: int)
    | Delete(id: CertId)
    | Activate(id: CertId, helper: Helper, now: int)
      /** Expiry is judged at `now`, the activation is stamped at `done`, after the helper has answered. */
    | Bundle(ca: CertId, server: CertId, helper: Helper, now: int, done: int)

  /** `db.get(CertificateInventory, id)` */
  function Find(certs: seq<Cert>, id: CertId): (k: Option<nat>)
    ensures k.Some? ==> k.value < |certs| && certs[k.value].id == id
  {
    if certs == [] then None
    else
      var n := |certs| - 1;
      if certs[n].id == id then Some(n) else Find(certs[..n], id)
  }

  lemma {:induction false} IdIsFound(certs: seq<Cert>, i: nat)
    requires i < |certs|
    ensures Find(certs, certs[i].id).Some?
  {
    var n := |certs| - 1;
    if i < n {
      IdIsFound(certs[..n], i);
    }
  }

  predicate ActiveAt(certs: seq<Cert>, k: nat, ty: CertType) {
    k < |certs| && certs[k].isActive && certs[k].ty == ty
  }

  /** Some active certificate of the type, if there is one. */
  function GetActive(certs: seq<Cert>, ty: CertType): (k: Option<nat>)
    ensures k.Some? ==> ActiveAt(certs, k.value, ty)
  {
    if certs == [] then None
    else
      var n := |certs| - 1;
      if ActiveAt(certs, n, ty) then Some(n) else GetActive(certs[..n], ty)
  }

  lemma {:induction false} ActiveIsFound(certs: seq<Cert>, ty: CertType, i: nat)
    requires ActiveAt(certs, i, ty)
    ensures GetActive(certs, ty).Some?
  {
    var n := |certs| - 1;
    if i < n {
      ActiveIsFound(certs[..n], ty, i);
    }
  }

  /** Takes the old active certificate of the type down and puts row k up. */
  function SwitchTo(certs: seq<Cert>, k: nat, now: int): (r: seq<Cert>)
    requires k < |certs|
    ensures |r| == |certs|
  {
    var previous := GetActive(certs, certs[k].ty);
    var certs1 := if previous.Some? && certs[previous.value].id != certs[k].id
      then certs[previous.value := certs[previous.value].(isActive := false)] else certs;
    certs1[k := certs1[k].(isActive := true, activatedAt := Some(now))]
  }

  predicate FingerprintKnown(certs: seq<Cert>, fingerprint: string) {
    exists i :: 0 <= i < |certs| && certs[i].fingerprint == fingerprint
  }

  /** Why a key is refused for a SERVER certificate; Uploaded when it is not. */
  function KeyCheck(key: KeySource, keyMatches: bool): Answer {
    match key
    case NoKey => KeyMissing
    case Csr(known, keyOnDisk) =>
      if !known then CsrNotFound else if !keyOnDisk then KeyMissing else if keyMatches then Uploaded else KeyMismatch
    case PrivateKey => if keyMatches then Uploaded else KeyMismatch
  }

  function Uploading(s: State, id: CertId, ty: CertType, isCa: bool, fingerprint: string, key: KeySource,
      keyMatches: bool, notAfter: int): (State, Answer) {
    if ty == CA && !isCa then (s, NotACa)
    else if FingerprintKnown(s.certs, fingerprint) then (s, FingerprintTaken)
    else if ty == SERVER && KeyCheck(key, keyMatches) != Uploaded then (s, KeyCheck(key, keyMatches))
    else (s.(certs := s.certs + [Cert(id, ty, fingerprint, ty == SERVER, notAfter, false, None)]), Uploaded)
  }

  function Deleting(s: State, id: CertId): (State, Answer) {
    var k := Find(s.certs, id);
    if k == None then (s, NotFound)
    else if s.certs[k.value].isActive then (s, ActiveIsKept)
    else (s.(certs := s.certs[..k.value] + s.certs[k.value + 1..]), Deleted)
  }

  /** activate-ca for a CA, activate-server for anything else. */
  function Applied(live: Live, cert: Cert): Live {
    if cert.ty == CA then live.(ca := Some(cert.id)) else live.(server := Some(cert.id))
  }

  /** activate-server looks for the staged private key before it changes anything. */
  function Runs(cert: Cert, helper: Helper): Helper {
    if cert.ty != CA && !cert.hasKey then Failed else helper
  }

  function Activating(s: State, id: CertId, helper: Helper, now: int): (State, Answer) {
    var k := Find(s.certs, id);
    if k == None then (s, NotFound)
    else
      var cert := s.certs[k.value];
      if cert.notAfter < now then (s, CertExpired)
      else if cert.ty == SERVER && !cert.hasKey then (s, NoPrivateKey)
      else
        match Runs(cert, helper)
        case Ok => (State(SwitchTo(s.certs, k.value, now), Applied(s.live, cert)), Activated)
        case LeftInPlace => (s.(live := Applied(s.live, cert)), HelperFailed)
        case _ => (s, HelperFailed)
  }

  /** Why a bundle is refused before the helper is called; Activated when it is not. */
  function BundleCheck(certs: seq<Cert>, ca: CertId, server: CertId, now: int): Answer {
    var k, m := Find(certs, ca), Find(certs, server);
    if k == None || m == None then NotFound
    else if certs[k.value].ty != CA || certs[m.value].ty != SERVER then WrongType
    else if !certs[m.value].hasKey then NoPrivateKey
    else if certs[k.value].notAfter < now || certs[m.value].notAfter < now then CertExpired
    else Activated
  }

  function Bundling(s: State, ca: CertId, server: CertId, helper: Helper, now: int, done: int): (State, Answer) {
    if BundleCheck(s.certs, ca, server, now) != Activated then (s, BundleCheck(s.certs, ca, server, now))
    else
      match helper
      case Failed => (s, HelperFailed)
      case HalfDone => (s.(live := s.live.(ca := Some(ca))), HelperFailed)
      case LeftInPlace => (s.(live := Live(Some(ca), Some(server))), HelperFailed)
      case Ok =>
        var certs := SwitchTo(s.certs, Find(s.certs, ca).value, done);
        (State(SwitchTo(certs, Find(s.certs, server).value, done), Live(Some(ca), Some(server))), Activated)
  }

  function Perform(s: State, call: Call): (State, Answer) {
    match call
    case Upload(id, ty, isCa, fingerprint, key, keyMatches, notAfter) =>
      if Find(s.certs, id).Some? then (s, FingerprintTaken)
        else Uploading(s, id, ty, isCa, fingerprint, key, keyMatches, notAfter)
    case Delete(id) => Deleting(s, id)
    case Activate(id, helper, now) => Activating(s, id, helper, now)
    case Bundle(ca, server, helper, now, done) => Bundling(s, ca, server, helper, now, done)
  }

  function After(calls: seq<Call>): State {
    if calls == [] then State([], Live(None, None)) else Perform(After(calls[..|calls| - 1]), calls[|calls| - 1]).0
  }

  // ---------------------------------------------------------------- one active certificate per type

  ghost predicate DistinctIds(certs: seq<Cert>) {
    forall i, j :: 0 <= i < j < |certs| ==> certs[i].id != certs[j].id
  }

  ghost predicate AtMostOne(certs: seq<Cert>) {
    forall i: nat, j: nat, ty :: ActiveAt(certs, i, ty) && ActiveAt(certs, j, ty) ==> i == j
  }

  ghost predicate Inv(certs: seq<Cert>) {
    DistinctIds(certs) && AtMostOne(certs)
  }

  predicate Same(c: Cert, c': Cert) {
    c' == c.(isActive := c'.isActive, activatedAt := c'.activatedAt)
  }

  /** Exactly row k is active for its type afterwards; the other types are as they were. */
  lemma SwitchMeaning(certs: seq<Cert>, k: nat, now: int)
    requires Inv(certs) && k < |certs|
    ensures var r := SwitchTo(certs, k, now);
            && Inv(r)
            && (forall i :: 0 <= i < |certs| ==> Same(certs[i], r[i]))
            && (forall i: nat, ty :: ActiveAt(r, i, ty)
                 <==> if ty == certs[k].ty then i == k else ActiveAt(certs, i, ty))
  {
    var previous := GetActive(certs, certs[k].ty);
    var r := SwitchTo(certs, k, now);
    assert previous.Some? && previous.value != k ==> certs[previous.value].id != certs[k].id;
    forall i: nat | i < |certs|
      ensures Same(certs[i], r[i])
              && r[i].isActive == (if certs[i].ty == certs[k].ty then i == k else certs[i].isActive) {
      if ActiveAt(certs, i, certs[k].ty) {
        ActiveIsFound(certs, certs[k].ty, i);
      }
    }
    assert forall i: nat, ty :: ActiveAt(r, i, ty) <==> if ty == certs[k].ty then i == k else ActiveAt(certs, i, ty);
    assert AtMostOne(r);
  }

  lemma RemovalKeepsIds(certs: seq<Cert>, n: nat)
    requires DistinctIds(certs) && n < |certs|
    ensures DistinctIds(certs[..n] + certs[n + 1..])
  {
  }

  lemma DeleteKeeps(s: State, id: CertId)
    requires Inv(s.certs)
    ensures Inv(Deleting(s, id).0.certs)
  {
    var certs, k := s.certs, Find(s.certs, id);
    if k.Some? && !certs[k.value].isActive {
      var n := k.value;
      var r := certs[..n] + certs[n + 1..];
      RemovalKeepsIds(certs, n);
      assert forall i: nat, ty :: ActiveAt(r, i, ty) ==> ActiveAt(certs, if i < n then i else i + 1, ty);
    }
  }

  lemma UploadKeeps(certs: seq<Cert>, cert: Cert)
    requires Inv(certs) && !cert.isActive && Find(certs, cert.id) == None
    ensures Inv(certs + [cert])
  {
    assert forall i: nat, ty :: ActiveAt(certs + [cert], i, ty) <==> ActiveAt(certs, i, ty);
    forall i: nat | i < |certs| ensures certs[i].id != cert.id {
      IdIsFound(certs, i);
    }
  }

  /** The types that a successful call activates. */
  function Switches(s: State, call: Call): set<CertType> {
    if Perform(s, call).1 != Activated then {}
    else if call.Bundle? then {CA, SERVER}
    else if call.Activate? && Find(s.certs, call.id).Some? then {s.certs[Find(s.certs, call.id).value].ty}
    else {}
  }

  lemma ActivateKeeps(s: State, call: Call)
    requires Inv(s.certs) && call.Activate?
    ensures Inv(Perform(s, call).0.certs)
  {
    var k := Find(s.certs, call.id);
    if Perform(s, call).1 == Activated {
      SwitchMeaning(s.certs, k.value, call.now);
    }
  }

  lemma BundleKeeps(s: State, call: Call)
    requires Inv(s.certs) && call.Bundle?
    ensures Inv(Perform(s, call).0.certs)
  {
    if Perform(s, call).1 == Activated {
      var k, m := Find(s.certs, call.ca).value, Find(s.certs, call.server).value;
      SwitchMeaning(s.certs, k, call.done);
      var certs := SwitchTo(s.certs, k, call.done);
      assert Same(s.certs[m], certs[m]);
      SwitchMeaning(certs, m, call.done);
    }
  }

  lemma CallKeeps(s: State, call: Call)
    requires Inv(s.certs)
    ensures Inv(Perform(s, call).0.certs)
  {
    match call
    case Upload(id, ty, _, fingerprint, _, _, notAfter) =>
      if Perform(s, call).1 == Uploaded {
        UploadKeeps(s.certs, Cert(id, ty, fingerprint, ty == SERVER, notAfter, false, None));
      }
    case Delete(id) => DeleteKeeps(s, id);
    case Activate(_, _, _) => ActivateKeeps(s, call);
    case Bundle(_, _, _, _, _) => BundleKeeps(s, call);
  }

  /** In every reachable inventory, ids are distinct and each type has at most one active certificate. */
  lemma {:induction false} RunKeeps(calls: seq<Call>)
    ensures Inv(After(calls).certs)
  {
    if calls != [] {
      RunKeeps(calls[..|calls| - 1]);
      CallKeeps(After(calls[..|calls| - 1]), calls[|calls| - 1]);
    }
  }

  lemma AfterNext(calls: seq<Call>, i: nat)
    requires i < |calls|
    ensures After(calls[..i + 1]) == Perform(After(calls[..i]), calls[i]).0
  {
    assert calls[..i + 1][..i] == calls[..i];
  }
}
