/** The certificate operations case by case, on the rows of the inventory and the certificates in place. */
module ShieldCases {
  import opened Common
  import opened ShieldModel

  /** Row k, and no other, has this id. */
  predicate IsRow(certs: seq<Cert>, id: CertId, k: nat) {
    && k < |certs| && certs[k].id == id
    && forall i :: 0 <= i < |certs| && i != k ==> certs[i].id != id
  }

  lemma {:induction false} RowIsFound(certs: seq<Cert>, id: CertId, k: nat)
    requires IsRow(certs, id, k)
    ensures Find(certs, id) == Some(k)
  {
    var n := |certs| - 1;
    if k < n {
      assert certs[n].id != id;
      RowIsFound(certs[..n], id, k);
    }
  }

  lemma {:induction false} NoRowIsFound(certs: seq<Cert>, id: CertId)
    requires forall i :: 0 <= i < |certs| ==> certs[i].id != id
    ensures Find(certs, id) == None
  {
    if certs != [] {
      NoRowIsFound(certs[..|certs| - 1], id);
    }
  }

  /** An upload: which kind of refusal comes first, and the row that is added when there is none. */
  lemma UploadCases(s: State, id: CertId, ty: CertType, isCa: bool, fingerprint: string, key: KeySource,
      keyMatches: bool, notAfter: int)
    ensures var (s', answer) := Uploading(s, id, ty, isCa, fingerprint, key, keyMatches, notAfter);
            var taken := exists i :: 0 <= i < |s.certs| && s.certs[i].fingerprint == fingerprint;
            var fits := (ty == CA ==> isCa) && !taken;
            var unknownCsr := key.Csr? && !key.known;
            var noKey := key == NoKey || (key.Csr? && key.known && !key.keyOnDisk);
            && (answer == NotACa <==> ty == CA && !isCa)
            && (answer == FingerprintTaken <==> (ty == CA ==> isCa) && taken)
            && (answer == CsrNotFound <==> fits && ty == SERVER && unknownCsr)
            && (answer == KeyMissing <==> fits && ty == SERVER && noKey)
            && (answer == KeyMismatch <==> fits && ty == SERVER && !unknownCsr && !noKey && !keyMatches)
            && (answer == Uploaded <==> fits && (ty == SERVER ==> !unknownCsr && !noKey && keyMatches))
            && (answer != Uploaded ==> s' == s)
            && (answer == Uploaded ==>
                && s'.live == s.live && |s'.certs| == |s.certs| + 1 && s'.certs[..|s.certs|] == s.certs
                && var c := s'.certs[|s.certs|];
                && c.id == id && c.ty == ty && c.fingerprint == fingerprint && c.notAfter == notAfter
                && (c.hasKey <==> ty == SERVER) && !c.isActive && c.activatedAt == None)
  {
  }

  /** A row that is not active is removed, and the others stay in their order. */
  lemma DeleteCases(s: State, id: CertId, k: nat)
    requires IsRow(s.certs, id, k)
    ensures var (s', answer) := Deleting(s, id);
            && s'.live == s.live
            && (answer == ActiveIsKept <==> s.certs[k].isActive)
            && (answer == Deleted <==> !s.certs[k].isActive)
            && (answer == ActiveIsKept ==> s'.certs == s.certs)
            && (answer == Deleted ==>
                  && |s'.certs| == |s.certs| - 1
                  && (forall i :: 0 <= i < k ==> s'.certs[i] == s.certs[i])
                  && (forall i :: k < i < |s.certs| ==> s'.certs[i - 1] == s.certs[i]))
  {
    RowIsFound(s.certs, id, k);
  }

  /** An id that no row has is refused by every operation on one certificate. */
  lemma UnknownId(s: State, id: CertId, other: CertId, helper: Helper, now: int, done: int)
    requires forall i :: 0 <= i < |s.certs| ==> s.certs[i].id != id
    ensures Deleting(s, id) == (s, NotFound) && Activating(s, id, helper, now) == (s, NotFound)
    ensures Bundling(s, id, other, helper, now, done) == (s, NotFound)
    ensures Bundling(s, other, id, helper, now, done) == (s, NotFound)
  {
    NoRowIsFound(s.certs, id);
  }

  /** What a switch leaves in every row: only the two columns of its own type's rows can change. */
  lemma SwitchedRow(certs: seq<Cert>, k: nat, now: int, i: nat)
    requires Inv(certs) && k < |certs| && i < |certs|
    ensures var c, c' := certs[i], SwitchTo(certs, k, now)[i];
            && c'.id == c.id && c'.ty == c.ty && c'.fingerprint == c.fingerprint && c'.hasKey == c.hasKey
            && c'.notAfter == c.notAfter
            && (i == k ==> c'.isActive && c'.activatedAt == Some(now))
            && (i != k ==> c'.activatedAt == c.activatedAt)
            && (i != k && c.ty == certs[k].ty ==> !c'.isActive)
            && (i != k && c.ty != certs[k].ty ==> c'.isActive == c.isActive)
  {
    SwitchMeaning(certs, k, now);
    assert Same(certs[i], SwitchTo(certs, k, now)[i]);
    var r, ty := SwitchTo(certs, k, now), certs[i].ty;
    assert ActiveAt(r, i, ty) <==> if ty == certs[k].ty then i == k else ActiveAt(certs, i, ty);
  }

  /**
   * Activating row k: an expired certificate and a SERVER without key are refused, and a CLIENT's call fails, because
   * no key is staged for it. The helper decides the rest, and what it leaves in place.
   */
  lemma ActivateCases(s: State, id: CertId, helper: Helper, now: int, k: nat)
    requires IsRow(s.certs, id, k)
    ensures var (s', answer) := Activating(s, id, helper, now);
            var c := s.certs[k];
            var late, bare := c.notAfter < now, c.ty != CA && !c.hasKey;
            && (answer == CertExpired <==> late)
            && (answer == NoPrivateKey <==> !late && c.ty == SERVER && !c.hasKey)
            && (answer == HelperFailed <==> !late && ((c.ty == CLIENT && !c.hasKey) || (!bare && helper != Ok)))
            && (answer == Activated <==> !late && !bare && helper == Ok)
            && (answer == Activated ==> s'.certs == SwitchTo(s.certs, k, now))
            && (answer != Activated ==> s'.certs == s.certs)
            && (answer == Activated || (answer == HelperFailed && !bare && helper == LeftInPlace) ==>
                  s'.live == if c.ty == CA then Live(Some(id), s.live.server) else Live(s.live.ca, Some(id)))
            && (answer != Activated && !(answer == HelperFailed && !bare && helper == LeftInPlace) ==>
                  s'.live == s.live)
  {
    RowIsFound(s.certs, id, k);
  }

  /** A bundle of row k as CA and row m as server certificate: the refusals in their order, then the helper. */
  lemma BundleCases(s: State, ca: CertId, server: CertId, helper: Helper, now: int, done: int, k: nat, m: nat)
    requires IsRow(s.certs, ca, k) && IsRow(s.certs, server, m)
    ensures var (s', answer) := Bundling(s, ca, server, helper, now, done);
            var typed := s.certs[k].ty == CA && s.certs[m].ty == SERVER;
            var late := s.certs[k].notAfter < now || s.certs[m].notAfter < now;
            && (answer == WrongType <==> !typed)
            && (answer == NoPrivateKey <==> typed && !s.certs[m].hasKey)
            && (answer == CertExpired <==> typed && s.certs[m].hasKey && late)
            && (answer == HelperFailed <==> typed && s.certs[m].hasKey && !late && helper != Ok)
            && (answer == Activated <==> typed && s.certs[m].hasKey && !late && helper == Ok)
            && (answer == Activated ==> s'.certs == SwitchTo(SwitchTo(s.certs, k, done), m, done))
            && (answer != Activated ==> s'.certs == s.certs)
            && (answer == Activated || (answer == HelperFailed && helper == LeftInPlace) ==>
                  s'.live.ca == Some(ca) && s'.live.server == Some(server))
            && (answer == HelperFailed && helper == HalfDone ==>
                  s'.live.ca == Some(ca) && s'.live.server == s.live.server)
            && (answer !in {HelperFailed, Activated} || (answer == HelperFailed && helper == Failed) ==>
                  s'.live == s.live)
  {
    RowIsFound(s.certs, ca, k);
    RowIsFound(s.certs, server, m);
  }

  /** The rows after a bundle: the two are active since `done`, and no other CA or SERVER certificate is. */
  lemma BundledRow(certs: seq<Cert>, k: nat, m: nat, done: int, i: nat)
    requires Inv(certs) && k < |certs| && m < |certs| && certs[k].ty == CA && certs[m].ty == SERVER && i < |certs|
    ensures var c, c' := certs[i], SwitchTo(SwitchTo(certs, k, done), m, done)[i];
            && c'.id == c.id && c'.ty == c.ty && c'.fingerprint == c.fingerprint && c'.hasKey == c.hasKey
            && c'.notAfter == c.notAfter
            && (i == k || i == m ==> c'.isActive && c'.activatedAt == Some(done))
            && (i != k && i != m ==> c'.activatedAt == c.activatedAt)
            && (i != k && i != m && c.ty in {CA, SERVER} ==> !c'.isActive)
            && (c.ty == CLIENT ==> c'.isActive == c.isActive)
  {
    SwitchMeaning(certs, k, done);
    SwitchedRow(certs, k, done, i);
    SwitchedRow(certs, k, done, m);
    SwitchedRow(SwitchTo(certs, k, done), m, done, i);
  }
}
