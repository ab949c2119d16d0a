/** Runs of the certificate operations: what is active, what the helper has in place, and how it got there. */
module ShieldProtocol {
  import opened Common
  import opened ShieldModel

  // ---------------------------------------------------------------- what a call can change

  /** A refused or failed call changes no row; a bundle puts up both of its certificates or none. */
  lemma FailureChangesNoRow(s: State, call: Call)
    requires Inv(s.certs)
    ensures Perform(s, call).1 !in {Uploaded, Deleted, Activated} ==> Perform(s, call).0.certs == s.certs
    ensures call.Bundle? && Perform(s, call).1 == Activated ==>
              && ActiveId(Perform(s, call).0.certs, CA) == Some(call.ca)
              && ActiveId(Perform(s, call).0.certs, SERVER) == Some(call.server)
  {
    if call.Bundle? && Perform(s, call).1 == Activated {
      BundleSwitches(s, call);
    }
  }

  /** The id of the active certificate of a type. */
  function ActiveId(certs: seq<Cert>, ty: CertType): Option<CertId> {
    var k := GetActive(certs, ty);
    if k.Some? then Some(certs[k.value].id) else None
  }

  lemma ActiveIdIs(certs: seq<Cert>, ty: CertType, k: nat)
    requires AtMostOne(certs) && ActiveAt(certs, k, ty)
    ensures ActiveId(certs, ty) == Some(certs[k].id)
  {
    ActiveIsFound(certs, ty, k);
  }

  lemma SwitchedIds(certs: seq<Cert>, k: nat, now: int)
    requires Inv(certs) && k < |certs|
    ensures forall ty :: ActiveId(SwitchTo(certs, k, now), ty) == if ty == certs[k].ty then Some(certs[k].id)
            else ActiveId(certs, ty)
  {
    var r := SwitchTo(certs, k, now);
    SwitchMeaning(certs, k, now);
    forall ty ensures ActiveId(r, ty) == if ty == certs[k].ty then Some(certs[k].id) else ActiveId(certs, ty) {
      if ty == certs[k].ty {
        ActiveIdIs(r, ty, k);
      } else if GetActive(certs, ty).Some? {
        ActiveIdIs(r, ty, GetActive(certs, ty).value);
      } else if GetActive(r, ty).Some? {
        ActiveIsFound(certs, ty, GetActive(r, ty).value);
      }
    }
  }

  lemma BundleSwitches(s: State, call: Call)
    requires Inv(s.certs) && call.Bundle? && Perform(s, call).1 == Activated
    ensures ActiveId(Perform(s, call).0.certs, CA) == Some(call.ca)
    ensures ActiveId(Perform(s, call).0.certs, SERVER) == Some(call.server)
  {
    var k, m := Find(s.certs, call.ca).value, Find(s.certs, call.server).value;
    SwitchMeaning(s.certs, k, call.done);
    SwitchedIds(s.certs, k, call.done);
    var certs := SwitchTo(s.certs, k, call.done);
    assert Same(s.certs[m], certs[m]);
    SwitchedIds(certs, m, call.done);
  }

  lemma DeleteKeepsActive(s: State, id: CertId, ty: CertType)
    requires Inv(s.certs)
    ensures ActiveId(Deleting(s, id).0.certs, ty) == ActiveId(s.certs, ty)
  {
    DeleteKeeps(s, id);
    var certs, k := s.certs, Find(s.certs, id);
    if k.Some? && !certs[k.value].isActive {
      var n := k.value;
      var r := certs[..n] + certs[n + 1..];
      if GetActive(certs, ty).Some? {
        var i := GetActive(certs, ty).value;
        ActiveIdIs(r, ty, if i < n then i else i - 1);
      } else if GetActive(r, ty).Some? {
        var i := GetActive(r, ty).value;
        ActiveIsFound(certs, ty, if i < n then i else i + 1);
      }
    }
  }

  lemma UploadKeepsActive(certs: seq<Cert>, cert: Cert, ty: CertType)
    requires Inv(certs) && !cert.isActive && Find(certs, cert.id) == None
    ensures ActiveId(certs + [cert], ty) == ActiveId(certs, ty)
  {
    UploadKeeps(certs, cert);
    var k := GetActive(certs + [cert], ty);
    if k.Some? {
      ActiveIdIs(certs, ty, k.value);
    }
  }

  /** What each call does to the active certificate of a type. */
  lemma ActiveMoves(s: State, call: Call, ty: CertType)
    requires Inv(s.certs)
    ensures ActiveId(Perform(s, call).0.certs, ty) ==
            if ty !in Switches(s, call) then ActiveId(s.certs, ty)
            else if call.Activate? then Some(call.id)
            else if call.Bundle? then Some(if ty == CA then call.ca else call.server) else None
  {
    match call
    case Upload(id, t, _, fingerprint, _, _, notAfter) =>
      if Perform(s, call).1 == Uploaded {
        UploadKeepsActive(s.certs, Cert(id, t, fingerprint, t == SERVER, notAfter, false, None), ty);
      }
    case Delete(id) => DeleteKeepsActive(s, id, ty);
    case Activate(id, _, now) =>
      if Perform(s, call).1 == Activated { SwitchedIds(s.certs, Find(s.certs, id).value, now); }
    case Bundle(ca, server, _, _, done) =>
      if Perform(s, call).1 == Activated { BundleSwitchesAll(s, call, ty); }
  }

  lemma BundleSwitchesAll(s: State, call: Call, ty: CertType)
    requires Inv(s.certs) && call.Bundle? && Perform(s, call).1 == Activated
    ensures ActiveId(Perform(s, call).0.certs, ty) == if ty == CA then Some(call.ca)
            else if ty == SERVER then Some(call.server) else ActiveId(s.certs, ty)
  {
    var k, m := Find(s.certs, call.ca).value, Find(s.certs, call.server).value;
    SwitchMeaning(s.certs, k, call.done);
    SwitchedIds(s.certs, k, call.done);
    var certs := SwitchTo(s.certs, k, call.done);
    assert Same(s.certs[m], certs[m]);
    SwitchedIds(certs, m, call.done);
  }

  /** Some call of the run activated a certificate of this type. */
  predicate ActivatedIn(calls: seq<Call>, ty: CertType) {
    calls != [] &&
    (var init, last := calls[..|calls| - 1], calls[|calls| - 1];
     ActivatedIn(init, ty) || ty in Switches(After(init), last))
  }

  lemma {:induction false} ActiveIffActivated(calls: seq<Call>, ty: CertType)
    ensures ActiveId(After(calls).certs, ty).Some? <==> ActivatedIn(calls, ty)
  {
    if calls != [] {
      var init, last := calls[..|calls| - 1], calls[|calls| - 1];
      ActiveIffActivated(init, ty);
      RunKeeps(init);
      ActiveMoves(After(init), last, ty);
    }
  }

  ghost predicate ExactlyOne(certs: seq<Cert>, ty: CertType) {
    exists k: nat :: ActiveAt(certs, k, ty) && forall m: nat :: ActiveAt(certs, m, ty) ==> m == k
  }

  /** A type has exactly one active certificate from its first activation on, forever, and none before. */
  lemma ExactlyOneForever(calls: seq<Call>, ty: CertType)
    ensures if ActivatedIn(calls, ty) then ExactlyOne(After(calls).certs, ty)
            else forall k: nat :: !ActiveAt(After(calls).certs, k, ty)
  {
    var certs := After(calls).certs;
    ActiveIffActivated(calls, ty);
    RunKeeps(calls);
    if ActivatedIn(calls, ty) {
      assert ActiveAt(certs, GetActive(certs, ty).value, ty);
    } else {
      forall k: nat ensures !ActiveAt(certs, k, ty) {
        if ActiveAt(certs, k, ty) {
          ActiveIsFound(certs, ty, k);
        }
      }
    }
  }

  // ---------------------------------------------------------------- what is in the inventory

  /** Fingerprints are unique, and exactly the SERVER certificates have a private key. */
  ghost predicate Sound(certs: seq<Cert>) {
    && (forall i, j :: 0 <= i < j < |certs| ==> certs[i].fingerprint != certs[j].fingerprint)
    && (forall i :: 0 <= i < |certs| ==> (certs[i].hasKey <==> certs[i].ty == SERVER))
  }

  lemma SwitchKeepsSound(certs: seq<Cert>, k: nat, now: int)
    requires Inv(certs) && Sound(certs) && k < |certs|
    ensures Inv(SwitchTo(certs, k, now)) && Sound(SwitchTo(certs, k, now))
  {
    SwitchMeaning(certs, k, now);
    forall i | 0 <= i < |certs|
      ensures SwitchTo(certs, k, now)[i].fingerprint == certs[i].fingerprint
      ensures SwitchTo(certs, k, now)[i].hasKey <==> SwitchTo(certs, k, now)[i].ty == SERVER
    {
      assert Same(certs[i], SwitchTo(certs, k, now)[i]);
    }
  }

  lemma DeleteKeepsSound(s: State, id: CertId)
    requires Sound(s.certs)
    ensures Sound(Deleting(s, id).0.certs)
  {
  }

  lemma UploadKeepsSound(s: State, id: CertId, ty: CertType, isCa: bool, fingerprint: string, key: KeySource,
      keyMatches: bool, notAfter: int)
    requires Sound(s.certs)
    ensures Sound(Uploading(s, id, ty, isCa, fingerprint, key, keyMatches, notAfter).0.certs)
  {
  }

  lemma CallKeepsSound(s: State, call: Call)
    requires Inv(s.certs) && Sound(s.certs)
    ensures Sound(Perform(s, call).0.certs)
  {
    match call
    case Upload(id, ty, isCa, fingerprint, key, keyMatches, notAfter) =>
      UploadKeepsSound(s, id, ty, isCa, fingerprint, key, keyMatches, notAfter);
    case Delete(id) => DeleteKeepsSound(s, id);
    case Activate(id, _, now) =>
      if Perform(s, call).1 == Activated { SwitchKeepsSound(s.certs, Find(s.certs, id).value, now); }
    case Bundle(ca, server, _, _, done) =>
      if Perform(s, call).1 == Activated {
        SwitchKeepsSound(s.certs, Find(s.certs, ca).value, done);
        SwitchKeepsSound(SwitchTo(s.certs, Find(s.certs, ca).value, done), Find(s.certs, server).value, done);
      }
  }

  /** In every reachable inventory; so the answer NoPrivateKey never occurs. */
  lemma {:induction false} InventoryIsSound(calls: seq<Call>)
    ensures Sound(After(calls).certs)
  {
    if calls != [] {
      InventoryIsSound(calls[..|calls| - 1]);
      RunKeeps(calls[..|calls| - 1]);
      CallKeepsSound(After(calls[..|calls| - 1]), calls[|calls| - 1]);
    }
  }

  // ---------------------------------------------------------------- the inventory and the helper

  function LiveId(live: Live, ty: CertType): Option<CertId> {
    if ty == CA then live.ca else live.server
  }

  /** The certificate of this kind that the helper puts in place in a call that fails all the same. */
  function Unanswered(s: State, call: Call, ty: CertType): Option<CertId> {
    match call
    case Activate(id, helper, now) =>
      var k := Find(s.certs, id);
      if k == None || s.certs[k.value].notAfter < now then None
      else
        var cert := s.certs[k.value];
        if Runs(cert, helper) == LeftInPlace && (ty == CA <==> cert.ty == CA) then Some(id) else None
    case Bundle(ca, server, helper, now, _) =>
      if BundleCheck(s.certs, ca, server, now) != Activated then None
      else if ty == CA then if helper in {HalfDone, LeftInPlace} then Some(ca) else None
      else if helper == LeftInPlace then Some(server) else None
    case _ => None
  }

  /** The last call that put a certificate of this kind in place was answered, or named the one active anyway. */
  predicate Followed(calls: seq<Call>, ty: CertType) {
    calls == [] ||
    (var init, last := calls[..|calls| - 1], calls[|calls| - 1];
     if ty in Switches(After(init), last) then true
     else if Unanswered(After(init), last, ty).Some?
       then ActiveId(After(init).certs, ty) == Unanswered(After(init), last, ty)
     else Followed(init, ty))
  }

  /** A CLIENT certificate has no staged key, so the helper always refuses it. */
  lemma ClientIsRefused(s: State, call: Call)
    requires Sound(s.certs)
    ensures CLIENT !in Switches(s, call)
  {
  }

  /** No run ever activates a CLIENT certificate, although activate_certificate offers it. */
  lemma {:induction false} ClientIsNeverActive(calls: seq<Call>)
    ensures !ActivatedIn(calls, CLIENT)
    ensures forall k: nat :: !ActiveAt(After(calls).certs, k, CLIENT)
  {
    if calls != [] {
      var init, last := calls[..|calls| - 1], calls[|calls| - 1];
      ClientIsNeverActive(init);
      InventoryIsSound(init);
      ClientIsRefused(After(init), last);
    }
    ExactlyOneForever(calls, CLIENT);
  }

  lemma LiveMoves(s: State, call: Call, ty: CertType)
    requires Sound(s.certs) && ty != CLIENT
    ensures LiveId(Perform(s, call).0.live, ty) ==
            if ty in Switches(s, call)
            then (if call.Activate? then Some(call.id)
              else if call.Bundle? then Some(if ty == CA then call.ca else call.server) else None)
            else if Unanswered(s, call, ty).Some? then Unanswered(s, call, ty)
            else LiveId(s.live, ty)
  {
  }

  /**
   * For CA and SERVER: the active row is the certificate in place exactly when the last call that put one in
   * place was answered with success, or named the certificate that was active anyway.
   */
  lemma {:induction false} ActiveIsLiveIff(calls: seq<Call>, ty: CertType)
    requires ty != CLIENT
    ensures ActiveId(After(calls).certs, ty) == LiveId(After(calls).live, ty) <==> Followed(calls, ty)
  {
    if calls != [] {
      var init, last := calls[..|calls| - 1], calls[|calls| - 1];
      ActiveIsLiveIff(init, ty);
      RunKeeps(init);
      InventoryIsSound(init);
      ActiveMoves(After(init), last, ty);
      LiveMoves(After(init), last, ty);
    }
  }

  /** The helper answers in time, and leaves nothing in place when it fails. */
  predicate Answers(call: Call) {
    (call.Activate? || call.Bundle?) ==> call.helper in {Ok, Failed}
  }

  lemma {:induction false} AnsweredIsFollowed(calls: seq<Call>, ty: CertType)
    requires forall i :: 0 <= i < |calls| ==> Answers(calls[i])
    ensures Followed(calls, ty)
  {
    if calls != [] {
      AnsweredIsFollowed(calls[..|calls| - 1], ty);
    }
  }

  /** With such a helper, the active CA and SERVER rows are always the certificates in place. */
  lemma ActiveIsLive(calls: seq<Call>, ty: CertType)
    requires ty != CLIENT && forall i :: 0 <= i < |calls| ==> Answers(calls[i])
    ensures ActiveId(After(calls).certs, ty) == LiveId(After(calls).live, ty)
  {
    AnsweredIsFollowed(calls, ty);
    ActiveIsLiveIff(calls, ty);
  }

  lemma AfterMore(calls: seq<Call>, call: Call)
    ensures After(calls + [call]) == Perform(After(calls), call).0
  {
    assert (calls + [call])[..|calls|] == calls;
  }

  const OLD_CA := Cert(CertId("a"), CA, "a", false, 9, false, None)
  const IN_USE := OLD_CA.(isActive := true, activatedAt := Some(1))
  const NEW_CA := Cert(CertId("bb"), CA, "bb", false, 9, false, None)
  const SITE := Cert(CertId("ccc"), SERVER, "ccc", true, 9, false, None)

  /** A CA is uploaded and activated; another CA and a server certificate are uploaded. */
  const SETUP: seq<Call> := [
    Upload(OLD_CA.id, CA, true, "a", NoKey, false, 9),
    Activate(OLD_CA.id, Ok, 1),
    Upload(NEW_CA.id, CA, true, "bb", NoKey, false, 9),
    Upload(SITE.id, SERVER, false, "ccc", PrivateKey, true, 9)]

  lemma FirstUpload()
    ensures Perform(State([], Live(None, None)), SETUP[0]).0 == State([OLD_CA], Live(None, None))
  {
  }

  lemma FirstActivation()
    ensures Perform(State([OLD_CA], Live(None, None)), SETUP[1]).0 == State([IN_USE], Live(Some(OLD_CA.id), None))
  {
    var certs := [OLD_CA];
    assert Find(certs, OLD_CA.id) == Some(0);
    assert GetActive(certs, CA) == None by {
      assert certs[..0] == [];
      assert GetActive(certs[..0], CA) == None;
    }
    assert SwitchTo(certs, 0, 1) == [IN_USE];
  }

  lemma SecondUpload()
    ensures Perform(State([IN_USE], Live(Some(OLD_CA.id), None)), SETUP[2]).0
            == State([IN_USE, NEW_CA], Live(Some(OLD_CA.id), None))
  {
    assert [IN_USE][..0] == [];
    assert Find([IN_USE], NEW_CA.id) == None;
  }

  lemma ThirdUpload()
    ensures Perform(State([IN_USE, NEW_CA], Live(Some(OLD_CA.id), None)), SETUP[3]).0 ==
            State([IN_USE, NEW_CA, SITE], Live(Some(OLD_CA.id), None))
  {
    assert [IN_USE, NEW_CA][..1] == [IN_USE] && [IN_USE][..0] == [];
    assert Find([IN_USE], SITE.id) == None && Find([IN_USE, NEW_CA], SITE.id) == None;
  }

  lemma SetupUploads()
    ensures After(SETUP) == State([IN_USE, NEW_CA, SITE], Live(Some(OLD_CA.id), None))
  {
    AfterNext(SETUP, 0);
    AfterNext(SETUP, 1);
    AfterNext(SETUP, 2);
    AfterNext(SETUP, 3);
    FirstUpload();
    FirstActivation();
    SecondUpload();
    ThirdUpload();
    assert SETUP[..0] == [] && SETUP[..4] == SETUP;
  }

  /** A bundle of another CA that stops half way leaves the old CA active and the other one in place. */
  lemma HalfBundleParts()
    ensures var s := After(SETUP + [Bundle(NEW_CA.id, SITE.id, HalfDone, 2, 2)]);
            ActiveId(s.certs, CA) == Some(OLD_CA.id) && s.live.ca == Some(NEW_CA.id)
  {
    var certs := [IN_USE, NEW_CA, SITE];
    SetupUploads();
    AfterMore(SETUP, Bundle(NEW_CA.id, SITE.id, HalfDone, 2, 2));
    assert certs[..2] == [IN_USE, NEW_CA];
    assert Find(certs, SITE.id) == Some(2) && Find(certs, NEW_CA.id) == Some(1);
    RunKeeps(SETUP);
    ActiveIdIs(certs, CA, 0);
  }

  /**
   * A helper that applies too late, or cannot roll back, leaves a server certificate in place that the inventory
   * does not call active.
   */
  lemma FailedCallParts()
    ensures var s := After(SETUP + [Activate(SITE.id, LeftInPlace, 2)]);
            ActiveId(s.certs, SERVER) == None && s.live.server == Some(SITE.id)
  {
    SetupUploads();
    AfterMore(SETUP, Activate(SITE.id, LeftInPlace, 2));
  }

  // ---------------------------------------------------------------- what an active certificate has gone through

  /** This call activated `cert`, which had not expired and, as a SERVER, has its private key. */
  predicate Activates(s: State, call: Call, cert: Cert) {
    && Perform(s, call).1 == Activated && cert.ty in Switches(s, call)
    && match call
       case Activate(id, _, now) => cert.id == id && now <= cert.notAfter && (cert.ty == SERVER ==> cert.hasKey)
       case Bundle(ca, server, _, now, _) =>
         cert.id == (if cert.ty == CA then ca else server) && now <= cert.notAfter
           && (cert.ty == SERVER ==> cert.hasKey)
       case _ => false
  }

  ghost predicate WasActive(certs: seq<Cert>, cert: Cert) {
    exists i :: 0 <= i < |certs| && certs[i].isActive && Same(certs[i], cert)
  }

  lemma SwitchBefore(certs: seq<Cert>, k: nat, now: int, i: nat)
    requires Inv(certs) && k < |certs| && i < |certs| && SwitchTo(certs, k, now)[i].isActive
    ensures Same(certs[i], SwitchTo(certs, k, now)[i])
    ensures i == k || certs[i].isActive
  {
    SwitchMeaning(certs, k, now);
    assert ActiveAt(SwitchTo(certs, k, now), i, SwitchTo(certs, k, now)[i].ty);
  }

  lemma BundleBefore(s: State, call: Call, i: nat)
    requires Inv(s.certs) && call.Bundle? && Perform(s, call).1 == Activated
    requires i < |Perform(s, call).0.certs| && Perform(s, call).0.certs[i].isActive
    ensures Activates(s, call, Perform(s, call).0.certs[i]) || WasActive(s.certs, Perform(s, call).0.certs[i])
  {
    var k, m := Find(s.certs, call.ca).value, Find(s.certs, call.server).value;
    var certs := SwitchTo(s.certs, k, call.done);
    SwitchMeaning(s.certs, k, call.done);
    SwitchBefore(certs, m, call.done, i);
    assert Same(s.certs[i], certs[i]) && Same(s.certs[m], certs[m]);
    if i != m {
      SwitchBefore(s.certs, k, call.done, i);
    }
  }

  lemma ActiveBefore(s: State, call: Call, i: nat)
    requires Inv(s.certs) && i < |Perform(s, call).0.certs| && Perform(s, call).0.certs[i].isActive
    ensures Activates(s, call, Perform(s, call).0.certs[i]) || WasActive(s.certs, Perform(s, call).0.certs[i])
  {
    var certs := Perform(s, call).0.certs;
    match call
    case Upload(_, _, _, _, _, _, _) => assert Same(s.certs[i], certs[i]);
    case Delete(id) =>
      if Perform(s, call).1 == Deleted {
        var j := if i < Find(s.certs, id).value then i else i + 1;
        assert s.certs[j] == certs[i] && Same(s.certs[j], certs[i]);
      } else {
        assert Same(s.certs[i], certs[i]);
      }
    case Activate(id, _, now) =>
      if Perform(s, call).1 == Activated {
        SwitchBefore(s.certs, Find(s.certs, id).value, now, i);
      } else {
        assert Same(s.certs[i], certs[i]);
      }
    case Bundle(_, _, _, _, _) =>
      if Perform(s, call).1 == Activated {
        BundleBefore(s, call, i);
      } else {
        assert Same(s.certs[i], certs[i]);
      }
  }

  lemma ActivatesSame(s: State, call: Call, cert: Cert, cert': Cert)
    requires Activates(s, call, cert) && Same(cert, cert')
    ensures Activates(s, call, cert')
  {
  }

  /**
   * Every active certificate was activated by an earlier call, at a time when it had not expired, a SERVER with its
   * key.
   */
  lemma {:induction false} ActiveHasOrigin(calls: seq<Call>, n: nat, i: nat)
    requires n <= |calls| && i < |After(calls[..n]).certs| && After(calls[..n]).certs[i].isActive
    ensures exists j :: 0 <= j < n && Activates(After(calls[..j]), calls[j], After(calls[..n]).certs[i])
  {
    assert n > 0;
    var cert := After(calls[..n]).certs[i];
    var before := After(calls[..n - 1]);
    AfterNext(calls, n - 1);
    RunKeeps(calls[..n - 1]);
    ActiveBefore(before, calls[n - 1], i);
    if !Activates(before, calls[n - 1], cert) {
      var k :| 0 <= k < |before.certs| && before.certs[k].isActive && Same(before.certs[k], cert);
      ActiveHasOrigin(calls, n - 1, k);
      var j :| 0 <= j < n - 1 && Activates(After(calls[..j]), calls[j], before.certs[k]);
      ActivatesSame(After(calls[..j]), calls[j], before.certs[k], cert);
    }
  }
}
