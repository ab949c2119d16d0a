/** The inventory table changed in place. */
module ShieldService {
  import opened Common
  import opened ShieldModel

  class Inventory {
    var certs: seq<Cert>
    ghost var live: Live

    constructor ()
      ensures Now() == State([], Live(None, None))
    {
      certs, live := [], Live(None, None);
    }

    ghost function Now(): State
      reads this
    {
      State(certs, live)
    }

    method UploadCertificate(id: CertId, ty: CertType, isCa: bool, fingerprint: string, key: KeySource,
        keyMatches: bool, notAfter: int)
      returns (answer: Answer)
      modifies this`certs
      ensures (Now(), answer) == Uploading(old(Now()), id, ty, isCa, fingerprint, key, keyMatches, notAfter)
    {
      if ty == CA && !isCa {
        return NotACa;
      }
      if FingerprintKnown(certs, fingerprint) {
        return FingerprintTaken;
      }
      var hasKey := false;
      if ty == SERVER {
        match key {
          case NoKey =>
            return KeyMissing;
          case Csr(known, keyOnDisk) =>
            if !known {
              return CsrNotFound;
            }
            if !keyOnDisk {
              return KeyMissing;
            }
          case PrivateKey =>
        }
        if !keyMatches {
          return KeyMismatch;
        }
        hasKey := true;
      }
      certs := certs + [Cert(id, ty, fingerprint, hasKey, notAfter, false, None)];
      answer := Uploaded;
    }

    method DeleteCertificate(id: CertId) returns (answer: Answer)
      modifies this`certs
      ensures (Now(), answer) == Deleting(old(Now()), id)
    {
      var k := Find(certs, id);
      if k == None {
        return NotFound;
      }
      if certs[k.value].isActive {
        return ActiveIsKept;
      }
      certs := certs[..k.value] + certs[k.value + 1..];
      answer := Deleted;
    }

    /** Down with the old active row of the type, up with row k. */
    method Switch(k: nat, now: int)
      requires k < |certs|
      modifies this`certs
      ensures certs == SwitchTo(old(certs), k, now)
    {
      var previous := GetActive(certs, certs[k].ty);
      if previous.Some? && certs[previous.value].id != certs[k].id {
        certs := certs[previous.value := certs[previous.value].(isActive := false)];
      }
      certs := certs[k := certs[k].(isActive := true, activatedAt := Some(now))];
    }

    method ActivateCertificate(id: CertId, helper: Helper, now: int) returns (answer: Answer)
      modifies this
      ensures (Now(), answer) == Activating(old(Now()), id, helper, now)
    {
      var k := Find(certs, id);
      if k == None {
        return NotFound;
      }
      var cert := certs[k.value];
      if cert.notAfter < now {
        return CertExpired;
      }
      if cert.ty == SERVER && !cert.hasKey {
        return NoPrivateKey;
      }
      var outcome := Runs(cert, helper);
      if outcome != Ok {
        live := if outcome == LeftInPlace then Applied(live, cert) else live;
        return HelperFailed;
      }
      live := Applied(live, cert);
      Switch(k.value, now);
      answer := Activated;
    }

    method ActivateBundle(ca: CertId, server: CertId, helper: Helper, now: int, done: int) returns (answer: Answer)
      modifies this
      ensures (Now(), answer) == Bundling(old(Now()), ca, server, helper, now, done)
    {
      var k, m := Find(certs, ca), Find(certs, server);
      if k == None || m == None {
        return NotFound;
      }
      if certs[k.value].ty != CA || certs[m.value].ty != SERVER {
        return WrongType;
      }
      if !certs[m.value].hasKey {
        return NoPrivateKey;
      }
      if certs[k.value].notAfter < now || certs[m.value].notAfter < now {
        return CertExpired;
      }
      if helper != Ok {
        match helper {
          case HalfDone => live := live.(ca := Some(ca));
          case LeftInPlace => live := Live(Some(ca), Some(server));
          case _ =>
        }
        return HelperFailed;
      }
      live := Live(Some(ca), Some(server));
      Switch(k.value, done);
      Switch(m.value, done);
      answer := Activated;
    }
  }
}
