/** The request table changed in place by the three calls of password_reset_service.py. */
module ResetService {
  import opened Common
  import opened Redis
  import opened ResetModel

  class ResetStore {
    var requests: seq<ResetModel.Request>
    ghost var compared: seq<Comparison>
    ghost var writes: seq<nat>

    constructor ()
      ensures Now() == State([], [], [])
    {
      requests, compared, writes := [], [], [];
    }

    ghost function Now(): State
      reads this
    {
      State(requests, compared, writes)
    }

    method RequestReset(user: Option<UserId>, contactOk: bool, otp: string, now: int) returns (answer: Answer)
      modifies this`requests
      ensures (Now(), answer) == AskFor(old(Now()), user, contactOk, otp, now)
    {
      if user == None || !contactOk {
        return Accepted(None);
      }
      if AskedSince(requests, user.value, now - THROTTLE_WINDOW) {
        return RateLimited;
      }
      requests := requests + [NewRequest(user.value, otp, now)];
      answer := Accepted(Some(|requests| - 1));
    }

    method VerifyOtp(uid: UserId, otp: string, token: string, now: int) returns (answer: Answer)
      modifies this
      ensures (Now(), answer) == ResetModel.VerifyOtp(old(Now()), uid, otp, token, now)
    {
      var latest := Latest(requests, uid);
      if latest == None {
        return RequestNotFound;
      }
      var k := latest.value;
      var request := requests[k];
      if request.status == Verified {
        return AlreadyVerified;
      }
      if request.expiresAt < now {
        requests := requests[k := request.(status := Expired)];
        return OtpExpired;
      }
      if request.attempts >= request.maxAttempts {
        requests := requests[k := request.(status := Locked)];
        return OtpLocked;
      }
      request := request.(attempts := request.attempts + 1);
      compared := compared + [Comparison(k, uid, now)];
      if request.otpHash != Digest(otp) {
        requests := requests[k := request];
        return OtpInvalid(request.maxAttempts - request.attempts);
      }
      request := request.(status := Verified, consumedAt := Some(now), tokenHash := Some(Digest(token)));
      requests := requests[k := request.(tokenExpiresAt := Some(now + COMPLETION_TOKEN_TTL))];
      answer := OtpVerified;
    }

    method CompleteReset(token: string, policyOk: bool, ldap: LdapWrite, now: int) returns (answer: Answer)
      modifies this
      ensures (Now(), answer) == ResetModel.CompleteReset(old(Now()), token, policyOk, ldap, now)
    {
      var found := WithToken(requests, Digest(token));
      if found == None {
        return TokenInvalid;
      }
      var k := found.value;
      var request := requests[k];
      if request.tokenExpiresAt.Some? && request.tokenExpiresAt.value < now {
        requests := requests[k := request.(status := Expired)];
        return TokenExpired;
      }
      if !policyOk {
        return PolicyRejected;
      }
      if ldap != Written {
        return LdapFailed;
      }
      writes := writes + [k];
      requests := requests[k := request.(status := Completed, completedAt := Some(now))];
      answer := PasswordSet;
    }
  }
}
