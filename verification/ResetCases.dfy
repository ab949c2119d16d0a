/** The three calls of a password reset case by case, on the columns of the request. */
module ResetCases {
  import opened Common
  import opened ResetModel

  /** Row k is the newest open request of `uid`; of several issued at one instant it is the last one. */
  predicate IsNewestOpen(requests: seq<Request>, uid: UserId, k: nat) {
    && k < |requests| && requests[k].uid == uid && (requests[k].status == Pending || requests[k].status == Verified)
    && forall i :: 0 <= i < |requests| && i != k && requests[i].uid == uid ==>
         || (requests[i].status != Pending && requests[i].status != Verified)
         || requests[i].issuedAt < requests[k].issuedAt
         || (requests[i].issuedAt == requests[k].issuedAt && i < k)
  }

  predicate HasOpen(requests: seq<Request>, uid: UserId) {
    exists i :: 0 <= i < |requests| && requests[i].uid == uid
      && (requests[i].status == Pending || requests[i].status == Verified)
  }

  lemma {:induction false} LatestMeaning(requests: seq<Request>, uid: UserId)
    ensures Latest(requests, uid).Some? <==> HasOpen(requests, uid)
    ensures Latest(requests, uid).Some? ==> IsNewestOpen(requests, uid, Latest(requests, uid).value)
  {
    if requests != [] {
      var n := |requests| - 1;
      var init := requests[..n];
      LatestMeaning(init, uid);
      assert forall i :: 0 <= i < n ==> init[i] == requests[i];
      if HasOpen(init, uid) {
        assert HasOpen(requests, uid);
      }
    }
  }

  lemma LatestIs(requests: seq<Request>, uid: UserId, k: nat)
    requires IsNewestOpen(requests, uid, k)
    ensures Latest(requests, uid) == Some(k)
  {
    assert HasOpen(requests, uid);
    LatestMeaning(requests, uid);
  }

  /** A first call: refused within 60 seconds of the user's last request, otherwise one request more. */
  lemma AskCases(s: State, user: Option<UserId>, contactOk: bool, otp: string, now: int)
    ensures var (s', answer) := AskFor(s, user, contactOk, otp, now);
            && s'.compared == s.compared && s'.writes == s.writes
            && (user == None || !contactOk <==> answer == Accepted(None))
            && (user.Some? && contactOk ==>
                (answer == RateLimited <==>
                 exists i :: 0 <= i < |s.requests| && s.requests[i].uid == user.value
                   && s.requests[i].issuedAt + 60_000_000 >= now))
            && (answer == Accepted(None) || answer == RateLimited ==> s' == s)
            && (answer != Accepted(None) && answer != RateLimited ==>
                && answer == Accepted(Some(|s.requests|))
                && |s'.requests| == |s.requests| + 1 && s'.requests[..|s.requests|] == s.requests
                && var r := s'.requests[|s.requests|];
                && r.uid == user.value && r.otpHash == Digest(otp)
                && r.issuedAt == now && r.expiresAt == now + 300_000_000
                && r.attempts == 0 && r.maxAttempts == 5 && r.status == Pending
                && r.consumedAt == None && r.tokenHash == None && r.tokenExpiresAt == None && r.completedAt == None)
  {
  }

  /** Only request k has changed. */
  ghost predicate OnlyRow(s: State, s': State, k: nat) {
    && |s'.requests| == |s.requests|
    && forall i :: 0 <= i < |s.requests| && i != k ==> s'.requests[i] == s.requests[i]
  }

  /** A typed code, where the user has an open request: the checks in their order, and what each writes. */
  lemma VerifyCases(s: State, uid: UserId, otp: string, token: string, now: int, k: nat)
    requires IsNewestOpen(s.requests, uid, k)
    ensures var (s', answer) := VerifyOtp(s, uid, otp, token, now);
            var r := s.requests[k];
            var late, spent := r.expiresAt < now, r.attempts >= r.maxAttempts;
            && OnlyRow(s, s', k) && s'.writes == s.writes
            && var r' := s'.requests[k];
            && (answer == AlreadyVerified <==> r.status == Verified)
            && (answer == OtpExpired <==> r.status == Pending && late)
            && (answer == OtpLocked <==> r.status == Pending && !late && spent)
            && (answer == OtpVerified <==> r.status == Pending && !late && !spent && r.otpHash == Digest(otp))
            && (answer.OtpInvalid? <==> r.status == Pending && !late && !spent && r.otpHash != Digest(otp))
            && (answer == AlreadyVerified ==> r' == r)
            && (answer == OtpExpired ==> r' == r.(status := Expired))
            && (answer == OtpLocked ==> r' == r.(status := Locked))
            && (answer.OtpInvalid? ==>
                  r' == r.(attempts := r.attempts + 1) && answer.remaining == r.maxAttempts - r.attempts - 1)
            && (answer == OtpVerified ==>
                  r' == r.(attempts := r.attempts + 1, status := Verified, consumedAt := Some(now),
                           tokenHash := Some(Digest(token)), tokenExpiresAt := Some(now + 600_000_000)))
            && s'.compared ==
               s.compared + if answer == OtpVerified || answer.OtpInvalid? then [Comparison(k, uid, now)] else []
  {
    LatestIs(s.requests, uid, k);
  }

  lemma NothingToVerify(s: State, uid: UserId, otp: string, token: string, now: int)
    ensures VerifyOtp(s, uid, otp, token, now).1 == RequestNotFound <==> !HasOpen(s.requests, uid)
    ensures !HasOpen(s.requests, uid) ==> VerifyOtp(s, uid, otp, token, now).0 == s
  {
    LatestMeaning(s.requests, uid);
  }

  /** Row k is the first verified request whose completion token this is. */
  predicate IsHolder(requests: seq<Request>, token: string, k: nat) {
    && k < |requests| && requests[k].status == Verified && requests[k].tokenHash == Some(Digest(token))
    && forall i :: 0 <= i < k ==> requests[i].status != Verified || requests[i].tokenHash != Some(Digest(token))
  }

  lemma {:induction false} HolderIsFound(requests: seq<Request>, token: string, k: nat)
    requires IsHolder(requests, token, k)
    ensures WithToken(requests, Digest(token)) == Some(k)
  {
    var n := |requests| - 1;
    if k < n {
      assert forall i :: 0 <= i < n ==> requests[..n][i] == requests[i];
      HolderIsFound(requests[..n], token, k);
    }
  }

  /** A new password with the completion token of request k: the checks in their order, and what each writes. */
  lemma FinishCases(s: State, token: string, policyOk: bool, ldap: LdapWrite, now: int, k: nat)
    requires IsHolder(s.requests, token, k)
    ensures var (s', answer) := CompleteReset(s, token, policyOk, ldap, now);
            var r := s.requests[k];
            var late := r.tokenExpiresAt.Some? && r.tokenExpiresAt.value < now;
            && OnlyRow(s, s', k) && s'.compared == s.compared
            && (answer == TokenExpired <==> late)
            && (answer == PolicyRejected <==> !late && !policyOk)
            && (answer == LdapFailed <==> !late && policyOk && ldap in {Refused, Raised})
            && (answer == PasswordSet <==> !late && policyOk && ldap == Written)
            && (late ==> s'.requests[k] == r.(status := Expired))
            && (answer == PasswordSet ==> s'.requests[k] == r.(status := Completed, completedAt := Some(now)))
            && (answer in {PolicyRejected, LdapFailed} ==> s'.requests[k] == r)
            && s'.writes == s.writes + if answer == PasswordSet then [k] else []
  {
    HolderIsFound(s.requests, token, k);
  }

  lemma UnknownToken(s: State, token: string, policyOk: bool, ldap: LdapWrite, now: int)
    ensures CompleteReset(s, token, policyOk, ldap, now).1 == TokenInvalid <==>
            forall i :: 0 <= i < |s.requests| ==>
              s.requests[i].status != Verified || s.requests[i].tokenHash != Some(Digest(token))
    ensures CompleteReset(s, token, policyOk, ldap, now).1 == TokenInvalid ==>
              CompleteReset(s, token, policyOk, ldap, now).0 == s
  {
  }
}
