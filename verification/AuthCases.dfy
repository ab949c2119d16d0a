/** The login operations case by case, on the columns of the account and the Redis keys. */
module AuthCases {
  import opened Common
  import opened Redis
  import opened AuthModel
  import opened AuthProtocol

  /** A key that is set can be read for its time to live to the microsecond, and no other key changes. */
  lemma KeptForTtl<K(!new), V>(cache: Cache<K, V>, key: K, ttl: nat, value: V, now: int, later: int)
    ensures var cache' := SetEx(cache, key, ttl, value, now);
            && Get(cache', key, later) == (if later < now + ttl * 1_000_000 then Some(value) else None)
            && forall other :: other != key ==> Get(cache', other, later) == Get(cache, other, later)
  {
  }

  /** No account but a's changes, and what only the login paths write stays. */
  ghost predicate OnlyAccount(s: State, s': State, a: AdminId) {
    && s'.challenges == s.challenges && s'.setupTokens == s.setupTokens && s'.usedCodes == s.usedCodes
    && s'.admins.Keys == s.admins.Keys
    && forall other :: other in s.admins && other != a ==> s'.admins[other] == s.admins[other]
  }

  /** One more failure: the fifth and each later one lock the account for 15 minutes. */
  predicate OneMoreFailure(before: Admin, after: Admin, now: int) {
    && after.profile == before.profile && after.lastLoginAt == before.lastLoginAt
    && after.failedCount == before.failedCount + 1
    && (before.failedCount >= 4 ==> after.lockedUntil == Some(now + 900_000_000))
    && (before.failedCount < 4 ==> after.lockedUntil == before.lockedUntil)
  }

  /** A completed login: the counter and the lock are cleared, and the instant is noted. */
  predicate CountedAsLogin(before: Admin, after: Admin, now: int) {
    && after.profile == before.profile && after.failedCount == 0 && after.lockedUntil == None
    && after.lastLoginAt == Some(now)
  }

  /** A login that gets nowhere: unknown, inactive and locked accounts, and wrong passwords. */
  lemma LoginRefusals(s: State, a: AdminId, attempt: Attempt, now: int, token: Token, maxAge: int)
    ensures var (s', answer) := Login(s, a, attempt, now, token, maxAge);
            && (a !in s.admins ==> answer == InvalidCredentials && s' == s)
            && (a in s.admins ==>
                var admin := s.admins[a];
                var locked := admin.lockedUntil.Some? && now < admin.lockedUntil.value;
                && (answer == UserInactive <==> !admin.profile.active)
                && (answer == UserLocked <==> admin.profile.active && locked)
                && (answer == InvalidCredentials <==>
                    admin.profile.active && !locked && !RightPassword(admin.profile, attempt))
                && (answer in {UserInactive, UserLocked} ==> s' == s)
                && (answer == InvalidCredentials ==>
                      OnlyAccount(s, s', a) && OneMoreFailure(admin, s'.admins[a], now)))
  {
  }

  /** What a right password of an active account that is not locked is answered. */
  lemma RightPasswordCases(s: State, a: AdminId, attempt: Attempt, now: int, token: Token, maxAge: int)
    requires a in s.admins && s.admins[a].profile.active && RightPassword(s.admins[a].profile, attempt)
    requires s.admins[a].lockedUntil == None || s.admins[a].lockedUntil.value <= now
    ensures var (s', answer) := Login(s, a, attempt, now, token, maxAge);
            var p := s.admins[a].profile;
            var hasMfa := p.mfaEnabled && p.secret != None;
            && (hasMfa ==>
                  && answer == MfaChallenge(token)
                  && s' == s.(challenges := s.challenges[token := Kept(a, now + 300_000_000)]))
            && (!hasMfa && NeedsMfa(p) ==>
                  && answer == MfaSetup(token)
                  && s' == s.(setupTokens := s.setupTokens[token := Kept(a, now + 600_000_000)]))
            && (!hasMfa && !NeedsMfa(p) ==>
                  && answer == (if Outdated(p, maxAge, now) then ChangePassword(a) else Tokens(a))
                  && OnlyAccount(s, s', a) && CountedAsLogin(s.admins[a], s'.admins[a], now))
  {
    OutdatedIff(s.admins[a].profile, maxAge, now);
  }

  /** The answer to a challenge, in the order of the checks; the challenge is gone after each of them but the first. */
  lemma ChallengeRefusals(codes: Codes, s: State, id: Token, code: string, now: int, maxAge: int)
    ensures var (s', answer) := Complete(codes, s, id, code, now, maxAge);
            var live := id in s.challenges && now < s.challenges[id].until;
            && (answer == MfaChallengeInvalid <==> !live)
            && (!live ==> s' == s)
            && (live ==>
                var a, gone := s.challenges[id].value, s.(challenges := s.challenges - {id});
                var known := a in s.admins && s.admins[a].profile.active;
                && (answer == UserNotFound <==> !known)
                && (answer == MfaNotConfigured <==> known && s.admins[a].profile.secret == None)
                && (known && s.admins[a].profile.secret.Some? ==>
                    var sealed := s.admins[a].profile.secret.value;
                    var used := (a, code) in s.usedCodes && now < s.usedCodes[(a, code)].until;
                    && (answer == MfaCodeReused <==> used)
                    && (answer == MfaCorrupt <==> !used && sealed == Unreadable))
                && (answer in {UserNotFound, MfaNotConfigured, MfaCodeReused, MfaCorrupt} ==> s' == gone))
  {
  }

  /**
   * On a live challenge of an active admin with a readable secret and a code that is not marked, the code decides: the
   * right ones complete the login and are marked for 65 seconds, all others are counted as failures.
   */
  lemma CodeDecides(codes: Codes, s: State, id: Token, code: string, now: int, maxAge: int, a: AdminId)
    requires id in s.challenges && now < s.challenges[id].until && s.challenges[id].value == a
    requires a in s.admins && s.admins[a].profile.active
    requires s.admins[a].profile.secret.Some? && s.admins[a].profile.secret.value.Readable?
    requires (a, code) !in s.usedCodes || s.usedCodes[(a, code)].until <= now
    ensures var (s', answer) := Complete(codes, s, id, code, now, maxAge);
            var p := s.admins[a].profile;
            && (RightCode(codes, p.secret.value.secret, code, now) <==> answer in {Tokens(a), ChangePassword(a)})
            && (!RightCode(codes, p.secret.value.secret, code, now) <==> answer == MfaInvalid)
            && (answer == ChangePassword(a) ==> Outdated(p, maxAge, now))
            && (answer == Tokens(a) ==> !Outdated(p, maxAge, now))
            && s'.challenges == s.challenges - {id} && s'.setupTokens == s.setupTokens
            && OnlyAccount(s, s'.(challenges := s.challenges, usedCodes := s.usedCodes), a)
            && (answer == MfaInvalid ==> OneMoreFailure(s.admins[a], s'.admins[a], now) && s'.usedCodes == s.usedCodes)
            && (answer != MfaInvalid ==>
                  && CountedAsLogin(s.admins[a], s'.admins[a], now)
                  && s'.usedCodes == s.usedCodes[(a, code) := Kept((), now + 65_000_000)])
  {
    VerifiedIff(codes, s.admins[a].profile.secret.value.secret, code, now);
    OutdatedIff(s.admins[a].profile, maxAge, now);
  }

  /** Enabling MFA: the refusals in their order, and the secret that the code has confirmed. */
  lemma EnableCases(codes: Codes, s: State, a: AdminId, pending: Option<Pending>, code: string, now: int)
    ensures var (s', answer) := Enable(codes, s, a, pending, code, now);
            var known := a in s.admins;
            var live := pending.Some? && pending.value.expiresAt >= now;
            && (answer == UserNotFound <==> !known)
            && (answer == MfaSetupNotFound <==> known && pending == None)
            && (answer == MfaSetupExpired <==> known && pending.Some? && pending.value.expiresAt < now)
            && (answer == MfaCorrupt <==> known && live && pending.value.secret == Unreadable)
            && (answer == MfaInvalid <==>
                && known && live && pending.value.secret.Readable?
                && !RightCode(codes, pending.value.secret.secret, code, now))
            && (answer == Quiet <==>
                && known && live && pending.value.secret.Readable?
                && RightCode(codes, pending.value.secret.secret, code, now))
            && (answer != Quiet ==> s' == s)
            && (answer == Quiet ==>
                  && OnlyAccount(s, s', a)
                  && s'.admins[a] == s.admins[a].(profile :=
                    s.admins[a].profile.(mfaEnabled := true, secret := Some(pending.value.secret))))
  {
    if pending.Some? && pending.value.secret.Readable? {
      VerifiedIff(codes, pending.value.secret.secret, code, now);
    }
  }

  /** Disabling MFA asks for a right code, unless there is nothing to disable. */
  lemma DisableCases(codes: Codes, s: State, a: AdminId, code: string, now: int)
    ensures a !in s.admins ==> Disable(codes, s, a, code, now) == (s, UserNotFound)
    ensures a in s.admins ==>
            var (s', answer) := Disable(codes, s, a, code, now);
            var p := s.admins[a].profile;
            var hasMfa := p.mfaEnabled && p.secret != None;
            && (answer == MfaCorrupt <==> hasMfa && p.secret.value == Unreadable)
            && (answer == MfaInvalid <==>
                hasMfa && p.secret.value.Readable? && !RightCode(codes, p.secret.value.secret, code, now))
            && (answer == Quiet <==>
                !hasMfa || (p.secret.value.Readable? && RightCode(codes, p.secret.value.secret, code, now)))
            && (answer != Quiet || !hasMfa ==> s' == s)
            && (answer == Quiet && hasMfa ==>
                  && OnlyAccount(s, s', a)
                  && s'.admins[a] == s.admins[a].(profile := p.(mfaEnabled := false, secret := None)))
  {
    if a in s.admins && s.admins[a].profile.secret.Some? && s.admins[a].profile.secret.value.Readable? {
      var p := s.admins[a].profile;
      VerifiedIff(codes, p.secret.value.secret, code, now);
    }
  }

  /** A password set by another admin: only on the master, on a known account, and within the policy. */
  lemma ResetPasswordCases(
      s: State, a: AdminId, isMaster: bool, password: string, policyOk: bool, mustChange: bool, now: int)
    ensures var (s', answer) := ResetPassword(s, a, isMaster, password, policyOk, mustChange, now);
            && (answer == ReadOnly <==> !isMaster)
            && (answer == UserNotFound <==> isMaster && a !in s.admins)
            && (answer == PolicyRejected <==> isMaster && a in s.admins && !policyOk)
            && (answer == Quiet <==> isMaster && a in s.admins && policyOk)
            && (answer != Quiet ==> s' == s)
            && (answer == Quiet ==>
                  && OnlyAccount(s, s', a)
                  && var p, admin' := s.admins[a].profile, s'.admins[a];
                  && admin'.failedCount == 0 && admin'.lockedUntil == None
                  && admin'.lastLoginAt == s.admins[a].lastLoginAt
                  && admin'.profile ==
                     p.(password := password, passwordChangedAt := Some(now), mustChange := mustChange))
  {
  }
}
