/** The admin table and the Redis keys of the login paths, changed in place. */
module AuthService {
  import opened Common
  import opened Redis
  import opened AuthModel

  class AuthStore {
    var admins: map<AdminId, Admin>
    var challenges: Cache<Token, AdminId>
    var setupTokens: Cache<Token, AdminId>
    var usedCodes: Cache<(AdminId, string), ()>

    constructor ()
      ensures Now() == State(map[], map[], map[], map[])
    {
      admins, challenges, setupTokens, usedCodes := map[], map[], map[], map[];
    }

    function Now(): State
      reads this
    {
      State(admins, challenges, setupTokens, usedCodes)
    }

    /** The failure counter goes up; from the fifth failure on each one locks the account for 15 minutes. */
    method RegisterFailedLogin(a: AdminId, now: int) returns (locked: bool)
      requires a in admins
      modifies this`admins
      ensures Now() == WithAdmin(old(Now()), a, AfterFailure(old(admins)[a], now))
      ensures locked == IsLocked(admins[a], now)
    {
      var admin := admins[a];
      admin := admin.(failedCount := admin.failedCount + 1);
      if admin.failedCount >= LOCKOUT_THRESHOLD {
        admin := admin.(lockedUntil := Some(now + LOCKOUT_DURATION));
      }
      admins := admins[a := admin];
      locked := IsLocked(admin, now);
    }

    method RegisterSuccessfulLogin(a: AdminId, now: int)
      requires a in admins
      modifies this`admins
      ensures Now() == WithAdmin(old(Now()), a, Admin(old(admins)[a].profile, 0, None, Some(now)))
    {
      admins := admins[a := admins[a].(failedCount := 0, lockedUntil := None, lastLoginAt := Some(now))];
    }

    method FinalizeLogin(a: AdminId, now: int, maxAge: int) returns (answer: Answer)
      requires a in admins
      modifies this`admins
      ensures (Now(), answer) == Finalize(old(Now()), a, now, maxAge)
    {
      RegisterSuccessfulLogin(a, now);
      if admins[a].profile.mustChange || PasswordExpired(admins[a].profile, maxAge, now) {
        return ChangePassword(a);
      }
      answer := Tokens(a);
    }

    method TryLogin(a: AdminId, attempt: Attempt, now: int, token: Token, maxAge: int) returns (answer: Answer)
      modifies this
      ensures (Now(), answer) == Login(old(Now()), a, attempt, now, token, maxAge)
    {
      if a !in admins {
        return InvalidCredentials;
      }
      var p := admins[a].profile;
      if !p.active {
        return UserInactive;
      }
      if IsLocked(admins[a], now) {
        return UserLocked;
      }
      if !PasswordOk(p, attempt) {
        var _ := RegisterFailedLogin(a, now);
        return InvalidCredentials;
      }
      var active := MfaActive(p);
      if RequiresMfa(p) && !active {
        setupTokens := SetEx(setupTokens, token, MFA_SETUP_TOKEN_TTL, a, now);
        return MfaSetup(token);
      }
      if active {
        challenges := SetEx(challenges, token, CHALLENGE_TTL, a, now);
        return MfaChallenge(token);
      }
      answer := FinalizeLogin(a, now, maxAge);
    }

    /** GET, then DEL: the challenge is gone after the first read. */
    method ConsumeMfaChallenge(id: Token, now: int) returns (a: Option<AdminId>)
      modifies this`challenges
      ensures a == Get(old(challenges), id, now)
      ensures challenges == if a.Some? then old(challenges) - {id} else old(challenges)
    {
      a := Get(challenges, id, now);
      if a.Some? {
        challenges := challenges - {id};
      }
    }

    method CompleteMfaChallenge(codes: Codes, id: Token, code: string, now: int, maxAge: int) returns (answer: Answer)
      modifies this
      ensures (Now(), answer) == Complete(codes, old(Now()), id, code, now, maxAge)
    {
      var holder := ConsumeMfaChallenge(id, now);
      if holder == None {
        return MfaChallengeInvalid;
      }
      var a := holder.value;
      if a !in admins || !admins[a].profile.active {
        return UserNotFound;
      }
      var sealed := admins[a].profile.secret;
      if sealed == None {
        return MfaNotConfigured;
      }
      if Get(usedCodes, (a, code), now).Some? {
        return MfaCodeReused;
      }
      if sealed.value == Unreadable {
        return MfaCorrupt;
      }
      if !VerifyTotp(codes, sealed.value.secret, code, now) {
        var _ := RegisterFailedLogin(a, now);
        return MfaInvalid;
      }
      usedCodes := SetEx(usedCodes, (a, code), TOTP_INTERVAL * (TOTP_WINDOW + 1) + 5, (), now);
      answer := FinalizeLogin(a, now, maxAge);
    }

    method VerifyAndEnableMfa(codes: Codes, a: AdminId, pending: Option<Pending>, code: string, now: int)
        returns (answer: Answer)
      modifies this`admins
      ensures (Now(), answer) == Enable(codes, old(Now()), a, pending, code, now)
    {
      if a !in admins {
        return UserNotFound;
      }
      if pending == None {
        return MfaSetupNotFound;
      }
      if pending.value.expiresAt < now {
        return MfaSetupExpired;
      }
      var sealed := pending.value.secret;
      if sealed == Unreadable {
        return MfaCorrupt;
      }
      if !VerifyTotp(codes, sealed.secret, code, now) {
        return MfaInvalid;
      }
      var p := admins[a].profile.(secret := Some(sealed), mfaEnabled := true);
      admins := admins[a := admins[a].(profile := p)];
      answer := Quiet;
    }

    method DisableMfa(codes: Codes, a: AdminId, code: string, now: int) returns (answer: Answer)
      modifies this`admins
      ensures (Now(), answer) == Disable(codes, old(Now()), a, code, now)
    {
      if a !in admins {
        return UserNotFound;
      }
      var p := admins[a].profile;
      if !MfaActive(p) {
        return Quiet;
      }
      if p.secret.value == Unreadable {
        return MfaCorrupt;
      }
      if !VerifyTotp(codes, p.secret.value.secret, code, now) {
        return MfaInvalid;
      }
      p := p.(mfaEnabled := false, secret := None);
      admins := admins[a := admins[a].(profile := p)];
      answer := Quiet;
    }

    method AdminResetPassword(a: AdminId, isMaster: bool, password: string, policyOk: bool, mustChange: bool,
        now: int) returns (answer: Answer)
      modifies this`admins
      ensures (Now(), answer) == ResetPassword(old(Now()), a, isMaster, password, policyOk, mustChange, now)
    {
      if !isMaster {
        return ReadOnly;
      }
      if a !in admins {
        return UserNotFound;
      }
      if !policyOk {
        return PolicyRejected;
      }
      var admin := admins[a];
      admin := admin.(profile := admin.profile.(password := password, passwordChangedAt := Some(now),
        mustChange := mustChange));
      admins := admins[a := admin.(failedCount := 0, lockedUntil := None)];
      answer := Quiet;
    }
  }
}
