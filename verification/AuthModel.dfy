/** Admin accounts and what each login operation does to them (auth_service.py, admin_service.py, mfa.py). */
module AuthModel {
  import opened Common
  import opened Redis

  const LOCKOUT_THRESHOLD := 5
  const LOCKOUT_DURATION := 15 * MINUTE
  const CHALLENGE_TTL := 300
  const MFA_SETUP_TOKEN_TTL := 600
  const TOTP_DIGITS := 6
  const TOTP_INTERVAL := 30
  const TOTP_WINDOW := 1

  datatype AdminId = AdminId(username: string)
  datatype Token = Token(text: string)
  datatype Role = Role(name: string, requiresMfa: bool)

  /** The encrypted TOTP secret: `decrypt` raises when the key does not fit. */
  datatype Sealed = Readable(secret: string) | Unreadable

  /** The fields of an account that the login paths only read. */
  datatype Profile = Profile(
    active: bool,
    password: string,
    ldapAuth: bool,
    ldapDn: Option<string>,
    mfaEnabled: bool,
    secret: Option<Sealed>,
    roles: seq<Role>,
    mustChange: bool,
    passwordChangedAt: Option<int>,
    createdAt: Option<int>)

  datatype Admin = Admin(profile: Profile, failedCount: nat, lockedUntil: Option<int>, lastLoginAt: Option<int>)

  /**
   * `hotp(secret, step)` is the code of one time step, `isDigit` is what the string test takes for a digit, and
   * `fold` is how the TOTP library normalises a typed code before it compares. Nothing is assumed about them.
   */
  datatype Codes = Codes(hotp: (string, int) -> string, isDigit: char -> bool, fold: string -> string)

  /** A password as typed, and what an LDAP bind with it would answer. */
  datatype Attempt = Attempt(password: string, bindAccepted: bool)

  /** A row of the pending enrolments: the secret that a setup has made and its code has not confirmed yet. */
  datatype Pending = Pending(secret: Sealed, expiresAt: int)

  datatype State = State(
    admins: map<AdminId, Admin>,
    challenges: Cache<Token, AdminId>,
    setupTokens: Cache<Token, AdminId>,
    usedCodes: Cache<(AdminId, string), ()>)

  datatype Answer =
    | Tokens(admin: AdminId)
    | ChangePassword(admin: AdminId)
    | MfaChallenge(id: Token)
    | MfaSetup(token: Token)
    | InvalidCredentials | UserInactive | UserLocked
    | MfaChallengeInvalid | UserNotFound | MfaNotConfigured | MfaCodeReused | MfaCorrupt | MfaInvalid
    | ReadOnly | PolicyRejected | MfaSetupNotFound | MfaSetupExpired
    | Quiet

  predicate IsLocked(admin: Admin, now: int) {
    admin.lockedUntil.Some? && admin.lockedUntil.value > now
  }

  predicate PasswordOk(p: Profile, attempt: Attempt) {
    if p.ldapAuth && p.ldapDn.Some? && p.ldapDn.value != ""
    then attempt.password != "" && attempt.bindAccepted
    else attempt.password == p.password
  }

  predicate RequiresMfa(p: Profile) {
    exists i :: 0 <= i < |p.roles| && p.roles[i].requiresMfa
  }

  predicate MfaActive(p: Profile) {
    p.mfaEnabled && p.secret.Some?
  }

  predicate PasswordExpired(p: Profile, maxAge: int, now: int) {
    var changed := if p.passwordChangedAt.Some? then p.passwordChangedAt else p.createdAt;
    maxAge > 0 && changed.Some? && (now - changed.value) / DAY >= maxAge
  }

  function StepAt(now: int): int {
    now / (TOTP_INTERVAL * SECOND)
  }

  /** The code of `step` is accepted at `now`. */
  predicate StepValid(step: int, now: int) {
    StepAt(now) - TOTP_WINDOW <= step <= StepAt(now) + TOTP_WINDOW
  }

  predicate IsDigits(codes: Codes, s: string) {
    forall i :: 0 <= i < |s| ==> codes.isDigit(s[i])
  }

  predicate VerifyTotp(codes: Codes, secret: string, code: string, now: int) {
    && |code| == TOTP_DIGITS
    && IsDigits(codes, code)
    && exists step :: StepAt(now) - TOTP_WINDOW <= step <= StepAt(now) + TOTP_WINDOW
         && codes.hotp(secret, step) == codes.fold(code)
  }

  function AfterFailure(admin: Admin, now: int): Admin {
    var count := admin.failedCount + 1;
    admin.(failedCount := count,
           lockedUntil := if count >= LOCKOUT_THRESHOLD then Some(now + LOCKOUT_DURATION) else admin.lockedUntil)
  }

  function WithAdmin(s: State, a: AdminId, admin: Admin): State {
    s.(admins := s.admins[a := admin])
  }

  function Finalize(s: State, a: AdminId, now: int, maxAge: int): (State, Answer)
    requires a in s.admins
  {
    var p := s.admins[a].profile;
    (WithAdmin(s, a, Admin(p, 0, None, Some(now))),
     if p.mustChange || PasswordExpired(p, maxAge, now) then ChangePassword(a) else Tokens(a))
  }

  function Login(s: State, a: AdminId, attempt: Attempt, now: int, token: Token, maxAge: int): (State, Answer) {
    if a !in s.admins then (s, InvalidCredentials)
    else
      var admin := s.admins[a];
      if !admin.profile.active then (s, UserInactive)
      else if IsLocked(admin, now) then (s, UserLocked)
      else if !PasswordOk(admin.profile, attempt) then (WithAdmin(s, a, AfterFailure(admin, now)), InvalidCredentials)
      else if RequiresMfa(admin.profile) && !MfaActive(admin.profile)
      then (s.(setupTokens := SetEx(s.setupTokens, token, MFA_SETUP_TOKEN_TTL, a, now)), MfaSetup(token))
      else if MfaActive(admin.profile)
        then (s.(challenges := SetEx(s.challenges, token, CHALLENGE_TTL, a, now)), MfaChallenge(token))
      else Finalize(s, a, now, maxAge)
  }

  /** The challenge is deleted as soon as it is read, whatever happens next. */
  function Complete(codes: Codes, s: State, id: Token, code: string, now: int, maxAge: int): (State, Answer) {
    if Get(s.challenges, id, now) == None then (s, MfaChallengeInvalid)
    else
      var a := s.challenges[id].value;
      var s1 := s.(challenges := s.challenges - {id});
      if a !in s.admins || !s.admins[a].profile.active then (s1, UserNotFound)
      else if s.admins[a].profile.secret == None then (s1, MfaNotConfigured)
      else if Get(s.usedCodes, (a, code), now).Some? then (s1, MfaCodeReused)
      else if s.admins[a].profile.secret.value == Unreadable then (s1, MfaCorrupt)
      else if !VerifyTotp(codes, s.admins[a].profile.secret.value.secret, code, now)
      then (WithAdmin(s1, a, AfterFailure(s.admins[a], now)), MfaInvalid)
      else Finalize(s1.(usedCodes := SetEx(s.usedCodes, (a, code), TOTP_INTERVAL * (TOTP_WINDOW + 1) + 5, (), now)),
        a, now, maxAge)
  }

  function ResetPassword(s: State, a: AdminId, isMaster: bool, password: string, policyOk: bool, mustChange: bool,
      now: int): (State, Answer) {
    if !isMaster then (s, ReadOnly)
    else if a !in s.admins then (s, UserNotFound)
    else if !policyOk then (s, PolicyRejected)
    else
      var admin := s.admins[a];
      var p := admin.profile.(password := password, passwordChangedAt := Some(now), mustChange := mustChange);
      (WithAdmin(s, a, Admin(p, 0, None, admin.lastLoginAt)), Quiet)
  }

  function WithProfile(s: State, a: AdminId, p: Profile): State
    requires a in s.admins
  {
    WithAdmin(s, a, s.admins[a].(profile := p))
  }

  /** verify_and_enable_mfa: the code is checked and neither looked up among the used ones nor marked. */
  function Enable(codes: Codes, s: State, a: AdminId, pending: Option<Pending>, code: string, now: int)
      : (State, Answer) {
    if a !in s.admins then (s, UserNotFound)
    else if pending == None then (s, MfaSetupNotFound)
    else if pending.value.expiresAt < now then (s, MfaSetupExpired)
    else if pending.value.secret == Unreadable then (s, MfaCorrupt)
    else if !VerifyTotp(codes, pending.value.secret.secret, code, now) then (s, MfaInvalid)
    else (WithProfile(s, a, s.admins[a].profile.(mfaEnabled := true, secret := Some(pending.value.secret))), Quiet)
  }

  /** disable_mfa_for_admin, in the same way. */
  function Disable(codes: Codes, s: State, a: AdminId, code: string, now: int): (State, Answer) {
    if a !in s.admins then (s, UserNotFound)
    else
      var p := s.admins[a].profile;
      if !MfaActive(p) then (s, Quiet)
      else if p.secret.value == Unreadable then (s, MfaCorrupt)
      else if !VerifyTotp(codes, p.secret.value.secret, code, now) then (s, MfaInvalid)
      else (WithProfile(s, a, p.(mfaEnabled := false, secret := None)), Quiet)
  }

  // ---------------------------------------------------------------- TOTP replay

  function UsedUntil(usedAt: int): int {
    usedAt + (TOTP_INTERVAL * (TOTP_WINDOW + 1) + 5) * SECOND
  }

  /** A code of `step` is accepted from one interval before its step up to, and not including, two after its start. */
  lemma StepValidity(step: int, now: int)
    ensures StepValid(step, now) <==> (step - 1) * 30_000_000 <= now < (step + 2) * 30_000_000
  {
  }

  /**
   * A code used at `usedAt` is refused as used for as long as its step stays acceptable exactly when it
   * was not used more than 5 seconds before its step began.
   */
  lemma ReplayIsCoveredIff(step: int, usedAt: int)
    requires StepValid(step, usedAt)
    ensures (forall now :: usedAt <= now && StepValid(step, now) ==> now < usedAt + 65_000_000)
            <==> usedAt >= step * 30_000_000 - 5_000_000
  {
    var last := (step + 2) * TOTP_INTERVAL * SECOND - 1;
    StepValidity(step, last);
    StepValidity(step, usedAt);
    forall now | StepValid(step, now) ensures now <= last {
      StepValidity(step, now);
    }
  }
}
