/** Runs of the login automaton: who gets tokens, how often a challenge, a code or a wrong password is accepted. */
module AuthProtocol {
  import opened Common
  import opened Redis
  import opened AuthModel

  datatype Step =
    | TryLogin(a: AdminId, attempt: Attempt, token: Token, maxAge: int, now: int)
    | TryCode(id: Token, code: string, maxAge: int, now: int)
    | Reset(a: AdminId, isMaster: bool, password: string, policyOk: bool, mustChange: bool, now: int)
    | TryEnable(a: AdminId, pending: Option<Pending>, code: string, now: int)
    | TryDisable(a: AdminId, code: string, now: int)
      /** Any other change of an account: creation, profile, roles, MFA reset, own password. */
    | Manage(a: AdminId, profile: Profile, now: int)
    | Remove(a: AdminId, now: int)

  function Perform(codes: Codes, s: State, step: Step): (State, Answer) {
    match step
    case TryLogin(a, attempt, token, maxAge, now) => Login(s, a, attempt, now, token, maxAge)
    case TryCode(id, code, maxAge, now) => Complete(codes, s, id, code, now, maxAge)
    case Reset(a, isMaster, password, policyOk, mustChange, now) =>
      ResetPassword(s, a, isMaster, password, policyOk, mustChange, now)
    case TryEnable(a, pending, code, now) => Enable(codes, s, a, pending, code, now)
    case TryDisable(a, code, now) => Disable(codes, s, a, code, now)
    case Manage(a, profile, _) =>
      (WithAdmin(s, a, if a in s.admins then s.admins[a].(profile := profile) else Admin(profile, 0, None, None)),
        Quiet)
    case Remove(a, _) => (s.(admins := s.admins - {a}), Quiet)
  }

  function After(codes: Codes, s: State, steps: seq<Step>): State {
    if steps == [] then s
    else Perform(codes, After(codes, s, steps[..|steps| - 1]), steps[|steps| - 1]).0
  }

  /** The state in which step i is taken, and what it answers. */
  function Before(codes: Codes, s: State, steps: seq<Step>, i: nat): State
    requires i < |steps|
  {
    After(codes, s, steps[..i])
  }

  function AnswerTo(codes: Codes, s: State, steps: seq<Step>, i: nat): Answer
    requires i < |steps|
  {
    Perform(codes, Before(codes, s, steps, i), steps[i]).1
  }

  lemma AfterNext(codes: Codes, s: State, steps: seq<Step>, i: nat)
    requires i < |steps|
    ensures After(codes, s, steps[..i + 1]) == Perform(codes, Before(codes, s, steps, i), steps[i]).0
  {
    assert steps[..i + 1][..i] == steps[..i];
  }

  ghost predicate Timed(steps: seq<Step>) {
    forall i, j :: 0 <= i <= j < |steps| ==> steps[i].now <= steps[j].now
  }

  /** `secrets.token_urlsafe(32)` never repeats a value. */
  ghost predicate FreshTokens(steps: seq<Step>) {
    forall i, j :: 0 <= i < j < |steps| && steps[i].TryLogin? && steps[j].TryLogin? ==> steps[i].token != steps[j].token
  }

  // ---------------------------------------------------------------- who gets tokens

  /** With LDAP, a password that is not empty and that the bind accepted; without, the stored one. */
  predicate RightPassword(p: Profile, attempt: Attempt) {
    && (p.ldapAuth && p.ldapDn != None && p.ldapDn != Some("") ==> attempt.bindAccepted && |attempt.password| > 0)
    && (!p.ldapAuth || p.ldapDn == None || p.ldapDn == Some("") ==> p.password == attempt.password)
  }

  /** Six digits, and the code of the current half minute, of the one before or of the one after. */
  predicate RightCode(codes: Codes, secret: string, code: string, now: int) {
    var halfMinute := now / 30_000_000;
    && |code| == 6 && (forall c :: c in code ==> codes.isDigit(c))
    && codes.fold(code) in {codes.hotp(secret, halfMinute - 1), codes.hotp(secret, halfMinute),
      codes.hotp(secret, halfMinute + 1)}
  }

  /** What the verification of a code by the TOTP library comes to. */
  lemma VerifiedIff(codes: Codes, secret: string, code: string, now: int)
    ensures VerifyTotp(codes, secret, code, now) <==> RightCode(codes, secret, code, now)
  {
    if VerifyTotp(codes, secret, code, now) {
      var step :| StepAt(now) - 1 <= step <= StepAt(now) + 1 && codes.hotp(secret, step) == codes.fold(code);
      assert step == StepAt(now) - 1 || step == StepAt(now) || step == StepAt(now) + 1;
    }
  }

  /** The account's password is to be changed: on demand, or because it is `maxAge` days old or more. */
  predicate Outdated(p: Profile, maxAge: int, now: int) {
    || p.mustChange
    || (maxAge > 0 && p.passwordChangedAt.Some? && now - p.passwordChangedAt.value >= maxAge * 86_400_000_000)
    || (maxAge > 0 && p.passwordChangedAt == None && p.createdAt.Some?
        && now - p.createdAt.value >= maxAge * 86_400_000_000)
  }

  predicate NeedsMfa(p: Profile) {
    exists r :: r in p.roles && r.requiresMfa
  }

  /** The login `step` finds admin a active and not locked, and is given the right password. */
  predicate PasswordChecked(s: State, step: Step, a: AdminId) {
    && step.TryLogin? && step.a == a && a in s.admins
    && s.admins[a].profile.active
    && (s.admins[a].lockedUntil == None || s.admins[a].lockedUntil.value <= step.now)
    && RightPassword(s.admins[a].profile, step.attempt)
  }

  /** The password check of `step` issues challenge id to admin a. */
  predicate Issues(codes: Codes, s: State, step: Step, a: AdminId, id: Token) {
    PasswordChecked(s, step, a) && step.token == id && Perform(codes, s, step).1 == MfaChallenge(id)
  }

  /** Challenges come from logins only, and lose nothing but the one that is read. */
  lemma ChallengesChange(codes: Codes, s: State, step: Step, id: Token)
    ensures var after := Perform(codes, s, step).0.challenges;
            id in after ==>
              || (id in s.challenges && after[id] == s.challenges[id])
              || (step.TryLogin? && Issues(codes, s, step, step.a, id)
                && after[id] == Kept(step.a, step.now + 300_000_000))
    ensures step.TryCode? && step.id == id && Perform(codes, s, step).1 != MfaChallengeInvalid ==>
            id !in Perform(codes, s, step).0.challenges
  {
  }

  ghost predicate IssuedAt(codes: Codes, s: State, steps: seq<Step>, j: int, a: AdminId, id: Token, until: int) {
    0 <= j < |steps| && Issues(codes, Before(codes, s, steps, j), steps[j], a, id)
      && until == steps[j].now + 300_000_000
  }

  lemma {:induction false} ChallengeHasOrigin(codes: Codes, s: State, steps: seq<Step>, n: nat, id: Token)
    requires s.challenges == map[] && n <= |steps|
    requires id in After(codes, s, steps[..n]).challenges
    ensures var kept := After(codes, s, steps[..n]).challenges[id];
            exists j :: j < n && IssuedAt(codes, s, steps, j, kept.value, id, kept.until)
  {
    if n > 0 {
      AfterNext(codes, s, steps, n - 1);
      ChallengesChange(codes, Before(codes, s, steps, n - 1), steps[n - 1], id);
      var kept := After(codes, s, steps[..n]).challenges[id];
      if !IssuedAt(codes, s, steps, n - 1, kept.value, id, kept.until) {
        ChallengeHasOrigin(codes, s, steps, n - 1, id);
      }
    }
  }

  /** What must hold for a step to hand tokens to admin a, apart from where its challenge comes from. */
  predicate GivesTokens(codes: Codes, s: State, step: Step, a: AdminId) {
    && a in s.admins
    && var p := s.admins[a].profile;
    && p.active
    && match step
       case TryLogin(_, _, _, maxAge, now) =>
         && PasswordChecked(s, step, a) && !Outdated(p, maxAge, now)
         && !(p.mfaEnabled && p.secret.Some?) && !NeedsMfa(p)
       case TryCode(id, code, maxAge, now) =>
         && !Outdated(p, maxAge, now)
         && p.secret.Some? && p.secret.value.Readable? && RightCode(codes, p.secret.value.secret, code, now)
         && ((a, code) in s.usedCodes ==> s.usedCodes[(a, code)].until <= now)
         && id in s.challenges && s.challenges[id].value == a && now < s.challenges[id].until
       case _ => false
  }

  lemma OutdatedIff(p: Profile, maxAge: int, now: int)
    ensures Outdated(p, maxAge, now) <==> p.mustChange || PasswordExpired(p, maxAge, now)
  {
  }

  lemma LoginGivesTokensIff(codes: Codes, s: State, step: Step, a: AdminId)
    requires step.TryLogin?
    ensures Perform(codes, s, step).1 == Tokens(a) <==> GivesTokens(codes, s, step, a)
  {
    if a in s.admins {
      OutdatedIff(s.admins[a].profile, step.maxAge, step.now);
    }
  }

  lemma CodeGivesTokensIff(codes: Codes, s: State, step: Step, a: AdminId)
    requires step.TryCode?
    ensures Perform(codes, s, step).1 == Tokens(a) <==> GivesTokens(codes, s, step, a)
  {
    if a in s.admins {
      var p := s.admins[a].profile;
      OutdatedIff(p, step.maxAge, step.now);
      if p.secret.Some? && p.secret.value.Readable? {
        VerifiedIff(codes, p.secret.value.secret, step.code, step.now);
      }
    }
  }

  lemma StepGivesTokensIff(codes: Codes, s: State, step: Step, a: AdminId)
    ensures Perform(codes, s, step).1 == Tokens(a) <==> GivesTokens(codes, s, step, a)
  {
    match step
    case TryLogin(_, _, _, _, _) => LoginGivesTokensIff(codes, s, step, a);
    case TryCode(_, _, _, _) => CodeGivesTokensIff(codes, s, step, a);
    case _ =>
  }

  /** What must hold at step i for it to hand tokens to admin a. */
  ghost predicate Earned(codes: Codes, s: State, steps: seq<Step>, i: nat, a: AdminId)
    requires i < |steps|
  {
    var before := Before(codes, s, steps, i);
    && GivesTokens(codes, before, steps[i], a)
    && (steps[i].TryCode? ==>
          exists j :: j < i && IssuedAt(codes, s, steps, j, a, steps[i].id, before.challenges[steps[i].id].until))
  }

  /**
   * In every run, tokens go to an active admin whose password is neither to be changed nor expired, after
   * a correct password while not locked; where MFA is active or required, only through a challenge that
   * such a password check issued less than 5 minutes before, with a valid code that is not marked used.
   */
  lemma TokensAreEarned(codes: Codes, s: State, steps: seq<Step>, i: nat, a: AdminId)
    requires s.challenges == map[] && i < |steps|
    ensures AnswerTo(codes, s, steps, i) == Tokens(a) <==> Earned(codes, s, steps, i, a)
  {
    StepGivesTokensIff(codes, Before(codes, s, steps, i), steps[i], a);
    if steps[i].TryCode? && GivesTokens(codes, Before(codes, s, steps, i), steps[i], a) {
      ChallengeHasOrigin(codes, s, steps, i, steps[i].id);
    }
  }

  /** A challenge, once read, is never accepted again. */
  lemma ChallengeIsSpentOnce(codes: Codes, s: State, steps: seq<Step>, i: nat, k: nat)
    requires s.challenges == map[] && FreshTokens(steps)
    requires i < k < |steps| && steps[i].TryCode? && steps[k].TryCode? && steps[i].id == steps[k].id
    requires AnswerTo(codes, s, steps, i) != MfaChallengeInvalid
    ensures AnswerTo(codes, s, steps, k) == MfaChallengeInvalid
  {
    ChallengeHasOrigin(codes, s, steps, i, steps[i].id);
    StaysGone(codes, s, steps, i, k, steps[i].id);
  }

  lemma {:induction false} StaysGone(codes: Codes, s: State, steps: seq<Step>, i: nat, k: nat, id: Token)
    requires i < k <= |steps| && steps[i].TryCode? && steps[i].id == id
    requires AnswerTo(codes, s, steps, i) != MfaChallengeInvalid
    requires forall m :: i < m < k && steps[m].TryLogin? ==> steps[m].token != id
    ensures id !in After(codes, s, steps[..k]).challenges
  {
    AfterNext(codes, s, steps, k - 1);
    if i + 1 < k {
      StaysGone(codes, s, steps, i, k - 1, id);
      GoneInStep(codes, Before(codes, s, steps, k - 1), steps[k - 1], id);
    } else {
      ReadIsGone(codes, Before(codes, s, steps, i), steps[i]);
    }
  }

  lemma GoneInStep(codes: Codes, s: State, step: Step, id: Token)
    requires id !in s.challenges && (step.TryLogin? ==> step.token != id)
    ensures id !in Perform(codes, s, step).0.challenges
  {
    ChallengesChange(codes, s, step, id);
  }

  lemma ReadIsGone(codes: Codes, s: State, step: Step)
    requires step.TryCode? && Perform(codes, s, step).1 != MfaChallengeInvalid
    ensures step.id !in Perform(codes, s, step).0.challenges
  {
    ChallengesChange(codes, s, step, step.id);
  }

  // ---------------------------------------------------------------- a code is accepted once

  /** Step i accepted `code` from admin a as a second factor. */
  ghost predicate CodeAccepted(codes: Codes, s: State, steps: seq<Step>, i: nat, a: AdminId, code: string)
    requires i < |steps|
  {
    && steps[i].TryCode? && steps[i].code == code
    && AnswerTo(codes, s, steps, i) in {Tokens(a), ChangePassword(a)}
  }

  predicate MarkedUntil(s: State, key: (AdminId, string), until: int) {
    key in s.usedCodes && s.usedCodes[key].until >= until
  }

  /** Accepting a code marks it for 65 seconds; nothing shortens a mark. */
  lemma MarksLast(codes: Codes, s: State, step: Step, key: (AdminId, string), until: int)
    requires until <= UsedUntil(step.now)
    ensures MarkedUntil(s, key, until) ==> MarkedUntil(Perform(codes, s, step).0, key, until)
    ensures step.TryCode? && step.code == key.1
            && Perform(codes, s, step).1 in {Tokens(key.0), ChangePassword(key.0)} ==>
              MarkedUntil(Perform(codes, s, step).0, key, UsedUntil(step.now))
                && Get(s.usedCodes, key, step.now) == None
  {
  }

  lemma {:induction false} UsedCodeIsKept(codes: Codes, s: State, steps: seq<Step>, i: nat, k: nat, a: AdminId,
      code: string)
    requires Timed(steps) && i < k <= |steps| && CodeAccepted(codes, s, steps, i, a, code)
    ensures MarkedUntil(After(codes, s, steps[..k]), (a, code), UsedUntil(steps[i].now))
  {
    AfterNext(codes, s, steps, k - 1);
    MarksLast(codes, Before(codes, s, steps, k - 1), steps[k - 1], (a, code), UsedUntil(steps[i].now));
    if i + 1 < k {
      UsedCodeIsKept(codes, s, steps, i, k - 1, a, code);
    }
  }

  /** Step i accepted `code` from a as the code of time step `step`, the current one or one beside it. */
  ghost predicate PassesFor(codes: Codes, s: State, steps: seq<Step>, i: nat, a: AdminId, code: string, step: int)
    requires i < |steps|
  {
    && CodeAccepted(codes, s, steps, i, a, code)
    && a in Before(codes, s, steps, i).admins
    && var secret := Before(codes, s, steps, i).admins[a].profile.secret;
    && secret.Some? && secret.value.Readable?
    && codes.hotp(secret.value.secret, step) == codes.fold(code)
    && steps[i].now / 30_000_000 - 1 <= step <= steps[i].now / 30_000_000 + 1
  }

  /** Every code that is accepted is accepted as the code of some time step. */
  lemma PassesForSomeStep(codes: Codes, s: State, steps: seq<Step>, i: nat, a: AdminId, code: string)
    requires i < |steps| && CodeAccepted(codes, s, steps, i, a, code)
    ensures exists step :: PassesFor(codes, s, steps, i, a, code, step)
  {
    var before := Before(codes, s, steps, i);
    AcceptedIsVerified(codes, before, steps[i], a);
    var now, secret := steps[i].now, before.admins[a].profile.secret.value.secret;
    var step :| StepAt(now) - 1 <= step <= StepAt(now) + 1 && codes.hotp(secret, step) == codes.fold(code);
    assert PassesFor(codes, s, steps, i, a, code, step);
  }

  lemma AcceptedIsVerified(codes: Codes, s: State, step: Step, a: AdminId)
    requires step.TryCode? && Perform(codes, s, step).1 in {Tokens(a), ChangePassword(a)}
    ensures a in s.admins && s.admins[a].profile.secret.Some? && s.admins[a].profile.secret.value.Readable?
    ensures VerifyTotp(codes, s.admins[a].profile.secret.value.secret, step.code, step.now)
  {
  }

  /** No code passes twice for one time step, unless the first use came more than 5 seconds before the step began. */
  lemma NoCodePassesTwice(codes: Codes, s: State, steps: seq<Step>, i: nat, k: nat, a: AdminId, code: string, step: int)
    requires Timed(steps) && i < k < |steps|
    requires PassesFor(codes, s, steps, i, a, code, step) && PassesFor(codes, s, steps, k, a, code, step)
    ensures steps[i].now < step * 30_000_000 - 5_000_000
  {
    UsedCodeIsKept(codes, s, steps, i, k, a, code);
    MarksLast(codes, Before(codes, s, steps, k), steps[k], (a, code), UsedUntil(steps[i].now));
    ReplayIsCoveredIff(step, steps[i].now);
  }

  // ---------------------------------------------------------------- how fast passwords can be guessed

  /** Step i compared a's password with a wrong one. */
  predicate WrongPassword(s: State, step: Step, a: AdminId) {
    && step.TryLogin? && step.a == a && a in s.admins
    && s.admins[a].profile.active
    && (s.admins[a].lockedUntil == None || s.admins[a].lockedUntil.value <= step.now)
    && !RightPassword(s.admins[a].profile, step.attempt)
  }

  /** A completed login of a, or a new password set by another admin, or the end of the account. */
  predicate ResetsCounter(codes: Codes, s: State, step: Step, a: AdminId) {
    || Perform(codes, s, step).1 in {Tokens(a), ChangePassword(a)}
    || (step.Reset? && step.a == a && step.isMaster && step.policyOk)
    || (step.Remove? && step.a == a)
  }

  function WrongPasswords(codes: Codes, s: State, steps: seq<Step>, a: AdminId): nat {
    if steps == [] then 0
    else
      WrongPasswords(codes, s, steps[..|steps| - 1], a)
      + if WrongPassword(After(codes, s, steps[..|steps| - 1]), steps[|steps| - 1], a) then 1 else 0
  }

  predicate NoReset(codes: Codes, s: State, steps: seq<Step>, a: AdminId) {
    steps == [] ||
    (var init := steps[..|steps| - 1];
     NoReset(codes, s, init, a) && !ResetsCounter(codes, After(codes, s, init), steps[|steps| - 1], a))
  }

  function Max(x: int, y: int): int {
    if x < y then y else x
  }

  function Min(x: int, y: int): int {
    if x < y then x else y
  }

  datatype Counter = Counter(failed: nat, until: Option<int>)

  function CounterOf(s: State, a: AdminId): Counter {
    if a in s.admins then Counter(s.admins[a].failedCount, s.admins[a].lockedUntil) else Counter(0, None)
  }

  function Counted(c: Counter, now: int): Counter {
    Counter(c.failed + 1, if c.failed + 1 >= LOCKOUT_THRESHOLD then Some(now + LOCKOUT_DURATION) else c.until)
  }

  /** A step leaves a's counter alone or adds one failure; a wrong password is compared only while not locked. */
  lemma StepOnCounter(codes: Codes, s: State, step: Step, a: AdminId)
    requires !ResetsCounter(codes, s, step, a)
    ensures CounterOf(Perform(codes, s, step).0, a) in {CounterOf(s, a), Counted(CounterOf(s, a), step.now)}
    ensures WrongPassword(s, step, a) ==>
              && CounterOf(Perform(codes, s, step).0, a) == Counted(CounterOf(s, a), step.now)
              && OrZero(CounterOf(s, a).until, step.now) <= step.now
  {
  }

  /** What counts as a reset does clear the counter and the lock. */
  lemma ResetClears(codes: Codes, s: State, step: Step, a: AdminId)
    requires ResetsCounter(codes, s, step, a)
    ensures CounterOf(Perform(codes, s, step).0, a) == Counter(0, None)
  {
  }

  function OrZero(until: Option<int>, default: int): int {
    if until.Some? then until.value else default
  }

  /** How many wrong passwords can still be compared from `now` to `end`. */
  function Budget(c: Counter, now: int, end: int): (b: int)
    requires now <= end
    ensures b >= 0
  {
    if c.failed < LOCKOUT_THRESHOLD - 1 then LOCKOUT_THRESHOLD - 1 - c.failed + Locks(now, end)
    else Locks(Max(now, Min(OrZero(c.until, now), now + LOCKOUT_DURATION)), end)
  }

  /** Failures that fit between `from` and `to` when each one is followed by a full lock. */
  function Locks(from: int, to: int): int {
    if from > to then 0 else 1 + (to - from) / LOCKOUT_DURATION
  }

  lemma LocksShift(from: int, to: int)
    requires from <= to
    ensures Locks(from, to) == 1 + Locks(from + LOCKOUT_DURATION, to)
  {
  }

  /** Time never refills the budget, and a failure that was compared takes one from it. */
  lemma CounterSpends(c: Counter, now: int, at: int, end: int)
    requires now <= at <= end
    ensures Budget(c, at, end) <= Budget(c, now, end)
    ensures Budget(Counted(c, at), at, end) <= Budget(c, now, end)
    ensures OrZero(c.until, at) <= at ==> Budget(Counted(c, at), at, end) + 1 <= Budget(c, now, end)
  {
    var start := Max(now, Min(OrZero(c.until, now), now + LOCKOUT_DURATION));
    var later := Max(at, Min(OrZero(c.until, at), at + LOCKOUT_DURATION));
    LocksShrink(now, at, end);
    LocksShrink(start, later, end);
    LocksShrink(start, at + LOCKOUT_DURATION, end);
    LocksShift(at, end);
    if start <= at {
      LocksShrink(start, at, end);
    }
  }

  lemma LocksShrink(from: int, later: int, to: int)
    requires from <= later
    ensures Locks(later, to) <= Locks(from, to)
  {
  }

  lemma {:induction false} RunSpends(codes: Codes, s: State, steps: seq<Step>, a: AdminId, start: int, end: int)
    requires Timed(steps) && NoReset(codes, s, steps, a) && start <= end
    requires steps != [] ==> start <= steps[0].now && steps[|steps| - 1].now <= end
    ensures var last := if steps == [] then start else steps[|steps| - 1].now;
            Budget(CounterOf(After(codes, s, steps), a), last, end)
              + WrongPasswords(codes, s, steps, a) <= Budget(CounterOf(s, a), start, end)
  {
    if steps != [] {
      var n := |steps| - 1;
      var init := steps[..n];
      RunSpends(codes, s, init, a, start, end);
      StepOnCounter(codes, After(codes, s, init), steps[n], a);
      CounterSpends(CounterOf(After(codes, s, init), a), if n == 0 then start else init[n - 1].now, steps[n].now, end);
    }
  }

  /**
   * From any state, hence in any window of any run: without a reset, W minutes see at most 5 + floor(W / 15)
   * comparisons with a wrong password, although MFA failures share the counter and a lock's end does not clear it.
   */
  lemma LockoutRate(codes: Codes, s: State, steps: seq<Step>, a: AdminId, start: int, minutes: nat)
    requires Timed(steps) && NoReset(codes, s, steps, a)
    requires steps != [] ==> start <= steps[0].now && steps[|steps| - 1].now <= start + minutes * MINUTE
    ensures WrongPasswords(codes, s, steps, a) <= 5 + minutes / 15
  {
    var end := start + minutes * MINUTE;
    RunSpends(codes, s, steps, a, start, end);
    BudgetAtStart(CounterOf(s, a), start, minutes);
  }

  lemma BudgetAtStart(c: Counter, start: int, minutes: nat)
    ensures Budget(c, start, start + minutes * MINUTE) <= 5 + minutes / 15
  {
    var end := start + minutes * MINUTE;
    LocksShift(start, end);
    assert Locks(start, end) == 1 + minutes * MINUTE / LOCKOUT_DURATION;
  }

  /** Five wrong passwords at once, then one each time the lock runs out. */
  function Guesses(a: AdminId, attempt: Attempt, count: nat): seq<Step> {
    seq(count, i requires 0 <= i < count => TryLogin(a, attempt, Token(""), 0, Max(0, i - 4) * LOCKOUT_DURATION))
  }

  /** The state of the account after k wrong passwords in this rhythm. */
  predicate GuessedTimes(s: State, p: Profile, a: AdminId, k: nat) {
    a in s.admins && s.admins[a] ==
    Admin(p, k, if k < 5 then None else Some((k - 4) * LOCKOUT_DURATION), s.admins[a].lastLoginAt)
  }

  lemma GuessOnce(codes: Codes, s: State, p: Profile, a: AdminId, attempt: Attempt, k: nat)
    requires GuessedTimes(s, p, a, k) && p.active && !RightPassword(p, attempt)
    ensures var step := TryLogin(a, attempt, Token(""), 0, Max(0, k - 4) * LOCKOUT_DURATION);
            && GuessedTimes(Perform(codes, s, step).0, p, a, k + 1)
            && WrongPassword(s, step, a)
            && !ResetsCounter(codes, s, step, a)
  {
  }

  lemma {:induction false} GuessesCount(codes: Codes, s: State, a: AdminId, attempt: Attempt, count: nat, k: nat)
    requires k <= count && a in s.admins && GuessedTimes(s, s.admins[a].profile, a, 0)
    requires s.admins[a].profile.active && !RightPassword(s.admins[a].profile, attempt)
    ensures var steps := Guesses(a, attempt, count)[..k];
            && GuessedTimes(After(codes, s, steps), s.admins[a].profile, a, k)
            && WrongPasswords(codes, s, steps, a) == k
            && NoReset(codes, s, steps, a)
  {
    if k > 0 {
      GuessesCount(codes, s, a, attempt, count, k - 1);
      var all := Guesses(a, attempt, count);
      assert all[..k][..k - 1] == all[..k - 1];
      GuessOnce(codes, After(codes, s, all[..k - 1]), s.admins[a].profile, a, attempt, k - 1);
    }
  }

  lemma GuessesAreTimed(a: AdminId, attempt: Attempt, count: nat)
    ensures Timed(Guesses(a, attempt, count))
  {
    forall i, j | 0 <= i <= j < count ensures Guesses(a, attempt, count)[i].now <= Guesses(a, attempt, count)[j].now {
      assert Max(0, i - 4) <= Max(0, j - 4);
    }
  }

  /** The rate is exact: somebody guessing in that rhythm gets 5 + n comparisons in 15n minutes. */
  lemma LockoutRateIsAttained(codes: Codes, s: State, a: AdminId, attempt: Attempt, n: nat)
    requires a in s.admins && s.admins[a].failedCount == 0 && s.admins[a].lockedUntil == None
    requires s.admins[a].profile.active && !RightPassword(s.admins[a].profile, attempt)
    ensures var steps := Guesses(a, attempt, 5 + n);
            && Timed(steps) && NoReset(codes, s, steps, a)
            && steps[0].now == 0 && steps[4 + n].now == 15 * n * MINUTE
            && WrongPasswords(codes, s, steps, a) == 5 + n
  {
    AllGuessesCount(codes, s, a, attempt, 5 + n);
    GuessesAreTimed(a, attempt, 5 + n);
    GuessesLast(a, attempt, n);
  }

  lemma AllGuessesCount(codes: Codes, s: State, a: AdminId, attempt: Attempt, count: nat)
    requires a in s.admins && s.admins[a].failedCount == 0 && s.admins[a].lockedUntil == None
    requires s.admins[a].profile.active && !RightPassword(s.admins[a].profile, attempt)
    ensures NoReset(codes, s, Guesses(a, attempt, count), a)
    ensures WrongPasswords(codes, s, Guesses(a, attempt, count), a) == count
  {
    GuessesCount(codes, s, a, attempt, count, count);
    assert Guesses(a, attempt, count)[..count] == Guesses(a, attempt, count);
  }

  lemma GuessesLast(a: AdminId, attempt: Attempt, n: nat)
    ensures Guesses(a, attempt, 5 + n)[0].now == 0
    ensures Guesses(a, attempt, 5 + n)[4 + n].now == 15 * n * MINUTE
  {
    assert Max(0, 0 - 4) == 0 && Max(0, 4 + n - 4) == n;
  }
}
