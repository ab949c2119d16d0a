/** The second factor over whole runs: which codes are accepted, how often, and how many can be tried. */
module AuthCodes {
  import opened Common
  import opened Redis
  import opened AuthModel
  import opened AuthProtocol

  // ---------------------------------------------------------------- when a code is accepted

  /** Step k answers a live challenge of the active admin a with a code that verifies. */
  predicate Presents(codes: Codes, s: State, step: Step, a: AdminId) {
    && step.TryCode?
    && step.id in s.challenges && s.challenges[step.id].value == a && step.now < s.challenges[step.id].until
    && a in s.admins && s.admins[a].profile.active
    && s.admins[a].profile.secret.Some? && s.admins[a].profile.secret.value.Readable?
    && RightCode(codes, s.admins[a].profile.secret.value.secret, step.code, step.now)
  }

  /** One of the first n steps accepted this code, in this spelling, from a less than 65 seconds before `now`. */
  ghost predicate AcceptedLately(codes: Codes, s: State, steps: seq<Step>, n: nat, a: AdminId, code: string, now: int)
    requires n <= |steps|
  {
    exists i: nat :: i < n && CodeAccepted(codes, s, steps, i, a, code) && now < steps[i].now + 65_000_000
  }

  lemma MarksComeFromUse(codes: Codes, s: State, step: Step, key: (AdminId, string))
    requires key in Perform(codes, s, step).0.usedCodes
    ensures var kept := Perform(codes, s, step).0.usedCodes[key];
            || (key in s.usedCodes && s.usedCodes[key] == kept)
            || (step.TryCode? && step.code == key.1 && kept.until == UsedUntil(step.now)
                && Perform(codes, s, step).1 in {Tokens(key.0), ChangePassword(key.0)})
  {
  }

  lemma {:induction false} MarkHasOrigin(codes: Codes, s: State, steps: seq<Step>, n: nat, a: AdminId, code: string)
      returns (i: nat)
    requires s.usedCodes == map[] && n <= |steps| && (a, code) in After(codes, s, steps[..n]).usedCodes
    ensures i < n && CodeAccepted(codes, s, steps, i, a, code)
    ensures After(codes, s, steps[..n]).usedCodes[(a, code)].until == UsedUntil(steps[i].now)
  {
    assert n > 0;
    AfterNext(codes, s, steps, n - 1);
    MarksComeFromUse(codes, Before(codes, s, steps, n - 1), steps[n - 1], (a, code));
    if CodeAccepted(codes, s, steps, n - 1, a, code) {
      i := n - 1;
      MarksLast(codes, Before(codes, s, steps, n - 1), steps[n - 1], (a, code), UsedUntil(steps[n - 1].now));
    } else {
      i := MarkHasOrigin(codes, s, steps, n - 1, a, code);
    }
  }

  /** In every run a code counts as used exactly for 65 seconds after each time it was accepted. */
  lemma UsedIffAcceptedLately(codes: Codes, s: State, steps: seq<Step>, n: nat, a: AdminId, code: string, now: int)
    requires s.usedCodes == map[] && Timed(steps) && n <= |steps|
    ensures Get(After(codes, s, steps[..n]).usedCodes, (a, code), now).Some? <==>
            AcceptedLately(codes, s, steps, n, a, code, now)
  {
    if Get(After(codes, s, steps[..n]).usedCodes, (a, code), now).Some? {
      var i := MarkHasOrigin(codes, s, steps, n, a, code);
    }
    if AcceptedLately(codes, s, steps, n, a, code, now) {
      var i: nat :| i < n && CodeAccepted(codes, s, steps, i, a, code) && now < steps[i].now + 65_000_000;
      UsedCodeIsKept(codes, s, steps, i, n, a, code);
    }
  }

  /**
   * In every run, a code that verifies on a live challenge is accepted if and only if no earlier challenge accepted
   * it in the same spelling within the last 65 seconds. Codes that enabled or disabled MFA are not among those.
   */
  lemma CodeIsAcceptedIff(codes: Codes, s: State, steps: seq<Step>, k: nat, a: AdminId)
    requires s.usedCodes == map[] && Timed(steps) && k < |steps|
    requires Presents(codes, Before(codes, s, steps, k), steps[k], a)
    ensures CodeAccepted(codes, s, steps, k, a, steps[k].code) <==>
            !AcceptedLately(codes, s, steps, k, a, steps[k].code, steps[k].now)
  {
    UsedIffAcceptedLately(codes, s, steps, k, a, steps[k].code, steps[k].now);
    VerifiedIff(codes, Before(codes, s, steps, k).admins[a].profile.secret.value.secret, steps[k].code, steps[k].now);
  }

  // ---------------------------------------------------------------- runs in which a code passes twice

  const ADA := AdminId("ada")
  const WITH_MFA := Profile(true, "p", false, None, true, Some(Readable("s")), [], false, None, None)
  const NOBODY := State(map[], map[], map[], map[])
  const KNOWS := Attempt("p", false)

  /** An account with MFA logs in at `t` and answers the challenge with `code`, and at `t'` again with `code'`. */
  function LoginTwice(code: string, t: int, code': string, t': int): seq<Step> {
    [Manage(ADA, WITH_MFA, t),
     TryLogin(ADA, KNOWS, Token("x"), 0, t), TryCode(Token("x"), code, 0, t),
     TryLogin(ADA, KNOWS, Token("yy"), 0, t'), TryCode(Token("yy"), code', 0, t')]
  }

  lemma FirstLogin(codes: Codes, code: string, t: int, code': string, t': int)
    requires VerifyTotp(codes, "s", code, t)
    ensures var steps := LoginTwice(code, t, code', t');
            && CodeAccepted(codes, NOBODY, steps, 2, ADA, code)
            && After(codes, NOBODY, steps[..3]) ==
               State(map[ADA := Admin(WITH_MFA, 0, None, Some(t))], map[], map[],
                 map[(ADA, code) := Kept((), UsedUntil(t))])
  {
    var steps := LoginTwice(code, t, code', t');
    assert After(codes, NOBODY, steps[..0]) == NOBODY;
    AfterNext(codes, NOBODY, steps, 0);
    assert After(codes, NOBODY, steps[..1]) == State(map[ADA := Admin(WITH_MFA, 0, None, None)], map[], map[], map[]);
    AfterNext(codes, NOBODY, steps, 1);
    AfterNext(codes, NOBODY, steps, 2);
  }

  /** In this run the second code is accepted if it is spelled differently or the first one's mark has run out. */
  lemma SecondLogin(codes: Codes, code: string, t: int, code': string, t': int)
    requires VerifyTotp(codes, "s", code, t) && VerifyTotp(codes, "s", code', t') && t <= t'
    ensures var steps := LoginTwice(code, t, code', t');
            && Timed(steps)
            && CodeAccepted(codes, NOBODY, steps, 2, ADA, code)
            && (CodeAccepted(codes, NOBODY, steps, 4, ADA, code') <==> code != code' || t' >= UsedUntil(t))
  {
    var steps := LoginTwice(code, t, code', t');
    FirstLogin(codes, code, t, code', t');
    AfterNext(codes, NOBODY, steps, 3);
  }

  /** A code of step 2 used as soon as it is valid, 30 s before its step, passes once more 66 s later. */
  lemma EarlyCodePassesTwice(codes: Codes, code: string)
    requires |code| == 6 && (forall c :: c in code ==> codes.isDigit(c)) && codes.hotp("s", 2) == codes.fold(code)
    ensures var steps := LoginTwice(code, 30 * SECOND, code, 96 * SECOND);
            && CodeAccepted(codes, NOBODY, steps, 2, ADA, code) && CodeAccepted(codes, NOBODY, steps, 4, ADA, code)
            && StepValid(2, steps[2].now) && StepValid(2, steps[4].now)
  {
    SecondLogin(codes, code, 30 * SECOND, code, 96 * SECOND);
  }

  /** Another spelling of a used code passes at once: the mark is kept under the code as it was typed. */
  lemma OtherSpellingPasses(codes: Codes, code: string, code': string)
    requires |code| == |code'| == 6 && forall c :: c in code + code' ==> codes.isDigit(c)
    requires code != code' && codes.fold(code) == codes.fold(code') == codes.hotp("s", 2)
    ensures var steps := LoginTwice(code, 60 * SECOND, code', 61 * SECOND);
            CodeAccepted(codes, NOBODY, steps, 2, ADA, code) && CodeAccepted(codes, NOBODY, steps, 4, ADA, code')
  {
    SecondLogin(codes, code, 60 * SECOND, code', 61 * SECOND);
  }

  const WITHOUT_MFA := WITH_MFA.(mfaEnabled := false, secret := None)

  /** An account enables MFA with a code, logs in, and answers the challenge with the same code. */
  function EnrolAndLogin(code: string, t: int): seq<Step> {
    [Manage(ADA, WITHOUT_MFA, t), TryEnable(ADA, Some(Pending(Readable("s"), t)), code, t),
     TryLogin(ADA, KNOWS, Token("x"), 0, t), TryCode(Token("x"), code, 0, t)]
  }

  /** The code that enabled MFA is not marked, so it passes the next challenge. */
  lemma EnrolmentCodePassesAgain(codes: Codes, code: string, t: int)
    requires RightCode(codes, "s", code, t)
    ensures var steps := EnrolAndLogin(code, t);
            && After(codes, NOBODY, steps[..1]).admins == map[ADA := Admin(WITHOUT_MFA, 0, None, None)]
            && After(codes, NOBODY, steps[..2]).admins == map[ADA := Admin(WITH_MFA, 0, None, None)]
            && CodeAccepted(codes, NOBODY, steps, 3, ADA, code)
  {
    var steps := EnrolAndLogin(code, t);
    VerifiedIff(codes, "s", code, t);
    assert After(codes, NOBODY, steps[..0]) == NOBODY;
    AfterNext(codes, NOBODY, steps, 0);
    AfterNext(codes, NOBODY, steps, 1);
    assert After(codes, NOBODY, steps[..2]) == State(map[ADA := Admin(WITH_MFA, 0, None, None)], map[], map[], map[]);
    AfterNext(codes, NOBODY, steps, 2);
  }

  // ---------------------------------------------------------------- the lock and the codes

  /** The same account with another failure count and lock. */
  function Locking(s: State, a: AdminId, failed: nat, until: Option<int>): State {
    if a in s.admins then WithAdmin(s, a, s.admins[a].(failedCount := failed, lockedUntil := until)) else s
  }

  /** A challenge that was issued is answered the same whether or not the account is locked by now. */
  lemma LockDoesNotStopCodes(codes: Codes, s: State, id: Token, code: string, now: int, maxAge: int,
      failed: nat, until: Option<int>)
    requires Get(s.challenges, id, now).Some?
    ensures var a := s.challenges[id].value;
            Complete(codes, Locking(s, a, failed, until), id, code, now, maxAge).1 ==
            Complete(codes, s, id, code, now, maxAge).1
  {
  }

  /** The step compares a code with the secret of a. */
  predicate TriesCode(codes: Codes, s: State, step: Step, a: AdminId) {
    && step.TryCode? && Get(s.challenges, step.id, step.now) == Some(a)
    && Perform(codes, s, step).1 in {MfaInvalid, Tokens(a), ChangePassword(a)}
  }

  /** The step issues a challenge to a, after the right password. */
  predicate GetsChallenge(codes: Codes, s: State, step: Step, a: AdminId) {
    step.TryLogin? && step.a == a && Perform(codes, s, step).1 == MfaChallenge(step.token)
  }

  function CodeTries(codes: Codes, s: State, steps: seq<Step>, a: AdminId): nat {
    if steps == [] then 0
    else
      CodeTries(codes, s, steps[..|steps| - 1], a)
      + if TriesCode(codes, After(codes, s, steps[..|steps| - 1]), steps[|steps| - 1], a) then 1 else 0
  }

  function ChallengesIssued(codes: Codes, s: State, steps: seq<Step>, a: AdminId): nat {
    if steps == [] then 0
    else
      ChallengesIssued(codes, s, steps[..|steps| - 1], a)
      + if GetsChallenge(codes, After(codes, s, steps[..|steps| - 1]), steps[|steps| - 1], a) then 1 else 0
  }

  /** The challenges kept for a. */
  function Held(s: State, a: AdminId): set<Token> {
    set id | id in s.challenges && s.challenges[id].value == a
  }

  lemma HeldChanges(codes: Codes, s: State, step: Step, a: AdminId)
    ensures Held(Perform(codes, s, step).0, a) <=
            Held(s, a) + if GetsChallenge(codes, s, step, a) then {step.token} else {}
    ensures TriesCode(codes, s, step, a) ==>
              step.id in Held(s, a) && Held(Perform(codes, s, step).0, a) <= Held(s, a) - {step.id}
    ensures !(TriesCode(codes, s, step, a) && GetsChallenge(codes, s, step, a))
  {
  }

  lemma Fewer<T>(small: set<T>, large: set<T>)
    requires small <= large
    ensures |small| <= |large|
  {
    assert large == small + (large - small);
  }

  lemma HeldCounts(codes: Codes, s: State, step: Step, a: AdminId)
    ensures |Held(Perform(codes, s, step).0, a)| + (if TriesCode(codes, s, step, a) then 1 else 0)
            <= |Held(s, a)| + (if GetsChallenge(codes, s, step, a) then 1 else 0)
  {
    HeldChanges(codes, s, step, a);
    var before, after := Held(s, a), Held(Perform(codes, s, step).0, a);
    if TriesCode(codes, s, step, a) {
      Fewer(after, before - {step.id});
    } else if GetsChallenge(codes, s, step, a) {
      Fewer(after, before + {step.token});
    } else {
      Fewer(after, before);
    }
  }

  /** Each code that is tried has cost one challenge, and so one correct password while the account was not locked. */
  lemma {:induction false} CodeTriesAtMostChallenges(codes: Codes, s: State, steps: seq<Step>, a: AdminId)
    requires s.challenges == map[]
    ensures CodeTries(codes, s, steps, a) + |Held(After(codes, s, steps), a)| <= ChallengesIssued(codes, s, steps, a)
  {
    if steps == [] {
      assert Held(s, a) == {};
    } else {
      CodeTriesAtMostChallenges(codes, s, steps[..|steps| - 1], a);
      HeldCounts(codes, After(codes, s, steps[..|steps| - 1]), steps[|steps| - 1], a);
    }
  }

  function Nth(i: nat): Token {
    Token(seq(i, _ => 'x'))
  }

  /** n correct passwords, then n wrong codes, all at one instant. */
  function Burst(bad: string, n: nat): seq<Step> {
    seq(n, i requires 0 <= i < n => TryLogin(ADA, KNOWS, Nth(i), 0, 0))
    + seq(n, i requires 0 <= i < n => TryCode(Nth(i), bad, 0, 0))
  }

  /** The challenges from..to are open for the account, which has MFA and has not used the code. */
  ghost predicate Armed(s: State, bad: string, from: nat, to: nat) {
    && ADA in s.admins && s.admins[ADA].profile == WITH_MFA
    && (ADA, bad) !in s.usedCodes
    && forall i: nat :: from <= i < to ==> Get(s.challenges, Nth(i), 0) == Some(ADA)
  }

  lemma NthDiffer(i: nat, j: nat)
    requires i != j
    ensures Nth(i) != Nth(j)
  {
    assert |Nth(i).text| == i && |Nth(j).text| == j;
  }

  lemma OneMoreLogin(codes: Codes, s: State, bad: string, i: nat)
    requires Armed(s, bad, 0, i) && s.admins[ADA].lockedUntil == None
    ensures var step := TryLogin(ADA, KNOWS, Nth(i), 0, 0);
            && Armed(Perform(codes, s, step).0, bad, 0, i + 1)
            && Perform(codes, s, step).0.admins == s.admins
            && !TriesCode(codes, s, step, ADA) && !ResetsCounter(codes, s, step, ADA)
  {
  }

  lemma OneMoreCode(codes: Codes, s: State, bad: string, i: nat, n: nat)
    requires Armed(s, bad, i, n) && i < n && !VerifyTotp(codes, "s", bad, 0)
    ensures var step := TryCode(Nth(i), bad, 0, 0);
            && Armed(Perform(codes, s, step).0, bad, i + 1, n)
            && TriesCode(codes, s, step, ADA) && !ResetsCounter(codes, s, step, ADA)
  {
    forall j: nat | i < j < n ensures Nth(j) != Nth(i) {
      NthDiffer(i, j);
    }
  }

  lemma OneMore(codes: Codes, s: State, steps: seq<Step>, step: Step, a: AdminId)
    ensures After(codes, s, steps + [step]) == Perform(codes, After(codes, s, steps), step).0
    ensures CodeTries(codes, s, steps + [step], a) ==
            CodeTries(codes, s, steps, a) + if TriesCode(codes, After(codes, s, steps), step, a) then 1 else 0
    ensures NoReset(codes, s, steps + [step], a) <==>
            NoReset(codes, s, steps, a) && !ResetsCounter(codes, After(codes, s, steps), step, a)
  {
    assert (steps + [step])[..|steps|] == steps;
  }

  /** The challenges from..n are open, `tried` codes have been compared, and the counter was never reset. */
  ghost predicate Tried(codes: Codes, s: State, steps: seq<Step>, bad: string, from: nat, n: nat, tried: nat) {
    && Armed(After(codes, s, steps), bad, from, n)
    && CodeTries(codes, s, steps, ADA) == tried && NoReset(codes, s, steps, ADA)
  }

  lemma LoginNext(codes: Codes, s: State, steps: seq<Step>, bad: string, k: nat)
    requires Tried(codes, s, steps, bad, 0, k, 0) && After(codes, s, steps).admins == s.admins
    requires ADA in s.admins && s.admins[ADA].lockedUntil == None
    ensures var more := steps + [TryLogin(ADA, KNOWS, Nth(k), 0, 0)];
            Tried(codes, s, more, bad, 0, k + 1, 0) && After(codes, s, more).admins == s.admins
  {
    OneMore(codes, s, steps, TryLogin(ADA, KNOWS, Nth(k), 0, 0), ADA);
    OneMoreLogin(codes, After(codes, s, steps), bad, k);
  }

  lemma CodeNext(codes: Codes, s: State, steps: seq<Step>, bad: string, k: nat, n: nat)
    requires Tried(codes, s, steps, bad, k, n, k) && k < n && !VerifyTotp(codes, "s", bad, 0)
    ensures Tried(codes, s, steps + [TryCode(Nth(k), bad, 0, 0)], bad, k + 1, n, k + 1)
  {
    OneMore(codes, s, steps, TryCode(Nth(k), bad, 0, 0), ADA);
    OneMoreCode(codes, After(codes, s, steps), bad, k, n);
  }

  lemma BurstAt(bad: string, n: nat, k: nat)
    requires k < n
    ensures Burst(bad, n)[..k + 1] == Burst(bad, n)[..k] + [TryLogin(ADA, KNOWS, Nth(k), 0, 0)]
    ensures Burst(bad, n)[..n + k + 1] == Burst(bad, n)[..n + k] + [TryCode(Nth(k), bad, 0, 0)]
  {
  }

  lemma {:induction false} BurstLogins(codes: Codes, s: State, bad: string, n: nat, k: nat)
    requires k <= n && Armed(s, bad, 0, 0) && s.admins[ADA].lockedUntil == None
    ensures Tried(codes, s, Burst(bad, n)[..k], bad, 0, k, 0)
    ensures After(codes, s, Burst(bad, n)[..k]).admins == s.admins
  {
    if k > 0 {
      BurstLogins(codes, s, bad, n, k - 1);
      BurstAt(bad, n, k - 1);
      LoginNext(codes, s, Burst(bad, n)[..k - 1], bad, k - 1);
    }
  }

  lemma {:induction false} BurstCodes(codes: Codes, s: State, bad: string, n: nat, k: nat)
    requires k <= n && Armed(s, bad, 0, 0) && s.admins[ADA].lockedUntil == None && !VerifyTotp(codes, "s", bad, 0)
    ensures Tried(codes, s, Burst(bad, n)[..n + k], bad, k, n, k)
  {
    if k == 0 {
      BurstLogins(codes, s, bad, n, n);
    } else {
      BurstCodes(codes, s, bad, n, k - 1);
      BurstAt(bad, n, k - 1);
      CodeNext(codes, s, Burst(bad, n)[..n + k - 1], bad, k - 1, n);
    }
  }

  /** So codes have no rate as passwords have: any number can be compared at one instant, without a reset. */
  lemma CodeTriesHaveNoRate(codes: Codes, s: State, bad: string, n: nat)
    requires Armed(s, bad, 0, 0) && s.admins[ADA].lockedUntil == None && !RightCode(codes, "s", bad, 0)
    ensures var steps := Burst(bad, n);
            && (forall i :: 0 <= i < |steps| ==> steps[i].now == 0)
            && NoReset(codes, s, steps, ADA)
            && CodeTries(codes, s, steps, ADA) == n
  {
    VerifiedIff(codes, "s", bad, 0);
    BurstCodes(codes, s, bad, n, n);
    assert Burst(bad, n)[..n + n] == Burst(bad, n);
  }
}
