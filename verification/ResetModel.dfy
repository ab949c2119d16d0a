/** Password reset by one-time code: the request table and what each of the three calls does to it. */
module ResetModel {
  import opened Common
  import opened Redis

  const OTP_TTL := 5 * MINUTE
  const COMPLETION_TOKEN_TTL := 10 * MINUTE
  const THROTTLE_WINDOW := 60 * SECOND
  const MAX_ATTEMPTS := 5

  datatype UserId = UserId(uid: string)
  datatype Digest = Digest(of: string)
  datatype Status = Pending | Verified | Completed | Expired | Locked

  datatype Request = Request(
    uid: UserId,
    otpHash: Digest,
    issuedAt: int,
    expiresAt: int,
    attempts: nat,
    maxAttempts: nat,
    status: Status,
    consumedAt: Option<int>,
    tokenHash: Option<Digest>,
    tokenExpiresAt: Option<int>,
    completedAt: Option<int>)

  /** A typed code was compared with the code of request number `request`. */
  datatype Comparison = Comparison(request: nat, uid: UserId, at: int)

  /** `compared` and `writes` are histories: code comparisons, and requests whose password LDAP took. */
  datatype State = State(requests: seq<Request>, compared: seq<Comparison>, writes: seq<nat>)

  datatype LdapWrite = Written | Refused | Raised

  datatype Answer =
    | Accepted(request: Option<nat>)
    | RateLimited
    | RequestNotFound | AlreadyVerified | OtpExpired | OtpLocked | OtpInvalid(remaining: int) | OtpVerified
    | TokenInvalid | TokenExpired | PolicyRejected | LdapFailed | PasswordSet

  datatype Call =
      /** `user` is what the LDAP lookup found; `contactOk` whether the given contact matches it. */
    | Ask(user: Option<UserId>, contactOk: bool, otp: string, now: int)
    | Verify(uid: UserId, otp: string, token: string, now: int)
    | Finish(token: string, policyOk: bool, ldap: LdapWrite, now: int)

  predicate AskedSince(requests: seq<Request>, uid: UserId, since: int) {
    exists i :: 0 <= i < |requests| && requests[i].uid == uid && requests[i].issuedAt >= since
  }

  predicate Open(r: Request, uid: UserId) {
    r.uid == uid && r.status in {Pending, Verified}
  }

  /** The request of `uid` that is pending or verified and was issued last. */
  function Latest(requests: seq<Request>, uid: UserId): (k: Option<nat>)
    ensures k.Some? ==> k.value < |requests| && Open(requests[k.value], uid)
  {
    if requests == [] then None
    else
      var n := |requests| - 1;
      var k := Latest(requests[..n], uid);
      if Open(requests[n], uid) && (k == None || requests[k.value].issuedAt <= requests[n].issuedAt) then Some(n) else k
  }

  /** A verified request whose completion token has this hash. */
  function WithToken(requests: seq<Request>, hash: Digest): (k: Option<nat>)
    ensures k.Some? ==>
            k.value < |requests| && requests[k.value].tokenHash == Some(hash) && requests[k.value].status == Verified
    ensures k == None ==> forall i :: 0 <= i < |requests| ==>
            !(requests[i].tokenHash == Some(hash) && requests[i].status == Verified)
  {
    if requests == [] then None
    else
      var n := |requests| - 1;
      var k := WithToken(requests[..n], hash);
      if k.Some? then k
      else if requests[n].tokenHash == Some(hash) && requests[n].status == Verified then Some(n) else None
  }

  function NewRequest(uid: UserId, otp: string, now: int): Request {
    Request(uid, Digest(otp), now, now + OTP_TTL, 0, MAX_ATTEMPTS, Pending, None, None, None, None)
  }

  function AskFor(s: State, user: Option<UserId>, contactOk: bool, otp: string, now: int): (State, Answer) {
    if user == None || !contactOk then (s, Accepted(None))
    else if AskedSince(s.requests, user.value, now - THROTTLE_WINDOW) then (s, RateLimited)
    else (s.(requests := s.requests + [NewRequest(user.value, otp, now)]), Accepted(Some(|s.requests|)))
  }

  function WithRequest(s: State, k: nat, r: Request): State
    requires k < |s.requests|
  {
    s.(requests := s.requests[k := r])
  }

  function VerifyOtp(s: State, uid: UserId, otp: string, token: string, now: int): (State, Answer) {
    var latest := Latest(s.requests, uid);
    if latest == None then (s, RequestNotFound)
    else
      var k := latest.value;
      var r := s.requests[k];
      if r.status == Verified then (s, AlreadyVerified)
      else if r.expiresAt < now then (WithRequest(s, k, r.(status := Expired)), OtpExpired)
      else if r.attempts >= r.maxAttempts then (WithRequest(s, k, r.(status := Locked)), OtpLocked)
      else
        var tried := r.(attempts := r.attempts + 1);
        var s1 := s.(compared := s.compared + [Comparison(k, uid, now)]);
        if r.otpHash != Digest(otp) then (WithRequest(s1, k, tried), OtpInvalid(r.maxAttempts - tried.attempts))
        else
          (WithRequest(s1, k, tried.(status := Verified, consumedAt := Some(now), tokenHash := Some(Digest(token)),
                                     tokenExpiresAt := Some(now + COMPLETION_TOKEN_TTL))),
           OtpVerified)
  }

  function CompleteReset(s: State, token: string, policyOk: bool, ldap: LdapWrite, now: int): (State, Answer) {
    var found := WithToken(s.requests, Digest(token));
    if found == None then (s, TokenInvalid)
    else
      var k := found.value;
      var r := s.requests[k];
      if r.tokenExpiresAt.Some? && r.tokenExpiresAt.value < now
        then (WithRequest(s, k, r.(status := Expired)), TokenExpired)
      else if !policyOk then (s, PolicyRejected)
      else if ldap != Written then (s, LdapFailed)
      else (WithRequest(s, k, r.(status := Completed, completedAt := Some(now))).(writes := s.writes + [k]),
        PasswordSet)
  }

  function Perform(s: State, call: Call): (State, Answer) {
    match call
    case Ask(user, contactOk, otp, now) => AskFor(s, user, contactOk, otp, now)
    case Verify(uid, otp, token, now) => VerifyOtp(s, uid, otp, token, now)
    case Finish(token, policyOk, ldap, now) => CompleteReset(s, token, policyOk, ldap, now)
  }

  function After(calls: seq<Call>): State {
    if calls == [] then State([], [], [])
    else Perform(After(calls[..|calls| - 1]), calls[|calls| - 1]).0
  }

  ghost predicate Timed(calls: seq<Call>) {
    forall i, j :: 0 <= i <= j < |calls| ==> calls[i].now <= calls[j].now
  }

  // ---------------------------------------------------------------- the requests of a run

  /** The only ways a request's status can move in one call. */
  predicate MayBecome(from: Status, to: Status) {
    match from
    case Pending => to in {Pending, Verified, Expired, Locked}
    case Verified => to in {Verified, Completed, Expired}
    case _ => to == from
  }

  predicate Evolves(r: Request, r': Request) {
    && MayBecome(r.status, r'.status)
    && r' == r.(status := r'.status, attempts := r'.attempts, consumedAt := r'.consumedAt, tokenHash := r'.tokenHash,
                tokenExpiresAt := r'.tokenExpiresAt, completedAt := r'.completedAt)
    && r.attempts <= r'.attempts <= r.attempts + 1
    && (r'.attempts != r.attempts ==> r.status == Pending && r.attempts < r.maxAttempts)
    && (r.status == Verified ==> r'.tokenHash == r.tokenHash && r'.tokenExpiresAt == r.tokenExpiresAt)
  }

  /** Each call moves every request along its status machine, and may add one at the end. */
  lemma CallEvolves(s: State, call: Call)
    ensures var s' := Perform(s, call).0;
            |s.requests| <= |s'.requests| <= |s.requests| + 1
            && forall k :: 0 <= k < |s.requests| ==> Evolves(s.requests[k], s'.requests[k])
  {
  }

  ghost predicate RequestOk(r: Request) {
    && r.expiresAt == r.issuedAt + 300_000_000 && r.maxAttempts == 5 && r.attempts <= 5
    && (r.status in {Verified, Completed} ==> r.consumedAt.Some? && r.tokenHash.Some? && r.tokenExpiresAt.Some?)
  }

  ghost predicate RequestsOk(requests: seq<Request>, now: int) {
    forall k :: 0 <= k < |requests| ==> RequestOk(requests[k]) && requests[k].issuedAt <= now
  }

  /** Accepted requests of one user are more than 60 seconds apart. */
  ghost predicate Spaced(requests: seq<Request>) {
    forall i, j :: 0 <= i < j < |requests| && requests[i].uid == requests[j].uid ==>
      requests[j].issuedAt > requests[i].issuedAt + 60_000_000
  }

  /** The comparisons of request k. */
  function Tries(compared: seq<Comparison>, k: nat): nat {
    if compared == [] then 0
    else Tries(compared[..|compared| - 1], k) + if compared[|compared| - 1].request == k then 1 else 0
  }

  ghost predicate Counted(s: State) {
    forall k :: 0 <= k < |s.requests| ==> Tries(s.compared, k) == s.requests[k].attempts
  }

  /** Every comparison was made for its request's user, between issue and expiry. */
  ghost predicate InTime(s: State, c: Comparison) {
    c.request < |s.requests| && c.uid == s.requests[c.request].uid
    && s.requests[c.request].issuedAt <= c.at <= s.requests[c.request].expiresAt
  }

  ghost predicate AllInTime(s: State) {
    forall i :: 0 <= i < |s.compared| ==> InTime(s, s.compared[i])
  }

  /** LDAP took a password for each completed request, once. */
  ghost predicate WritesOk(s: State) {
    && (forall i, j :: 0 <= i < j < |s.writes| ==> s.writes[i] != s.writes[j])
    && (forall i :: 0 <= i < |s.writes| ==> s.writes[i] < |s.requests| && s.requests[s.writes[i]].status == Completed)
    && (forall k :: 0 <= k < |s.requests| && s.requests[k].status == Completed ==> k in s.writes)
  }

  ghost predicate Inv(s: State, now: int) {
    RequestsOk(s.requests, now) && Spaced(s.requests) && Counted(s) && AllInTime(s) && WritesOk(s)
  }

  lemma TriesOfMore(compared: seq<Comparison>, c: Comparison)
    ensures forall k: nat :: Tries(compared + [c], k) == Tries(compared, k) + if c.request == k then 1 else 0
  {
    assert (compared + [c])[..|compared|] == compared;
  }

  lemma {:induction false} NoTries(compared: seq<Comparison>, k: nat)
    requires forall i :: 0 <= i < |compared| ==> compared[i].request != k
    ensures Tries(compared, k) == 0
  {
    if compared != [] {
      NoTries(compared[..|compared| - 1], k);
    }
  }

  lemma AskKeeps(s: State, call: Call, before: int)
    requires Inv(s, before) && call.Ask? && before <= call.now
    ensures Inv(Perform(s, call).0, call.now)
  {
    var s' := Perform(s, call).0;
    if |s'.requests| > |s.requests| {
      NoTries(s.compared, |s.requests|);
      forall i | 0 <= i < |s.compared| ensures InTime(s', s.compared[i]) {
        assert InTime(s, s.compared[i]);
      }
    }
  }

  /** Moving one request along its status machine keeps what does not count attempts or writes. */
  lemma ReplaceKeeps(s: State, k: nat, r: Request, now: int)
    requires RequestsOk(s.requests, now) && Spaced(s.requests) && AllInTime(s)
    requires k < |s.requests| && Evolves(s.requests[k], r) && RequestOk(r)
    ensures RequestsOk(WithRequest(s, k, r).requests, now) && Spaced(WithRequest(s, k, r).requests)
            && AllInTime(WithRequest(s, k, r))
  {
    forall i | 0 <= i < |s.compared| ensures InTime(WithRequest(s, k, r), s.compared[i]) {
      assert InTime(s, s.compared[i]);
    }
  }

  lemma RetireKeeps(s: State, k: nat, r: Request, now: int)
    requires Inv(s, now) && k < |s.requests| && Evolves(s.requests[k], r) && RequestOk(r)
    requires r.attempts == s.requests[k].attempts && s.requests[k].status != Completed && r.status != Completed
    ensures Inv(WithRequest(s, k, r), now)
  {
    ReplaceKeeps(s, k, r, now);
  }

  lemma CompareKeeps(s: State, k: nat, r: Request, now: int)
    requires Inv(s, now) && k < |s.requests| && Evolves(s.requests[k], r) && RequestOk(r)
    requires r.attempts == s.requests[k].attempts + 1 && r.status != Completed && now <= r.expiresAt
    ensures Inv(WithRequest(s, k, r).(compared := s.compared + [Comparison(k, r.uid, now)]), now)
  {
    ReplaceKeeps(s, k, r, now);
    var s' := WithRequest(s, k, r).(compared := s.compared + [Comparison(k, r.uid, now)]);
    TriesOfMore(s.compared, Comparison(k, r.uid, now));
    assert AllInTime(s') by {
      forall i | 0 <= i < |s'.compared| ensures InTime(s', s'.compared[i]) {
        assert i < |s.compared| ==> InTime(WithRequest(s, k, r), s.compared[i]);
      }
    }
    assert Counted(s');
  }

  lemma VerifyKeeps(s: State, call: Call, before: int)
    requires Inv(s, before) && call.Verify? && before <= call.now
    ensures Inv(Perform(s, call).0, call.now)
  {
    var s' := Perform(s, call).0;
    CallEvolves(s, call);
    var latest := Latest(s.requests, call.uid);
    if latest.Some? {
      var k := latest.value;
      var r := s'.requests[k];
      if r.attempts == s.requests[k].attempts {
        RetireKeeps(s, k, r, call.now);
      } else {
        CompareKeeps(s, k, r, call.now);
      }
      assert s' in {s, WithRequest(s, k, r),
        WithRequest(s, k, r).(compared := s.compared + [Comparison(k, r.uid, call.now)])};
    }
  }

  lemma WriteKeeps(s: State, k: nat, r: Request, now: int)
    requires Inv(s, now) && k < |s.requests| && Evolves(s.requests[k], r) && RequestOk(r)
    requires r.attempts == s.requests[k].attempts && s.requests[k].status == Verified && r.status == Completed
    ensures Inv(WithRequest(s, k, r).(writes := s.writes + [k]), now)
  {
    ReplaceKeeps(s, k, r, now);
    var s' := WithRequest(s, k, r).(writes := s.writes + [k]);
    assert AllInTime(s') by {
      forall i | 0 <= i < |s'.compared| ensures InTime(s', s'.compared[i]) {
        assert InTime(WithRequest(s, k, r), s.compared[i]);
      }
    }
    WritesGrow(s, k, r);
  }

  lemma WritesGrow(s: State, k: nat, r: Request)
    requires WritesOk(s) && k < |s.requests| && s.requests[k].status == Verified && r.status == Completed
    ensures WritesOk(WithRequest(s, k, r).(writes := s.writes + [k]))
  {
  }

  lemma FinishKeeps(s: State, call: Call, before: int)
    requires Inv(s, before) && call.Finish? && before <= call.now
    ensures Inv(Perform(s, call).0, call.now)
  {
    var s', found := Perform(s, call).0, WithToken(s.requests, Digest(call.token));
    if found.Some? {
      var k := found.value;
      var r := s'.requests[k];
      if r.status == Completed {
        WriteKeeps(s, k, r, call.now);
      } else {
        RetireKeeps(s, k, r, call.now);
      }
      assert s' in {s, WithRequest(s, k, r), WithRequest(s, k, r).(writes := s.writes + [k])};
    }
  }

  lemma {:induction false} RunKeeps(calls: seq<Call>, now: int)
    requires Timed(calls) && forall i :: 0 <= i < |calls| ==> calls[i].now <= now
    ensures Inv(After(calls), now)
  {
    if calls != [] {
      var init, last := calls[..|calls| - 1], calls[|calls| - 1];
      RunKeeps(init, last.now);
      match last
      case Ask(_, _, _, _) => AskKeeps(After(init), last, last.now);
      case Verify(_, _, _, _) => VerifyKeeps(After(init), last, last.now);
      case Finish(_, _, _, _) => FinishKeeps(After(init), last, last.now);
    }
  }

  /** The request that verify_otp looks at is the newest open one, because accepted requests are spaced. */
  lemma {:induction false} LatestIsNewest(requests: seq<Request>, uid: UserId, i: nat)
    requires Spaced(requests) && i < |requests| && Open(requests[i], uid)
    ensures Latest(requests, uid).Some? && i <= Latest(requests, uid).value
  {
    var n := |requests| - 1;
    if i < n {
      LatestIsNewest(requests[..n], uid, i);
    }
    assert Latest(requests[..n], uid).Some? && Open(requests[n], uid) ==>
      requests[Latest(requests[..n], uid).value].issuedAt <= requests[n].issuedAt;
  }
}
