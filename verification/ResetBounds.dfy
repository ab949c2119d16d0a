/** How often a one-time code can be guessed, and what a password written by a reset has gone through. */
module ResetBounds {
  import opened Common
  import opened Redis
  import opened ResetModel

  // ---------------------------------------------------------------- comparisons in a window

  predicate Falls(c: Comparison, uid: UserId, from: int, to: int) {
    c.uid == uid && from <= c.at <= to
  }

  /** The comparisons for `uid` between `from` and `to` that belong to the first n requests. */
  function ComparedBelow(compared: seq<Comparison>, uid: UserId, from: int, to: int, n: nat): nat {
    if compared == [] then 0
    else
      var last := compared[|compared| - 1];
      ComparedBelow(compared[..|compared| - 1], uid, from, to, n) + if Falls(last, uid, from, to) && last.request < n
        then 1 else 0
  }

  /** The comparisons of codes for `uid` between `from` and `to`. */
  function ComparedIn(compared: seq<Comparison>, uid: UserId, from: int, to: int): nat {
    if compared == [] then 0
    else ComparedIn(compared[..|compared| - 1], uid, from, to) + if Falls(compared[|compared| - 1], uid, from, to)
      then 1 else 0
  }

  lemma {:induction false} AllBelow(compared: seq<Comparison>, uid: UserId, from: int, to: int, n: nat)
    requires forall i :: 0 <= i < |compared| ==> compared[i].request < n
    ensures ComparedIn(compared, uid, from, to) == ComparedBelow(compared, uid, from, to, n)
  {
    if compared != [] {
      AllBelow(compared[..|compared| - 1], uid, from, to, n);
    }
  }

  lemma {:induction false} NoneBelowZero(compared: seq<Comparison>, uid: UserId, from: int, to: int)
    ensures ComparedBelow(compared, uid, from, to, 0) == 0
  {
    if compared != [] {
      NoneBelowZero(compared[..|compared| - 1], uid, from, to);
    }
  }

  lemma {:induction false} OneMoreRequest(compared: seq<Comparison>, uid: UserId, from: int, to: int, k: nat)
    ensures ComparedBelow(compared, uid, from, to, k + 1) <= ComparedBelow(compared, uid, from, to, k)
            + Tries(compared, k)
    ensures (forall i :: 0 <= i < |compared| && compared[i].request == k ==> !Falls(compared[i], uid, from, to)) ==>
              ComparedBelow(compared, uid, from, to, k + 1) == ComparedBelow(compared, uid, from, to, k)
  {
    if compared != [] {
      OneMoreRequest(compared[..|compared| - 1], uid, from, to, k);
    }
  }

  // ---------------------------------------------------------------- requests in a window

  predicate Alive(r: Request, uid: UserId, from: int, to: int) {
    r.uid == uid && from - OTP_TTL <= r.issuedAt <= to
  }

  /** The requests of `uid` whose code could be compared between `from` and `to`, among the first n. */
  function AliveAmong(requests: seq<Request>, uid: UserId, from: int, to: int): nat {
    if requests == [] then 0
    else AliveAmong(requests[..|requests| - 1], uid, from, to) + if Alive(requests[|requests| - 1], uid, from, to)
      then 1 else 0
  }

  /** Spacing pushes the last of m requests at least 60 (m - 1) seconds past the first. */
  lemma {:induction false} SpacingPushes(requests: seq<Request>, uid: UserId, from: int, to: int) returns (last: nat)
    requires Spaced(requests) && AliveAmong(requests, uid, from, to) > 0
    ensures last < |requests| && Alive(requests[last], uid, from, to)
    ensures requests[last].issuedAt >= from - OTP_TTL + (AliveAmong(requests, uid, from, to) - 1) * THROTTLE_WINDOW
  {
    var n := |requests| - 1;
    last := n;
    if AliveAmong(requests[..n], uid, from, to) > 0 {
      var prev := SpacingPushes(requests[..n], uid, from, to);
      if !Alive(requests[n], uid, from, to) {
        last := prev;
      }
    }
  }

  lemma {:induction false} ComparedAtMost(s: State, uid: UserId, from: int, to: int, n: nat)
    requires n <= |s.requests| && Counted(s) && AllInTime(s)
    requires forall k :: 0 <= k < |s.requests| ==> RequestOk(s.requests[k])
    ensures ComparedBelow(s.compared, uid, from, to, n) <= MAX_ATTEMPTS * AliveAmong(s.requests[..n], uid, from, to)
  {
    if n == 0 {
      NoneBelowZero(s.compared, uid, from, to);
    } else {
      var k := n - 1;
      ComparedAtMost(s, uid, from, to, k);
      OneMoreRequest(s.compared, uid, from, to, k);
      assert s.requests[..n][..k] == s.requests[..k];
      if !Alive(s.requests[k], uid, from, to) {
        forall i | 0 <= i < |s.compared| && s.compared[i].request == k ensures !Falls(s.compared[i], uid, from, to) {
          assert InTime(s, s.compared[i]);
        }
      } else {
        assert Tries(s.compared, k) == s.requests[k].attempts <= MAX_ATTEMPTS;
      }
    }
  }

  /**
   * Any window of W seconds of any run sees at most 5 (floor((W + 300) / 60) + 1) comparisons of codes for one user.
   */
  lemma GuessingBound(calls: seq<Call>, uid: UserId, from: int, seconds: nat)
    requires Timed(calls)
    ensures ComparedIn(After(calls).compared, uid, from, from + seconds * 1_000_000)
            <= 5 * ((seconds + 300) / 60 + 1)
  {
    var s, to := After(calls), from + seconds * SECOND;
    RunKeeps(calls, if calls == [] then 0 else calls[|calls| - 1].now);
    forall i | 0 <= i < |s.compared| ensures s.compared[i].request < |s.requests| {
      assert InTime(s, s.compared[i]);
    }
    AllBelow(s.compared, uid, from, to, |s.requests|);
    ComparedAtMost(s, uid, from, to, |s.requests|);
    assert s.requests[..|s.requests|] == s.requests;
    AliveBound(s.requests, uid, from, seconds);
  }

  lemma AliveBound(requests: seq<Request>, uid: UserId, from: int, seconds: nat)
    requires Spaced(requests)
    ensures AliveAmong(requests, uid, from, from + seconds * SECOND) <= (seconds + 300) / 60 + 1
  {
    var m := AliveAmong(requests, uid, from, from + seconds * SECOND);
    if m > 0 {
      var last := SpacingPushes(requests, uid, from, from + seconds * SECOND);
      assert (m - 1) * THROTTLE_WINDOW <= seconds * SECOND + OTP_TTL;
    }
  }

  /**
   * Per request: at most 5 comparisons ever, none before issue or after expiry, and requests of a user 60 seconds
   * apart.
   */
  lemma RequestsAreSafe(calls: seq<Call>)
    requires Timed(calls)
    ensures var s := After(calls);
            && (forall k :: 0 <= k < |s.requests| ==> Tries(s.compared, k) == s.requests[k].attempts <= 5)
            && (forall i :: 0 <= i < |s.compared| ==> InTime(s, s.compared[i]))
            && Spaced(s.requests)
  {
    RunKeeps(calls, if calls == [] then 0 else calls[|calls| - 1].now);
  }

  // ---------------------------------------------------------------- what a written password has gone through

  /** Call j verified request k with the right code and handed out the completion token with this hash. */
  ghost predicate VerifiedBy(calls: seq<Call>, j: int, k: nat, hash: Digest, until: int) {
    0 <= j < |calls|
    && var before := After(calls[..j]);
    && k < |before.requests| && before.requests[k].status == Pending
    && match calls[j]
       case Verify(uid, otp, token, now) =>
         && uid == before.requests[k].uid && Digest(otp) == before.requests[k].otpHash
         && now <= before.requests[k].expiresAt
         && hash == Digest(token) && until == now + 600_000_000
       case _ => false
  }

  lemma VerifiedNow(s: State, call: Call, k: nat)
    requires k < |s.requests| && s.requests[k].status != Verified && Perform(s, call).0.requests[k].status == Verified
    ensures call.Verify? && s.requests[k].status == Pending
    ensures call.uid == s.requests[k].uid && Digest(call.otp) == s.requests[k].otpHash
            && call.now <= s.requests[k].expiresAt
    ensures Perform(s, call).0.requests[k].tokenHash == Some(Digest(call.token))
    ensures Perform(s, call).0.requests[k].tokenExpiresAt == Some(call.now + 600_000_000)
  {
  }

  /** The completion token of request k, if it has one, was handed out by call j. */
  ghost predicate Originates(calls: seq<Call>, j: int, k: nat, r: Request) {
    r.tokenHash.Some? && r.tokenExpiresAt.Some? && VerifiedBy(calls, j, k, r.tokenHash.value, r.tokenExpiresAt.value)
  }

  lemma AfterNext(calls: seq<Call>, n: nat)
    requires n < |calls|
    ensures After(calls[..n + 1]) == Perform(After(calls[..n]), calls[n]).0
  {
    assert calls[..n + 1][..n] == calls[..n];
  }

  lemma VerifiedStays(calls: seq<Call>, j: int, k: nat, r: Request, r': Request)
    requires Originates(calls, j, k, r) && Evolves(r, r') && r.status == Verified
    ensures Originates(calls, j, k, r')
  {
  }

  /** A call that leaves request k verified, and has not found it so, has verified it. */
  lemma VerifiedHere(calls: seq<Call>, n: nat, k: nat)
    requires n < |calls| && k < |After(calls[..n + 1]).requests| && After(calls[..n + 1]).requests[k].status == Verified
    requires k < |After(calls[..n]).requests| ==> After(calls[..n]).requests[k].status != Verified
    ensures Originates(calls, n, k, After(calls[..n + 1]).requests[k])
  {
    AfterNext(calls, n);
    NewIsPending(After(calls[..n]), calls[n], k);
    VerifiedNow(After(calls[..n]), calls[n], k);
  }

  lemma NewIsPending(s: State, call: Call, k: nat)
    ensures |s.requests| <= k < |Perform(s, call).0.requests| ==> Perform(s, call).0.requests[k].status == Pending
  {
  }

  lemma {:induction false} VerifiedHasOrigin(calls: seq<Call>, n: nat, k: nat) returns (j: int)
    requires n <= |calls| && k < |After(calls[..n]).requests| && After(calls[..n]).requests[k].status == Verified
    ensures j < n && Originates(calls, j, k, After(calls[..n]).requests[k])
  {
    assert n > 0;
    var before := After(calls[..n - 1]);
    if k < |before.requests| && before.requests[k].status == Verified {
      j := VerifiedHasOrigin(calls, n - 1, k);
      AfterNext(calls, n - 1);
      CallEvolves(before, calls[n - 1]);
      VerifiedStays(calls, j, k, before.requests[k], After(calls[..n]).requests[k]);
    } else {
      j := n - 1;
      VerifiedHere(calls, n - 1, k);
    }
  }

  /**
   * LDAP takes a password only from a call that brings the completion token of an earlier right code,
   * given before the code expired and at most 10 minutes ago.
   */
  lemma WriteFollowsRightCode(calls: seq<Call>, i: nat)
    requires i < |calls| && Perform(After(calls[..i]), calls[i]).1 == PasswordSet
    ensures calls[i].Finish?
    ensures exists j, k: nat, until ::
              j < i && VerifiedBy(calls, j, k, Digest(calls[i].token), until) && calls[i].now <= until
  {
    var s := After(calls[..i]);
    var k := WithToken(s.requests, Digest(calls[i].token)).value;
    var j := VerifiedHasOrigin(calls, i, k);
    assert VerifiedBy(calls, j, k, Digest(calls[i].token), s.requests[k].tokenExpiresAt.value);
  }

  /** No request's password reaches LDAP twice, and exactly the completed requests' passwords reached it. */
  lemma OneWritePerRequest(calls: seq<Call>)
    requires Timed(calls)
    ensures var s := After(calls);
            && (forall i, j :: 0 <= i < j < |s.writes| ==> s.writes[i] != s.writes[j])
            && (forall k: nat :: k in s.writes <==> k < |s.requests| && s.requests[k].status == Completed)
  {
    RunKeeps(calls, if calls == [] then 0 else calls[|calls| - 1].now);
  }
}
