/** Refresh tokens: rotation, logout and the blacklist in Redis (jwt_service.py, auth_service.py). */
module Tokens {
  import opened Common
  import opened Redis

  const REFRESH_TOKEN_TTL := 7 * 86_400

  datatype Jti = Jti(hex: string)
  datatype TokenType = Access | Refresh

  /** A token as presented: `genuine` when signature, issuer and required claims check out. */
  datatype Token = Token(genuine: bool, kind: TokenType, sub: string, jti: Jti, iat: int, exp: int)

  datatype Verdict = Accepted | TokenExpired | TokenInvalid | TokenWrongType | TokenRevoked | UserNotFound

  /** The signature, then `iat` and `exp`, then the type (jwt.decode and decode_refresh_token). */
  function DecodeRefresh(token: Token, now: int): Verdict {
    if !token.genuine || token.iat * SECOND > now then TokenInvalid
    else if token.exp * SECOND <= now then TokenExpired
    else if token.kind != Refresh then TokenWrongType
    else Accepted
  }

  function VerifyRefresh(blacklist: Cache<Jti, ()>, token: Token, now: int): Verdict {
    var verdict := DecodeRefresh(token, now);
    if verdict == Accepted && Get(blacklist, token.jti, now).Some? then TokenRevoked else verdict
  }

  function Ban(blacklist: Cache<Jti, ()>, jti: Jti, exp: int, now: int): Cache<Jti, ()> {
    var ttl := exp - Seconds(now);
    if ttl <= 0 then blacklist else SetEx(blacklist, jti, ttl, (), now)
  }

  datatype Exchange = Exchange(verdict: Verdict, issued: Option<Token>)

  /** When a presented refresh token is accepted, and how it is refused otherwise, on a clock in microseconds. */
  lemma RefreshVerdicts(blacklist: Cache<Jti, ()>, token: Token, now: int)
    ensures var started, ended := token.iat * 1_000_000 <= now, token.exp * 1_000_000 <= now;
            var banned := token.jti in blacklist && now < blacklist[token.jti].until;
            var verdict := VerifyRefresh(blacklist, token, now);
            && (verdict == TokenInvalid <==> !token.genuine || !started)
            && (verdict == TokenExpired <==> token.genuine && started && ended)
            && (verdict == TokenWrongType <==> token.genuine && started && !ended && token.kind == Access)
            && (verdict == TokenRevoked <==> token.genuine && started && !ended && token.kind == Refresh && banned)
            && (verdict == Accepted <==> token.genuine && started && !ended && token.kind == Refresh && !banned)
            && (DecodeRefresh(token, now) == if verdict == TokenRevoked then Accepted else verdict)
  {
  }

  /** What an exchange answers and issues: a token of the same user from this second on, for seven days. */
  lemma ExchangeCases(blacklist: Cache<Jti, ()>, token: Token, active: bool, jti: Jti, now: int)
    ensures var (after, r) := Rotated(blacklist, token, active, jti, now);
            var verdict := VerifyRefresh(blacklist, token, now);
            && (r.verdict == Accepted <==> verdict == Accepted && active)
            && (r.verdict == UserNotFound <==> verdict == Accepted && !active)
            && (verdict != Accepted ==> r.verdict == verdict)
            && (r.verdict != Accepted ==> after == blacklist && r.issued == None)
            && (r.verdict == Accepted ==>
                  && r.issued == Some(Token(true, Refresh, token.sub, jti, now / 1_000_000, now / 1_000_000 + 604_800))
                  && after == blacklist[token.jti := Kept((), now + (token.exp - now / 1_000_000) * 1_000_000)])
  {
  }

  /** Logging out bans what would decode, whoever holds it and whether or not it is banned already. */
  lemma LogoutCases(blacklist: Cache<Jti, ()>, token: Token, now: int)
    ensures var after := LoggedOut(blacklist, token, now);
            && (token.genuine && token.kind == Refresh && token.iat * 1_000_000 <= now < token.exp * 1_000_000 ==>
                  after == blacklist[token.jti := Kept((), now + (token.exp - now / 1_000_000) * 1_000_000)])
            && (!(token.genuine && token.kind == Refresh && token.iat * 1_000_000 <= now < token.exp * 1_000_000) ==>
                  after == blacklist)
  {
  }

  class TokenStore {
    var blacklist: Cache<Jti, ()>

    constructor ()
      ensures blacklist == map[]
    {
      blacklist := map[];
    }

    method BlacklistRefreshToken(jti: Jti, exp: int, now: int)
      modifies this
      ensures blacklist == Ban(old(blacklist), jti, exp, now)
    {
      var ttl := exp - Seconds(now);
      if ttl <= 0 {
        return;
      }
      blacklist := SetEx(blacklist, jti, ttl, (), now);
    }

    /** Rotation: the old token is banned before the new one is made. */
    method RefreshTokens(token: Token, active: bool, newJti: Jti, now: int) returns (r: Exchange)
      modifies this
      ensures (blacklist, r) == Rotated(old(blacklist), token, active, newJti, now)
    {
      var verdict := VerifyRefresh(blacklist, token, now);
      if verdict != Accepted {
        return Exchange(verdict, None);
      }
      if !active {
        return Exchange(UserNotFound, None);
      }
      BlacklistRefreshToken(token.jti, token.exp, now);
      r := Exchange(Accepted, Some(NewRefresh(token.sub, newJti, now)));
    }

    /** Logout never fails: a token that does not decode is ignored. */
    method Logout(token: Token, now: int)
      modifies this
      ensures blacklist == LoggedOut(old(blacklist), token, now)
    {
      if DecodeRefresh(token, now) == Accepted {
        BlacklistRefreshToken(token.jti, token.exp, now);
      }
    }
  }

  function NewRefresh(sub: string, jti: Jti, now: int): Token {
    Token(true, Refresh, sub, jti, Seconds(now), Seconds(now + REFRESH_TOKEN_TTL * SECOND))
  }

  function Rotated(blacklist: Cache<Jti, ()>, token: Token, active: bool, jti: Jti, now: int)
      : (Cache<Jti, ()>, Exchange) {
    var verdict := VerifyRefresh(blacklist, token, now);
    if verdict != Accepted then (blacklist, Exchange(verdict, None))
    else if !active then (blacklist, Exchange(UserNotFound, None))
    else (Ban(blacklist, token.jti, token.exp, now), Exchange(Accepted, Some(NewRefresh(token.sub, jti, now))))
  }

  function LoggedOut(blacklist: Cache<Jti, ()>, token: Token, now: int): Cache<Jti, ()> {
    if DecodeRefresh(token, now) == Accepted then Ban(blacklist, token.jti, token.exp, now) else blacklist
  }

  // ---------------------------------------------------------------- runs

  datatype Step =
    | Exchanged(token: Token, active: bool, jti: Jti, now: int)
    | LogsOut(token: Token, now: int)

  function Perform(blacklist: Cache<Jti, ()>, step: Step): Cache<Jti, ()> {
    match step
    case Exchanged(token, active, jti, now) => Rotated(blacklist, token, active, jti, now).0
    case LogsOut(token, now) => LoggedOut(blacklist, token, now)
  }

  function After(blacklist: Cache<Jti, ()>, steps: seq<Step>): Cache<Jti, ()> {
    if steps == [] then blacklist else Perform(After(blacklist, steps[..|steps| - 1]), steps[|steps| - 1])
  }

  /** Step i spends its token: it is exchanged for a new pair, or its holder logs out with it. */
  ghost predicate Spends(blacklist: Cache<Jti, ()>, steps: seq<Step>, i: nat)
    requires i < |steps|
  {
    var before := After(blacklist, steps[..i]);
    match steps[i]
    case Exchanged(token, active, jti, now) => Rotated(before, token, active, jti, now).1.verdict == Accepted
    case LogsOut(token, now) => DecodeRefresh(token, now) == Accepted
  }

  /** One jti, one expiry: `uuid4` never repeats, so genuine tokens with one jti are one token. */
  ghost predicate OneExpiry(steps: seq<Step>) {
    forall i, j ::
      (0 <= i < |steps| && 0 <= j < |steps| && steps[i].token.genuine && steps[j].token.genuine
       && steps[i].token.jti == steps[j].token.jti) ==>
        steps[i].token.exp == steps[j].token.exp
  }

  predicate BannedUntil(blacklist: Cache<Jti, ()>, jti: Jti, until: int) {
    jti in blacklist && blacklist[jti].until >= until
  }

  /**
   * Cutting both times to seconds before subtracting never ends the ban before the token itself, nor
   * a second later: the entry lives until `exp` at least and less than one second more.
   */
  lemma BanCoversToken(blacklist: Cache<Jti, ()>, jti: Jti, exp: int, now: int)
    requires now < exp * SECOND
    ensures BannedUntil(Ban(blacklist, jti, exp, now), jti, exp * SECOND)
    ensures Ban(blacklist, jti, exp, now)[jti].until < (exp + 1) * SECOND
  {
  }

  lemma StepKeepsBan(blacklist: Cache<Jti, ()>, step: Step, jti: Jti, exp: int)
    requires BannedUntil(blacklist, jti, exp * SECOND)
    requires step.token.genuine && step.token.jti == jti ==> step.token.exp == exp
    ensures BannedUntil(Perform(blacklist, step), jti, exp * SECOND)
  {
    if step.token.jti == jti && step.now < exp * SECOND {
      BanCoversToken(blacklist, jti, exp, step.now);
    }
  }

  lemma {:induction false} SpentIsBanned(blacklist: Cache<Jti, ()>, steps: seq<Step>, i: nat, k: nat)
    requires i < k <= |steps| && OneExpiry(steps) && Spends(blacklist, steps, i)
    ensures BannedUntil(After(blacklist, steps[..k]), steps[i].token.jti, steps[i].token.exp * SECOND)
  {
    assert steps[..k][..k - 1] == steps[..k - 1];
    if k == i + 1 {
      BanCoversToken(After(blacklist, steps[..i]), steps[i].token.jti, steps[i].token.exp, steps[i].now);
    } else {
      SpentIsBanned(blacklist, steps, i, k - 1);
      StepKeepsBan(After(blacklist, steps[..k - 1]), steps[k - 1], steps[i].token.jti, steps[i].token.exp);
    }
  }

  /** A rotated or logged-out refresh token is refused at every later instant of every run. */
  lemma SpentStaysSpent(blacklist: Cache<Jti, ()>, steps: seq<Step>, i: nat, k: nat)
    requires i < k < |steps| && OneExpiry(steps) && Spends(blacklist, steps, i)
    requires steps[k].token.jti == steps[i].token.jti
    ensures VerifyRefresh(After(blacklist, steps[..k]), steps[k].token, steps[k].now) in
            {TokenInvalid, TokenExpired, TokenRevoked, TokenWrongType}
    ensures steps[k].token == steps[i].token && steps[i].now <= steps[k].now ==>
              VerifyRefresh(After(blacklist, steps[..k]), steps[k].token, steps[k].now) ==
              if steps[k].now < steps[i].token.exp * SECOND then TokenRevoked else TokenExpired
  {
    SpentIsBanned(blacklist, steps, i, k);
  }

  /** At the instant of a rotation the old token is refused already, and the new one is accepted for its seven days. */
  lemma RotationHandsOver(blacklist: Cache<Jti, ()>, token: Token, active: bool, jti: Jti, now: int, later: int)
    requires Rotated(blacklist, token, active, jti, now).1.verdict == Accepted
    requires jti !in blacklist && jti != token.jti
    requires now <= later < (Seconds(now) + 604_800) * 1_000_000
    ensures var (after, r) := Rotated(blacklist, token, active, jti, now);
            && VerifyRefresh(after, token, now) == TokenRevoked
            && r.issued.Some? && r.issued.value.sub == token.sub
            && VerifyRefresh(after, r.issued.value, later) == Accepted
  {
    BanCoversToken(blacklist, token.jti, token.exp, now);
  }

  /** So one refresh token is exchanged for at most one pair. */
  lemma OnePairPerToken(blacklist: Cache<Jti, ()>, steps: seq<Step>, i: nat, k: nat)
    requires i < k < |steps| && OneExpiry(steps) && steps[i].Exchanged? && steps[k].Exchanged?
    requires steps[k].token.jti == steps[i].token.jti && Spends(blacklist, steps, i)
    ensures !Spends(blacklist, steps, k)
  {
    SpentStaysSpent(blacklist, steps, i, k);
  }

  /** Nothing else is refused: a genuine refresh token that nobody spent is accepted until it expires. */
  lemma {:induction false} UnspentIsAccepted(steps: seq<Step>, token: Token, now: int)
    requires token.genuine && token.kind == Refresh && token.iat * SECOND <= now < token.exp * SECOND
    requires forall i :: 0 <= i < |steps| && Spends(map[], steps, i) ==> steps[i].token.jti != token.jti
    ensures VerifyRefresh(After(map[], steps), token, now) == Accepted
    ensures token.jti !in After(map[], steps)
  {
    if steps != [] {
      var init := steps[..|steps| - 1];
      forall i | 0 <= i < |init| && Spends(map[], init, i) ensures init[i].token.jti != token.jti {
        assert init[..i] == steps[..i];
      }
      UnspentIsAccepted(init, token, now);
    }
  }
}
