/** The interceptors case by case, on the event and the request. */
module RefreshCases {
  import opened Common
  import opened RefreshModel

  /** `url?.includes(part)`: the part stands somewhere in the url. */
  ghost predicate Contains(url: Option<string>, part: string) {
    url.Some? && exists before: string, after: string :: url.value == before + part + after
  }

  lemma ContainsIff(url: Option<string>, part: string)
    ensures Includes(url, part) <==> Contains(url, part)
  {
    if Includes(url, part) {
      var i :| 0 <= i <= |url.value| && part <= url.value[i..];
      assert url.value == url.value[..i] + part + url.value[i + |part|..];
    }
    if Contains(url, part) {
      var before: string, after: string :| url.value == before + part + after;
      assert url.value[|before|..] == part + after;
    }
  }

  /** The urls whose failures are final. */
  ghost predicate IsLoginCall(url: Option<string>) {
    Contains(url, "/auth/login") || Contains(url, "/auth/refresh")
  }

  /**
   * The first 401 of a request: with a refresh token at hand it starts the refresh, or joins the queue when one is in
   * flight; without such a token it is rejected and the session is cleared.
   */
  lemma FirstUnauthorized(s: State, id: ReqId)
    requires id in s.requests && s.requests[id].status == Flying
    requires !s.requests[id].retry && !IsLoginCall(s.requests[id].url)
    ensures var s', r := Perform(s, Failed(id, Some(401))), s.requests[id];
            var atHand := s.tokens.Some? && s.tokens.value.refresh != "";
            && s'.requests.Keys == s.requests.Keys && s'.granted == s.granted && s'.replays == s.replays
            && (forall other :: other in s.requests && other != id ==> s'.requests[other] == s.requests[other])
            && var r' := s'.requests[id];
            && r'.retry && r'.url == r.url && r'.auth == r.auth
            && (!atHand ==>
                  && r'.status == Rejected && s'.tokens == None
                  && s'.isRefreshing == s.isRefreshing && s'.refreshQueue == s.refreshQueue && s'.pending == s.pending
                  && s'.sent == s.sent)
            && (atHand && s.isRefreshing ==>
                  && r'.status == Parked && s'.tokens == s.tokens
                  && s'.isRefreshing && s'.refreshQueue == s.refreshQueue + [id] && s'.pending == s.pending
                  && s'.sent == s.sent)
            && (atHand && !s.isRefreshing ==>
                  && r'.status == Refreshing && s'.tokens == s.tokens
                  && s'.isRefreshing && s'.refreshQueue == s.refreshQueue
                  && s'.pending == s.pending + [RefreshCall(id, s.tokens.value.refresh)]
                  && s'.sent == s.sent + [s.tokens.value.refresh])
  {
    ContainsIff(s.requests[id].url, "/auth/login");
    ContainsIff(s.requests[id].url, "/auth/refresh");
  }

  /** Any other error is final: the request is rejected, and session, queue and calls stay as they are. */
  lemma OtherErrors(s: State, id: ReqId, code: Option<int>)
    requires id in s.requests && s.requests[id].status == Flying
    requires code == None || code.value != 401 || s.requests[id].retry || IsLoginCall(s.requests[id].url)
    ensures var s', r := Perform(s, Failed(id, code)), s.requests[id];
            && s'.requests.Keys == s.requests.Keys
            && (forall other :: other in s.requests && other != id ==> s'.requests[other] == s.requests[other])
            && s'.requests[id].status == Rejected && s'.requests[id].retry == r.retry
            && s'.requests[id].url == r.url && s'.requests[id].auth == r.auth
            && s'.tokens == s.tokens && s'.isRefreshing == s.isRefreshing && s'.refreshQueue == s.refreshQueue
            && s'.pending == s.pending && s'.sent == s.sent && s'.granted == s.granted && s'.replays == s.replays
  {
    ContainsIff(s.requests[id].url, "/auth/login");
    ContainsIff(s.requests[id].url, "/auth/refresh");
  }

  /** So a refresh call is posted exactly by a first 401, with a token at hand and none in flight. */
  lemma RefreshStartsIff(s: State, e: Event)
    ensures |Perform(s, e).sent| > |s.sent| <==>
            && e.Failed? && e.code == Some(401)
            && e.id in s.requests && s.requests[e.id].status == Flying
            && !s.requests[e.id].retry && !IsLoginCall(s.requests[e.id].url)
            && s.tokens.Some? && s.tokens.value.refresh != "" && !s.isRefreshing
  {
    match e
    case Failed(id, code) =>
      if id in s.requests && s.requests[id].status == Flying {
        if code == Some(401) && !s.requests[id].retry && !IsLoginCall(s.requests[id].url) {
          FirstUnauthorized(s, id);
        } else {
          OtherErrors(s, id, code);
        }
      }
    case RefreshOk(k, pair) =>
      if k < |s.pending| {
        RepeatingPostsNothing(s.(tokens := Some(pair), granted := s.granted + [pair.refresh]), s.refreshQueue,
                              pair.access);
      }
    case _ =>
  }

  lemma {:induction false} RepeatingPostsNothing(s: State, ids: seq<ReqId>, token: string)
    ensures RepeatAll(s, ids, token).sent == s.sent
  {
    if ids != [] {
      RepeatingPostsNothing(s, ids[..|ids| - 1], token);
    }
  }

  /** A request is sent with the access token of the moment, unless it brings a header or there is no token. */
  lemma SentHeader(s: State, id: ReqId, url: Option<string>, preset: Option<string>)
    requires id !in s.requests
    ensures var s' := Perform(s, Send(id, url, preset));
            && s' == s.(requests := s'.requests) && s'.requests.Keys == s.requests.Keys + {id}
            && (forall other :: other in s.requests ==> s'.requests[other] == s.requests[other])
            && var r := s'.requests[id];
            && r.url == url && r.status == Flying && !r.retry
            && (preset.Some? ==> r.auth == preset)
            && (preset == None && s.tokens.Some? && s.tokens.value.access != "" ==>
                  r.auth == Some("Bearer " + s.tokens.value.access))
            && (preset == None && (s.tokens == None || s.tokens.value.access == "") ==> r.auth == None)
  {
  }

  /** An answer settles its request and nothing else. */
  lemma AnswerSettles(s: State, id: ReqId)
    requires id in s.requests && s.requests[id].status == Flying
    ensures var s' := Perform(s, Answered(id));
            && s' == s.(requests := s'.requests) && s'.requests.Keys == s.requests.Keys
            && (forall other :: other in s.requests && other != id ==> s'.requests[other] == s.requests[other])
            && s'.requests[id] == s.requests[id].(status := Fulfilled)
  {
  }

  /** The refresh in flight has come back with a pair: the session, and the requests that are repeated, in order. */
  lemma RefreshSucceeds(s: State, pair: TokenPair)
    requires Inv(s) && |s.pending| > 0
    ensures var s' := Perform(s, RefreshOk(0, pair));
            var n, m := |s.replays|, |s.refreshQueue|;
            && s'.tokens == Some(pair) && !s'.isRefreshing && s'.refreshQueue == [] && s'.pending == []
            && s'.sent == s.sent && s'.granted == s.granted + [pair.refresh]
            && |s'.replays| == n + m + 1 && s'.replays[..n] == s.replays
            && (forall i :: n <= i < n + m ==> s'.replays[i] == Replay(s.refreshQueue[i - n], pair.access))
            && s'.replays[n + m] == Replay(s.pending[0].id, pair.access)
  {
    RefreshedMeaning(s, 0, pair);
  }

  /** Each repeated request is on its way again with the new token in its header, and no other has changed. */
  lemma RepeatedColumns(s: State, pair: TokenPair, id: ReqId)
    requires Inv(s) && |s.pending| > 0 && id in s.requests
    ensures var s', r := Perform(s, RefreshOk(0, pair)), s.requests[id];
            && id in s'.requests
            && (id !in s.refreshQueue && id != s.pending[0].id ==> s'.requests[id] == r)
            && (id in s.refreshQueue || id == s.pending[0].id ==>
                  s'.requests[id] == Request(r.url, Some("Bearer " + pair.access), true, Flying))
  {
    RefreshedMeaning(s, 0, pair);
    assert Perform(s, RefreshOk(0, pair)) == Refreshed(s, 0, pair);
    if id in s.refreshQueue {
      var i :| 0 <= i < |s.refreshQueue| && s.refreshQueue[i] == id;
      assert IsParked(s, s.refreshQueue[i]);
    }
  }

  /** The refresh in flight has failed: the session and the queue are gone and its starter is rejected. */
  lemma RefreshFails(s: State)
    requires Inv(s) && |s.pending| > 0
    ensures var s', starter := Perform(s, RefreshFail(0)), s.pending[0].id;
            && s'.tokens == None && !s'.isRefreshing && s'.refreshQueue == [] && s'.pending == []
            && s'.sent == s.sent && s'.granted == s.granted && s'.replays == s.replays
            && starter in s.requests && s'.requests.Keys == s.requests.Keys
            && (forall other :: other in s.requests && other != starter ==> s'.requests[other] == s.requests[other])
            && s'.requests[starter] == s.requests[starter].(status := Rejected)
  {
  }

  /** A login or a logout replaces the session, and leaves the requests and a refresh in flight as they are. */
  lemma SessionEvents(s: State, pair: TokenPair)
    ensures var i, o := Perform(s, SetSession(pair)), Perform(s, ClearSession);
            && i.tokens == Some(pair) && o.tokens == None
            && i.granted == s.granted + [pair.refresh] && o.granted == s.granted
            && i.requests == s.requests == o.requests && i.pending == s.pending == o.pending
            && i.refreshQueue == s.refreshQueue == o.refreshQueue
            && i.isRefreshing == s.isRefreshing == o.isRefreshing
            && i.sent == s.sent == o.sent && i.replays == s.replays == o.replays
  {
  }
}
