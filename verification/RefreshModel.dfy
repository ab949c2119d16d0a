/** The browser's HTTP client: what each event does to the session, the requests and the refresh in flight. */
module RefreshModel {
  import opened Common

  datatype ReqId = ReqId(n: nat)
  datatype TokenPair = TokenPair(access: string, refresh: string)

  datatype Status =
    | Flying      // sent, no answer yet
    | Refreshing  // its 401 started the refresh that is in flight
    | Parked      // its 401 put it into the queue
    | Fulfilled
    | Rejected

  datatype Request = Request(url: Option<string>, auth: Option<string>, retry: bool, status: Status)

  /** A POST to /auth/refresh, awaited on behalf of one request. */
  datatype RefreshCall = RefreshCall(id: ReqId, token: string)
  datatype Replay = Replay(id: ReqId, token: string)

  /**
   * `sent`, `granted` and `replays` are histories: refresh tokens posted, refresh tokens received, requests repeated.
   */
  datatype State = State(
    tokens: Option<TokenPair>,
    isRefreshing: bool,
    refreshQueue: seq<ReqId>,
    pending: seq<RefreshCall>,
    requests: map<ReqId, Request>,
    sent: seq<string>,
    granted: seq<string>,
    replays: seq<Replay>)

  datatype Event =
    | Send(id: ReqId, url: Option<string>, preset: Option<string>)
    | Answered(id: ReqId)
      /** An error status, or None when there was no response. */
    | Failed(id: ReqId, code: Option<int>)
    | RefreshOk(k: nat, pair: TokenPair)
    | RefreshFail(k: nat)
    | SetSession(pair: TokenPair)
    | ClearSession

  predicate Includes(url: Option<string>, part: string) {
    url.Some? && exists i :: 0 <= i <= |url.value| && part <= url.value[i..]
  }

  function Bearer(token: string): string {
    "Bearer " + token
  }

  /** The request interceptor: an Authorization header that is already set stays. */
  function AuthHeader(tokens: Option<TokenPair>, preset: Option<string>): Option<string> {
    if tokens.Some? && tokens.value.access != "" && preset == None then Some(Bearer(tokens.value.access)) else preset
  }

  predicate Retries(r: Request, code: Option<int>) {
    code == Some(401) && !r.retry && !Includes(r.url, "/auth/login") && !Includes(r.url, "/auth/refresh")
  }

  function WithStatus(s: State, id: ReqId, r: Request): State {
    s.(requests := s.requests[id := r])
  }

  function Intercept(s: State, id: ReqId, code: Option<int>): State
    requires id in s.requests
  {
    var r := s.requests[id];
    if !Retries(r, code) then WithStatus(s, id, r.(status := Rejected))
    else if s.tokens == None || s.tokens.value.refresh == "" then
      WithStatus(s, id, r.(retry := true, status := Rejected)).(tokens := None)
    else if s.isRefreshing then
      WithStatus(s, id, r.(retry := true, status := Parked)).(refreshQueue := s.refreshQueue + [id])
    else
      WithStatus(s, id, r.(retry := true, status := Refreshing)).(
        isRefreshing := true,
        pending := s.pending + [RefreshCall(id, s.tokens.value.refresh)],
        sent := s.sent + [s.tokens.value.refresh])
  }

  /** `headers.set("Authorization", ...)`, then the same request once more. */
  function Repeat(s: State, id: ReqId, token: string): State {
    if id in s.requests
    then
      WithStatus(s, id, s.requests[id].(auth := Some(Bearer(token)), status := Flying)).(
        replays := s.replays + [Replay(id, token)])
    else s
  }

  function RepeatAll(s: State, ids: seq<ReqId>, token: string): State {
    if ids == [] then s else Repeat(RepeatAll(s, ids[..|ids| - 1], token), ids[|ids| - 1], token)
  }

  function Without<T>(s: seq<T>, k: nat): seq<T>
    requires k < |s|
  {
    s[..k] + s[k + 1..]
  }

  function Refreshed(s: State, k: nat, pair: TokenPair): State
    requires k < |s.pending|
  {
    var s1 := s.(tokens := Some(pair), granted := s.granted + [pair.refresh]);
    var s2 := RepeatAll(s1, s.refreshQueue, pair.access).(refreshQueue := []);
    Repeat(s2, s.pending[k].id, pair.access).(isRefreshing := false, pending := Without(s.pending, k))
  }

  function RefreshFailed(s: State, k: nat): State
    requires k < |s.pending|
  {
    var id := s.pending[k].id;
    var s1 := if id in s.requests then WithStatus(s, id, s.requests[id].(status := Rejected)) else s;
    s1.(tokens := None, refreshQueue := [], isRefreshing := false, pending := Without(s.pending, k))
  }

  predicate IsFlying(s: State, id: ReqId) {
    id in s.requests && s.requests[id].status == Flying
  }

  function Perform(s: State, e: Event): State {
    match e
    case Send(id, url, preset) =>
      if id in s.requests then s else WithStatus(s, id, Request(url, AuthHeader(s.tokens, preset), false, Flying))
    case Answered(id) => if IsFlying(s, id) then WithStatus(s, id, s.requests[id].(status := Fulfilled)) else s
    case Failed(id, code) => if IsFlying(s, id) then Intercept(s, id, code) else s
    case RefreshOk(k, pair) => if k < |s.pending| then Refreshed(s, k, pair) else s
    case RefreshFail(k) => if k < |s.pending| then RefreshFailed(s, k) else s
    case SetSession(pair) => s.(tokens := Some(pair), granted := s.granted + [pair.refresh])
    case ClearSession => s.(tokens := None)
  }

  function Start(tokens: Option<TokenPair>): State {
    State(tokens, false, [], [], map[], [], if tokens.Some? then [tokens.value.refresh] else [], [])
  }

  function Run(s: State, events: seq<Event>): State {
    if events == [] then s else Perform(Run(s, events[..|events| - 1]), events[|events| - 1])
  }

  // ---------------------------------------------------------------- what every event keeps

  ghost predicate Distinct<T>(s: seq<T>) {
    forall i, j :: 0 <= i < j < |s| ==> s[i] != s[j]
  }

  ghost predicate ReplaysDistinct(replays: seq<Replay>) {
    forall i, j :: 0 <= i < j < |replays| ==> replays[i].id != replays[j].id
  }

  predicate IsParked(s: State, id: ReqId) {
    id in s.requests && s.requests[id].status == Parked && s.requests[id].retry
  }

  /** A request that was repeated is on its way or settled, and marked as retried. */
  predicate IsRepeated(s: State, id: ReqId) {
    id in s.requests && s.requests[id].status !in {Parked, Refreshing} && s.requests[id].retry
  }

  ghost predicate Single(s: State) {
    && |s.pending| <= 1
    && (s.isRefreshing <==> s.pending != [])
    && (!s.isRefreshing ==> s.refreshQueue == [])
  }

  ghost predicate Requests(s: State) {
    && Distinct(s.refreshQueue)
    && (forall i :: 0 <= i < |s.refreshQueue| ==> IsParked(s, s.refreshQueue[i]))
    && (forall i :: 0 <= i < |s.pending| ==>
         s.pending[i].id in s.requests && s.requests[s.pending[i].id].status == Refreshing
           && s.requests[s.pending[i].id].retry)
    && ReplaysDistinct(s.replays)
    && (forall i :: 0 <= i < |s.replays| ==> IsRepeated(s, s.replays[i].id))
  }

  /** The refresh token at hand has not been posted yet, unless the post is still in flight. */
  ghost predicate Unused(s: State) {
    && (forall i :: 0 <= i < |s.sent| ==> s.sent[i] in s.granted)
    && (s.tokens.Some? ==> s.tokens.value.refresh in s.granted)
    && (Distinct(s.granted) ==> Distinct(s.sent))
    && (Distinct(s.granted) && s.tokens.Some? && !s.isRefreshing ==> s.tokens.value.refresh !in s.sent)
  }

  ghost predicate Inv(s: State) {
    Single(s) && Requests(s) && Unused(s)
  }

  function ReplaysOf(ids: seq<ReqId>, token: string): seq<Replay> {
    seq(|ids|, i requires 0 <= i < |ids| => Replay(ids[i], token))
  }

  /** What repeating a list of requests does, request by request. */
  lemma {:induction false} RepeatAllMeaning(s: State, ids: seq<ReqId>, token: string)
    requires forall i :: 0 <= i < |ids| ==> ids[i] in s.requests
    ensures var s' := RepeatAll(s, ids, token);
            && s' == s.(requests := s'.requests, replays := s'.replays)
            && s'.replays == s.replays + ReplaysOf(ids, token)
            && s'.requests.Keys == s.requests.Keys
            && (forall id :: id in s.requests ==>
                 s'.requests[id] == if id in ids then s.requests[id].(auth := Some(Bearer(token)), status := Flying)
                   else s.requests[id])
  {
    if ids != [] {
      var n := |ids| - 1;
      RepeatAllMeaning(s, ids[..n], token);
      assert ids == ids[..n] + [ids[n]];
      assert ReplaysOf(ids, token) == ReplaysOf(ids[..n], token) + [Replay(ids[n], token)];
    }
  }

  /**
   * A successful refresh repeats the queued requests in order and then the one that started it, all with the new
   * token.
   */
  lemma RefreshedMeaning(s: State, k: nat, pair: TokenPair)
    requires Single(s) && Requests(s) && k < |s.pending|
    ensures var s', ids := Refreshed(s, k, pair), s.refreshQueue + [s.pending[0].id];
            && s' == State(Some(pair), false, [], [], s'.requests, s.sent, s.granted + [pair.refresh],
                           s.replays + ReplaysOf(ids, pair.access))
            && s'.requests.Keys == s.requests.Keys
            && Distinct(ids)
            && (forall id :: id in s.requests ==>
                  s'.requests[id] == if id in ids
                    then s.requests[id].(auth := Some(Bearer(pair.access)), status := Flying) else s.requests[id])
  {
    var s1 := s.(tokens := Some(pair), granted := s.granted + [pair.refresh]);
    RepeatAllMeaning(s1, s.refreshQueue, pair.access);
    var id := s.pending[0].id;
    assert ReplaysOf(s.refreshQueue + [id], pair.access) == ReplaysOf(s.refreshQueue, pair.access)
      + [Replay(id, pair.access)];
  }

  lemma RefreshOkKeeps(s: State, k: nat, pair: TokenPair)
    requires Inv(s) && k < |s.pending|
    ensures Inv(Refreshed(s, k, pair))
  {
    RefreshedMeaning(s, k, pair);
    RefreshOkKeepsRequests(s, k, pair);
    GrantKeepsUnused(s.granted, pair.refresh, s.sent);
  }

  lemma RefreshOkKeepsRequests(s: State, k: nat, pair: TokenPair)
    requires Single(s) && Requests(s) && k < |s.pending|
    ensures Requests(Refreshed(s, k, pair))
  {
    var ids := s.refreshQueue + [s.pending[0].id];
    RefreshedMeaning(s, k, pair);
    NewReplaysDiffer(s.replays, ids, pair.access, s);
    RepeatedIsMarked(s, k, pair);
  }

  /** Requests that wait have not been repeated before. */
  lemma NewReplaysDiffer(replays: seq<Replay>, ids: seq<ReqId>, token: string, s: State)
    requires ReplaysDistinct(replays) && Distinct(ids)
    requires forall i :: 0 <= i < |replays| ==> IsRepeated(s, replays[i].id)
    requires forall i :: 0 <= i < |ids| ==> !IsRepeated(s, ids[i])
    ensures ReplaysDistinct(replays + ReplaysOf(ids, token))
  {
    var all, n := replays + ReplaysOf(ids, token), |replays|;
    forall i, j | 0 <= i < j < |all| ensures all[i].id != all[j].id {
      assert all[i].id == if i < n then replays[i].id else ids[i - n];
      assert all[j].id == if j < n then replays[j].id else ids[j - n];
    }
  }

  lemma RepeatedIsMarked(s: State, k: nat, pair: TokenPair)
    requires Single(s) && Requests(s) && k < |s.pending|
    ensures var s' := Refreshed(s, k, pair);
            forall i :: 0 <= i < |s'.replays| ==> IsRepeated(s', s'.replays[i].id)
  {
    var s', n := Refreshed(s, k, pair), |s.replays|;
    RefreshedMeaning(s, k, pair);
    forall i | 0 <= i < |s'.replays| ensures IsRepeated(s', s'.replays[i].id) {
      if i < n {
        assert IsRepeated(s, s.replays[i].id);
      } else if i < n + |s.refreshQueue| {
        assert IsParked(s, s.refreshQueue[i - n]);
      }
    }
  }

  /** A token that is distinct from all granted before is distinct from all sent. */
  lemma GrantKeepsUnused(granted: seq<string>, token: string, sent: seq<string>)
    requires forall i :: 0 <= i < |sent| ==> sent[i] in granted
    ensures Distinct(granted + [token]) ==> Distinct(granted) && token !in sent
  {
    if Distinct(granted + [token]) {
      forall i, j | 0 <= i < j < |granted| ensures granted[i] != granted[j] {
        assert (granted + [token])[i] == granted[i] && (granted + [token])[j] == granted[j];
      }
      forall i | 0 <= i < |granted| ensures granted[i] != token {
        assert (granted + [token])[i] == granted[i] && (granted + [token])[|granted|] == token;
      }
    }
  }

  lemma InterceptKeeps(s: State, id: ReqId, code: Option<int>)
    requires Inv(s) && IsFlying(s, id)
    ensures Inv(Intercept(s, id, code))
  {
    InterceptKeepsRequests(s, id, code);
    InterceptKeepsUnused(s, id, code);
  }

  lemma InterceptKeepsRequests(s: State, id: ReqId, code: Option<int>)
    requires Single(s) && Requests(s) && IsFlying(s, id)
    ensures Single(Intercept(s, id, code)) && Requests(Intercept(s, id, code))
  {
  }

  lemma InterceptKeepsUnused(s: State, id: ReqId, code: Option<int>)
    requires Single(s) && Unused(s) && IsFlying(s, id)
    ensures Unused(Intercept(s, id, code))
  {
  }

  lemma EventKeeps(s: State, e: Event)
    requires Inv(s)
    ensures Inv(Perform(s, e))
  {
    match e
    case RefreshOk(k, pair) => if k < |s.pending| { RefreshOkKeeps(s, k, pair); }
    case Failed(id, code) => if IsFlying(s, id) { InterceptKeeps(s, id, code); }
    case SetSession(pair) => GrantKeepsUnused(s.granted, pair.refresh, s.sent);
    case ClearSession =>
    case RefreshFail(k) => if k < |s.pending| { RefreshFailKeeps(s, k); }
    case Send(id, url, preset) =>
      if id !in s.requests { StatusKeeps(s, id, Request(url, AuthHeader(s.tokens, preset), false, Flying)); }
    case Answered(id) => if IsFlying(s, id) { StatusKeeps(s, id, s.requests[id].(status := Fulfilled)); }
  }

  /** A request that is new, or on its way, may be sent or settle. */
  lemma StatusKeeps(s: State, id: ReqId, r: Request)
    requires Inv(s) && r.status !in {Parked, Refreshing}
    requires id in s.requests ==> IsFlying(s, id) && r.retry == s.requests[id].retry
    ensures Inv(WithStatus(s, id, r))
  {
  }

  lemma RefreshFailKeeps(s: State, k: nat)
    requires Inv(s) && k < |s.pending|
    ensures Inv(RefreshFailed(s, k))
  {
    assert k == 0 && s.pending == [s.pending[0]];
  }

  lemma {:induction false} RunKeeps(s: State, events: seq<Event>)
    requires Inv(s)
    ensures Inv(Run(s, events))
  {
    if events != [] {
      RunKeeps(s, events[..|events| - 1]);
      EventKeeps(Run(s, events[..|events| - 1]), events[|events| - 1]);
    }
  }

  /**
   * Under every interleaving: at most one refresh call is in flight, the queue is empty while there is
   * none, no request is repeated twice, and no refresh token is sent twice if all granted ones differ.
   */
  lemma CoordinatorIsSafe(tokens: Option<TokenPair>, events: seq<Event>)
    ensures var s := Run(Start(tokens), events);
            && |s.pending| <= 1
            && (s.isRefreshing <==> |s.pending| == 1)
            && (!s.isRefreshing ==> s.refreshQueue == [])
            && ReplaysDistinct(s.replays)
            && (Distinct(s.granted) ==> Distinct(s.sent))
  {
    RunKeeps(Start(tokens), events);
  }

  // ---------------------------------------------------------------- what becomes of a queued request

  /** How the refresh in flight at the beginning of a run ends: not, well, or badly. */
  function Ending(s: State, events: seq<Event>): Option<bool> {
    if events == [] then None
    else EndingAfter(Run(s, events[..|events| - 1]), events[|events| - 1], Ending(s, events[..|events| - 1]))
  }

  function EndingAfter(s: State, e: Event, ending: Option<bool>): Option<bool> {
    if ending.Some? then ending
    else if e.RefreshOk? && e.k < |s.pending| then Some(true)
    else if e.RefreshFail? && e.k < |s.pending| then Some(false)
    else None
  }

  predicate WasRepeated(s: State, id: ReqId) {
    exists i :: 0 <= i < |s.replays| && s.replays[i].id == id
  }

  ghost predicate Fate(s: State, id: ReqId, ending: Option<bool>) {
    match ending
    case None => id in s.refreshQueue
    case Some(true) => WasRepeated(s, id)
    case Some(false) => IsParked(s, id) && id !in s.refreshQueue && !WasRepeated(s, id)
  }

  lemma RepeatedStays(s: State, e: Event, id: ReqId)
    requires Inv(s) && WasRepeated(s, id)
    ensures WasRepeated(Perform(s, e), id)
  {
    var i :| 0 <= i < |s.replays| && s.replays[i].id == id;
    if e.RefreshOk? && e.k < |s.pending| {
      RefreshedMeaning(s, e.k, e.pair);
    }
    assert Perform(s, e).replays[i].id == id;
  }

  lemma LostStays(s: State, e: Event, id: ReqId)
    requires Inv(s) && Fate(s, id, Some(false))
    ensures Fate(Perform(s, e), id, Some(false))
  {
    if e.RefreshOk? && e.k < |s.pending| {
      RefreshedMeaning(s, e.k, e.pair);
    }
  }

  lemma QueuedMoves(s: State, e: Event, id: ReqId)
    requires Inv(s) && id in s.refreshQueue
    ensures e.RefreshOk? && e.k < |s.pending| ==> Fate(Perform(s, e), id, Some(true))
    ensures e.RefreshFail? && e.k < |s.pending| ==> Fate(Perform(s, e), id, Some(false))
    ensures !(e.RefreshOk? && e.k < |s.pending|) && !(e.RefreshFail? && e.k < |s.pending|) ==>
            Fate(Perform(s, e), id, None)
  {
    if e.RefreshOk? && e.k < |s.pending| {
      QueuedIsRepeated(s, e.k, e.pair, id);
    } else if e.RefreshFail? && e.k < |s.pending| {
      QueuedIsLost(s, e.k, id);
    } else {
      QueuedWaits(s, e, id);
    }
  }

  lemma QueuedIsRepeated(s: State, k: nat, pair: TokenPair, id: ReqId)
    requires Inv(s) && id in s.refreshQueue && k < |s.pending|
    ensures WasRepeated(Refreshed(s, k, pair), id)
  {
    var i :| 0 <= i < |s.refreshQueue| && s.refreshQueue[i] == id;
    RefreshedMeaning(s, k, pair);
    assert Refreshed(s, k, pair).replays[|s.replays| + i].id == id;
  }

  lemma QueuedWaits(s: State, e: Event, id: ReqId)
    requires id in s.refreshQueue && !(e.RefreshOk? && e.k < |s.pending|) && !(e.RefreshFail? && e.k < |s.pending|)
    ensures id in Perform(s, e).refreshQueue
  {
    var i :| 0 <= i < |s.refreshQueue| && s.refreshQueue[i] == id;
    assert e.Failed? && IsFlying(s, e.id) ==> Perform(s, e).refreshQueue[i] == id;
  }

  lemma QueuedIsLost(s: State, k: nat, id: ReqId)
    requires Inv(s) && id in s.refreshQueue && k < |s.pending|
    ensures Fate(RefreshFailed(s, k), id, Some(false))
  {
    assert IsParked(s, id);
  }

  /**
   * A queued request is repeated if the refresh in flight succeeds, and with the rest of the queue. If it
   * fails, the queue is only emptied: the request is never repeated, rejected or fulfilled, however long the run.
   */
  lemma {:induction false} QueuedRequestFate(s: State, events: seq<Event>, id: ReqId)
    requires Inv(s) && id in s.refreshQueue
    ensures Fate(Run(s, events), id, Ending(s, events))
  {
    if events != [] {
      var init, last := events[..|events| - 1], events[|events| - 1];
      QueuedRequestFate(s, init, id);
      RunKeeps(s, init);
      match Ending(s, init)
      case None => QueuedMoves(Run(s, init), last, id);
      case Some(true) => RepeatedStays(Run(s, init), last, id);
      case Some(false) => LostStays(Run(s, init), last, id);
    }
  }

  /** A session exists after some part of the run. */
  ghost predicate ComesBack(s: State, events: seq<Event>) {
    exists n: nat :: n <= |events| && Run(s, events[..n]).tokens.Some?
  }

  /** Without a session no refresh starts: either the one in flight goes on, or it has failed and none is left. */
  ghost predicate Quiet(s: State, ending: Option<bool>) {
    s.tokens == None && (ending.Some? ==> !ending.value && s.pending == [])
  }

  lemma QuietStep(s: State, e: Event, ending: Option<bool>)
    requires Single(s) && Quiet(s, ending) && !e.SetSession?
    ensures EndingAfter(s, e, ending) != Some(true) ==> Quiet(Perform(s, e), EndingAfter(s, e, ending))
  {
    match e
    case Failed(id, code) =>
      assert IsFlying(s, id) ==> Intercept(s, id, code).tokens == None && Intercept(s, id, code).pending == s.pending;
    case _ =>
  }

  lemma {:induction false} WithoutSession(s: State, events: seq<Event>)
    requires Inv(s) && s.tokens == None && forall i :: 0 <= i < |events| ==> !events[i].SetSession?
    requires Ending(s, events) != Some(true)
    ensures Quiet(Run(s, events), Ending(s, events))
  {
    if events != [] {
      var init := events[..|events| - 1];
      if Ending(s, init).Some? {
        assert Ending(s, events) == Ending(s, init);
      }
      WithoutSession(s, init);
      RunKeeps(s, init);
      QuietStep(Run(s, init), events[|init|], Ending(s, init));
    }
  }

  /**
   * After a logout, with no login since, the session comes back exactly when a refresh in flight at the logout
   * succeeds.
   */
  lemma LogoutIsUndoneIff(s: State, events: seq<Event>)
    requires Inv(s) && s.tokens == None && forall i :: 0 <= i < |events| ==> !events[i].SetSession?
    ensures ComesBack(s, events) <==> Ending(s, events) == Some(true)
  {
    if Ending(s, events) == Some(true) {
      SuccessComesBack(s, events);
    } else {
      forall n: nat | n <= |events| ensures Run(s, events[..n]).tokens == None {
        EndingOfPart(s, events, n);
        WithoutSession(s, events[..n]);
      }
    }
  }

  lemma {:induction false} SuccessComesBack(s: State, events: seq<Event>)
    requires Inv(s) && Ending(s, events) == Some(true)
    ensures ComesBack(s, events)
  {
    var init := events[..|events| - 1];
    if Ending(s, init).Some? {
      SuccessComesBack(s, init);
      var n: nat :| n <= |init| && Run(s, init[..n]).tokens.Some?;
      assert init[..n] == events[..n];
    } else {
      RunKeeps(s, init);
      RefreshedMeaning(Run(s, init), events[|init|].k, events[|init|].pair);
      assert events[..|events|] == events;
    }
  }

  lemma {:induction false} EndingOfPart(s: State, events: seq<Event>, n: nat)
    requires n <= |events| && Ending(s, events) != Some(true)
    ensures Ending(s, events[..n]) != Some(true)
  {
    if n < |events| {
      EndingOfPart(s, events[..|events| - 1], n);
      assert events[..|events| - 1][..n] == events[..n];
    } else {
      assert events[..n] == events;
    }
  }
}
