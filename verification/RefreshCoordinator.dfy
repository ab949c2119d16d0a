/** The module-level state of api.ts and the interceptors that change it, one method per step between awaits. */
module RefreshCoordinator {
  import opened Common
  import opened RefreshModel

  class Client {
    var tokens: Option<TokenPair>
    var isRefreshing: bool
    var refreshQueue: seq<ReqId>
    var pending: seq<RefreshCall>
    var requests: map<ReqId, Request>
    ghost var sent: seq<string>
    ghost var granted: seq<string>
    ghost var replays: seq<Replay>

    ghost function Now(): State
      reads this
    {
      State(tokens, isRefreshing, refreshQueue, pending, requests, sent, granted, replays)
    }

    constructor (tokens: Option<TokenPair>)
      ensures Now() == Start(tokens)
    {
      this.tokens, isRefreshing, refreshQueue, pending, requests := tokens, false, [], [], map[];
      sent, granted, replays := [], if tokens.Some? then [tokens.value.refresh] else [], [];
    }

    method Request(id: ReqId, url: Option<string>, preset: Option<string>)
      modifies this`requests
      ensures Now() == Perform(old(Now()), Send(id, url, preset))
    {
      if id !in requests {
        requests := requests[id := RefreshModel.Request(url, AuthHeader(tokens, preset), false, Flying)];
      }
    }

    method OnResponse(id: ReqId)
      requires IsFlying(Now(), id)
      modifies this`requests
      ensures Now() == Perform(old(Now()), Answered(id))
    {
      requests := requests[id := requests[id].(status := Fulfilled)];
    }

    /** The response interceptor up to its first await. */
    method OnError(id: ReqId, code: Option<int>)
      requires IsFlying(Now(), id)
      modifies this
      ensures Now() == Perform(old(Now()), Failed(id, code))
    {
      var request := requests[id];
      if !Retries(request, code) {
        requests := requests[id := request.(status := Rejected)];
        return;
      }
      request := request.(retry := true);
      if tokens == None || tokens.value.refresh == "" {
        tokens := None;
        requests := requests[id := request.(status := Rejected)];
      } else if isRefreshing {
        refreshQueue := refreshQueue + [id];
        requests := requests[id := request.(status := Parked)];
      } else {
        isRefreshing := true;
        pending := pending + [RefreshCall(id, tokens.value.refresh)];
        sent := sent + [tokens.value.refresh];
        requests := requests[id := request.(status := Refreshing)];
      }
    }

    /** The queue callback, and the last line of the try block. */
    method RequestAgain(id: ReqId, token: string)
      modifies this`requests, this`replays
      ensures Now() == Repeat(old(Now()), id, token)
    {
      if id in requests {
        requests := requests[id := requests[id].(auth := Some(Bearer(token)), status := Flying)];
        replays := replays + [Replay(id, token)];
      }
    }

    /** The refresh call number k has answered: the rest of the try block, then finally. */
    method OnRefreshed(k: nat, pair: TokenPair)
      requires k < |pending|
      modifies this
      ensures Now() == Perform(old(Now()), RefreshOk(k, pair))
    {
      tokens := Some(pair);
      granted := granted + [pair.refresh];
      ghost var s := Now();
      for i := 0 to |refreshQueue|
        invariant refreshQueue == s.refreshQueue && pending == s.pending
        invariant Now() == RepeatAll(s, refreshQueue[..i], pair.access)
      {
        assert refreshQueue[..i + 1][..i] == refreshQueue[..i];
        RequestAgain(refreshQueue[i], pair.access);
      }
      assert refreshQueue[..|refreshQueue|] == refreshQueue;
      refreshQueue := [];
      RequestAgain(pending[k].id, pair.access);
      isRefreshing := false;
      pending := Without(pending, k);
    }

    /** The refresh call number k has failed: the catch block, then finally. */
    method OnRefreshFailed(k: nat)
      requires k < |pending|
      modifies this
      ensures Now() == Perform(old(Now()), RefreshFail(k))
    {
      var id := pending[k].id;
      tokens := None;
      refreshQueue := [];
      if id in requests {
        requests := requests[id := requests[id].(status := Rejected)];
      }
      isRefreshing := false;
      pending := Without(pending, k);
    }

    method LogIn(pair: TokenPair)
      modifies this`tokens, this`granted
      ensures Now() == Perform(old(Now()), SetSession(pair))
    {
      tokens := Some(pair);
      granted := granted + [pair.refresh];
    }

    method LogOut()
      modifies this`tokens
      ensures Now() == Perform(old(Now()), ClearSession)
    {
      tokens := None;
    }
  }
}
