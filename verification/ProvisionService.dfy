/** The provision tokens and the one script that each of them can fetch. */
module ProvisionService {
  import opened Common
  import opened Redis
  import opened Shell
  import opened Provision

  const PROVISION_TTL := 30 * MINUTE

  datatype Digest = Digest(of: string)
  datatype TokenRow = TokenRow(nodeId: string, expiresAt: int, usedAt: Option<int>)

  datatype Fetched = Script(text: string) | TokenInvalid | TokenUsed | TokenExpired | HelperFailed

  datatype Call =
    | Create(token: string, nodeId: string, now: int)
      /**
       * `supply` holds the nine values besides the node id; None when a helper fails and the request is rolled back.
       */
    | Fetch(token: string, supply: Option<seq<string>>, now: int)

  predicate Supplied(supply: Option<seq<string>>) {
    supply.Some? ==> |supply.value| == |KEYS| - 1
  }

  function RenderFor(template: string, row: TokenRow, supply: seq<string>): string
    requires |supply| == |KEYS| - 1
  {
    Render(template, KEYS, [row.nodeId] + supply, |KEYS|)
  }

  function Fetching(template: string, rows: map<Digest, TokenRow>, token: string, supply: Option<seq<string>>,
      now: int): (map<Digest, TokenRow>, Fetched)
    requires Supplied(supply)
  {
    var hash := Digest(token);
    if hash !in rows then (rows, TokenInvalid)
    else if rows[hash].usedAt.Some? then (rows, TokenUsed)
    else if rows[hash].expiresAt < now then (rows, TokenExpired)
    else if supply == None then (rows, HelperFailed)
    else (rows[hash := rows[hash].(usedAt := Some(now))], Script(RenderFor(template, rows[hash], supply.value)))
  }

  class ProvisionStore {
    var rows: map<Digest, TokenRow>

    constructor ()
      ensures rows == map[]
    {
      rows := map[];
    }

    method CreateProvision(token: string, nodeId: string, now: int)
      requires Digest(token) !in rows
      modifies this
      ensures rows == old(rows)[Digest(token) := TokenRow(nodeId, now + PROVISION_TTL, None)]
    {
      rows := rows[Digest(token) := TokenRow(nodeId, now + PROVISION_TTL, None)];
    }

    /** The token is marked before the helpers run; when one fails, the mark is rolled back with the request. */
    method ConsumeAndRender(template: string, token: string, supply: Option<seq<string>>, now: int) returns (r: Fetched)
      requires Supplied(supply)
      modifies this
      ensures (rows, r) == Fetching(template, old(rows), token, supply, now)
    {
      var hash := Digest(token);
      if hash !in rows {
        return TokenInvalid;
      }
      var row := rows[hash];
      if row.usedAt.Some? {
        return TokenUsed;
      }
      if row.expiresAt < now {
        return TokenExpired;
      }
      var before := rows;
      rows := rows[hash := row.(usedAt := Some(now))];
      if supply == None {
        rows := before;
        return HelperFailed;
      }
      var values := [row.nodeId] + supply.value;
      var script := template;
      for i := 0 to |KEYS|
        invariant script == Render(template, KEYS, values, i)
      {
        script := Replace(script, KEYS[i], Shq(values[i]));
      }
      r := Script(script);
    }
  }

  // ---------------------------------------------------------------- runs

  function Perform(template: string, rows: map<Digest, TokenRow>, call: Call): map<Digest, TokenRow>
    requires call.Fetch? ==> Supplied(call.supply)
  {
    match call
    case Create(token, nodeId, now) =>
      if Digest(token) in rows then rows else rows[Digest(token) := TokenRow(nodeId, now + PROVISION_TTL, None)]
    case Fetch(token, supply, now) => Fetching(template, rows, token, supply, now).0
  }

  ghost predicate AllSupplied(calls: seq<Call>) {
    forall i :: 0 <= i < |calls| && calls[i].Fetch? ==> Supplied(calls[i].supply)
  }

  ghost function After(template: string, calls: seq<Call>): map<Digest, TokenRow>
    requires AllSupplied(calls)
  {
    if calls == [] then map[] else Perform(template, After(template, calls[..|calls| - 1]), calls[|calls| - 1])
  }

  ghost predicate GetsScript(template: string, calls: seq<Call>, i: nat, token: string)
    requires AllSupplied(calls) && i < |calls|
  {
    calls[i].Fetch? && calls[i].token == token
    && Fetching(template, After(template, calls[..i]), token, calls[i].supply, calls[i].now).1.Script?
  }

  lemma {:induction false} UsedStaysUsed(template: string, calls: seq<Call>, i: nat, k: nat, token: string)
    requires AllSupplied(calls) && i < k <= |calls| && GetsScript(template, calls, i, token)
    ensures var rows := After(template, calls[..k]);
            Digest(token) in rows && rows[Digest(token)].usedAt.Some?
  {
    assert calls[..k][..k - 1] == calls[..k - 1];
    if i < k - 1 {
      UsedStaysUsed(template, calls, i, k - 1, token);
    }
  }

  lemma {:induction false} RowHasOrigin(template: string, calls: seq<Call>, n: nat, token: string)
    requires AllSupplied(calls) && n <= |calls| && Digest(token) in After(template, calls[..n])
    ensures exists j :: 0 <= j < n && calls[j].Create? && calls[j].token == token
                        && After(template, calls[..n])[Digest(token)].expiresAt == calls[j].now + PROVISION_TTL
                        && After(template, calls[..n])[Digest(token)].nodeId == calls[j].nodeId
  {
    assert n > 0;
    assert calls[..n][..n - 1] == calls[..n - 1];
    if Digest(token) in After(template, calls[..n - 1]) {
      RowHasOrigin(template, calls, n - 1, token);
    }
  }

  /** A token fetches at most one script, within 30 minutes of its creation, and never again after that. */
  lemma TokenIsUsedOnce(template: string, calls: seq<Call>, i: nat, token: string)
    requires AllSupplied(calls) && i < |calls| && GetsScript(template, calls, i, token)
    ensures forall k :: i < k < |calls| ==> !GetsScript(template, calls, k, token)
    ensures exists j ::
              0 <= j < i && calls[j].Create? && calls[j].token == token && calls[i].now <= calls[j].now + 1_800_000_000
  {
    forall k | i < k < |calls| ensures !GetsScript(template, calls, k, token) {
      UsedStaysUsed(template, calls, i, k, token);
    }
    RowHasOrigin(template, calls, i, token);
  }

  // ---------------------------------------------------------------- one fetch

  /** The refusals of a fetch in their order; only a fetch that answers with the script marks the token. */
  lemma FetchCases(template: string, rows: map<Digest, TokenRow>, token: string, supply: Option<seq<string>>, now: int)
    requires Supplied(supply)
    ensures var (after, r) := Fetching(template, rows, token, supply, now);
            var hash := Digest(token);
            && (r == TokenInvalid <==> hash !in rows)
            && (hash in rows ==>
                var row := rows[hash];
                var live := row.usedAt == None && now <= row.expiresAt;
                && (r == TokenUsed <==> row.usedAt != None)
                && (r == TokenExpired <==> row.usedAt == None && row.expiresAt < now)
                && (r == HelperFailed <==> live && supply == None)
                && (r.Script? <==> live && supply.Some?)
                && (r.Script? ==> after == rows[hash := TokenRow(row.nodeId, row.expiresAt, Some(now))]))
            && (!r.Script? ==> after == rows)
  {
  }

  /** A token that has just been created is good for exactly 30 minutes, and for the node it was created for. */
  lemma NewTokenIsGood(template: string, rows: map<Digest, TokenRow>, token: string, nodeId: string, created: int,
      supply: Option<seq<string>>, now: int)
    requires Digest(token) !in rows && Supplied(supply)
    ensures var with := Perform(template, rows, Create(token, nodeId, created));
            var r := Fetching(template, with, token, supply, now).1;
            && (now > created + 1_800_000_000 <==> r == TokenExpired)
            && (now <= created + 1_800_000_000 && supply == None ==> r == HelperFailed)
            && (now <= created + 1_800_000_000 && supply.Some? ==>
                  r == Script(Render(template, KEYS, [nodeId] + supply.value, |KEYS|)))
            && forall other :: other in rows ==> other in with && with[other] == rows[other]
  {
  }

  /**
   * The assignments of the script that a live token fetches, by name: the node id is the row's, and the nine values
   * are those supplied, in this order, when none of the ten contains a placeholder after its own.
   */
  lemma ScriptAssigns(rows: map<Digest, TokenRow>, token: string, v: seq<string>, now: int)
    requires |v| == 9 && Digest(token) in rows
    requires rows[Digest(token)].usedAt == None && now <= rows[Digest(token)].expiresAt
    requires NoLater(KEYS, [rows[Digest(token)].nodeId] + v)
    requires '\0' !in rows[Digest(token)].nodeId && forall i :: 0 <= i < |v| ==> '\0' !in v[i]
    ensures var r := Fetching(Block(NAMES, KEYS), rows, token, Some(v), now).1;
            && r.Script?
            && ReadBlock(r.text) == Some([
              ("NODE_ID", rows[Digest(token)].nodeId), ("FQDN", v[0]), ("IP", v[1]), ("MASTER_HOST", v[2]),
              ("BASE_DN", v[3]), ("REPLICATOR_PW", v[4]), ("CLUSTER_SECRET", v[5]), ("CA_PEM_B64", v[6]),
              ("SERVER_PEM_B64", v[7]), ("SERVER_KEY_B64", v[8])])
  {
    LiveTokenRenders(rows, token, v, now);
    TextAssigns([rows[Digest(token)].nodeId] + v);
  }

  lemma TextAssigns(v: seq<string>)
    requires |v| == |KEYS| && NoLater(KEYS, v) && forall i :: 0 <= i < |v| ==> '\0' !in v[i]
    ensures ReadBlock(Render(Block(NAMES, KEYS), KEYS, v, |KEYS|)) == Some([
              ("NODE_ID", v[0]), ("FQDN", v[1]), ("IP", v[2]), ("MASTER_HOST", v[3]), ("BASE_DN", v[4]),
              ("REPLICATOR_PW", v[5]), ("CLUSTER_SECRET", v[6]), ("CA_PEM_B64", v[7]), ("SERVER_PEM_B64", v[8]),
              ("SERVER_KEY_B64", v[9])])
  {
    BootstrapAssignsValues(v);
    TenPairs(v);
  }

  lemma LiveTokenRenders(rows: map<Digest, TokenRow>, token: string, v: seq<string>, now: int)
    requires |v| == 9 && Digest(token) in rows
    requires rows[Digest(token)].usedAt == None && now <= rows[Digest(token)].expiresAt
    ensures |KEYS| == |NAMES| == 10
    ensures Fetching(Block(NAMES, KEYS), rows, token, Some(v), now).1 ==
            Script(Render(Block(NAMES, KEYS), KEYS, [rows[Digest(token)].nodeId] + v, |KEYS|))
  {
  }

  lemma TenPairs(v: seq<string>)
    requires |v| == |NAMES| == 10
    ensures Pairs(NAMES, v) == [
              ("NODE_ID", v[0]), ("FQDN", v[1]), ("IP", v[2]), ("MASTER_HOST", v[3]), ("BASE_DN", v[4]),
              ("REPLICATOR_PW", v[5]), ("CLUSTER_SECRET", v[6]), ("CA_PEM_B64", v[7]), ("SERVER_PEM_B64", v[8]),
              ("SERVER_KEY_B64", v[9])]
  {
  }
}
