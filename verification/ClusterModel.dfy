/**
 * Audit events, the retry queue and the wire format of the forwarding protocol
 * (audit_service.py, cluster_service.py), as values. Times are microseconds.
 */
module ClusterModel {
  import opened Common

  datatype NodeId = NodeId(name: string)

  datatype NodeType = MASTER | SLAVE

  /** A row of mtl_cluster.node; the column pair the queue logic reads. */
  datatype ClusterNode = ClusterNode(nodeId: NodeId, nodeType: NodeType)

  /** Columns that travel from payload to row without being looked at. */
  datatype Carried = Carried(
    actorType: Option<string>, actorId: Option<string>, actorDisplay: Option<string>,
    targetType: Option<string>, targetId: Option<string>, targetDisplay: Option<string>,
    ipAddress: Option<string>)

  /** A row of mtl_audit.event_log. */
  datatype LogRow = LogRow(
    occurredAt: int, serverNode: NodeId, category: string, eventCode: string, severity: string,
    userAgent: Option<string>, requestId: Option<nat>, details: map<string, string>, carried: Carried)

  /** A JSON field that has to be parsed: missing, unreadable, or a value. */
  datatype Wire<+T> = Absent | Garbled | Sent(value: T)

  /** One element of the `events` list of a payload. */
  datatype WireEvent = WireEvent(
    occurredAt: Wire<int>, serverNode: Option<NodeId>, category: Option<string>, eventCode: Option<string>,
    severity: Option<string>, userAgent: Option<string>, requestId: Wire<nat>,
    details: Option<map<string, string>>, carried: Carried)

  datatype Status = Pending | Delivered | Failed | Abandoned

  /** A row of mtl_cluster.sync_queue. `Delivered` is the column value 'sent'. */
  datatype Item = Item(
    target: NodeId, events: seq<WireEvent>, queuedAt: int, attempts: nat, maxAttempts: nat,
    nextAttemptAt: int, lastAttemptAt: Option<int>, lastError: Option<string>,
    status: Status, sentAt: Option<int>)

  /**
   * What one POST does: the receiver commits and the 2xx arrives, it commits but the reply is lost, or nothing
   * happens.
   */
  datatype Outcome = Acked | AckLost(error: string) | NotDelivered(error: string)

  const DEFAULT_MAX_ATTEMPTS: nat := 5
  const MINUTE: int := 60_000_000
  const USER_AGENT_LIMIT: nat := 1024

  // ---------------------------------------------------------------- log_event and the payload

  /** `(user_agent or "")[:1024] or None` */
  function ClipAgent(agent: Option<string>): Option<string> {
    var text := OrElse(agent, "");
    var clipped := if |text| > USER_AGENT_LIMIT then text[..USER_AGENT_LIMIT] else text;
    if clipped == "" then None else Some(clipped)
  }

  /** The arguments of log_event that end up in columns. */
  datatype LogArgs = LogArgs(
    category: string, eventCode: string, severity: string, userAgent: Option<string>,
    requestId: Wire<nat>, details: Option<map<string, string>>, carried: Carried)

  /** The row log_event writes on node `self`; it always stamps its own node. */
  function NewRow(self: NodeId, args: LogArgs, now: int): LogRow {
    LogRow(
      now, self, args.category, args.eventCode, args.severity, ClipAgent(args.userAgent),
      if args.requestId.Sent? then Some(args.requestId.value) else None,
      if args.details.Some? then args.details.value else map[],
      args.carried)
  }

  /** The payload that enqueue_audit_event builds from a row. */
  function ToWire(row: LogRow): WireEvent {
    WireEvent(
      Sent(row.occurredAt), Some(row.serverNode), Some(row.category), Some(row.eventCode),
      Some(row.severity), row.userAgent,
      if row.requestId.Some? then Sent(row.requestId.value) else Absent,
      Some(row.details), row.carried)
  }

  /** The row that ingest_audit_events builds from a payload; `now` is its clock reading. */
  function FromWire(ev: WireEvent, source: NodeId, now: int): LogRow {
    LogRow(
      if ev.occurredAt.Sent? then ev.occurredAt.value else now,
      if ev.serverNode.Some? && ev.serverNode.value.name != "" then ev.serverNode.value else source,
      OrElse(ev.category, "UNKNOWN"),
      OrElse(ev.eventCode, "UNKNOWN"),
      OrElse(ev.severity, "INFO"),
      ClipAgent(ev.userAgent),
      if ev.requestId.Sent? then Some(ev.requestId.value) else None,
      if ev.details.Some? then ev.details.value else map[],
      ev.carried)
  }

  /** What a receiver stores for a row logged elsewhere. */
  function Received(row: LogRow): LogRow {
    FromWire(ToWire(row), row.serverNode, 0)
  }

  lemma ReceivedIsFromWire(row: LogRow, now: int)
    ensures FromWire(ToWire(row), row.serverNode, now) == Received(row)
  {
  }

  /**
   * The copy is the original, column by column, exactly when the row has the shape
   * log_event gives it: no empty text column that ingest would default.
   */
  lemma CopyIsExact(row: LogRow)
    ensures Received(row) == row <==>
              row.category != "" && row.eventCode != "" && row.severity != ""
                && ClipAgent(row.userAgent) == row.userAgent
  {
  }

  // ---------------------------------------------------------------- keys and ingestion

  /** The three columns the duplicate query compares. */
  datatype Key = Key(serverNode: NodeId, occurredAt: int, eventCode: string)

  function RowKey(row: LogRow): Key {
    Key(row.serverNode, row.occurredAt, row.eventCode)
  }

  function Keys(log: seq<LogRow>): set<Key> {
    set row | row in log :: RowKey(row)
  }

  ghost predicate UniqueKeys(log: seq<LogRow>) {
    forall i, j :: 0 <= i < j < |log| ==>
      !(log[i].serverNode == log[j].serverNode && log[i].occurredAt == log[j].occurredAt
        && log[i].eventCode == log[j].eventCode)
  }

  /** The rows of a batch that ingestion keeps: those whose key the log did not hold when the batch arrived. */
  function Fresh(log: seq<LogRow>, batch: seq<LogRow>): seq<LogRow> {
    if batch == [] then []
    else
      var rest := Fresh(log, batch[..|batch| - 1]);
      if RowKey(batch[|batch| - 1]) in Keys(log) then rest else rest + [batch[|batch| - 1]]
  }

  function Ingest(log: seq<LogRow>, batch: seq<LogRow>): seq<LogRow> {
    log + Fresh(log, batch)
  }

  /** Parses a batch; clock[i] is the reading that event i falls back to. */
  function Parse(events: seq<WireEvent>, source: NodeId, clock: seq<int>): seq<LogRow>
    requires |clock| == |events|
  {
    seq(|events|, i requires 0 <= i < |events| => FromWire(events[i], source, clock[i]))
  }

  lemma {:induction false} FreshMembers(log: seq<LogRow>, batch: seq<LogRow>)
    ensures |Fresh(log, batch)| <= |batch|
    ensures forall row :: row in Fresh(log, batch) <==> row in batch && RowKey(row) !in Keys(log)
  {
    if batch != [] {
      FreshMembers(log, batch[..|batch| - 1]);
      assert batch == batch[..|batch| - 1] + [batch[|batch| - 1]];
    }
  }

  /** After a batch, the log holds exactly the keys it held and those of the batch. */
  lemma IngestKeys(log: seq<LogRow>, batch: seq<LogRow>)
    ensures Keys(Ingest(log, batch)) == Keys(log) + Keys(batch)
  {
    FreshMembers(log, batch);
  }

  /** Redelivery of a batch whose keys are all stored changes nothing. */
  lemma {:induction false} RedeliveryInsertsNothing(log: seq<LogRow>, batch: seq<LogRow>)
    requires Keys(batch) <= Keys(log)
    ensures Fresh(log, batch) == []
  {
    if batch != [] {
      RedeliveryInsertsNothing(log, batch[..|batch| - 1]);
      assert RowKey(batch[|batch| - 1]) in Keys(batch);
    }
  }

  /** A lost reply is harmless: the second delivery of the same batch leaves the log as the first one did. */
  lemma IngestIsIdempotent(log: seq<LogRow>, batch: seq<LogRow>)
    ensures Ingest(Ingest(log, batch), batch) == Ingest(log, batch)
  {
    IngestKeys(log, batch);
    RedeliveryInsertsNothing(Ingest(log, batch), batch);
  }

  /** The rows of a batch that would be inserted must differ from each other in key. */
  ghost predicate FreshDistinct(log: seq<LogRow>, batch: seq<LogRow>) {
    forall i, j :: 0 <= i < j < |batch| && RowKey(batch[i]) !in Keys(log) ==> RowKey(batch[i]) != RowKey(batch[j])
  }

  lemma {:induction false} DistinctBatchStaysUnique(log: seq<LogRow>, batch: seq<LogRow>)
    requires FreshDistinct(log, batch)
    ensures UniqueKeys(Fresh(log, batch))
  {
    if batch != [] {
      var n := |batch| - 1;
      var init, last := batch[..n], batch[n];
      assert forall i :: 0 <= i < n ==> init[i] == batch[i];
      DistinctBatchStaysUnique(log, init);
      FreshMembers(log, init);
      var rest := Fresh(log, init);
      if RowKey(last) !in Keys(log) {
        forall k | 0 <= k < |rest| ensures RowKey(rest[k]) != RowKey(last) {
          assert rest[k] in rest;
          var i :| 0 <= i < n && init[i] == rest[k];
          assert RowKey(batch[i]) != RowKey(batch[n]);
        }
      }
    }
  }

  lemma {:induction false} RepeatedKeyIsStoredTwice(log: seq<LogRow>, batch: seq<LogRow>, i: nat, j: nat)
    requires i < j < |batch| && RowKey(batch[i]) !in Keys(log) && RowKey(batch[i]) == RowKey(batch[j])
    ensures !UniqueKeys(Fresh(log, batch))
  {
    var n := |batch| - 1;
    var init, kept := batch[..n], Fresh(log, batch);
    var rest := Fresh(log, init);
    if j < n {
      RepeatedKeyIsStoredTwice(log, init, i, j);
      var k, m :| 0 <= k < m < |rest| && RowKey(rest[k]) == RowKey(rest[m]);
      assert kept[k] == rest[k] && kept[m] == rest[m];
      assert RowKey(kept[k]) == RowKey(kept[m]);
    } else {
      FreshMembers(log, init);
      assert init[i] == batch[i] && batch[i] in rest;
      var k :| 0 <= k < |rest| && rest[k] == batch[i];
      assert kept[k] == rest[k] && kept[|rest|] == batch[n];
    }
  }

  /**
   * Ingestion keeps keys unique exactly when the batch has no two new events with one key:
   * rows added earlier in the same batch are invisible to the duplicate query.
   */
  lemma IngestKeepsUnique(log: seq<LogRow>, batch: seq<LogRow>)
    requires UniqueKeys(log)
    ensures UniqueKeys(Ingest(log, batch)) <==> FreshDistinct(log, batch)
  {
    FreshMembers(log, batch);
    var kept := Fresh(log, batch);
    var all := Ingest(log, batch);
    if UniqueKeys(all) {
      forall i, j | 0 <= i < j < |kept| ensures RowKey(kept[i]) != RowKey(kept[j]) {
        assert all[|log| + i] == kept[i] && all[|log| + j] == kept[j];
      }
      assert UniqueKeys(kept);
      forall i, j | 0 <= i < j < |batch| && RowKey(batch[i]) !in Keys(log)
        ensures RowKey(batch[i]) != RowKey(batch[j]) {
        if RowKey(batch[i]) == RowKey(batch[j]) { RepeatedKeyIsStoredTwice(log, batch, i, j); }
      }
    }
    if FreshDistinct(log, batch) {
      DistinctBatchStaysUnique(log, batch);
      forall i, j | 0 <= i < j < |all| ensures RowKey(all[i]) != RowKey(all[j]) {
        if i < |log| <= j {
          assert all[j] in kept;
          assert RowKey(log[i]) in Keys(log);
        }
      }
    }
  }

  // ---------------------------------------------------------------- enqueue

  /** The registry rows of one type, in table order. */
  function Targets(registry: seq<ClusterNode>, ty: NodeType): seq<NodeId> {
    if registry == [] then []
    else
      var init := Targets(registry[..|registry| - 1], ty);
      var last := registry[|registry| - 1];
      if last.nodeType == ty then init + [last.nodeId] else init
  }

  /** Where a node forwards a row: a master to its slaves, a slave its own events to the master. */
  function ForwardTo(profile: NodeType, self: NodeId, registry: seq<ClusterNode>, row: LogRow): seq<NodeId> {
    if profile == MASTER then Targets(registry, SLAVE)
    else if row.serverNode != self then []
    else Targets(registry, MASTER)
  }

  function NewItem(target: NodeId, row: LogRow, now: int): Item {
    Item(target, [ToWire(row)], now, 0, DEFAULT_MAX_ATTEMPTS, now, None, None, Pending, None)
  }

  function NewItems(targets: seq<NodeId>, row: LogRow, now: int): seq<Item> {
    seq(|targets|, i requires 0 <= i < |targets| => NewItem(targets[i], row, now))
  }

  // ---------------------------------------------------------------- flush

  predicate IsDue(item: Item, now: int) {
    item.status == Pending && item.nextAttemptAt <= now
  }

  predicate Within(indices: seq<nat>, n: nat) {
    forall k :: 0 <= k < |indices| ==> indices[k] < n
  }

  /** Indices of the first `limit` due items among queue[..n], in queue order. */
  function DueIn(queue: seq<Item>, now: int, limit: nat, n: nat): (due: seq<nat>)
    requires n <= |queue|
    ensures |due| <= limit && Within(due, n)
    ensures forall k :: 0 <= k < |due| ==> IsDue(queue[due[k]], now)
    ensures forall a, b :: 0 <= a < b < |due| ==> due[a] < due[b]
  {
    if n == 0 then []
    else
      var due := DueIn(queue, now, limit, n - 1);
      if |due| < limit && IsDue(queue[n - 1], now) then due + [n - 1] else due
  }

  function Due(queue: seq<Item>, now: int, limit: nat): seq<nat> {
    DueIn(queue, now, limit, |queue|)
  }

  /** `due` holds items that wait, and leaves one behind only when it is full, and then only behind all it has taken. */
  ghost predicate TakesFirst(queue: seq<Item>, now: int, limit: nat, due: seq<nat>) {
    && |due| <= limit
    && (forall d :: d in due ==> d < |queue| && queue[d].status == Pending && queue[d].nextAttemptAt <= now)
    && (forall i :: 0 <= i < |queue| && queue[i].status == Pending && queue[i].nextAttemptAt <= now && i !in due ==>
         |due| == limit && forall d :: d in due ==> d < i)
  }

  /** The query with ORDER BY and LIMIT takes the due items that were queued first. */
  lemma DueIsExhaustive(queue: seq<Item>, now: int, limit: nat)
    ensures TakesFirst(queue, now, limit, Due(queue, now, limit))
  {
    DueInIsExhaustive(queue, now, limit, |queue|);
  }

  lemma {:induction false} DueInIsExhaustive(queue: seq<Item>, now: int, limit: nat, n: nat)
    requires n <= |queue|
    ensures var due := DueIn(queue, now, limit, n);
            forall i :: 0 <= i < n && IsDue(queue[i], now) && i !in due ==>
              |due| == limit && forall d :: d in due ==> d < i
  {
    if n > 0 {
      DueInIsExhaustive(queue, now, limit, n - 1);
    }
  }

  predicate HasNode(registry: seq<ClusterNode>, id: NodeId) {
    exists i :: 0 <= i < |registry| && registry[i].nodeId == id
  }

  function OutcomeOf(net: map<NodeId, Outcome>, target: NodeId): Outcome {
    if target in net then net[target] else NotDelivered("ConnectError")
  }

  function Pow2(n: nat): nat {
    if n == 0 then 1 else 2 * Pow2(n - 1)
  }

  /** `min(2 ** attempts, 60)` minutes. */
  function Backoff(attempts: nat): nat {
    if Pow2(attempts) < 60 then Pow2(attempts) else 60
  }

  /** How one selected item leaves the flush. */
  function Mark(item: Item, known: bool, outcome: Outcome, now: int): Item {
    if !known then item.(status := Abandoned, lastError := Some("target_node_not_found"))
    else
      var tried := item.(attempts := item.attempts + 1, lastAttemptAt := Some(now));
      match outcome
      case Acked => tried.(status := Delivered, sentAt := Some(now))
      case AckLost(e) => Retry(tried, e, now)
      case NotDelivered(e) => Retry(tried, e, now)
  }

  function Retry(tried: Item, error: string, now: int): Item {
    if tried.attempts >= tried.maxAttempts then tried.(lastError := Some(error), status := Failed)
    else tried.(lastError := Some(error), nextAttemptAt := now + Backoff(tried.attempts) * MINUTE)
  }

  /** The queue once the groups of `targets` have been marked. */
  function MarkedFor(queue: seq<Item>, due: seq<nat>, registry: seq<ClusterNode>, now: int, net: map<NodeId, Outcome>,
      targets: seq<NodeId>): seq<Item> {
    seq(|queue|, i requires 0 <= i < |queue| =>
      if i in due && queue[i].target in targets
      then Mark(queue[i], HasNode(registry, queue[i].target), OutcomeOf(net, queue[i].target), now)
      else queue[i])
  }

  /** The queue after a committed flush. */
  function Flushed(queue: seq<Item>, registry: seq<ClusterNode>, now: int, limit: nat,
      net: map<NodeId, Outcome>): seq<Item> {
    seq(|queue|, i requires 0 <= i < |queue| =>
      if i in Due(queue, now, limit)
      then Mark(queue[i], HasNode(registry, queue[i].target), OutcomeOf(net, queue[i].target), now)
      else queue[i])
  }

  /** The selected items addressed to one target, in queue order. */
  function GroupFor(queue: seq<Item>, due: seq<nat>, target: NodeId): (group: seq<nat>)
    requires Within(due, |queue|)
    ensures Within(group, |queue|)
    ensures forall i :: i in group <==> i in due && i < |queue| && queue[i].target == target
  {
    if due == [] then []
    else
      var init := GroupFor(queue, due[..|due| - 1], target);
      var last := due[|due| - 1];
      assert due == due[..|due| - 1] + [last];
      if queue[last].target == target then init + [last] else init
  }

  /** The `events` list of the body posted for a group. */
  function BodyOf(queue: seq<Item>, group: seq<nat>): seq<WireEvent>
    requires Within(group, |queue|)
  {
    if group == [] then []
    else BodyOf(queue, group[..|group| - 1]) + queue[group[|group| - 1]].events
  }

  /** How many selected items are addressed to one of `targets`. */
  function Tally(queue: seq<Item>, due: seq<nat>, targets: seq<NodeId>): nat
    requires Within(due, |queue|)
  {
    if due == [] then 0
    else Tally(queue, due[..|due| - 1], targets) + if queue[due[|due| - 1]].target in targets then 1 else 0
  }

  /** How many selected items a flush reports as sent. */
  function SentCount(queue: seq<Item>, due: seq<nat>, registry: seq<ClusterNode>, net: map<NodeId, Outcome>): nat
    requires Within(due, |queue|)
  {
    if due == [] then 0
    else
      SentCount(queue, due[..|due| - 1], registry, net)
      + if Succeeds(queue[due[|due| - 1]].target, registry, net) then 1 else 0
  }

  ghost predicate Increasing(s: seq<nat>) {
    forall a, b :: 0 <= a < b < |s| ==> s[a] < s[b]
  }

  lemma {:induction false} GroupIncreasing(queue: seq<Item>, due: seq<nat>, target: NodeId)
    requires Within(due, |queue|) && Increasing(due)
    ensures Increasing(GroupFor(queue, due, target))
  {
    if due != [] {
      var n := |due| - 1;
      GroupIncreasing(queue, due[..n], target);
      var init := GroupFor(queue, due[..n], target);
      forall a | 0 <= a < |init| ensures init[a] < due[n] {
        assert init[a] in init;
        var k :| 0 <= k < n && due[..n][k] == init[a];
        assert due[k] < due[n];
      }
    }
  }

  predicate Succeeds(target: NodeId, registry: seq<ClusterNode>, net: map<NodeId, Outcome>) {
    HasNode(registry, target) && OutcomeOf(net, target).Acked?
  }
}
