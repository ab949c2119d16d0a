/** The forwarding operations case by case, on the columns they read and write. */
module ClusterCases {
  import opened Common
  import opened ClusterModel
  import opened ClusterService
  import opened QueueLifecycle
  import opened ClusterProtocol
  import ClusterNetwork
  import FlushSteps

  // ---------------------------------------------------------------- what a receive stores

  /** Event i is stored exactly when no row that was there before agrees with it in node, instant and code. */
  lemma StoredIffColumnsAreNew(log: seq<LogRow>, source: NodeId, events: seq<WireEvent>, clock: seq<int>, i: nat)
    requires |clock| == |events| && i < |events|
    ensures var row := FromWire(events[i], source, clock[i]);
            row in Fresh(log, Parse(events, source, clock)) <==>
            forall r :: r in log ==>
              !(r.serverNode == row.serverNode && r.occurredAt == row.occurredAt && r.eventCode == row.eventCode)
  {
    var row, batch := FromWire(events[i], source, clock[i]), Parse(events, source, clock);
    FreshMembers(log, batch);
    assert batch[i] == row;
    forall r | r in log && r.serverNode == row.serverNode && r.occurredAt == row.occurredAt
      ensures RowKey(r) == RowKey(row) || r.eventCode != row.eventCode {
    }
  }

  predicate IsNew(log: seq<LogRow>, row: LogRow) {
    forall k :: 0 <= k < |log| ==>
      log[k].serverNode != row.serverNode || log[k].occurredAt != row.occurredAt || log[k].eventCode != row.eventCode
  }

  function CountNew(log: seq<LogRow>, batch: seq<LogRow>): nat {
    if batch == [] then 0
    else CountNew(log, batch[..|batch| - 1]) + if IsNew(log, batch[|batch| - 1]) then 1 else 0
  }

  /** The receive inserts as many rows as the batch has events whose columns are new, and loses none it had. */
  lemma {:induction false} InsertedCount(log: seq<LogRow>, batch: seq<LogRow>)
    ensures |Ingest(log, batch)| == |log| + CountNew(log, batch) && log <= Ingest(log, batch)
  {
    if batch != [] {
      var last := batch[|batch| - 1];
      InsertedCount(log, batch[..|batch| - 1]);
      assert RowKey(last) in Keys(log) <==> !IsNew(log, last) by {
        if RowKey(last) in Keys(log) {
          var r :| r in log && RowKey(r) == RowKey(last);
          var k :| 0 <= k < |log| && log[k] == r;
        }
        if k :| 0 <= k < |log| && RowKey(log[k]) == RowKey(last) {
          assert log[k] in log;
        }
      }
    }
  }

  /** The columns of an event logged with the given arguments, as they arrive in another node's log. */
  lemma ColumnsArrive(n: NodeId, args: LogArgs, now: int)
    requires args.category != "" && args.eventCode != "" && args.severity != "" && n.name != ""
    ensures var row := Received(NewRow(n, args, now));
            && row.occurredAt == now && row.serverNode == n
            && row.category == args.category && row.eventCode == args.eventCode && row.severity == args.severity
            && row.carried == args.carried
            && row.details == (if args.details.Some? then args.details.value else map[])
            && row.requestId == (if args.requestId.Sent? then Some(args.requestId.value) else None)
            && (args.userAgent == None || args.userAgent == Some("") ==> row.userAgent == None)
            && (args.userAgent.Some? && 0 < |args.userAgent.value| <= 1024 ==> row.userAgent == args.userAgent)
            && (args.userAgent.Some? && |args.userAgent.value| > 1024 ==>
                  row.userAgent == Some(args.userAgent.value[..1024]))
  {
  }

  /** What a receive makes of fields that are missing, empty or unreadable. */
  lemma MissingFields(ev: WireEvent, source: NodeId, now: int)
    ensures var row := FromWire(ev, source, now);
            && (ev.occurredAt.Sent? ==> row.occurredAt == ev.occurredAt.value)
            && (!ev.occurredAt.Sent? ==> row.occurredAt == now)
            && (ev.serverNode == None || ev.serverNode.value.name == "" ==> row.serverNode == source)
            && (ev.serverNode.Some? && ev.serverNode.value.name != "" ==> row.serverNode == ev.serverNode.value)
            && (ev.category == None || ev.category == Some("") ==> row.category == "UNKNOWN")
            && (ev.eventCode == None || ev.eventCode == Some("") ==> row.eventCode == "UNKNOWN")
            && (ev.severity == None || ev.severity == Some("") ==> row.severity == "INFO")
            && (ev.category.Some? && ev.category.value != "" ==> row.category == ev.category.value)
            && (ev.eventCode.Some? && ev.eventCode.value != "" ==> row.eventCode == ev.eventCode.value)
            && (ev.severity.Some? && ev.severity.value != "" ==> row.severity == ev.severity.value)
            && (!ev.requestId.Sent? ==> row.requestId == None)
            && (ev.requestId.Sent? ==> row.requestId == Some(ev.requestId.value))
            && (ev.details == None ==> row.details == map[])
            && (ev.details.Some? ==> row.details == ev.details.value)
            && row.carried == ev.carried
  {
  }

  // ---------------------------------------------------------------- what is queued, and for whom

  /** The registry rows of a type, counted. */
  function CountType(registry: seq<ClusterNode>, ty: NodeType): nat {
    if registry == [] then 0
    else CountType(registry[..|registry| - 1], ty) + if registry[|registry| - 1].nodeType == ty then 1 else 0
  }

  lemma {:induction false} TargetsMeaning(registry: seq<ClusterNode>, ty: NodeType)
    ensures |Targets(registry, ty)| == CountType(registry, ty)
    ensures forall t :: t in Targets(registry, ty) <==> ClusterNode(t, ty) in registry
  {
    if registry != [] {
      TargetsMeaning(registry[..|registry| - 1], ty);
      assert registry == registry[..|registry| - 1] + [registry[|registry| - 1]];
    }
  }

  /** A master forwards to each slave it knows; a slave its own events to each master, and nothing else. */
  lemma ForwardsByRole(profile: NodeType, self: NodeId, registry: seq<ClusterNode>, row: LogRow, t: NodeId)
    ensures profile == MASTER ==>
              && |ForwardTo(profile, self, registry, row)| == CountType(registry, SLAVE)
              && (t in ForwardTo(profile, self, registry, row) <==> ClusterNode(t, SLAVE) in registry)
    ensures profile == SLAVE && row.serverNode == self ==>
              && |ForwardTo(profile, self, registry, row)| == CountType(registry, MASTER)
              && (t in ForwardTo(profile, self, registry, row) <==> ClusterNode(t, MASTER) in registry)
    ensures profile == SLAVE && row.serverNode != self ==> ForwardTo(profile, self, registry, row) == []
  {
    TargetsMeaning(registry, SLAVE);
    TargetsMeaning(registry, MASTER);
  }

  /** A new item carries its one event to its target, has five attempts left and is due at once. */
  lemma NewItemIsDue(target: NodeId, row: LogRow, now: int)
    ensures var item := NewItem(target, row, now);
            && item.target == target && |item.events| == 1 && item.queuedAt == now
            && item.status == Pending && item.attempts == 0 && item.maxAttempts == 5 && item.nextAttemptAt <= now
            && item.lastAttemptAt == None && item.lastError == None && item.sentAt == None
            && forall limit :: limit >= 1 ==> Due([item], now, limit) == [0]
  {
    var item := NewItem(target, row, now);
    forall limit | limit >= 1 ensures Due([item], now, limit) == [0] {
      assert DueIn([item], now, limit, 0) == [];
      assert DueIn([item], now, limit, 1) == [0];
    }
  }

  // ---------------------------------------------------------------- how a flush leaves an item

  /** The minutes between attempts: 2, 4, 8, 16, 32, and 60 from the sixth attempt on. */
  lemma {:induction false} BackoffMinutes(attempts: nat)
    ensures Backoff(attempts) ==
            if attempts == 0 then 1 else if attempts == 1 then 2 else if attempts == 2 then 4
            else if attempts == 3 then 8 else if attempts == 4 then 16 else if attempts == 5 then 32 else 60
  {
    assert Pow2(1) == 2 && Pow2(2) == 4 && Pow2(3) == 8 && Pow2(4) == 16 && Pow2(5) == 32 && Pow2(6) == 64;
    if attempts > 6 {
      Pow2Grows(attempts);
    }
  }

  lemma {:induction false} Pow2Grows(n: nat)
    requires n >= 6
    ensures Pow2(n) >= 64
  {
    if n == 6 {
      assert Pow2(1) == 2 && Pow2(2) == 4 && Pow2(3) == 8 && Pow2(4) == 16 && Pow2(5) == 32;
    } else {
      Pow2Grows(n - 1);
    }
  }

  /** One item after a committed flush, column by column. */
  lemma FlushCases(
      queue: seq<Item>, registry: seq<ClusterNode>, now: int, limit: nat, net: map<NodeId, Outcome>, i: nat)
    requires i < |queue|
    ensures var q, after := queue[i], Flushed(queue, registry, now, limit, net)[i];
            var known := exists k :: 0 <= k < |registry| && registry[k].nodeId == q.target;
            var acked := q.target in net && net[q.target] == Acked;
            && (i !in Due(queue, now, limit) ==> after == q)
            && (i in Due(queue, now, limit) && !known ==>
                  after == q.(status := Abandoned, lastError := Some("target_node_not_found")))
            && (i in Due(queue, now, limit) && known && acked ==>
                  after == q.(status := Delivered, attempts := q.attempts + 1, lastAttemptAt := Some(now),
                    sentAt := Some(now)))
            && (i in Due(queue, now, limit) && known && !acked ==>
                  && after.attempts == q.attempts + 1 && after.lastAttemptAt == Some(now)
                  && after.lastError == Some(if q.target in net then net[q.target].error else "ConnectError")
                  && after.target == q.target && after.events == q.events && after.queuedAt == q.queuedAt
                  && after.maxAttempts == q.maxAttempts && after.sentAt == q.sentAt)
            && (i in Due(queue, now, limit) && known && !acked && q.attempts + 1 >= q.maxAttempts ==>
                  after.status == Failed && after.nextAttemptAt == q.nextAttemptAt)
            && (i in Due(queue, now, limit) && known && !acked && q.attempts + 1 < q.maxAttempts ==>
                  && after.status == q.status
                  && after.nextAttemptAt == now + Backoff(q.attempts + 1) * 60_000_000)
  {
  }

  function CountDelivered(queue: seq<Item>, due: seq<nat>): nat
    requires Within(due, |queue|)
  {
    if due == [] then 0
    else CountDelivered(queue, due[..|due| - 1]) + if queue[due[|due| - 1]].status == Delivered then 1 else 0
  }

  /** The number reported as sent is the number of selected items that end as sent. */
  lemma SentAreCounted(queue: seq<Item>, registry: seq<ClusterNode>, now: int, limit: nat, net: map<NodeId, Outcome>)
    ensures var due := Due(queue, now, limit);
            SentCount(queue, due, registry, net) == CountDelivered(Flushed(queue, registry, now, limit, net), due)
  {
    var due := Due(queue, now, limit);
    SentUpTo(queue, registry, now, limit, net, |due|);
    assert due[..|due|] == due;
  }

  lemma {:induction false} SentUpTo(
      queue: seq<Item>, registry: seq<ClusterNode>, now: int, limit: nat, net: map<NodeId, Outcome>, n: nat)
    requires n <= |Due(queue, now, limit)|
    ensures var part := Due(queue, now, limit)[..n];
            SentCount(queue, part, registry, net) == CountDelivered(Flushed(queue, registry, now, limit, net), part)
  {
    if n > 0 {
      var due := Due(queue, now, limit);
      SentUpTo(queue, registry, now, limit, net, n - 1);
      assert due[..n][..n - 1] == due[..n - 1];
      assert due[n - 1] in due;
      assert IsDue(queue[due[n - 1]], now);
    }
  }

  // ---------------------------------------------------------------- steps of the cluster

  /** What a flush of node `at` leaves at node m: a reply that is lost does not undo what the request stored. */
  lemma FlushStepCases(
      c: Cluster, at: NodeId, now: int, limit: nat, net: map<NodeId, Outcome>, committed: bool, m: NodeId)
    requires at in c && m in c
    ensures var c', reached := Apply(c, Flush(at, now, limit, net, committed)), m in net && !net[m].NotDelivered?;
            var listed := exists i :: 0 <= i < |c[at].registry| && c[at].registry[i].nodeId == m;
            && c'[m].profile == c[m].profile && c'[m].registry == c[m].registry
            && (listed && reached ==> c'[m].log == Ingest(c[m].log, Batch(at, c[at], now, limit, m)))
            && (!listed || !reached ==> c'[m].log == c[m].log)
            && (m != at || !committed ==> c'[m].queue == c[m].queue)
  {
  }

  /** The sender's queue: items for nodes that are not there are retried, like those for nodes that do not answer. */
  lemma FlushStepQueue(c: Cluster, at: NodeId, now: int, limit: nat, net: map<NodeId, Outcome>)
    requires at in c
    ensures var answers := map t | t in net && t in c :: net[t];
            Apply(c, Flush(at, now, limit, net, true))[at].queue ==
            Flushed(c[at].queue, c[at].registry, now, limit, answers)
  {
  }

  /** Registering a node adds it once, and rewrites the entry of a node that is known. */
  lemma RegisterCases(registry: seq<ClusterNode>, entry: ClusterNode, i: nat)
    requires i < |Upsert(registry, entry)|
    ensures var known := exists k :: 0 <= k < |registry| && registry[k].nodeId == entry.nodeId;
            && |Upsert(registry, entry)| == |registry| + (if known then 0 else 1)
            && (i < |registry| && registry[i].nodeId != entry.nodeId ==> Upsert(registry, entry)[i] == registry[i])
            && (i == |registry| || registry[i].nodeId == entry.nodeId ==> Upsert(registry, entry)[i] == entry)
  {
  }

  /** A deletion takes the node's one row out of the registry; the others keep their order. */
  lemma {:induction false} RemovedFromRegistry(before: seq<ClusterNode>, node: ClusterNode, after: seq<ClusterNode>)
    requires forall n :: n in before + after ==> n.nodeId != node.nodeId
    ensures Without(before + [node] + after, node.nodeId) == before + after
  {
    var all := before + [node] + after;
    if after != [] {
      var rest := after[..|after| - 1];
      assert all[..|all| - 1] == before + [node] + rest && all[|all| - 1] == after[|after| - 1];
      assert after[|after| - 1] in before + after;
      RemovedFromRegistry(before, node, rest);
    } else {
      assert all[..|all| - 1] == before;
      NothingRemoved(before, node.nodeId);
    }
  }

  lemma {:induction false} NothingRemoved(registry: seq<ClusterNode>, id: NodeId)
    requires forall n :: n in registry ==> n.nodeId != id
    ensures Without(registry, id) == registry
  {
    if registry != [] {
      NothingRemoved(registry[..|registry| - 1], id);
    }
  }

  /** Only a slave that is registered can be deleted; with it, what waits or has failed for it is abandoned. */
  lemma DeleteStepCases(c: Cluster, at: NodeId, target: NodeId, i: nat)
    requires at in c && i < |c[at].queue|
    ensures var c', q := Apply(c, DeleteNode(at, target)), c[at].queue[i];
            && (ClusterNode(target, SLAVE) !in c[at].registry ==> c' == c)
            && (ClusterNode(target, SLAVE) in c[at].registry ==>
                  && c'[at].log == c[at].log && c'[at].registry == Without(c[at].registry, target)
                  && (forall m :: m in c && m != at ==> c'[m] == c[m])
                  && |c'[at].queue| == |c[at].queue|
                  && c'[at].queue[i] ==
                     if q.target == target && (q.status == Pending || q.status == Failed)
                     then q.(status := Abandoned, lastError := Some("node_deleted")) else q)
  {
  }

  /** The columns that an open flush writes over a row as it is by now; an error text that was loaded is not written. */
  lemma WrittenColumns(stored: Item, loaded: Item, outcome: Outcome, now: int)
    ensures var gone := FlushSteps.Write(stored, loaded, false, outcome, now);
            && gone.status == Abandoned && gone.attempts == stored.attempts
            && gone.nextAttemptAt == stored.nextAttemptAt
            && gone.lastError == (if loaded.lastError == Some("target_node_not_found") then stored.lastError
                                  else Some("target_node_not_found"))
    ensures var after, tries := FlushSteps.Write(stored, loaded, true, outcome, now), loaded.attempts + 1;
            && after.attempts == tries && after.lastAttemptAt == Some(now)
            && (outcome.Acked? ==>
                  after.status == Delivered && after.sentAt == Some(now) && after.lastError == stored.lastError)
            && (!outcome.Acked? ==>
                  && after.lastError == (if loaded.lastError == Some(outcome.error) then stored.lastError
                                         else Some(outcome.error))
                  && (tries >= stored.maxAttempts ==>
                        after.status == Failed && after.nextAttemptAt == stored.nextAttemptAt)
                  && (tries < stored.maxAttempts ==>
                        after.status == stored.status && after.nextAttemptAt == now + Backoff(tries) * 60_000_000))
  {
  }

  /** How an open flush ends: a commit keeps what it has written, and a failure puts the rows back. */
  lemma FlightEnds(s: FlushSteps.State, i: nat)
    requires s.flight.Some? && i < |s.queue|
    ensures FlushSteps.Go(s, FlushSteps.Close).queue == s.queue
    ensures var failed, undo := FlushSteps.Go(s, FlushSteps.Abort), s.flight.value.undo;
            && |failed.queue| == |s.queue|
            && failed.queue[i] == if i in undo then undo[i] else s.queue[i]
    ensures FlushSteps.Go(s, FlushSteps.Close).flight == None && FlushSteps.Go(s, FlushSteps.Abort).flight == None
    ensures FlushSteps.Go(s, FlushSteps.Close).registry == FlushSteps.Go(s, FlushSteps.Abort).registry == s.registry
  {
  }

  /** A deletion goes through at once, unless the open flush has written the rows of that node. */
  lemma DeletionWaits(s: FlushSteps.State, id: NodeId)
    ensures var s' := FlushSteps.Go(s, FlushSteps.Delete(id));
            var held := s.flight.Some? && id in s.flight.value.marked;
            && s'.flight == s.flight
            && (held || ClusterNode(id, SLAVE) !in s.registry ==> s' == s)
            && (!held && ClusterNode(id, SLAVE) in s.registry ==>
                  s'.queue == AbandonFor(s.queue, id) && s'.registry == Without(s.registry, id))
  {
  }

  /** A request that arrives is stored by its target whenever that is, and stays able to arrive again. */
  lemma ArrivalIsStored(w: ClusterNetwork.World, k: nat, m: NodeId)
    requires k < |w.letters| && m in w.cluster
    ensures var w', letter := ClusterNetwork.Go(w, ClusterNetwork.Arrive(k)), w.letters[k];
            && w'.letters == w.letters
            && w'.cluster[m].queue == w.cluster[m].queue && w'.cluster[m].registry == w.cluster[m].registry
            && w'.cluster[m].log ==
               if m == letter.target then Ingest(w.cluster[m].log, letter.rows) else w.cluster[m].log
  {
  }

  /** Each flush leaves on the network one request for each node it knows, with that node's selected events. */
  lemma FlushPosts(w: ClusterNetwork.World, step: Step, i: nat)
    requires step.Flush? && step.at in w.cluster && i < |w.cluster[step.at].registry|
    ensures var w', t := ClusterNetwork.Go(w, ClusterNetwork.Act(step)), w.cluster[step.at].registry[i].nodeId;
            && w'.cluster == Apply(w.cluster, step)
            && |w'.letters| == |w.letters| + |w.cluster[step.at].registry| && w'.letters[..|w.letters|] == w.letters
            && w'.letters[|w.letters| + i] ==
               ClusterNetwork.Letter(t, Batch(step.at, w.cluster[step.at], step.now, step.limit, t))
  {
  }
}
