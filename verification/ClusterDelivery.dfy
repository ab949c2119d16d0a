/** Exactly-once forwarding, no loops, conservation and termination over every run of the cluster. */
module ClusterDelivery {
  import opened Common
  import opened ClusterModel
  import opened ClusterService
  import opened QueueLifecycle
  import opened ClusterProtocol

  /** No two events logged at one node share the three key columns, and every event has a code. */
  ghost predicate Stamped(c: Cluster) {
    forall n :: n in c ==> LocallyStamped(n, c[n].log)
  }

  ghost predicate LocallyStamped(n: NodeId, log: seq<LogRow>) {
    && (forall i :: 0 <= i < |log| && log[i].serverNode == n ==> log[i].eventCode != "")
    && (forall i, j :: 0 <= i < j < |log| && log[i].serverNode == log[j].serverNode == n ==>
         log[i].occurredAt != log[j].occurredAt || log[i].eventCode != log[j].eventCode)
  }

  /** No log holds one key twice, and no node queues one event twice for one target. */
  ghost predicate NoDuplicates(c: Cluster) {
    forall n :: n in c ==> UniqueKeys(c[n].log) && UniqueItems(c[n].queue)
  }

  ghost predicate UniqueItems(queue: seq<Item>) {
    forall i, j :: 0 <= i < j < |queue| && queue[i].target == queue[j].target ==> queue[i].events != queue[j].events
  }

  lemma StampedEarlier(c: Cluster, c': Cluster)
    requires Extends(c, c') && Stamped(c')
    ensures Stamped(c)
  {
    forall n | n in c ensures LocallyStamped(n, c[n].log) {
      assert NodeExtends(c[n], c'[n]);
      assert LocallyStamped(n, c'[n].log);
      assert forall i :: 0 <= i < |c[n].log| ==> c[n].log[i] == c'[n].log[i];
    }
  }

  lemma CopyKeepsKey(row: LogRow)
    requires row.eventCode != ""
    ensures RowKey(Received(row)) == RowKey(row)
  {
  }

  /** Two rows that one node logged and that share the key are the same row. */
  lemma SameKeySameRow(c: Cluster, n: NodeId, row: LogRow, row': LogRow)
    requires Stamped(c) && n in c && row in c[n].log && row' in c[n].log
    requires row.serverNode == row'.serverNode == n && RowKey(row) == RowKey(row')
    ensures row == row'
  {
    assert LocallyStamped(n, c[n].log);
    var i :| 0 <= i < |c[n].log| && c[n].log[i] == row;
    var j :| 0 <= j < |c[n].log| && c[n].log[j] == row';
    assert !(i < j) && !(j < i);
  }

  /** Under the hypothesis, the rows of one batch have pairwise different keys. */
  lemma BatchKeysDiffer(c: Cluster, at: NodeId, now: int, limit: nat, t: NodeId)
    requires at in c && OwnPayloads(c) && Stamped(c) && UniqueItems(c[at].queue)
    ensures UniqueKeys(Batch(at, c[at], now, limit, t))
  {
    var queue := c[at].queue;
    var group := GroupFor(queue, Due(queue, now, limit), t);
    var batch := Batch(at, c[at], now, limit, t);
    BatchRows(c, at, now, limit, t);
    GroupIncreasing(queue, Due(queue, now, limit), t);
    forall k, m | 0 <= k < m < |batch| ensures RowKey(batch[k]) != RowKey(batch[m]) {
      var row :| Carries(c, at, queue[group[k]], row) && batch[k] == Received(row);
      var row' :| Carries(c, at, queue[group[m]], row') && batch[m] == Received(row');
      assert group[k] in group && group[m] in group && group[k] < group[m];
      assert queue[group[k]].events != queue[group[m]].events;
      StampedCode(c, at, row);
      StampedCode(c, at, row');
      CopyKeepsKey(row);
      CopyKeepsKey(row');
      if RowKey(row) == RowKey(row') {
        SameKeySameRow(c, at, row, row');
      }
    }
  }

  lemma StampedCode(c: Cluster, n: NodeId, row: LogRow)
    requires Stamped(c) && n in c && row in c[n].log && row.serverNode == n
    ensures row.eventCode != ""
  {
    assert LocallyStamped(n, c[n].log);
    var i :| 0 <= i < |c[n].log| && c[n].log[i] == row;
  }

  /** The row that log_event adds has a key that no row of the log has. */
  lemma LogKeepsUnique(c: Cluster, at: NodeId, row: LogRow)
    requires at in c && row.serverNode == at && UniqueKeys(c[at].log) && LocallyStamped(at, c[at].log + [row])
    ensures UniqueKeys(c[at].log + [row])
  {
    var log := c[at].log;
    forall i | 0 <= i < |log| ensures RowKey(log[i]) != RowKey(row) {
      if log[i].serverNode == at {
        assert (log + [row])[i] == log[i] && (log + [row])[|log|] == row;
      }
    }
  }

  lemma NewItemsAreUnique(c: Cluster, at: NodeId, args: LogArgs, now: int)
    requires Safe(c) && at in c && UniqueItems(c[at].queue)
    requires LocallyStamped(at, c[at].log + [NewRow(at, args, now)])
    ensures UniqueItems(Apply(c, Log(at, args, now))[at].queue)
  {
    var row, node := NewRow(at, args, now), c[at];
    var targets := ForwardTo(node.profile, at, node.registry, row);
    var added := NewItems(targets, row, now);
    assert NodeTidy(node);
    TargetsDistinct(node.registry, SLAVE);
    TargetsDistinct(node.registry, MASTER);
    var queue := node.queue + added;
    assert Distinct(targets);
    forall i, j | 0 <= i < j < |queue| && queue[i].target == queue[j].target
      ensures queue[i].events != queue[j].events {
      if i < |node.queue| <= j {
        assert HasOrigin(c, at, node.queue[i]);
        var old_ :| Carries(c, at, node.queue[i], old_);
        var k :| 0 <= k < |node.log| && node.log[k] == old_;
        assert (node.log + [row])[k] == old_ && (node.log + [row])[|node.log|] == row;
        assert RowKey(old_) != RowKey(row);
        assert ToWire(old_).occurredAt != ToWire(row).occurredAt || ToWire(old_).eventCode != ToWire(row).eventCode;
        assert queue[j].events[0] == ToWire(row);
      }
    }
  }

  lemma StepKeepsUnique(c: Cluster, step: Step)
    requires Safe(c) && NoDuplicates(c) && Stamped(Apply(c, step))
    ensures NoDuplicates(Apply(c, step))
  {
    var c' := Apply(c, step);
    StepExtends(c, step);
    StampedEarlier(c, c');
    forall n | n in c' ensures UniqueKeys(c'[n].log) && UniqueItems(c'[n].queue) {
      assert NodeExtends(c[n], c'[n]);
      assert UniqueKeys(c[n].log) && UniqueItems(c[n].queue);
      if step.at in c {
        match step
        case Log(at, args, now) =>
          if n == at {
            assert LocallyStamped(n, c'[n].log);
            LogKeepsUnique(c, at, NewRow(at, args, now));
            NewItemsAreUnique(c, at, args, now);
          }
        case Flush(at, now, limit, net, committed) =>
          BatchKeysDiffer(c, at, now, limit, n);
          IngestKeepsUnique(c[n].log, Batch(at, c[at], now, limit, n));
          EvolvedItemsStayUnique(c[n].queue, c'[n].queue);
        case Register(at, entry) =>
        case DeleteNode(at, target) =>
          EvolvedItemsStayUnique(c[n].queue, c'[n].queue);
      }
    }
  }

  lemma EvolvedItemsStayUnique(queue: seq<Item>, queue': seq<Item>)
    requires UniqueItems(queue) && |queue'| == |queue| && QueueEvolves(queue, queue')
    ensures UniqueItems(queue')
  {
    forall i, j | 0 <= i < j < |queue'| && queue'[i].target == queue'[j].target
      ensures queue'[i].events != queue'[j].events {
      assert Evolves(queue[i], queue'[i]) && Evolves(queue[j], queue'[j]);
    }
  }

  lemma {:induction false} RunKeepsUnique(c: Cluster, steps: seq<Step>)
    requires Safe(c) && NoDuplicates(c) && Stamped(Run(c, steps))
    ensures NoDuplicates(Run(c, steps))
  {
    if steps != [] {
      var init, last := steps[..|steps| - 1], steps[|steps| - 1];
      RunIsSafe(c, init);
      StepExtends(Run(c, init), last);
      StampedEarlier(Run(c, init), Run(c, steps));
      RunKeepsUnique(c, init);
      StepKeepsUnique(Run(c, init), last);
    }
  }

  /** How many rows of a log have the three columns of `row`. */
  function Occurrences(log: seq<LogRow>, row: LogRow): nat {
    if log == [] then 0
    else
      var last := log[|log| - 1];
      Occurrences(log[..|log| - 1], row)
      + if last.serverNode == row.serverNode && last.occurredAt == row.occurredAt && last.eventCode == row.eventCode
        then 1 else 0
  }

  lemma {:induction false} UniqueMeansOnce(log: seq<LogRow>, row: LogRow)
    requires UniqueKeys(log)
    ensures Occurrences(log, row) == if RowKey(row) in Keys(log) then 1 else 0
  {
    if log != [] {
      var n := |log| - 1;
      UniqueMeansOnce(log[..n], row);
      assert log == log[..n] + [log[n]];
      assert Keys(log) == Keys(log[..n]) + {RowKey(log[n])};
      forall r | r in log[..n] ensures RowKey(r) != RowKey(log[n]) {
        var i :| 0 <= i < n && log[i] == r;
      }
    }
  }

  /**
   * Exactly once. In every reachable state where no two events logged at one node share the key,
   * an item marked sent has left in its target's log exactly one row with its event's key, that row
   * is the copy of the logged event, and no log holds any key twice.
   */
  lemma ExactlyOnce(c: Cluster, steps: seq<Step>, n: NodeId, i: nat, row: LogRow)
    requires Initial(c) && Stamped(Run(c, steps))
    requires n in c && i < |Run(c, steps)[n].queue| && Carries(Run(c, steps), n, Run(c, steps)[n].queue[i], row)
    requires Run(c, steps)[n].queue[i].status == Delivered
    ensures NoDuplicates(Run(c, steps))
    ensures StoredOnce(Run(c, steps), n, Run(c, steps)[n].queue[i].target, row)
  {
    InitialIsSafe(c);
    RunIsSafe(c, steps);
    RunKeepsUnique(c, steps);
    SentIsStoredOnce(Run(c, steps), n, i, row);
  }

  /** The log of t has exactly one row with the key of `row`, which n logged, and that row is its copy. */
  ghost predicate StoredOnce(c: Cluster, n: NodeId, t: NodeId, row: LogRow) {
    && t in c
    && Occurrences(c[t].log, row) == 1
    && (if t == n then row else Received(row)) in c[t].log
  }

  lemma SentIsStoredOnce(c: Cluster, n: NodeId, i: nat, row: LogRow)
    requires Safe(c) && NoDuplicates(c) && Stamped(c)
    requires n in c && i < |c[n].queue| && Carries(c, n, c[n].queue[i], row) && c[n].queue[i].status == Delivered
    ensures StoredOnce(c, n, c[n].queue[i].target, row)
  {
    var item := c[n].queue[i];
    assert Stored(c, n, item);
    var t := item.target;
    ReceivedIsFromWire(row, 0);
    StampedCode(c, n, row);
    CopyKeepsKey(row);
    assert RowKey(row) in Keys(c[t].log);
    UniqueMeansOnce(c[t].log, row);
    if t != n {
      var stored :| stored in c[t].log && RowKey(stored) == RowKey(row);
      var origin :| CopyOf(c, origin, stored);
      StampedOrigin(c, origin, stored);
      SameKeySameRow(c, n, origin, row);
    }
  }

  /**
   * Two events of one node at different instants are two rows at each target: when the items that carry them
   * there are sent, the target's log holds the copies of both, and they are different.
   */
  lemma BothInstantsAreStored(
      c: Cluster, steps: seq<Step>, n: NodeId, i: nat, j: nat, row: LogRow, row': LogRow)
    requires Initial(c) && n in c && Stamped(Run(c, steps))
    requires i < |Run(c, steps)[n].queue| && j < |Run(c, steps)[n].queue| && row.occurredAt != row'.occurredAt
    requires var queue := Run(c, steps)[n].queue;
             && Carries(Run(c, steps), n, queue[i], row) && Carries(Run(c, steps), n, queue[j], row')
             && queue[i].status == queue[j].status == Delivered && queue[i].target == queue[j].target != n
    ensures var t := Run(c, steps)[n].queue[i].target;
            && t in Run(c, steps) && Received(row) != Received(row')
            && Received(row) in Run(c, steps)[t].log && Received(row') in Run(c, steps)[t].log
  {
    ExactlyOnce(c, steps, n, i, row);
    ExactlyOnce(c, steps, n, j, row');
  }

  lemma StampedOrigin(c: Cluster, origin: LogRow, copy: LogRow)
    requires Stamped(c) && CopyOf(c, origin, copy)
    ensures RowKey(copy) == RowKey(origin)
  {
    StampedCode(c, origin.serverNode, origin);
    CopyKeepsKey(origin);
  }

  /**
   * Without the hypothesis a different event with the same key is lost: the receive stores an event
   * exactly when its key was not there before the batch.
   */
  lemma StoredIffKeyWasNew(log: seq<LogRow>, batch: seq<LogRow>, row: LogRow)
    requires row in batch && row !in log
    ensures row in Ingest(log, batch) <==> RowKey(row) !in Keys(log)
  {
    FreshMembers(log, batch);
  }

  /**
   * The query compares three columns, not the four its documentation names: of two events that differ
   * in nothing but who acted, the second is dropped.
   */
  lemma ActorDoesNotSeparate(log: seq<LogRow>, row: LogRow, actor: Option<string>)
    requires row in log
    ensures var other := row.(carried := row.carried.(actorDisplay := actor));
            Ingest(log, [other]) == log && (actor != row.carried.actorDisplay ==> other != row)
  {
    var other := row.(carried := row.carried.(actorDisplay := actor));
    assert RowKey(other) == RowKey(row);
    RedeliveryInsertsNothing(log, [other]);
  }

  // ---------------------------------------------------------------- no loops

  /**
   * An event crosses at most one link: whatever a node received from elsewhere is in no item of its
   * own queue, and each foreign row was logged at the node it names.
   */
  lemma NoForwardingLoops(c: Cluster, steps: seq<Step>, n: NodeId, row: LogRow)
    requires Initial(c) && n in c && row in Run(c, steps)[n].log && row.serverNode != n
    ensures exists origin :: CopyOf(Run(c, steps), origin, row)
    ensures forall i :: 0 <= i < |Run(c, steps)[n].queue| ==>
              |Run(c, steps)[n].queue[i].events| == 1 && Run(c, steps)[n].queue[i].events[0].serverNode == Some(n)
    ensures forall i :: 0 <= i < |Run(c, steps)[n].queue| ==> ToWire(row) !in Run(c, steps)[n].queue[i].events
  {
    var end := Run(c, steps);
    InitialIsSafe(c);
    RunIsSafe(c, steps);
    forall i | 0 <= i < |end[n].queue|
      ensures |end[n].queue[i].events| == 1 && end[n].queue[i].events[0].serverNode == Some(n)
      ensures ToWire(row) !in end[n].queue[i].events
    {
      assert HasOrigin(end, n, end[n].queue[i]);
    }
  }

  // ---------------------------------------------------------------- conservation

  /** The items that the log steps of a run have created on node n: one per target registered at that moment. */
  function Created(c: Cluster, steps: seq<Step>, n: NodeId): nat {
    if steps == [] then 0
    else
      var before, last := Run(c, steps[..|steps| - 1]), steps[|steps| - 1];
      Created(c, steps[..|steps| - 1], n)
      + if last.Log? && last.at == n && n in before
        then |Targets(before[n].registry, if before[n].profile == MASTER then SLAVE else MASTER)|
        else 0
  }

  /** Items are neither lost nor made up. */
  lemma {:induction false} ItemsAreConserved(c: Cluster, steps: seq<Step>, n: NodeId)
    requires Initial(c) && n in c
    ensures Run(c, steps).Keys == c.Keys && |Run(c, steps)[n].queue| == Created(c, steps, n)
  {
    if steps != [] {
      ItemsAreConserved(c, steps[..|steps| - 1], n);
    }
  }

  /**
   * Nothing is dropped silently: from the moment an event is logged, each target registered then has an
   * item carrying it, and in every later state that item is still being tried, is stored at the target,
   * has used all its attempts, or was abandoned.
   */
  lemma NothingIsDropped(
      c: Cluster, before: seq<Step>, n: NodeId, args: LogArgs, now: int, after: seq<Step>, k: nat)
    requires Initial(c) && n in c
    requires var start := Run(c, before)[n];
             k < |ForwardTo(start.profile, n, start.registry, NewRow(n, args, now))|
    ensures var start := Run(c, before);
            AccountedFor(Run(Apply(start, Log(n, args, now)), after), n, |start[n].queue| + k,
                         ForwardTo(start[n].profile, n, start[n].registry, NewRow(n, args, now))[k],
                         NewRow(n, args, now))
  {
    InitialIsSafe(c);
    RunIsSafe(c, before);
    LoggedIsAccountedFor(Run(c, before), n, args, now, after, k);
  }

  lemma LoggedIsAccountedFor(start: Cluster, n: NodeId, args: LogArgs, now: int, after: seq<Step>, k: nat)
    requires Safe(start) && n in start
    requires k < |ForwardTo(start[n].profile, n, start[n].registry, NewRow(n, args, now))|
    ensures AccountedFor(Run(Apply(start, Log(n, args, now)), after), n, |start[n].queue| + k,
                         ForwardTo(start[n].profile, n, start[n].registry, NewRow(n, args, now))[k],
                           NewRow(n, args, now))
  {
    var step := Log(n, args, now);
    var mid := Apply(start, step);
    NewItemsCarry(start, step, n, |start[n].queue| + k);
    StepIsSafe(start, step);
    RunIsSafe(mid, after);
    StaysAccountedFor(mid, Run(mid, after), n, |start[n].queue| + k, NewRow(n, args, now));
  }

  /** Item i of node n carries `row` to `target`: still being tried, stored there, out of attempts, or abandoned. */
  ghost predicate AccountedFor(c: Cluster, n: NodeId, i: nat, target: NodeId, row: LogRow) {
    && n in c && i < |c[n].queue|
    && var item := c[n].queue[i];
    && item.target == target && Carries(c, n, item, row)
    && match item.status
       case Pending => item.attempts < item.maxAttempts
       case Delivered => Stored(c, n, item)
       case Failed => item.attempts == item.maxAttempts
       case Abandoned => true
  }

  lemma StaysAccountedFor(c: Cluster, end: Cluster, n: NodeId, i: nat, row: LogRow)
    requires Safe(end) && Extends(c, end)
    requires n in c && i < |c[n].queue| && Carries(c, n, c[n].queue[i], row)
    ensures AccountedFor(end, n, i, c[n].queue[i].target, row)
  {
    assert NodeExtends(c[n], end[n]);
    assert Evolves(c[n].queue[i], end[n].queue[i]);
    assert NodeTidy(end[n]) && ItemOk(end[n].queue[i]);
  }

  // ---------------------------------------------------------------- retry timing and termination

  /**
   * Along any run an item keeps its place, never returns to pending, and its later attempts are at
   * least the sum of the backoffs apart.
   */
  lemma ItemHistory(c: Cluster, steps: seq<Step>, more: seq<Step>, n: NodeId, i: nat)
    requires Initial(c) && n in c && i < |Run(c, steps)[n].queue|
    ensures i < |Run(Run(c, steps), more)[n].queue|
    ensures Evolves(Run(c, steps)[n].queue[i], Run(Run(c, steps), more)[n].queue[i])
    ensures ItemOk(Run(Run(c, steps), more)[n].queue[i])
  {
    InitialIsSafe(c);
    RunIsSafe(c, steps);
    RunIsSafe(Run(c, steps), more);
    assert NodeExtends(Run(c, steps)[n], Run(Run(c, steps), more)[n]);
    assert NodeTidy(Run(Run(c, steps), more)[n]);
  }

  lemma {:induction false} RunSplits(c: Cluster, steps: seq<Step>, m: nat)
    requires m <= |steps|
    ensures Run(Run(c, steps[..m]), steps[m..]) == Run(c, steps)
  {
    if m == |steps| {
      assert steps[..m] == steps;
    } else {
      var init := steps[..|steps| - 1];
      RunSplits(c, init, m);
      assert init[..m] == steps[..m] && init[m..] == steps[m..][..|steps[m..]| - 1];
    }
  }

  /** A step tries an item at most once, and a new item has five attempts and none used. */
  lemma StepTriesOnce(c: Cluster, step: Step, n: NodeId, i: nat)
    requires n in c && i < |Apply(c, step)[n].queue|
    ensures i < |c[n].queue| ==> Apply(c, step)[n].queue[i].attempts <= c[n].queue[i].attempts + 1
    ensures i >= |c[n].queue| ==> Apply(c, step)[n].queue[i].attempts == 0
    ensures i >= |c[n].queue| ==> Apply(c, step)[n].queue[i].maxAttempts == DEFAULT_MAX_ATTEMPTS
  {
    if step.Flush? && step.at in c {
      FlushTriesOnce(c, step, n, i);
    } else {
      OthersTryNothing(c, step, n, i);
    }
  }

  lemma FlushTriesOnce(c: Cluster, step: Step, n: NodeId, i: nat)
    requires n in c && step.Flush? && step.at in c && i < |Apply(c, step)[n].queue|
    ensures i < |c[n].queue| && Apply(c, step)[n].queue[i].attempts <= c[n].queue[i].attempts + 1
  {
    var net := Reachable(c, step.net);
    assert Apply(c, step)[n].queue == if n == step.at && step.committed
      then Flushed(c[n].queue, c[n].registry, step.now, step.limit, net) else c[n].queue;
    FlushedTriesOnce(c[n].queue, c[n].registry, step.now, step.limit, net, i);
  }

  lemma OthersTryNothing(c: Cluster, step: Step, n: NodeId, i: nat)
    requires n in c && (!step.Flush? || step.at !in c) && i < |Apply(c, step)[n].queue|
    ensures i < |c[n].queue| ==> Apply(c, step)[n].queue[i].attempts == c[n].queue[i].attempts
    ensures i >= |c[n].queue| ==> Apply(c, step)[n].queue[i].attempts == 0
    ensures i >= |c[n].queue| ==> Apply(c, step)[n].queue[i].maxAttempts == DEFAULT_MAX_ATTEMPTS
  {
  }

  /** Item i of node n after the first m steps. */
  function ItemAfter(c: Cluster, steps: seq<Step>, m: nat, n: NodeId, i: nat): Option<Item>
    requires n in c && m <= |steps|
  {
    var queue := Run(c, steps[..m])[n].queue;
    if i < |queue| then Some(queue[i]) else None
  }

  lemma ItemBefore(c: Cluster, steps: seq<Step>, m: nat, n: NodeId, i: nat)
    requires Initial(c) && n in c && 0 < m <= |steps| && ItemAfter(c, steps, m, n, i).Some?
    ensures ItemAfter(c, steps, m - 1, n, i) == None ==>
              && ItemAfter(c, steps, m, n, i).value.attempts == 0
              && ItemAfter(c, steps, m, n, i).value.maxAttempts == DEFAULT_MAX_ATTEMPTS
    ensures ItemAfter(c, steps, m - 1, n, i).Some? ==>
              && ItemAfter(c, steps, m, n, i).value.attempts <= ItemAfter(c, steps, m - 1, n, i).value.attempts + 1
              && ItemAfter(c, steps, m, n, i).value.maxAttempts == ItemAfter(c, steps, m - 1, n, i).value.maxAttempts
  {
    var init := steps[..m - 1];
    assert steps[..m][..m - 1] == init;
    InitialIsSafe(c);
    RunIsSafe(c, init);
    StepExtends(Run(c, init), steps[m - 1]);
    StepTriesOnce(Run(c, init), steps[m - 1], n, i);
    assert NodeExtends(Run(c, init)[n], Run(c, steps[..m])[n]);
  }

  lemma {:induction false} EveryItemHasFiveAttempts(c: Cluster, steps: seq<Step>, m: nat, n: NodeId, i: nat)
    requires Initial(c) && n in c && m <= |steps| && ItemAfter(c, steps, m, n, i).Some?
    ensures ItemAfter(c, steps, m, n, i).value.maxAttempts == DEFAULT_MAX_ATTEMPTS
  {
    if m > 0 {
      ItemBefore(c, steps, m, n, i);
      if ItemAfter(c, steps, m - 1, n, i).Some? {
        EveryItemHasFiveAttempts(c, steps, m - 1, n, i);
      }
    }
  }

  /** An item that has been tried was once tried for the first time. */
  lemma {:induction false} FirstAttempt(c: Cluster, steps: seq<Step>, m: nat, n: NodeId, i: nat) returns (first: nat)
    requires Initial(c) && n in c && m <= |steps|
    requires ItemAfter(c, steps, m, n, i).Some? && ItemAfter(c, steps, m, n, i).value.attempts > 0
    ensures first <= m && ItemAfter(c, steps, first, n, i).Some?
    ensures ItemAfter(c, steps, first, n, i).value.attempts == 1
  {
    if ItemAfter(c, steps, m, n, i).value.attempts == 1 {
      first := m;
    } else {
      assert m > 0;
      ItemBefore(c, steps, m, n, i);
      first := FirstAttempt(c, steps, m - 1, n, i);
    }
  }

  /**
   * After its first `first` steps the run had tried the item once, `minutes` or more before the attempt recorded last.
   */
  ghost predicate TriedAcross(c: Cluster, steps: seq<Step>, first: nat, n: NodeId, i: nat, minutes: nat)
    requires n in c
  {
    && first <= |steps|
    && ItemAfter(c, steps, first, n, i).Some? && ItemAfter(c, steps, |steps|, n, i).Some?
    && var (once, last) := (ItemAfter(c, steps, first, n, i).value, ItemAfter(c, steps, |steps|, n, i).value);
    && once.attempts == 1 && once.lastAttemptAt.Some? && last.lastAttemptAt.Some?
    && last.lastAttemptAt.value - once.lastAttemptAt.value >= minutes * MINUTE
  }

  /** Every item that ends in failed was tried five times, across at least half an hour. */
  lemma FailureTakesHalfAnHour(c: Cluster, steps: seq<Step>, n: NodeId, i: nat)
    requires Initial(c) && n in c && i < |Run(c, steps)[n].queue| && Run(c, steps)[n].queue[i].status == Failed
    ensures Run(c, steps)[n].queue[i].attempts == 5
    ensures exists first :: TriedAcross(c, steps, first, n, i, 30)
  {
    assert steps[..|steps|] == steps;
    EveryItemHasFiveAttempts(c, steps, |steps|, n, i);
    InitialIsSafe(c);
    RunIsSafe(c, steps);
    assert NodeTidy(Run(c, steps)[n]) && ItemOk(Run(c, steps)[n].queue[i]);
    var first := FirstAttempt(c, steps, |steps|, n, i);
    RunSplits(c, steps, first);
    ItemHistory(c, steps[..first], steps[first..], n, i);
    FiveAttemptsTakeHalfAnHour();
    assert TriedAcross(c, steps, first, n, i, 30);
  }

  lemma FiveAttemptsTakeHalfAnHour()
    ensures BackoffSum(1, 5) == 30
  {
    assert Backoff(1) == 2 && Backoff(2) == 4 && Backoff(3) == 8 && Backoff(4) == 16;
    assert BackoffSum(1, 2) == 2 && BackoffSum(1, 3) == 6 && BackoffSum(1, 4) == 14;
  }

  predicate Works(c: Cluster, step: Step, n: NodeId) {
    step.Flush? && step.at == n && n in c && step.committed && Due(c[n].queue, step.now, step.limit) != []
  }

  /** The committed flushes of a run on node n that select at least one item. */
  function WorkingFlushes(c: Cluster, steps: seq<Step>, n: NodeId): nat {
    if steps == [] then 0
    else
      var before, last := Run(c, steps[..|steps| - 1]), steps[|steps| - 1];
      WorkingFlushes(c, steps[..|steps| - 1], n)
      + if Works(before, last, n) then 1 else 0
  }

  lemma StepSpendsBudget(c: Cluster, step: Step, n: NodeId)
    requires Safe(c) && n in c && !(step.Log? && step.at == n)
    ensures n in Apply(c, step) && Budget(Apply(c, step)[n].queue) >= 0
    ensures Budget(Apply(c, step)[n].queue) <= Budget(c[n].queue) - if Works(c, step, n) then 1 else 0
  {
    var after := Apply(c, step);
    StepExtends(c, step);
    assert NodeExtends(c[n], after[n]) && NodeTidy(c[n]) && NodeTidy(after[n]);
    BudgetIsPositive(after[n].queue);
    if Works(c, step, n) {
      FlushSpendsBudget(c[n].queue, c[n].registry, step.now, step.limit, Reachable(c, step.net));
    } else {
      BudgetDrops(c[n].queue, after[n].queue, |after[n].queue|);
    }
  }

  /** If nothing more is logged at n, only boundedly many flushes of n do anything, whatever the network does. */
  lemma {:induction false} FlushesTerminate(c: Cluster, steps: seq<Step>, n: NodeId)
    requires Safe(c) && n in c
    requires forall k :: 0 <= k < |steps| ==> !(steps[k].Log? && steps[k].at == n)
    ensures n in Run(c, steps) && Budget(Run(c, steps)[n].queue) >= 0
    ensures WorkingFlushes(c, steps, n) + Budget(Run(c, steps)[n].queue) <= Budget(c[n].queue)
  {
    if steps == [] {
      assert NodeTidy(c[n]);
      BudgetIsPositive(c[n].queue);
    } else {
      var init := steps[..|steps| - 1];
      RunIsSafe(c, init);
      FlushesTerminate(c, init, n);
      StepSpendsBudget(Run(c, init), steps[|steps| - 1], n);
    }
  }
}
