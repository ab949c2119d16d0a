/** One node's database and the functions of cluster_service.py and audit_service.py that change it. */
module ClusterService {
  import opened Common
  import opened ClusterModel

  datatype FlushReport = FlushReport(processed: nat, sent: nat, failed: nat)
  datatype Post = Post(target: NodeId, events: seq<WireEvent>)
  datatype DeleteResult = Removed | NodeNotFound | CannotDeleteMaster

  /** Every item addressed to `id` that is pending or failed becomes abandoned. */
  function AbandonFor(queue: seq<Item>, id: NodeId): seq<Item> {
    seq(|queue|, i requires 0 <= i < |queue| =>
      if queue[i].target == id && queue[i].status in {Pending, Failed}
      then queue[i].(status := Abandoned, lastError := Some("node_deleted"))
      else queue[i])
  }

  function Without(registry: seq<ClusterNode>, id: NodeId): seq<ClusterNode> {
    if registry == [] then []
    else
      var init := Without(registry[..|registry| - 1], id);
      if registry[|registry| - 1].nodeId == id then init else init + [registry[|registry| - 1]]
  }

  ghost predicate Distinct<T>(s: seq<T>) {
    forall a, b :: 0 <= a < b < |s| ==> s[a] != s[b]
  }

  lemma NextIsNew<T>(s: seq<T>, n: nat)
    requires Distinct(s) && n < |s|
    ensures s[..n + 1] == s[..n] + [s[n]] && s[n] !in s[..n]
    ensures s[..n + 1][..n] == s[..n]
  {
  }

  /** `order` lists each target of the selected items once. */
  ghost predicate IsGrouping(queue: seq<Item>, due: seq<nat>, order: seq<NodeId>) {
    && Within(due, |queue|)
    && Distinct(order)
    && (forall k :: 0 <= k < |due| ==> queue[due[k]].target in order)
    && (forall t :: t in order ==> |GroupFor(queue, due, t)| > 0)
  }

  /** `byTarget` is the dictionary built from `due`: the group of each target that has one. */
  ghost predicate GroupsAre(queue: seq<Item>, due: seq<nat>, byTarget: map<NodeId, seq<nat>>) {
    && Within(due, |queue|)
    && forall t :: GroupIs(queue, due, byTarget, t)
  }

  ghost predicate GroupIs(queue: seq<Item>, due: seq<nat>, byTarget: map<NodeId, seq<nat>>, t: NodeId)
    requires Within(due, |queue|)
  {
    if t in byTarget then byTarget[t] == GroupFor(queue, due, t) && byTarget[t] != [] else GroupFor(queue, due, t) == []
  }

  ghost predicate Lists(order: seq<NodeId>, byTarget: map<NodeId, seq<nat>>) {
    Distinct(order) && forall t :: t in order <==> t in byTarget
  }

  function ListOf(byTarget: map<NodeId, seq<nat>>, t: NodeId): seq<nat> {
    if t in byTarget then byTarget[t] else []
  }

  lemma GroupForNext(queue: seq<Item>, due: seq<nat>, it: nat, t: NodeId)
    requires Within(due, |queue|) && it < |queue|
    ensures Within(due + [it], |queue|)
    ensures GroupFor(queue, due + [it], t) == if t == queue[it].target then GroupFor(queue, due, t) + [it]
            else GroupFor(queue, due, t)
  {
    assert (due + [it])[..|due|] == due;
  }

  /** One turn of the grouping loop. */
  lemma GroupsNext(queue: seq<Item>, due: seq<nat>, byTarget: map<NodeId, seq<nat>>, it: nat)
    requires GroupsAre(queue, due, byTarget) && it < |queue|
    ensures var t := queue[it].target;
            GroupsAre(queue, due + [it], byTarget[t := ListOf(byTarget, t) + [it]])
  {
    var target := queue[it].target;
    var due', after := due + [it], byTarget[target := ListOf(byTarget, target) + [it]];
    GroupForNext(queue, due, it, target);
    forall t ensures GroupIs(queue, due', after, t) {
      GroupForNext(queue, due, it, t);
      assert GroupIs(queue, due, byTarget, t);
    }
  }

  lemma GroupsAreGrouping(queue: seq<Item>, due: seq<nat>, order: seq<NodeId>, byTarget: map<NodeId, seq<nat>>)
    requires GroupsAre(queue, due, byTarget) && Lists(order, byTarget)
    ensures IsGrouping(queue, due, order)
    ensures forall t :: t in byTarget ==> byTarget[t] == GroupFor(queue, due, t)
  {
    forall k | 0 <= k < |due| ensures queue[due[k]].target in order {
      assert due[k] in due;
      assert due[k] in GroupFor(queue, due, queue[due[k]].target);
      assert GroupIs(queue, due, byTarget, queue[due[k]].target);
    }
    forall t | t in byTarget ensures byTarget[t] == GroupFor(queue, due, t) && |GroupFor(queue, due, t)| > 0 {
      assert GroupIs(queue, due, byTarget, t);
    }
  }

  /** The requests of a flush: one for each registered target, carrying that target's events in queue order. */
  function PostsFor(queue: seq<Item>, due: seq<nat>, registry: seq<ClusterNode>, order: seq<NodeId>): seq<Post>
    requires Within(due, |queue|)
  {
    if order == [] then []
    else
      var rest := PostsFor(queue, due, registry, order[..|order| - 1]);
      var target := order[|order| - 1];
      if HasNode(registry, target) then rest + [Post(target, BodyOf(queue, GroupFor(queue, due, target)))] else rest
  }

  function MarkAll(queue: seq<Item>, group: seq<nat>, known: bool, outcome: Outcome, now: int): seq<Item> {
    seq(|queue|, i requires 0 <= i < |queue| => if i in group then Mark(queue[i], known, outcome, now) else queue[i])
  }

  /** What a flush has changed and counted after some of its groups. */
  datatype Round = Round(queue: seq<Item>, sent: nat, failed: nat, posts: seq<Post>)

  /** The flush of the groups in `order`, one after the other. */
  function Rounds(was: seq<Item>, due: seq<nat>, registry: seq<ClusterNode>, now: int, net: map<NodeId, Outcome>,
      order: seq<NodeId>): (r: Round)
    requires Within(due, |was|)
    ensures |r.queue| == |was|
  {
    if order == [] then Round(was, 0, 0, [])
    else
      var r := Rounds(was, due, registry, now, net, order[..|order| - 1]);
      var target := order[|order| - 1];
      var group := GroupFor(was, due, target);
      var known, outcome := HasNode(registry, target), OutcomeOf(net, target);
      var ok := if Succeeds(target, registry, net) then |group| else 0;
      Round(MarkAll(r.queue, group, known, outcome, now), r.sent + ok, r.failed + |group| - ok,
            r.posts + if known then [Post(target, BodyOf(r.queue, group))] else [])
  }

  class NodeStore {
    const self: NodeId
    const profile: NodeType
    var log: seq<LogRow>
    var queue: seq<Item>
    var registry: seq<ClusterNode>

    constructor (self: NodeId, profile: NodeType)
      ensures this.self == self && this.profile == profile
      ensures log == [] && queue == [] && registry == []
    {
      this.self, this.profile := self, profile;
      log, queue, registry := [], [], [];
    }

    /** log_event: append the row, then enqueue it for forwarding. */
    method LogEvent(args: LogArgs, now: int)
      modifies this
      ensures registry == old(registry)
      ensures log == old(log) + [NewRow(self, args, now)]
      ensures queue == old(queue)
              + NewItems(ForwardTo(profile, self, registry, NewRow(self, args, now)), NewRow(self, args, now), now)
    {
      var row := NewRow(self, args, now);
      log := log + [row];
      EnqueueAuditEvent(row, now);
    }

    method EnqueueAuditEvent(row: LogRow, now: int)
      modifies this`queue
      ensures queue == old(queue) + NewItems(ForwardTo(profile, self, registry, row), row, now)
    {
      var targets := [];
      if profile == MASTER {
        targets := SelectNodes(SLAVE);
      } else {
        if row.serverNode != self {
          return;
        }
        targets := SelectNodes(MASTER);
      }
      for k := 0 to |targets|
        invariant queue == old(queue) + NewItems(targets[..k], row, now)
      {
        queue := queue + [NewItem(targets[k], row, now)];
        assert NewItems(targets[..k + 1], row, now) == NewItems(targets[..k], row, now)
          + [NewItem(targets[k], row, now)];
      }
      assert targets[..|targets|] == targets;
    }

    /** `select(ClusterNode).where(node_type == ty)` */
    method SelectNodes(ty: NodeType) returns (ids: seq<NodeId>)
      ensures ids == Targets(registry, ty)
    {
      ids := [];
      for k := 0 to |registry|
        invariant ids == Targets(registry[..k], ty)
      {
        assert registry[..k + 1][..k] == registry[..k];
        if registry[k].nodeType == ty {
          ids := ids + [registry[k].nodeId];
        }
      }
      assert registry[..|registry|] == registry;
    }

    /**
     * One round over the queue. `net` says what each POST does; `posts` lists the requests made.
     */
    method FlushQueueOnce(now: int, limit: nat, net: map<NodeId, Outcome>)
        returns (report: FlushReport, posts: seq<Post>)
      modifies this`queue
      ensures queue == Flushed(old(queue), registry, now, limit, net)
      ensures TakesFirst(old(queue), now, limit, Due(old(queue), now, limit))
      ensures report.processed == |Due(old(queue), now, limit)| == report.sent + report.failed
      ensures report.sent == SentCount(old(queue), Due(old(queue), now, limit), registry, net)
      ensures exists order :: posts == PostsFor(old(queue), Due(old(queue), now, limit), registry, order)
                              && IsGrouping(old(queue), Due(old(queue), now, limit), order)
    {
      DueIsExhaustive(queue, now, limit);
      var items := Due(queue, now, limit);
      if items == [] {
        NothingDue(queue, registry, now, limit, net);
        return FlushReport(0, 0, 0), [];
      }
      var order, byTarget := GroupByTarget(items);
      GroupsIncreasing(queue, items, order);
      FlushMeaning(queue, registry, now, limit, net, order);
      var sent, failed;
      sent, failed, posts := PostGroups(items, order, byTarget, now, net);
      report := FlushReport(|items|, sent, failed);
    }

    /** The loop `for target_node_id, group in by_target.items()`. */
    method PostGroups(items: seq<nat>, order: seq<NodeId>, byTarget: map<NodeId, seq<nat>>, now: int,
        net: map<NodeId, Outcome>)
        returns (sent: nat, failed: nat, posts: seq<Post>)
      requires Within(items, |queue|)
      requires forall t :: t in order ==> Increasing(GroupFor(queue, items, t))
      requires forall t :: t in order ==> t in byTarget && byTarget[t] == GroupFor(queue, items, t)
      modifies this`queue
      ensures Round(queue, sent, failed, posts) == Rounds(old(queue), items, registry, now, net, order)
    {
      ghost var was := queue;
      sent, failed, posts := 0, 0, [];
      for g := 0 to |order|
        invariant Round(queue, sent, failed, posts) == Rounds(was, items, registry, now, net, order[..g])
      {
        assert order[..g + 1][..g] == order[..g];
        var made, ok, bad := PostGroup(order[g], byTarget[order[g]], now, net);
        posts := posts + made;
        sent, failed := sent + ok, failed + bad;
      }
      assert order[..|order|] == order;
    }

    /** The `by_target` dictionary: its keys in insertion order and its lists. */
    method GroupByTarget(items: seq<nat>) returns (order: seq<NodeId>, byTarget: map<NodeId, seq<nat>>)
      requires Within(items, |queue|)
      ensures IsGrouping(queue, items, order)
      ensures forall t :: t in order <==> t in byTarget
      ensures forall t :: t in byTarget ==> byTarget[t] == GroupFor(queue, items, t)
    {
      order, byTarget := [], map[];
      for k := 0 to |items|
        invariant GroupsAre(queue, items[..k], byTarget) && Lists(order, byTarget)
      {
        var it := items[k];
        var target := queue[it].target;
        GroupsNext(queue, items[..k], byTarget, it);
        ghost var after := byTarget[target := ListOf(byTarget, target) + [it]];
        assert items[..k + 1] == items[..k] + [it];
        if target !in byTarget {
          order := order + [target];
          byTarget := byTarget[target := []];
        }
        byTarget := byTarget[target := byTarget[target] + [it]];
        assert byTarget == after;
      }
      assert items[..|items|] == items;
      GroupsAreGrouping(queue, items, order, byTarget);
    }

    /** One target: abandon its items if the node is gone, otherwise POST their events in one body and mark them. */
    method PostGroup(target: NodeId, group: seq<nat>, now: int, net: map<NodeId, Outcome>)
        returns (made: seq<Post>, sent: nat, failed: nat)
      requires Within(group, |queue|) && Increasing(group)
      modifies this`queue
      ensures queue == MarkAll(old(queue), group, HasNode(registry, target), OutcomeOf(net, target), now)
      ensures made == if HasNode(registry, target) then [Post(target, BodyOf(old(queue), group))] else []
      ensures sent == (if Succeeds(target, registry, net) then |group| else 0) && sent + failed == |group|
    {
      made, sent, failed := [], 0, 0;
      var outcome := OutcomeOf(net, target);
      if !HasNode(registry, target) {
        MarkGroup(group, false, outcome, now);
        failed := |group|;
        return;
      }
      var allEvents := CollectEvents(group);
      made := [Post(target, allEvents)];
      MarkGroup(group, true, outcome, now);
      if outcome.Acked? {
        sent := |group|;
      } else {
        failed := |group|;
      }
    }

    method CollectEvents(group: seq<nat>) returns (events: seq<WireEvent>)
      requires Within(group, |queue|)
      ensures events == BodyOf(queue, group)
    {
      events := [];
      for k := 0 to |group|
        invariant events == BodyOf(queue, group[..k])
      {
        assert group[..k + 1][..k] == group[..k];
        events := events + queue[group[k]].events;
      }
      assert group[..|group|] == group;
    }

    method MarkGroup(group: seq<nat>, known: bool, outcome: Outcome, now: int)
      requires Within(group, |queue|) && Increasing(group)
      modifies this`queue
      ensures queue == MarkAll(old(queue), group, known, outcome, now)
    {
      for k := 0 to |group|
        invariant |queue| == |old(queue)|
        invariant forall i :: 0 <= i < |queue| ==>
                    queue[i] == if i in group[..k] then Mark(old(queue[i]), known, outcome, now) else old(queue[i])
      {
        var it := queue[group[k]];
        if !known {
          it := it.(status := Abandoned, lastError := Some("target_node_not_found"));
        } else {
          it := it.(attempts := it.attempts + 1, lastAttemptAt := Some(now));
          if outcome.Acked? {
            it := it.(status := Delivered, sentAt := Some(now));
          } else {
            it := it.(lastError := Some(outcome.error));
            if it.attempts >= it.maxAttempts {
              it := it.(status := Failed);
            } else {
              it := it.(nextAttemptAt := now + Backoff(it.attempts) * MINUTE);
            }
          }
        }
        queue := queue[group[k] := it];
      }
    }

    /** Receiver side. `clock[i]` is the clock reading event i falls back to when it has no readable time. */
    method IngestAuditEvents(source: NodeId, events: seq<WireEvent>, clock: seq<int>)
        returns (inserted: nat, skipped: nat)
      requires |clock| == |events|
      modifies this`log
      ensures log == Ingest(old(log), Parse(events, source, clock))
      ensures inserted == |log| - |old(log)| && inserted + skipped == |events|
    {
      var session := [];
      var batch := Parse(events, source, clock);
      inserted, skipped := 0, 0;
      for i := 0 to |events|
        invariant session == Fresh(log, batch[..i])
        invariant inserted == |session| && inserted + skipped == i
      {
        assert batch[..i + 1][..i] == batch[..i];
        var row := FromWire(events[i], source, clock[i]);
        if RowKey(row) in Keys(log) {
          skipped := skipped + 1;
        } else {
          session := session + [row];
          inserted := inserted + 1;
        }
      }
      assert batch[..|events|] == batch;
      log := log + session;
    }

    method AdminDeleteNode(id: NodeId) returns (result: DeleteResult)
      modifies this`queue, this`registry
      ensures result == Removed ==> queue == AbandonFor(old(queue), id) && registry == Without(old(registry), id)
      ensures result == Removed ==> |queue| == |old(queue)| && forall i :: 0 <= i < |queue| ==>
                queue[i] ==
                if old(queue)[i].target == id && (old(queue)[i].status == Pending || old(queue)[i].status == Failed)
                then old(queue)[i].(status := Abandoned, lastError := Some("node_deleted"))
                else old(queue)[i]
      ensures result == Removed ==> forall node :: node in registry <==> node in old(registry) && node.nodeId != id
      ensures result != Removed ==> queue == old(queue) && registry == old(registry)
      ensures result == NodeNotFound <==> !HasNode(old(registry), id)
      ensures result == CannotDeleteMaster ==> ClusterNode(id, MASTER) in old(registry)
      ensures result == Removed ==> !HasNode(registry, id) && ClusterNode(id, SLAVE) in old(registry)
    {
      var at := 0;
      while at < |registry| && registry[at].nodeId != id
        invariant 0 <= at <= |registry|
        invariant forall k :: 0 <= k < at ==> registry[k].nodeId != id
      {
        at := at + 1;
      }
      if at == |registry| {
        return NodeNotFound;
      }
      assert registry[at].nodeId == id;
      if registry[at].nodeType == MASTER {
        return CannotDeleteMaster;
      }
      assert registry[at] == ClusterNode(id, SLAVE);
      queue := AbandonFor(queue, id);
      WithoutMembers(registry, id);
      registry := Without(registry, id);
      result := Removed;
    }
  }

  // ---------------------------------------------------------------- counting and frame facts for the flush loop

  lemma {:induction false} TallyNone(queue: seq<Item>, due: seq<nat>)
    requires Within(due, |queue|)
    ensures Tally(queue, due, []) == 0
  {
    if due != [] { TallyNone(queue, due[..|due| - 1]); }
  }

  lemma {:induction false} TallyOneMore(queue: seq<Item>, due: seq<nat>, done: seq<NodeId>, target: NodeId)
    requires Within(due, |queue|) && target !in done
    ensures Tally(queue, due, done + [target]) == Tally(queue, due, done) + |GroupFor(queue, due, target)|
  {
    if due != [] { TallyOneMore(queue, due[..|due| - 1], done, target); }
  }

  lemma {:induction false} TallyAll(queue: seq<Item>, due: seq<nat>, targets: seq<NodeId>)
    requires Within(due, |queue|)
    requires forall k :: 0 <= k < |due| ==> queue[due[k]].target in targets
    ensures Tally(queue, due, targets) == |due|
  {
    if due != [] { TallyAll(queue, due[..|due| - 1], targets); }
  }

  /** The acknowledged targets of a flush. */
  function AckedOf(registry: seq<ClusterNode>, net: map<NodeId, Outcome>, order: seq<NodeId>): seq<NodeId> {
    if order == [] then []
    else
      var rest := AckedOf(registry, net, order[..|order| - 1]);
      if Succeeds(order[|order| - 1], registry, net) then rest + [order[|order| - 1]] else rest
  }

  lemma {:induction false} AckedMembers(registry: seq<ClusterNode>, net: map<NodeId, Outcome>, order: seq<NodeId>)
    ensures forall t :: t in AckedOf(registry, net, order) <==> t in order && Succeeds(t, registry, net)
  {
    if order != [] {
      AckedMembers(registry, net, order[..|order| - 1]);
      assert order == order[..|order| - 1] + [order[|order| - 1]];
    }
  }

  lemma {:induction false} TallyIsSentCount(queue: seq<Item>, due: seq<nat>, registry: seq<ClusterNode>,
      net: map<NodeId, Outcome>, acked: seq<NodeId>)
    requires Within(due, |queue|)
    requires forall k :: 0 <= k < |due| ==>
             (queue[due[k]].target in acked <==> Succeeds(queue[due[k]].target, registry, net))
    ensures Tally(queue, due, acked) == SentCount(queue, due, registry, net)
  {
    if due != [] { TallyIsSentCount(queue, due[..|due| - 1], registry, net, acked); }
  }

  /** In a queue where only other groups are marked, a group still carries its original events. */
  lemma OtherGroupsUntouched(
      was: seq<Item>, now: seq<Item>, due: seq<nat>, registry: seq<ClusterNode>, at: int, net: map<NodeId, Outcome>,
      done: seq<NodeId>, target: NodeId)
    requires Within(due, |was|) && target !in done
    requires now == MarkedFor(was, due, registry, at, net, done)
    ensures BodyOf(now, GroupFor(was, due, target)) == BodyOf(was, GroupFor(was, due, target))
    ensures MarkAll(now, GroupFor(was, due, target), HasNode(registry, target), OutcomeOf(net, target), at) ==
            MarkedFor(was, due, registry, at, net, done + [target])
  {
    var group := GroupFor(was, due, target);
    forall k | 0 <= k < |group| ensures now[group[k]] == was[group[k]] {
      assert group[k] in group;
    }
    BodyFrame(was, now, group);
    MarkOneMore(was, now, due, group, registry, at, net, done, target);
  }

  lemma MarkOneMore(
      was: seq<Item>, now: seq<Item>, due: seq<nat>, group: seq<nat>, registry: seq<ClusterNode>, at: int,
      net: map<NodeId, Outcome>, done: seq<NodeId>, target: NodeId)
    requires target !in done
    requires now == MarkedFor(was, due, registry, at, net, done)
    requires forall i :: i in group <==> i in due && i < |was| && was[i].target == target
    ensures MarkAll(now, group, HasNode(registry, target), OutcomeOf(net, target), at)
            == MarkedFor(was, due, registry, at, net, done + [target])
  {
  }

  /** The loop over the groups is the pointwise marking, whatever order the targets come in. */
  lemma {:induction false} RoundsMeaning(was: seq<Item>, due: seq<nat>, registry: seq<ClusterNode>, at: int,
      net: map<NodeId, Outcome>, order: seq<NodeId>)
    requires Within(due, |was|) && Distinct(order)
    ensures var r := Rounds(was, due, registry, at, net, order);
            && r.queue == MarkedFor(was, due, registry, at, net, order)
            && r.sent + r.failed == Tally(was, due, order)
            && r.sent == Tally(was, due, AckedOf(registry, net, order))
            && r.posts == PostsFor(was, due, registry, order)
  {
    if order == [] {
      TallyNone(was, due);
    } else {
      var n := |order| - 1;
      NextIsNew(order, n);
      assert order[..n + 1] == order;
      RoundsMeaning(was, due, registry, at, net, order[..n]);
      OtherGroupsUntouched(was, Rounds(was, due, registry, at, net, order[..n]).queue, due, registry, at, net,
        order[..n], order[n]);
      TallyOneMore(was, due, order[..n], order[n]);
      AckedMembers(registry, net, order[..n]);
      TallyOneMore(was, due, AckedOf(registry, net, order[..n]), order[n]);
    }
  }

  lemma AllMarked(was: seq<Item>, registry: seq<ClusterNode>, now: int, limit: nat, net: map<NodeId, Outcome>,
      order: seq<NodeId>)
    requires IsGrouping(was, Due(was, now, limit), order)
    ensures MarkedFor(was, Due(was, now, limit), registry, now, net, order) == Flushed(was, registry, now, limit, net)
  {
    forall i | i in Due(was, now, limit) ensures i < |was| && was[i].target in order {
      var k :| 0 <= k < |Due(was, now, limit)| && Due(was, now, limit)[k] == i;
    }
  }

  lemma GroupsIncreasing(queue: seq<Item>, due: seq<nat>, order: seq<NodeId>)
    requires Within(due, |queue|) && Increasing(due)
    ensures forall t :: t in order ==> Increasing(GroupFor(queue, due, t))
  {
    forall t | t in order ensures Increasing(GroupFor(queue, due, t)) {
      GroupIncreasing(queue, due, t);
    }
  }

  /** Posting every group is the flush, and the counters partition the batch. */
  lemma FlushMeaning(was: seq<Item>, registry: seq<ClusterNode>, now: int, limit: nat, net: map<NodeId, Outcome>,
      order: seq<NodeId>)
    requires IsGrouping(was, Due(was, now, limit), order)
    ensures var due := Due(was, now, limit);
            var r := Rounds(was, due, registry, now, net, order);
            && r.queue == Flushed(was, registry, now, limit, net)
            && r.sent + r.failed == |due|
            && r.sent == SentCount(was, due, registry, net)
            && r.posts == PostsFor(was, due, registry, order)
  {
    var due := Due(was, now, limit);
    RoundsMeaning(was, due, registry, now, net, order);
    AllMarked(was, registry, now, limit, net, order);
    TallyAll(was, due, order);
    AckedMembers(registry, net, order);
    TallyIsSentCount(was, due, registry, net, AckedOf(registry, net, order));
  }

  /** One request per registered target of the batch, with that target's events in queue order. */
  lemma {:induction false} PostsMeaning(queue: seq<Item>, due: seq<nat>, registry: seq<ClusterNode>, order: seq<NodeId>)
    requires Within(due, |queue|) && Distinct(order)
    ensures Distinct(PostsFor(queue, due, registry, order))
    ensures forall p :: p in PostsFor(queue, due, registry, order) <==>
              p.target in order && HasNode(registry, p.target)
                && p.events == BodyOf(queue, GroupFor(queue, due, p.target))
  {
    if order != [] {
      var n := |order| - 1;
      NextIsNew(order, n);
      assert order[..n + 1] == order;
      PostsMeaning(queue, due, registry, order[..n]);
    }
  }

  lemma NothingDue(was: seq<Item>, registry: seq<ClusterNode>, now: int, limit: nat, net: map<NodeId, Outcome>)
    requires Due(was, now, limit) == []
    ensures Flushed(was, registry, now, limit, net) == was
    ensures IsGrouping(was, [], []) && PostsFor(was, [], registry, []) == []
  {
  }

  lemma {:induction false} BodyFrame(was: seq<Item>, now: seq<Item>, group: seq<nat>)
    requires |was| == |now| && Within(group, |was|)
    requires forall k :: 0 <= k < |group| ==> now[group[k]] == was[group[k]]
    ensures BodyOf(was, group) == BodyOf(now, group)
  {
    if group != [] {
      BodyFrame(was, now, group[..|group| - 1]);
    }
  }

  lemma {:induction false} WithoutMembers(registry: seq<ClusterNode>, id: NodeId)
    ensures forall node :: node in Without(registry, id) <==> node in registry && node.nodeId != id
  {
    if registry != [] {
      WithoutMembers(registry[..|registry| - 1], id);
      assert registry == registry[..|registry| - 1] + [registry[|registry| - 1]];
    }
  }
}
