/**
 * The whole cluster as a state machine: every node runs log_event and flush_queue_once,
 * and a flush reaches the receivers' ingest_audit_events.
 */
module ClusterProtocol {
  import opened Common
  import opened ClusterModel
  import opened ClusterService
  import opened QueueLifecycle

  datatype Node = Node(profile: NodeType, log: seq<LogRow>, queue: seq<Item>, registry: seq<ClusterNode>)

  type Cluster = map<NodeId, Node>

  datatype Step =
    | Log(at: NodeId, args: LogArgs, now: int)
      /** `committed` is false when the sender dies before its final commit: the receivers keep what they got. */
    | Flush(at: NodeId, now: int, limit: nat, net: map<NodeId, Outcome>, committed: bool)
    | Register(at: NodeId, entry: ClusterNode)
    | DeleteNode(at: NodeId, target: NodeId)

  /** A node that does not exist never acknowledges. */
  function Reachable(c: Cluster, net: map<NodeId, Outcome>): map<NodeId, Outcome> {
    map t | t in net && t in c :: net[t]
  }

  predicate Delivers(net: map<NodeId, Outcome>, t: NodeId) {
    OutcomeOf(net, t).Acked? || OutcomeOf(net, t).AckLost?
  }

  /** The rows that a flush of `node` puts in front of receiver `t`. */
  function Batch(sender: NodeId, node: Node, now: int, limit: nat, t: NodeId): seq<LogRow> {
    var events := BodyOf(node.queue, GroupFor(node.queue, Due(node.queue, now, limit), t));
    Parse(events, sender, seq(|events|, _ => now))
  }

  function AfterFlush(c: Cluster, at: NodeId, now: int, limit: nat, net: map<NodeId, Outcome>, committed: bool): Cluster
    requires at in c
  {
    map m | m in c ::
      c[m].(
        log := if HasNode(c[at].registry, m) && Delivers(net, m)
          then Ingest(c[m].log, Batch(at, c[at], now, limit, m)) else c[m].log,
        queue := if m == at && committed then Flushed(c[m].queue, c[m].registry, now, limit, net) else c[m].queue)
  }

  /** admin_add_node refuses a known id; register_node rewrites it. */
  function Upsert(registry: seq<ClusterNode>, entry: ClusterNode): seq<ClusterNode> {
    seq(|registry|, i requires 0 <= i < |registry| => if registry[i].nodeId == entry.nodeId then entry else registry[i])
    + if HasNode(registry, entry.nodeId) then [] else [entry]
  }

  function Apply(c: Cluster, step: Step): (c': Cluster)
    ensures c'.Keys == c.Keys
  {
    if step.at !in c then c
    else
      var node := c[step.at];
      match step
      case Log(at, args, now) =>
        var row := NewRow(at, args, now);
        c[at := node.(log := node.log + [row],
                      queue := node.queue + NewItems(ForwardTo(node.profile, at, node.registry, row), row, now))]
      case Flush(at, now, limit, net, committed) => AfterFlush(c, at, now, limit, Reachable(c, net), committed)
      case Register(at, entry) => c[at := node.(registry := Upsert(node.registry, entry))]
      case DeleteNode(at, target) =>
        if ClusterNode(target, SLAVE) in node.registry
        then c[at := node.(queue := AbandonFor(node.queue, target), registry := Without(node.registry, target))]
        else c
  }

  function Run(c: Cluster, steps: seq<Step>): (c': Cluster)
    ensures c'.Keys == c.Keys
  {
    if steps == [] then c else Apply(Run(c, steps[..|steps| - 1]), steps[|steps| - 1])
  }

  ghost predicate UniqueIds(registry: seq<ClusterNode>) {
    forall i, j :: 0 <= i < j < |registry| ==> registry[i].nodeId != registry[j].nodeId
  }

  /** Every node starts with an empty log and queue, and knows each other node at most once. */
  ghost predicate Initial(c: Cluster) {
    forall n :: n in c ==> c[n].log == [] && c[n].queue == [] && UniqueIds(c[n].registry)
  }

  // ---------------------------------------------------------------- what every step keeps

  /** A node's log and queue only grow, and its items evolve as the lifecycle allows. */
  ghost predicate NodeExtends(node: Node, node': Node) {
    node'.profile == node.profile && node.log <= node'.log && QueueEvolves(node.queue, node'.queue)
  }

  ghost predicate Extends(c: Cluster, c': Cluster) {
    c'.Keys == c.Keys && forall n :: n in c ==> NodeExtends(c[n], c'[n])
  }

  ghost predicate NodeTidy(node: Node) {
    QueueOk(node.queue) && UniqueIds(node.registry)
  }

  ghost predicate Tidy(c: Cluster) {
    forall n :: n in c ==> NodeTidy(c[n])
  }

  /** `item` of node n's queue carries `row`, which n itself logged. */
  ghost predicate Carries(c: Cluster, n: NodeId, item: Item, row: LogRow) {
    n in c && row in c[n].log && row.serverNode == n && item.events == [ToWire(row)]
  }

  ghost predicate HasOrigin(c: Cluster, n: NodeId, item: Item) {
    exists row :: Carries(c, n, item, row)
  }

  /** A queue holds only rows of its own node, one per item. */
  ghost predicate OwnPayloads(c: Cluster) {
    forall n, i :: n in c && 0 <= i < |c[n].queue| ==> HasOrigin(c, n, c[n].queue[i])
  }

  /** `copy` is what a receiver makes of a row that the node it names has logged. */
  ghost predicate CopyOf(c: Cluster, origin: LogRow, copy: LogRow) {
    && origin.serverNode in c && origin in c[origin.serverNode].log
    && copy == Received(origin)
  }

  /** Every foreign row of every log is the copy of a row logged at home. */
  ghost predicate Genuine(c: Cluster) {
    forall n, row :: n in c && row in c[n].log && row.serverNode != n ==> exists origin :: CopyOf(c, origin, row)
  }

  /** An item marked sent has its event's key in the target's log. */
  ghost predicate SentIsStored(c: Cluster) {
    forall n, i :: n in c && 0 <= i < |c[n].queue| && c[n].queue[i].status == Delivered ==> Stored(c, n, c[n].queue[i])
  }

  ghost predicate Stored(c: Cluster, n: NodeId, item: Item) {
    && item.target in c
    && |item.events| == 1
    && RowKey(FromWire(item.events[0], n, 0)) in Keys(c[item.target].log)
  }

  ghost predicate Safe(c: Cluster) {
    Tidy(c) && OwnPayloads(c) && Genuine(c) && SentIsStored(c)
  }

  // ---------------------------------------------------------------- batches

  ghost predicate Singletons(queue: seq<Item>, group: seq<nat>) {
    Within(group, |queue|) && forall k :: 0 <= k < |group| ==> |queue[group[k]].events| == 1
  }

  lemma {:induction false} BodyLength(queue: seq<Item>, group: seq<nat>)
    requires Singletons(queue, group)
    ensures |BodyOf(queue, group)| == |group|
  {
    if group != [] {
      BodyLength(queue, group[..|group| - 1]);
    }
  }

  /** Items that carry one event each: event k of the body is the one of item k of the group. */
  lemma {:induction false} BodyAt(queue: seq<Item>, group: seq<nat>, k: nat)
    requires Singletons(queue, group) && k < |group|
    ensures |BodyOf(queue, group)| == |group| && BodyOf(queue, group)[k] == queue[group[k]].events[0]
  {
    var n := |group| - 1;
    BodyLength(queue, group[..n]);
    if k < n {
      BodyAt(queue, group[..n], k);
    }
  }

  /** The rows of a batch are the copies of what the selected items carry, in queue order. */
  lemma BatchRows(c: Cluster, at: NodeId, now: int, limit: nat, t: NodeId)
    requires at in c && OwnPayloads(c)
    ensures var group := GroupFor(c[at].queue, Due(c[at].queue, now, limit), t);
            var batch := Batch(at, c[at], now, limit, t);
            && |batch| == |group|
            && forall k :: 0 <= k < |group| ==>
                 && |c[at].queue[group[k]].events| == 1
                 && batch[k] == FromWire(c[at].queue[group[k]].events[0], at, 0)
                 && exists row :: Carries(c, at, c[at].queue[group[k]], row) && batch[k] == Received(row)
  {
    var queue := c[at].queue;
    var group := GroupFor(queue, Due(queue, now, limit), t);
    var batch := Batch(at, c[at], now, limit, t);
    forall k | 0 <= k < |group| ensures |queue[group[k]].events| == 1 {
      assert HasOrigin(c, at, c[at].queue[group[k]]);
    }
    BodyLength(queue, group);
    forall k | 0 <= k < |group|
      ensures batch[k] == FromWire(queue[group[k]].events[0], at, 0)
      ensures exists row :: Carries(c, at, queue[group[k]], row) && batch[k] == Received(row)
    {
      BodyAt(queue, group, k);
      assert HasOrigin(c, at, c[at].queue[group[k]]);
      var row :| Carries(c, at, queue[group[k]], row);
      ReceivedIsFromWire(row, now);
      ReceivedIsFromWire(row, 0);
    }
  }

  // ---------------------------------------------------------------- registry facts

  lemma {:induction false} WithoutKeepsUnique(registry: seq<ClusterNode>, id: NodeId)
    requires UniqueIds(registry)
    ensures UniqueIds(Without(registry, id))
  {
    if registry != [] {
      var n := |registry| - 1;
      WithoutKeepsUnique(registry[..n], id);
      WithoutMembers(registry[..n], id);
      var init := Without(registry[..n], id);
      forall i | 0 <= i < |init| ensures init[i].nodeId != registry[n].nodeId {
        assert init[i] in init;
        var j :| 0 <= j < n && registry[j] == init[i];
      }
    }
  }

  lemma {:induction false} TargetsDistinct(registry: seq<ClusterNode>, ty: NodeType)
    requires UniqueIds(registry)
    ensures Distinct(Targets(registry, ty))
    ensures forall t :: t in Targets(registry, ty) <==> ClusterNode(t, ty) in registry
  {
    if registry != [] {
      var n := |registry| - 1;
      TargetsDistinct(registry[..n], ty);
      assert registry == registry[..n] + [registry[n]];
      forall t | t in Targets(registry[..n], ty) ensures t != registry[n].nodeId {
        var j :| 0 <= j < n && registry[j] == ClusterNode(t, ty);
      }
    }
  }

  // ---------------------------------------------------------------- safety of every step

  lemma NodeUnchanged(node: Node)
    requires NodeTidy(node)
    ensures NodeExtends(node, node)
  {
  }

  lemma LogExtends(node: Node, row: LogRow, targets: seq<NodeId>, now: int)
    requires NodeTidy(node)
    ensures var node' := node.(log := node.log + [row], queue := node.queue + NewItems(targets, row, now));
            NodeExtends(node, node') && NodeTidy(node')
  {
  }

  lemma FlushExtends(c: Cluster, at: NodeId, now: int, limit: nat, net: map<NodeId, Outcome>, committed: bool,
      n: NodeId)
    requires Tidy(c) && at in c && n in c
    ensures NodeExtends(c[n], AfterFlush(c, at, now, limit, net, committed)[n])
    ensures NodeTidy(AfterFlush(c, at, now, limit, net, committed)[n])
  {
    NodeUnchanged(c[n]);
    FlushEvolves(c[n].queue, c[n].registry, now, limit, net);
  }

  lemma DeleteExtends(node: Node, target: NodeId)
    requires NodeTidy(node)
    ensures var node' := node.(queue := AbandonFor(node.queue, target), registry := Without(node.registry, target));
            NodeExtends(node, node') && NodeTidy(node')
  {
    AbandonEvolves(node.queue, target);
    WithoutKeepsUnique(node.registry, target);
  }

  lemma RegisterExtends(node: Node, entry: ClusterNode)
    requires NodeTidy(node)
    ensures var node' := node.(registry := Upsert(node.registry, entry));
            NodeExtends(node, node') && NodeTidy(node')
  {
    NodeUnchanged(node);
  }

  lemma StepExtends(c: Cluster, step: Step)
    requires Tidy(c)
    ensures Extends(c, Apply(c, step)) && Tidy(Apply(c, step))
  {
    var c' := Apply(c, step);
    forall n | n in c ensures NodeExtends(c[n], c'[n]) && NodeTidy(c'[n]) {
      NodeUnchanged(c[n]);
      if step.at in c {
        match step
        case Log(at, args, now) =>
          var row := NewRow(at, args, now);
          LogExtends(c[at], row, ForwardTo(c[at].profile, at, c[at].registry, row), now);
        case Flush(at, now, limit, net, committed) => FlushExtends(c, at, now, limit, Reachable(c, net), committed, n);
        case Register(at, entry) => RegisterExtends(c[at], entry);
        case DeleteNode(at, target) => DeleteExtends(c[at], target);
      }
    }
  }

  lemma StepKeepsPayloads(c: Cluster, step: Step)
    requires Tidy(c) && OwnPayloads(c)
    ensures OwnPayloads(Apply(c, step))
  {
    var c' := Apply(c, step);
    StepExtends(c, step);
    forall n, i | n in c' && 0 <= i < |c'[n].queue| ensures HasOrigin(c', n, c'[n].queue[i]) {
      assert NodeExtends(c[n], c'[n]);
      if i < |c[n].queue| {
        assert HasOrigin(c, n, c[n].queue[i]);
        var row :| Carries(c, n, c[n].queue[i], row);
        assert Evolves(c[n].queue[i], c'[n].queue[i]);
        assert Carries(c', n, c'[n].queue[i], row);
      } else {
        NewItemsCarry(c, step, n, i);
      }
    }
  }

  lemma NewItemsCarry(c: Cluster, step: Step, n: NodeId, i: nat)
    requires n in c && n in Apply(c, step) && |c[n].queue| <= i < |Apply(c, step)[n].queue|
    ensures step.Log? && n == step.at
    ensures Carries(Apply(c, step), n, Apply(c, step)[n].queue[i], NewRow(n, step.args, step.now))
    ensures i - |c[n].queue| < |ForwardTo(c[n].profile, n, c[n].registry, NewRow(n, step.args, step.now))|
    ensures Apply(c, step)[n].queue[i].target
            == ForwardTo(c[n].profile, n, c[n].registry, NewRow(n, step.args, step.now))[i - |c[n].queue|]
  {
    assert step.Log? && n == step.at;
    var row := NewRow(n, step.args, step.now);
    assert Apply(c, step)[n].log[|c[n].log|] == row;
  }

  lemma StepKeepsGenuine(c: Cluster, step: Step)
    requires Tidy(c) && OwnPayloads(c) && Genuine(c)
    ensures Genuine(Apply(c, step))
  {
    var c' := Apply(c, step);
    StepExtends(c, step);
    forall n, row | n in c' && row in c'[n].log && row.serverNode != n
      ensures exists origin :: CopyOf(c', origin, row) {
      if row !in c[n].log {
        NewForeignRow(c, step, n, row);
      }
      var origin :| CopyOf(c, origin, row);
      assert NodeExtends(c[origin.serverNode], c'[origin.serverNode]);
      assert CopyOf(c', origin, row);
    }
  }

  lemma NewRowIsForeignOnlyInFlush(c: Cluster, step: Step, n: NodeId, row: LogRow)
    requires n in c && row !in c[n].log && row.serverNode != n
    requires n in Apply(c, step) && row in Apply(c, step)[n].log
    ensures step.Flush? && step.at in c
    ensures row in Fresh(c[n].log, Batch(step.at, c[step.at], step.now, step.limit, n))
  {
  }

  /** A foreign row can only come out of a batch, and a batch holds copies of the sender's own rows. */
  lemma NewForeignRow(c: Cluster, step: Step, n: NodeId, row: LogRow)
    requires OwnPayloads(c) && n in c && row !in c[n].log && row.serverNode != n
    requires n in Apply(c, step) && row in Apply(c, step)[n].log
    ensures exists origin :: CopyOf(c, origin, row)
  {
    var batch := Batch(step.at, c[step.at], step.now, step.limit, n);
    assert row in Fresh(c[n].log, batch) by {
      NewRowIsForeignOnlyInFlush(c, step, n, row);
    }
    FreshMembers(c[n].log, batch);
    BatchIsGenuine(c, step.at, step.now, step.limit, n, row);
  }

  lemma BatchIsGenuine(c: Cluster, sender: NodeId, now: int, limit: nat, t: NodeId, row: LogRow)
    requires OwnPayloads(c) && sender in c && row in Batch(sender, c[sender], now, limit, t)
    ensures exists origin :: CopyOf(c, origin, row)
  {
    var batch := Batch(sender, c[sender], now, limit, t);
    BatchRows(c, sender, now, limit, t);
    var k :| 0 <= k < |batch| && batch[k] == row;
    var group := GroupFor(c[sender].queue, Due(c[sender].queue, now, limit), t);
    var origin :| Carries(c, sender, c[sender].queue[group[k]], origin) && batch[k] == Received(origin);
    assert CopyOf(c, origin, row);
  }

  lemma StepKeepsStored(c: Cluster, step: Step)
    requires Tidy(c) && OwnPayloads(c) && SentIsStored(c)
    ensures SentIsStored(Apply(c, step))
  {
    var c' := Apply(c, step);
    StepExtends(c, step);
    StepKeepsPayloads(c, step);
    forall n, i | n in c' && 0 <= i < |c'[n].queue| && c'[n].queue[i].status == Delivered
      ensures Stored(c', n, c'[n].queue[i]) {
      assert NodeExtends(c[n], c'[n]);
      if i >= |c[n].queue| {
        NewItemsCarry(c, step, n, i);
      }
      var item, item' := c[n].queue[i], c'[n].queue[i];
      assert Evolves(item, item');
      if item.status == Delivered {
        assert Stored(c, n, item);
        var t := item.target;
        assert NodeExtends(c[t], c'[t]);
        assert forall row :: row in c[t].log ==> row in c'[t].log;
        assert Keys(c[t].log) <= Keys(c'[t].log);
      } else {
        FreshlySentIsStored(c, step, n, i);
      }
    }
  }

  /** An item that a flush has just marked sent was in a batch that its target ingested. */
  lemma FreshlySentIsStored(c: Cluster, step: Step, n: NodeId, i: nat)
    requires Tidy(c) && OwnPayloads(c) && n in c && i < |c[n].queue|
    requires c[n].queue[i].status != Delivered
    requires n in Apply(c, step) && i < |Apply(c, step)[n].queue| && Apply(c, step)[n].queue[i].status == Delivered
    ensures Stored(Apply(c, step), n, Apply(c, step)[n].queue[i])
  {
    DeliveredByFlush(c, step, n, i);
    var t := c[n].queue[i].target;
    BatchHoldsItem(c, n, step.now, step.limit, i);
    FlushReaches(c, step, t);
    IngestKeys(c[t].log, Batch(n, c[n], step.now, step.limit, t));
    StepExtends(c, step);
    assert NodeExtends(c[n], Apply(c, step)[n]);
    assert Evolves(c[n].queue[i], Apply(c, step)[n].queue[i]);
  }

  /** The key of a selected item's event is in the batch for its target. */
  lemma BatchHoldsItem(c: Cluster, n: NodeId, now: int, limit: nat, i: nat)
    requires n in c && OwnPayloads(c) && i < |c[n].queue| && i in Due(c[n].queue, now, limit)
    ensures |c[n].queue[i].events| == 1
    ensures RowKey(FromWire(c[n].queue[i].events[0], n, 0)) in Keys(Batch(n, c[n], now, limit, c[n].queue[i].target))
  {
    var t := c[n].queue[i].target;
    var group, batch := GroupFor(c[n].queue, Due(c[n].queue, now, limit), t), Batch(n, c[n], now, limit, t);
    assert i in group;
    var k :| 0 <= k < |group| && group[k] == i;
    BatchRows(c, n, now, limit, t);
    assert batch[k] in batch;
  }

  lemma FlushReaches(c: Cluster, step: Step, t: NodeId)
    requires step.Flush? && step.at in c && t in c && HasNode(c[step.at].registry, t)
    requires OutcomeOf(Reachable(c, step.net), t).Acked?
    ensures t in Apply(c, step)
    ensures Apply(c, step)[t].log == Ingest(c[t].log, Batch(step.at, c[step.at], step.now, step.limit, t))
  {
  }

  /** Only an acknowledged flush of the item's own node marks it sent. */
  lemma DeliveredByFlush(c: Cluster, step: Step, n: NodeId, i: nat)
    requires n in c && i < |c[n].queue| && c[n].queue[i].status != Delivered
    requires n in Apply(c, step) && i < |Apply(c, step)[n].queue| && Apply(c, step)[n].queue[i].status == Delivered
    ensures step.Flush? && step.at == n && step.committed
    ensures i in Due(c[n].queue, step.now, step.limit) && HasNode(c[n].registry, c[n].queue[i].target)
    ensures c[n].queue[i].target in c && OutcomeOf(Reachable(c, step.net), c[n].queue[i].target).Acked?
  {
    OthersDeliverNothing(c, step, n, i);
    MarkedByOutcome(c[n].queue, c[n].registry, step.now, step.limit, Reachable(c, step.net), i);
  }

  /** Any step but a committed flush of node n leaves its unsent items unsent. */
  lemma OthersDeliverNothing(c: Cluster, step: Step, n: NodeId, i: nat)
    requires n in c && i < |c[n].queue| && c[n].queue[i].status != Delivered
    ensures n in Apply(c, step) && i < |Apply(c, step)[n].queue|
    ensures !(step.Flush? && step.at == n && step.committed) ==> Apply(c, step)[n].queue[i].status != Delivered
  {
  }

  lemma MarkedByOutcome(queue: seq<Item>, registry: seq<ClusterNode>, now: int, limit: nat, net: map<NodeId, Outcome>,
      i: nat)
    requires i < |queue| && queue[i].status != Delivered
             && Flushed(queue, registry, now, limit, net)[i].status == Delivered
    ensures i in Due(queue, now, limit) && HasNode(registry, queue[i].target)
    ensures queue[i].target in net && OutcomeOf(net, queue[i].target).Acked?
  {
  }

  lemma StepIsSafe(c: Cluster, step: Step)
    requires Safe(c)
    ensures Safe(Apply(c, step)) && Extends(c, Apply(c, step))
  {
    StepExtends(c, step);
    StepKeepsPayloads(c, step);
    StepKeepsGenuine(c, step);
    StepKeepsStored(c, step);
  }

  /** Safety of every run; later states extend earlier ones. */
  lemma {:induction false} RunIsSafe(c: Cluster, steps: seq<Step>)
    requires Safe(c)
    ensures Safe(Run(c, steps)) && Extends(c, Run(c, steps))
  {
    if steps == [] {
      forall n | n in c ensures NodeExtends(c[n], c[n]) {
        NodeUnchanged(c[n]);
      }
    } else {
      var before := Run(c, steps[..|steps| - 1]);
      RunIsSafe(c, steps[..|steps| - 1]);
      StepIsSafe(before, steps[|steps| - 1]);
      ExtendsTransitively(c, before, Run(c, steps));
    }
  }

  lemma ExtendsTransitively(c: Cluster, c': Cluster, c'': Cluster)
    requires Extends(c, c') && Extends(c', c'')
    ensures Extends(c, c'')
  {
    forall n | n in c ensures NodeExtends(c[n], c''[n]) {
      assert NodeExtends(c[n], c'[n]) && NodeExtends(c'[n], c''[n]);
      forall i | 0 <= i < |c[n].queue| ensures Evolves(c[n].queue[i], c''[n].queue[i]) {
        EvolvesTransitively(c[n].queue[i], c'[n].queue[i], c''[n].queue[i]);
      }
    }
  }

  lemma InitialIsSafe(c: Cluster)
    requires Initial(c)
    ensures Safe(c)
  {
  }
}
