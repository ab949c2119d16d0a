/** What one queue item can go through: statuses, attempt counts and the time between attempts. */
module QueueLifecycle {
  import opened Common
  import opened ClusterModel
  import opened ClusterService

  /** Minutes that lie between the attempt numbered `from` and the one numbered `to`. */
  function BackoffSum(from: nat, to: nat): nat {
    if from >= to then 0 else BackoffSum(from, to - 1) + Backoff(to - 1)
  }

  lemma {:induction false} BackoffSumSplits(from: nat, mid: nat, to: nat)
    requires from <= mid <= to
    ensures BackoffSum(from, to) == BackoffSum(from, mid) + BackoffSum(mid, to)
  {
    if mid < to { BackoffSumSplits(from, mid, to - 1); }
  }

  /** The bookkeeping every stored item satisfies. */
  ghost predicate ItemOk(q: Item) {
    && q.attempts <= q.maxAttempts
    && (q.status == Pending ==> q.attempts < q.maxAttempts)
    && (q.status == Failed ==> q.attempts == q.maxAttempts)
    && (q.attempts > 0 ==> q.lastAttemptAt.Some?)
    && (q.status == Pending && q.attempts > 0 ==>
          q.nextAttemptAt == q.lastAttemptAt.value + Backoff(q.attempts) * MINUTE)
  }

  /**
   * How an item may look later: nothing returns to pending, and only failed becomes abandoned among the closed ones.
   */
  predicate MayBecome(s: Status, s': Status) {
    s == s' || s == Pending || (s == Failed && s' == Abandoned)
  }

  ghost predicate Evolves(q: Item, q': Item) {
    && q'.target == q.target && q'.events == q.events && q'.maxAttempts == q.maxAttempts
    && MayBecome(q.status, q'.status)
    && q.attempts <= q'.attempts
    && (q.attempts > 0 ==>
          && q.lastAttemptAt.Some? && q'.lastAttemptAt.Some?
          && q'.lastAttemptAt.value >= q.lastAttemptAt.value + BackoffSum(q.attempts, q'.attempts) * MINUTE)
  }

  lemma EvolvesTransitively(q: Item, q': Item, q'': Item)
    requires Evolves(q, q') && Evolves(q', q'')
    ensures Evolves(q, q'')
  {
    if q.attempts > 0 {
      BackoffSumSplits(q.attempts, q'.attempts, q''.attempts);
    }
  }

  lemma MarkEvolves(q: Item, known: bool, outcome: Outcome, now: int)
    requires ItemOk(q) && IsDue(q, now)
    ensures ItemOk(Mark(q, known, outcome, now)) && Evolves(q, Mark(q, known, outcome, now))
    ensures Mark(q, known, outcome, now).status == Pending ==> Mark(q, known, outcome, now).attempts > q.attempts
  {
    assert BackoffSum(q.attempts, q.attempts + 1) == Backoff(q.attempts);
  }

  ghost predicate QueueOk(queue: seq<Item>) {
    forall i :: 0 <= i < |queue| ==> ItemOk(queue[i])
  }

  ghost predicate QueueEvolves(queue: seq<Item>, queue': seq<Item>) {
    && |queue| <= |queue'|
    && forall i :: 0 <= i < |queue| ==> Evolves(queue[i], queue'[i])
  }

  lemma FlushEvolves(queue: seq<Item>, registry: seq<ClusterNode>, now: int, limit: nat, net: map<NodeId, Outcome>)
    requires QueueOk(queue)
    ensures QueueOk(Flushed(queue, registry, now, limit, net))
    ensures QueueEvolves(queue, Flushed(queue, registry, now, limit, net))
  {
    var after := Flushed(queue, registry, now, limit, net);
    forall i | 0 <= i < |queue| ensures ItemOk(after[i]) && Evolves(queue[i], after[i]) {
      if i in Due(queue, now, limit) {
        MarkEvolves(queue[i], HasNode(registry, queue[i].target), OutcomeOf(net, queue[i].target), now);
      }
    }
  }

  lemma MarkTriesOnce(q: Item, known: bool, outcome: Outcome, now: int)
    ensures Mark(q, known, outcome, now).attempts <= q.attempts + 1
  {
  }

  lemma FlushedTriesOnce(queue: seq<Item>, registry: seq<ClusterNode>, now: int, limit: nat,
      net: map<NodeId, Outcome>, i: nat)
    requires i < |queue|
    ensures Flushed(queue, registry, now, limit, net)[i].attempts <= queue[i].attempts + 1
  {
    MarkTriesOnce(queue[i], HasNode(registry, queue[i].target), OutcomeOf(net, queue[i].target), now);
  }

  lemma AbandonEvolves(queue: seq<Item>, id: NodeId)
    requires QueueOk(queue)
    ensures QueueOk(AbandonFor(queue, id)) && QueueEvolves(queue, AbandonFor(queue, id))
    ensures forall i :: 0 <= i < |queue| && queue[i].target == id ==>
            AbandonFor(queue, id)[i].status in {Delivered, Abandoned}
  {
  }

  // ---------------------------------------------------------------- termination

  /** Attempts that pending items still have. */
  function Budget(queue: seq<Item>): int {
    if queue == [] then 0
    else
      var last := queue[|queue| - 1];
      Budget(queue[..|queue| - 1]) + if last.status == Pending then last.maxAttempts - last.attempts else 0
  }

  lemma {:induction false} BudgetIsPositive(queue: seq<Item>)
    requires QueueOk(queue)
    ensures Budget(queue) >= 0
  {
    if queue != [] { BudgetIsPositive(queue[..|queue| - 1]); }
  }

  /** Budgets compare item by item, strictly if one item moved. */
  lemma {:induction false} BudgetDrops(queue: seq<Item>, after: seq<Item>, moved: nat)
    requires |queue| == |after| && QueueOk(queue)
    requires forall i :: 0 <= i < |queue| ==> Evolves(queue[i], after[i])
    requires moved < |queue| ==>
             queue[moved].status == Pending
               && (after[moved].status == Pending ==> after[moved].attempts > queue[moved].attempts)
    ensures Budget(after) <= Budget(queue) - if moved < |queue| then 1 else 0
  {
    if queue != [] {
      var n := |queue| - 1;
      assert queue[..n] == queue[..n];
      BudgetDrops(queue[..n], after[..n], moved);
    }
  }

  /** Every flush that selects something uses up attempts. */
  lemma FlushSpendsBudget(queue: seq<Item>, registry: seq<ClusterNode>, now: int, limit: nat, net: map<NodeId, Outcome>)
    requires QueueOk(queue) && Due(queue, now, limit) != []
    ensures 0 <= Budget(Flushed(queue, registry, now, limit, net)) < Budget(queue)
  {
    var due, after := Due(queue, now, limit), Flushed(queue, registry, now, limit, net);
    var moved := due[0];
    assert moved in due;
    FlushEvolves(queue, registry, now, limit, net);
    MarkEvolves(queue[moved], HasNode(registry, queue[moved].target), OutcomeOf(net, queue[moved].target), now);
    BudgetDrops(queue, after, moved);
    BudgetIsPositive(after);
  }
}
