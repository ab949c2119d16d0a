/**
 * A flush that is not one step: it selects, and then for each target looks the node up, waits for its POST and marks
 * the items it had loaded. Other sessions can log events and delete nodes in between.
 */
module FlushSteps {
  import opened Common
  import opened ClusterModel
  import opened ClusterService
  import opened QueueLifecycle

  /**
   * The open flush: the items it has selected and loaded, which targets it has looked up, and which it has marked.
   * `undo` holds the rows it has written as they were before, for a rollback.
   */
  datatype Flight = Flight(
    now: int, items: seq<nat>, loaded: seq<Item>, asked: map<NodeId, bool>, marked: set<NodeId>, undo: map<nat, Item>)

  datatype State = State(queue: seq<Item>, registry: seq<ClusterNode>, flight: Option<Flight>)

  datatype Step =
    | Append(items: seq<Item>)
    | Select(now: int, limit: nat)
    | Lookup(target: NodeId)
      /** After a success the node's own row is updated too; `strict`: a row that is gone makes that raise. */
    | Marks(target: NodeId, outcome: Outcome, strict: bool)
      /** The commit at the end of the flush. */
    | Close
      /** The flush raises or dies before its commit. */
    | Abort
      /** Waits while the open flush holds the rows of the node, which it does from marking them to its commit. */
    | Delete(id: NodeId)

  /** The columns that the marking assigns are written over the row as it is stored by now. */
  function Write(stored: Item, loaded: Item, known: bool, outcome: Outcome, now: int): Item {
    if !known then WithError(stored, loaded, "target_node_not_found").(status := Abandoned)
    else
      var tried := stored.(attempts := loaded.attempts + 1, lastAttemptAt := Some(now));
      match outcome
      case Acked => tried.(status := Delivered, sentAt := Some(now))
      case AckLost(e) => WriteRetry(WithError(tried, loaded, e), now)
      case NotDelivered(e) => WriteRetry(WithError(tried, loaded, e), now)
  }

  /** Assigning the value that was loaded writes nothing. */
  function WithError(stored: Item, loaded: Item, error: string): Item {
    if loaded.lastError == Some(error) then stored else stored.(lastError := Some(error))
  }

  function WriteRetry(tried: Item, now: int): Item {
    if tried.attempts >= tried.maxAttempts then tried.(status := Failed)
    else tried.(nextAttemptAt := now + Backoff(tried.attempts) * MINUTE)
  }

  predicate Selected(flight: Flight, i: nat, target: NodeId) {
    i < |flight.loaded| && i in flight.items && flight.loaded[i].target == target
  }

  function MarkQueue(queue: seq<Item>, flight: Flight, target: NodeId, known: bool, outcome: Outcome): (r: seq<Item>)
    ensures |r| == |queue|
  {
    seq(|queue|, i requires 0 <= i < |queue| =>
      if Selected(flight, i, target) then Write(queue[i], flight.loaded[i], known, outcome, flight.now) else queue[i])
  }

  /** Target t has been looked up and its items have not been marked yet. */
  predicate InFlight(s: State, t: NodeId) {
    s.flight.Some? && t in s.flight.value.asked && t !in s.flight.value.marked
  }

  /** The rows that marking `target` will write, as they are now. */
  function Before(queue: seq<Item>, flight: Flight, target: NodeId): map<nat, Item> {
    map i: nat | i < |queue| && Selected(flight, i, target) :: queue[i]
  }

  function Restored(queue: seq<Item>, undo: map<nat, Item>): (r: seq<Item>)
    ensures |r| == |queue|
  {
    seq(|queue|, i requires 0 <= i < |queue| => if i in undo then undo[i] else queue[i])
  }

  function RolledBack(s: State): State {
    if s.flight == None then s else s.(queue := Restored(s.queue, s.flight.value.undo), flight := None)
  }

  /** The marking updates the row of a node that has been deleted since its lookup, and the update raises. */
  predicate Raises(s: State, target: NodeId, outcome: Outcome, strict: bool) {
    InFlight(s, target) && s.flight.value.asked[target] && outcome.Acked? && strict && !HasNode(s.registry, target)
  }

  function Go(s: State, step: Step): (s': State)
    ensures |s.queue| <= |s'.queue|
  {
    match step
    case Append(items) => s.(queue := s.queue + items)
    case Select(now, limit) =>
      if s.flight.Some? then s else s.(flight := Some(Flight(now, Due(s.queue, now, limit), s.queue, map[], {}, map[])))
    case Lookup(t) =>
      if s.flight == None || t in s.flight.value.asked then s
      else s.(flight := Some(s.flight.value.(asked := s.flight.value.asked[t := HasNode(s.registry, t)])))
    case Marks(t, outcome, strict) =>
      if !InFlight(s, t) then s
      else if Raises(s, t, outcome, strict) then RolledBack(s)
      else
        var f := s.flight.value;
        s.(queue := MarkQueue(s.queue, f, t, f.asked[t], outcome),
           flight := Some(f.(marked := f.marked + {t}, undo := f.undo + Before(s.queue, f, t))))
    case Close => s.(flight := None)
    case Abort => RolledBack(s)
    case Delete(id) =>
      if ClusterNode(id, SLAVE) !in s.registry || (s.flight.Some? && id in s.flight.value.marked) then s
      else s.(queue := AbandonFor(s.queue, id), registry := Without(s.registry, id))
  }

  function GoAll(s: State, steps: seq<Step>): State {
    if steps == [] then s else Go(GoAll(s, steps[..|steps| - 1]), steps[|steps| - 1])
  }

  // ---------------------------------------------------------------- what every step keeps

  function Deleted(q: Item): Item {
    q.(status := Abandoned, lastError := Some("node_deleted"))
  }

  /** What can have happened to a selected item before it is marked: nothing, or the deletion of its node. */
  predicate AsLoaded(stored: Item, loaded: Item) {
    stored == loaded || stored == Deleted(loaded)
  }

  ghost predicate FlightOk(queue: seq<Item>, f: Flight) {
    && |f.loaded| <= |queue|
    && QueueOk(f.loaded)
    && (forall i :: i in f.items ==> i < |f.loaded| && f.loaded[i].status == Pending)
    && (forall i :: i in f.items && f.loaded[i].target !in f.marked ==> AsLoaded(queue[i], f.loaded[i]))
    && (forall i :: i in f.undo <==> i in f.items && f.loaded[i].target in f.marked)
    && (forall i :: i in f.undo ==> AsLoaded(f.undo[i], f.loaded[i]))
  }

  ghost predicate Ok(s: State) {
    QueueOk(s.queue) && (s.flight.Some? ==> FlightOk(s.queue, s.flight.value))
  }

  ghost predicate StepOk(step: Step) {
    step.Append? ==> QueueOk(step.items)
  }

  lemma WriteIsOk(stored: Item, loaded: Item, known: bool, outcome: Outcome, now: int)
    requires ItemOk(loaded) && loaded.status == Pending && AsLoaded(stored, loaded)
    ensures ItemOk(Write(stored, loaded, known, outcome, now))
    ensures stored == loaded ==> Write(stored, loaded, known, outcome, now) == Mark(loaded, known, outcome, now)
  {
  }

  lemma MarksKeep(s: State, t: NodeId, outcome: Outcome, strict: bool)
    requires Ok(s) && InFlight(s, t) && !Raises(s, t, outcome, strict)
    ensures Ok(Go(s, Marks(t, outcome, strict)))
  {
    var f, s' := s.flight.value, Go(s, Marks(t, outcome, strict));
    forall i | 0 <= i < |s.queue| ensures ItemOk(s'.queue[i]) {
      if Selected(f, i, t) {
        WriteIsOk(s.queue[i], f.loaded[i], f.asked[t], outcome, f.now);
      }
    }
  }

  /** A rollback leaves each selected item as it was loaded, or abandoned with its node, and the others untouched. */
  lemma RollbackRestores(s: State)
    requires Ok(s) && s.flight.Some?
    ensures Ok(RolledBack(s))
    ensures var f, queue := s.flight.value, RolledBack(s).queue;
            && (forall i :: i in f.items ==> AsLoaded(queue[i], f.loaded[i]))
            && (forall i :: 0 <= i < |queue| && i !in f.items ==> queue[i] == s.queue[i])
  {
    var f, queue := s.flight.value, RolledBack(s).queue;
    forall i | 0 <= i < |queue| ensures ItemOk(queue[i]) {
      if i in f.undo {
        assert AsLoaded(f.undo[i], f.loaded[i]) && ItemOk(f.loaded[i]);
      }
    }
  }

  lemma SelectKeeps(s: State, now: int, limit: nat)
    requires Ok(s)
    ensures Ok(Go(s, Select(now, limit)))
  {
  }

  lemma DeleteKeeps(s: State, id: NodeId)
    requires Ok(s)
    ensures Ok(Go(s, Delete(id)))
  {
    AbandonEvolves(s.queue, id);
  }

  lemma StepKeeps(s: State, step: Step)
    requires Ok(s) && StepOk(step)
    ensures Ok(Go(s, step))
  {
    match step
    case Append(_) =>
    case Select(now, limit) => SelectKeeps(s, now, limit);
    case Lookup(_) =>
    case Marks(t, outcome, strict) =>
      if Raises(s, t, outcome, strict) { RollbackRestores(s); }
      else if InFlight(s, t) { MarksKeep(s, t, outcome, strict); }
    case Close =>
    case Abort => if s.flight.Some? { RollbackRestores(s); }
    case Delete(id) => DeleteKeeps(s, id);
  }

  /** However the sessions interleave, no item is tried more often than allowed and a pending one has attempts left. */
  lemma {:induction false} RunKeeps(s: State, steps: seq<Step>)
    requires Ok(s) && forall i :: 0 <= i < |steps| ==> StepOk(steps[i])
    ensures Ok(GoAll(s, steps))
  {
    if steps != [] {
      RunKeeps(s, steps[..|steps| - 1]);
      StepKeeps(GoAll(s, steps[..|steps| - 1]), steps[|steps| - 1]);
    }
  }

  // ---------------------------------------------------------------- when an abandoned item comes back

  predicate RollsBack(s: State, step: Step) {
    step.Abort? || (step.Marks? && Raises(s, step.target, step.outcome, step.strict))
  }

  /** The step marks item i, whose node was deleted after its lookup, as failed, or as sent if nothing notices. */
  predicate Revives(s: State, step: Step, i: nat) {
    && step.Marks? && InFlight(s, step.target) && s.flight.value.asked[step.target]
    && i < |s.queue| && Selected(s.flight.value, i, step.target)
    && s.queue[i].status == Abandoned
    && (step.outcome.Acked? || s.flight.value.loaded[i].attempts + 1 >= s.flight.value.loaded[i].maxAttempts)
  }

  /**
   * In every reachable state, each step that is not rolled back moves each item along its lifecycle except exactly
   * when it marks an item whose node was deleted while its POST was under way, and the POST was the last attempt
   * (or succeeded, and the update of the node's missing row went unnoticed).
   */
  lemma LifecycleIff(s: State, step: Step, i: nat)
    requires Ok(s) && i < |s.queue| && !RollsBack(s, step)
    ensures MayBecome(s.queue[i].status, Go(s, step).queue[i].status) <==> !Revives(s, step, i)
    ensures Go(s, step).queue[i].status == Pending ==> s.queue[i].status == Pending
  {
    match step
    case Marks(t, outcome, strict) => MarkedItem(s, t, outcome, strict, i);
    case Delete(_) =>
    case _ =>
  }

  lemma MarkedItem(s: State, t: NodeId, outcome: Outcome, strict: bool, i: nat)
    requires Ok(s) && i < |s.queue| && !Raises(s, t, outcome, strict)
    ensures var step := Marks(t, outcome, strict);
            && (MayBecome(s.queue[i].status, Go(s, step).queue[i].status) <==> !Revives(s, step, i))
            && (Go(s, step).queue[i].status == Pending ==> s.queue[i].status == Pending)
  {
    if InFlight(s, t) && Selected(s.flight.value, i, t) {
      assert AsLoaded(s.queue[i], s.flight.value.loaded[i]);
    }
  }

  /** The node of a selected item is deleted while the item is being posted. */
  function DeletedMeanwhile(s: State, now: int, limit: nat, t: NodeId): State {
    Go(Go(Go(s, Select(now, limit)), Lookup(t)), Delete(t))
  }

  /** It happens: when that post was the last attempt and failed, the abandoned item ends as failed. */
  lemma DeletedNodeRevives(s: State, now: int, limit: nat, i: nat, error: string)
    requires Ok(s) && s.flight == None && i < |s.queue| && i in Due(s.queue, now, limit)
    requires ClusterNode(s.queue[i].target, SLAVE) in s.registry && s.queue[i].attempts + 1 == s.queue[i].maxAttempts
    ensures var t := s.queue[i].target;
            var meanwhile := DeletedMeanwhile(s, now, limit, t);
            && meanwhile.queue[i].status == Abandoned
            && Go(Go(meanwhile, Marks(t, NotDelivered(error), true)), Close).queue[i].status == Failed
  {
    var t := s.queue[i].target;
    var k :| 0 <= k < |s.registry| && s.registry[k] == ClusterNode(t, SLAVE);
    assert HasNode(s.registry, t);
  }

  /** And when it succeeds, a strict update rolls the flush back, and only the deletion remains. */
  lemma DeletedNodeRollsBack(s: State, now: int, limit: nat, i: nat)
    requires Ok(s) && s.flight == None && i < |s.queue| && i in Due(s.queue, now, limit)
    requires ClusterNode(s.queue[i].target, SLAVE) in s.registry
    ensures var t := s.queue[i].target;
            var meanwhile := DeletedMeanwhile(s, now, limit, t);
            && RollsBack(meanwhile, Marks(t, Acked, true))
            && Go(meanwhile, Marks(t, Acked, true)).queue == AbandonFor(s.queue, t)
  {
    var t := s.queue[i].target;
    var k :| 0 <= k < |s.registry| && s.registry[k] == ClusterNode(t, SLAVE);
    assert HasNode(s.registry, t);
    WithoutMembers(s.registry, t);
    var left := Without(s.registry, t);
    forall m | 0 <= m < |left| ensures left[m].nodeId != t {
      assert left[m] in left;
    }
  }

  // ---------------------------------------------------------------- the steps make up the flush

  /** The flush of the targets in `order`, one after the other, with nobody in between. */
  function Alone(s: State, order: seq<NodeId>, net: map<NodeId, Outcome>): State {
    if order == [] then s
    else
      var before, t := Alone(s, order[..|order| - 1], net), order[|order| - 1];
      Go(Go(before, Lookup(t)), Marks(t, OutcomeOf(net, t), true))
  }

  ghost predicate Midway(s: State, was: seq<Item>, registry: seq<ClusterNode>, now: int, limit: nat,
      net: map<NodeId, Outcome>, done: seq<NodeId>) {
    && s.registry == registry && s.flight.Some?
    && s.queue == MarkedFor(was, Due(was, now, limit), registry, now, net, done)
    && s.flight.value.now == now && s.flight.value.items == Due(was, now, limit) && s.flight.value.loaded == was
    && s.flight.value.asked.Keys == s.flight.value.marked
    && forall t :: t in s.flight.value.marked <==> t in done
  }

  lemma OneTarget(s: State, was: seq<Item>, registry: seq<ClusterNode>, now: int, limit: nat,
      net: map<NodeId, Outcome>, done: seq<NodeId>, t: NodeId)
    requires QueueOk(was) && Midway(s, was, registry, now, limit, net, done) && t !in done
    ensures Midway(Go(Go(s, Lookup(t)), Marks(t, OutcomeOf(net, t), true)), was, registry, now, limit, net, done + [t])
  {
    var due, after := Due(was, now, limit), Go(Go(s, Lookup(t)), Marks(t, OutcomeOf(net, t), true));
    var target := MarkedFor(was, due, registry, now, net, done + [t]);
    forall i | 0 <= i < |was| ensures after.queue[i] == target[i] {
      if i in due && was[i].target == t {
        WriteIsOk(was[i], was[i], HasNode(registry, t), OutcomeOf(net, t), now);
      }
    }
    assert after.queue == target;
  }

  lemma {:induction false} AloneMarks(s: State, now: int, limit: nat, net: map<NodeId, Outcome>, order: seq<NodeId>)
    requires Ok(s) && s.flight == None && Distinct(order)
    ensures Midway(Alone(Go(s, Select(now, limit)), order, net), s.queue, s.registry, now, limit, net, order)
  {
    if order == [] {
      assert s.queue == MarkedFor(s.queue, Due(s.queue, now, limit), s.registry, now, net, []);
    } else {
      var n := |order| - 1;
      NextIsNew(order, n);
      assert order[..n + 1] == order;
      AloneMarks(s, now, limit, net, order[..n]);
      var before := Alone(Go(s, Select(now, limit)), order[..n], net);
      OneTarget(before, s.queue, s.registry, now, limit, net, order[..n], order[n]);
    }
  }

  /** With nobody in between, the steps of a flush come to what the flush in one step does. */
  lemma StepsMakeTheFlush(s: State, now: int, limit: nat, net: map<NodeId, Outcome>, order: seq<NodeId>)
    requires Ok(s) && s.flight == None && IsGrouping(s.queue, Due(s.queue, now, limit), order)
    ensures Go(Alone(Go(s, Select(now, limit)), order, net), Close) ==
            State(Flushed(s.queue, s.registry, now, limit, net), s.registry, None)
  {
    AloneMarks(s, now, limit, net, order);
    AllMarked(s.queue, s.registry, now, limit, net, order);
  }
}
