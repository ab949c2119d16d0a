/**
 * The cluster over a network that keeps every request it was ever given: a post whose sender gave up on it can
 * arrive later, after other flushes, or several times.
 */
module ClusterNetwork {
  import opened Common
  import opened ClusterModel
  import opened ClusterService
  import opened QueueLifecycle
  import opened ClusterProtocol
  import opened ClusterDelivery

  /** What one request would make the receiver ingest. */
  datatype Letter = Letter(target: NodeId, rows: seq<LogRow>)

  datatype World = World(cluster: Cluster, letters: seq<Letter>)

  datatype Move =
    | Act(step: Step)
      /** Request number k arrives, for the first time or once more; nobody waits for its answer. */
    | Arrive(k: nat)

  /** The requests of a flush, whatever becomes of them. */
  function Posted(c: Cluster, step: Step): seq<Letter> {
    if !step.Flush? || step.at !in c then []
    else
      var node := c[step.at];
      seq(|node.registry|, i requires 0 <= i < |node.registry| =>
        Letter(node.registry[i].nodeId, Batch(step.at, node, step.now, step.limit, node.registry[i].nodeId)))
  }

  function Deliver(c: Cluster, letter: Letter): (c': Cluster)
    ensures c'.Keys == c.Keys
  {
    if letter.target !in c then c
    else c[letter.target := c[letter.target].(log := Ingest(c[letter.target].log, letter.rows))]
  }

  function Go(w: World, move: Move): (w': World)
    ensures w'.cluster.Keys == w.cluster.Keys
  {
    match move
    case Act(step) => World(Apply(w.cluster, step), w.letters + Posted(w.cluster, step))
    case Arrive(k) => if k < |w.letters| then w.(cluster := Deliver(w.cluster, w.letters[k])) else w
  }

  function GoAll(w: World, moves: seq<Move>): (w': World)
    ensures w'.cluster.Keys == w.cluster.Keys
  {
    if moves == [] then w else Go(GoAll(w, moves[..|moves| - 1]), moves[|moves| - 1])
  }

  // ---------------------------------------------------------------- what every move keeps

  /** A letter carries copies of events that their own nodes have logged. */
  ghost predicate LetterIsGenuine(c: Cluster, letter: Letter) {
    forall row :: row in letter.rows ==> exists origin :: CopyOf(c, origin, row)
  }

  ghost predicate Sound(w: World) {
    Safe(w.cluster) && forall k :: 0 <= k < |w.letters| ==> LetterIsGenuine(w.cluster, w.letters[k])
  }

  lemma LetterStaysGenuine(c: Cluster, c': Cluster, letter: Letter)
    requires LetterIsGenuine(c, letter) && Extends(c, c')
    ensures LetterIsGenuine(c', letter)
  {
    forall row | row in letter.rows ensures exists origin :: CopyOf(c', origin, row) {
      var origin :| CopyOf(c, origin, row);
      assert NodeExtends(c[origin.serverNode], c'[origin.serverNode]);
      assert CopyOf(c', origin, row);
    }
  }

  lemma PostedIsGenuine(c: Cluster, step: Step, k: nat)
    requires OwnPayloads(c) && k < |Posted(c, step)|
    ensures LetterIsGenuine(c, Posted(c, step)[k])
  {
    var letter := Posted(c, step)[k];
    forall row | row in letter.rows ensures exists origin :: CopyOf(c, origin, row) {
      BatchIsGenuine(c, step.at, step.now, step.limit, letter.target, row);
    }
  }

  lemma DeliverExtends(c: Cluster, letter: Letter)
    requires Tidy(c)
    ensures Extends(c, Deliver(c, letter))
  {
    forall n | n in c ensures NodeExtends(c[n], Deliver(c, letter)[n]) {
      NodeUnchanged(c[n]);
    }
  }

  lemma DeliverKeepsGenuine(c: Cluster, letter: Letter)
    requires Tidy(c) && Genuine(c) && LetterIsGenuine(c, letter)
    ensures Genuine(Deliver(c, letter))
  {
    var c' := Deliver(c, letter);
    DeliverExtends(c, letter);
    LetterStaysGenuine(c, c', letter);
    forall n, row | n in c' && row in c'[n].log && row.serverNode != n
      ensures exists origin :: CopyOf(c', origin, row) {
      if row in c[n].log {
        var origin :| CopyOf(c, origin, row);
        assert NodeExtends(c[origin.serverNode], c'[origin.serverNode]);
        assert CopyOf(c', origin, row);
      } else {
        FreshMembers(c[n].log, letter.rows);
      }
    }
  }

  lemma DeliverKeepsItems(c: Cluster, letter: Letter)
    requires Tidy(c) && OwnPayloads(c) && SentIsStored(c)
    ensures Tidy(Deliver(c, letter)) && OwnPayloads(Deliver(c, letter)) && SentIsStored(Deliver(c, letter))
  {
    var c' := Deliver(c, letter);
    assert forall n :: n in c ==> NodeTidy(c[n]) && c'[n].queue == c[n].queue && c'[n].registry == c[n].registry;
    forall n, i | n in c' && 0 <= i < |c'[n].queue| ensures HasOrigin(c', n, c'[n].queue[i]) {
      assert HasOrigin(c, n, c[n].queue[i]);
      var row :| Carries(c, n, c[n].queue[i], row);
      assert Carries(c', n, c'[n].queue[i], row);
    }
    forall n, i | n in c' && 0 <= i < |c'[n].queue| && c'[n].queue[i].status == Delivered
      ensures Stored(c', n, c'[n].queue[i]) {
      assert Stored(c, n, c[n].queue[i]);
      var t := c[n].queue[i].target;
      assert forall row :: row in c[t].log ==> row in c'[t].log;
    }
  }

  lemma MoveIsSound(w: World, move: Move)
    requires Sound(w)
    ensures Sound(Go(w, move)) && Extends(w.cluster, Go(w, move).cluster)
  {
    var c, w' := w.cluster, Go(w, move);
    match move
    case Act(step) =>
      StepIsSafe(c, step);
      forall k | 0 <= k < |w'.letters| ensures LetterIsGenuine(w'.cluster, w'.letters[k]) {
        if k >= |w.letters| {
          PostedIsGenuine(c, step, k - |w.letters|);
        }
        LetterStaysGenuine(c, w'.cluster, w'.letters[k]);
      }
    case Arrive(k) =>
      ArrivalIsSound(w, k);
  }

  lemma ArrivalIsSound(w: World, k: nat)
    requires Sound(w)
    ensures Sound(Go(w, Arrive(k))) && Extends(w.cluster, Go(w, Arrive(k)).cluster)
  {
    var c := w.cluster;
    if k < |w.letters| {
      DeliverExtends(c, w.letters[k]);
      DeliverKeepsGenuine(c, w.letters[k]);
      DeliverKeepsItems(c, w.letters[k]);
      forall m | 0 <= m < |w.letters| ensures LetterIsGenuine(Deliver(c, w.letters[k]), w.letters[m]) {
        LetterStaysGenuine(c, Deliver(c, w.letters[k]), w.letters[m]);
      }
    } else {
      forall n | n in c ensures NodeExtends(c[n], c[n]) {
        NodeUnchanged(c[n]);
      }
    }
  }

  lemma {:induction false} RunIsSound(w: World, moves: seq<Move>)
    requires Sound(w)
    ensures Sound(GoAll(w, moves))
  {
    if moves != [] {
      RunIsSound(w, moves[..|moves| - 1]);
      MoveIsSound(GoAll(w, moves[..|moves| - 1]), moves[|moves| - 1]);
    }
  }

  // ---------------------------------------------------------------- exactly once, however late

  ghost predicate LettersUnique(letters: seq<Letter>) {
    forall k :: 0 <= k < |letters| ==> UniqueKeys(letters[k].rows)
  }

  lemma PostedIsUnique(c: Cluster, step: Step)
    requires Safe(c) && NoDuplicates(c) && Stamped(c)
    ensures LettersUnique(Posted(c, step))
  {
    forall k | 0 <= k < |Posted(c, step)| ensures UniqueKeys(Posted(c, step)[k].rows) {
      assert UniqueItems(c[step.at].queue);
      BatchKeysDiffer(c, step.at, step.now, step.limit, Posted(c, step)[k].target);
    }
  }

  lemma DeliverKeepsUnique(c: Cluster, letter: Letter)
    requires NoDuplicates(c) && UniqueKeys(letter.rows)
    ensures NoDuplicates(Deliver(c, letter))
  {
    if letter.target in c {
      IngestKeepsUnique(c[letter.target].log, letter.rows);
    }
  }

  ghost predicate Unique(w: World) {
    NoDuplicates(w.cluster) && LettersUnique(w.letters)
  }

  lemma MoveKeepsUnique(w: World, move: Move)
    requires Sound(w) && Unique(w) && Stamped(w.cluster) && Stamped(Go(w, move).cluster)
    ensures Unique(Go(w, move))
  {
    match move
    case Act(step) =>
      StepKeepsUnique(w.cluster, step);
      PostedIsUnique(w.cluster, step);
    case Arrive(k) =>
      if k < |w.letters| {
        DeliverKeepsUnique(w.cluster, w.letters[k]);
      }
  }

  lemma {:induction false} RunStaysUnique(w: World, moves: seq<Move>)
    requires Sound(w) && Unique(w) && Stamped(GoAll(w, moves).cluster)
    ensures Unique(GoAll(w, moves))
  {
    if moves != [] {
      var before, last := GoAll(w, moves[..|moves| - 1]), moves[|moves| - 1];
      RunIsSound(w, moves[..|moves| - 1]);
      MoveIsSound(before, last);
      StampedEarlier(before.cluster, Go(before, last).cluster);
      RunStaysUnique(w, moves[..|moves| - 1]);
      MoveKeepsUnique(before, last);
    }
  }

  /**
   * Exactly once, even when requests arrive late, out of order or repeatedly: in every reachable state with
   * distinct keys at each node, an item marked sent has left one row with its event's key, the copy of the
   * event, in its target's log, and no log holds a key twice.
   */
  lemma ExactlyOnceHoweverLate(c: Cluster, moves: seq<Move>, n: NodeId, i: nat, row: LogRow)
    requires Initial(c) && n in c
    requires var end := GoAll(World(c, []), moves).cluster;
             && Stamped(end)
             && i < |end[n].queue| && end[n].queue[i].status == Delivered && Carries(end, n, end[n].queue[i], row)
    ensures var end := GoAll(World(c, []), moves).cluster;
            NoDuplicates(end) && StoredOnce(end, n, end[n].queue[i].target, row)
  {
    InitialIsSafe(c);
    RunIsSound(World(c, []), moves);
    RunStaysUnique(World(c, []), moves);
    SentIsStoredOnce(GoAll(World(c, []), moves).cluster, n, i, row);
  }

  /** A late arrival of something already received changes nothing. */
  lemma LateDuplicateIsIgnored(w: World, k: nat)
    requires k < |w.letters| && w.letters[k].target in w.cluster
    ensures Go(Go(w, Arrive(k)), Arrive(k)).cluster == Go(w, Arrive(k)).cluster
  {
    IngestIsIdempotent(w.cluster[w.letters[k].target].log, w.letters[k].rows);
  }
}
