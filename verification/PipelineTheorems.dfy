/**
 What the invariant means for tasks and workers, in every state of every run.
 */
module PipelineTheorems {
  import opened Prelude
  import opened Slicing
  import opened Pipeline
  import opened PipelineSafety

  /** Where a task can be. */
  datatype Place =
    | AtSender
    | AtIncoming
    | AtQueue(j: nat)
    | AtWorker(g: Gpu, j: nat)
    | AtDone(j: nat)
    | AtMerge
    | AtPublished

  /** The divider is copying this batch; until it is archived the original counts, not the copies. */
  ghost predicate BeingSplit(s: State, b: Batch) {
    s.divider.Splitting? && s.divider.batch == b
  }

  ghost predicate IsAt(s: State, b: Batch, t: Task, x: Place) {
    match x
    case AtSender => b in s.pending && t in s.pending[b]
    case AtIncoming => b in s.incoming && t in s.incoming[b]
    case AtQueue(j) => Part(b, j) in s.queued && t in s.queued[Part(b, j)] && !BeingSplit(s, b)
    case AtWorker(g, j) =>
      && g < |s.workers| && s.workers[g].Has(Part(b, j))
      && ((Slot(g, Part(b, j)) in s.claimed && t in s.claimed[Slot(g, Part(b, j))])
          || (Part(b, j) in s.tmp && t in s.tmp[Part(b, j)]))
    case AtDone(j) => Part(b, j) in s.done && t in s.done[Part(b, j)]
    case AtMerge => b in s.merged && t in s.merged[b]
    case AtPublished => b in s.measured && t in s.measured[b]
  }

  /** The part a place belongs to. */
  ghost predicate IsPartPlace(x: Place) {
    x.AtQueue? || x.AtWorker? || x.AtDone?
  }

  /** A task at a part's place is in that part's slice, and the part is due to exist. */
  lemma {:induction false} PartPlaceSlice(c: Config, s: State, b: Batch, t: Task, x: Place)
    requires c.Valid() && Inv(c, s) && IsAt(s, b, t, x) && IsPartPlace(x)
    ensures Expected(c, s, Part(b, x.j)) && t in SliceSet(s.order[b], c.parts, x.j) && !BeingSplit(s, b)
  {
    var p := Part(b, x.j);
    assert PartOk(c, s, p) && ContentOk(c, s, p);
    if x.AtWorker? {
      assert WorkerOk(s, x.g);
    }
  }

  /** Slices and the prefix merged before them have nothing in common. */
  lemma {:induction false} PrefixDisjoint(tasks: seq<Task>, n: nat, i: nat, j: nat, t: Task)
    requires n > 0 && i <= j && i <= n && Distinct(tasks)
    ensures t in PrefixSet(tasks, n, i) ==> t !in SliceSet(tasks, n, j)
  {
    if t in PrefixSet(tasks, n, i) {
      var k := SliceHolding(tasks, n, i, t);
      SlicesDisjoint(tasks, n, k, j);
    }
  }

  lemma {:induction false} SameSlice(tasks: seq<Task>, n: nat, i: nat, j: nat, t: Task)
    requires n > 0 && Distinct(tasks)
    requires t in SliceSet(tasks, n, i) && t in SliceSet(tasks, n, j)
    ensures i == j
  {
    if i < j {
      SlicesDisjoint(tasks, n, i, j);
    } else if j < i {
      SlicesDisjoint(tasks, n, j, i);
    }
  }

  /** Two places of parts that hold the same task are the same place. */
  lemma {:induction false} PartPlacesUnique(c: Config, s: State, b: Batch, t: Task, x: Place, y: Place)
    requires c.Valid() && Inv(c, s) && IsPartPlace(x) && IsPartPlace(y)
    requires IsAt(s, b, t, x) && IsAt(s, b, t, y)
    ensures x == y
  {
    PartPlaceSlice(c, s, b, t, x);
    PartPlaceSlice(c, s, b, t, y);
    assert BatchOk(c, s, b);
    SameSlice(s.order[b], c.parts, x.j, y.j, t);
    assert PartOk(c, s, Part(b, x.j));
    if x.AtWorker? {
      assert WorkerOk(s, x.g);
    }
    if y.AtWorker? {
      assert WorkerOk(s, y.g);
    }
  }

  /** A place of a part and a place of a whole batch never hold the same task. */
  lemma {:induction false} PartOrWhole(c: Config, s: State, b: Batch, t: Task, x: Place, y: Place)
    requires c.Valid() && Inv(c, s) && IsPartPlace(x) && !IsPartPlace(y)
    requires IsAt(s, b, t, x)
    ensures !IsAt(s, b, t, y)
  {
    PartPlaceSlice(c, s, b, t, x);
    assert BatchOk(c, s, b);
    if y.AtMerge? && s.merger.Merging? && s.merger.next <= x.j {
      PrefixDisjoint(s.order[b], c.parts, s.merger.next, x.j, t);
    }
  }

  /** No task is ever in two places. */
  lemma {:induction false} PlaceUnique(c: Config, s: State, b: Batch, t: Task, x: Place, y: Place)
    requires c.Valid() && Inv(c, s)
    requires IsAt(s, b, t, x) && IsAt(s, b, t, y)
    ensures x == y
  {
    if IsPartPlace(x) && IsPartPlace(y) {
      PartPlacesUnique(c, s, b, t, x, y);
    } else if IsPartPlace(x) {
      PartOrWhole(c, s, b, t, x, y);
    } else if IsPartPlace(y) {
      PartOrWhole(c, s, b, t, y, x);
    } else {
      assert BatchOk(c, s, b);
    }
  }

  /** No task is ever lost. */
  lemma {:induction false} PlaceExists(c: Config, s: State, b: Batch, t: Task) returns (x: Place)
    requires c.Valid() && Inv(c, s)
    requires b in c.batches && t in c.batches[b]
    ensures IsAt(s, b, t, x)
  {
    assert BatchOk(c, s, b);
    if b in s.pending {
      x := AtSender;
    } else if b in s.incoming {
      x := AtIncoming;
    } else if b in s.measured {
      x := AtPublished;
    } else {
      x := PlaceOfPart(c, s, b, t);
    }
  }

  lemma {:induction false} PlaceOfPart(c: Config, s: State, b: Batch, t: Task) returns (x: Place)
    requires c.Valid() && Inv(c, s)
    requires b in c.batches && t in c.batches[b]
    requires b in s.order && b !in s.incoming && b !in s.measured
    ensures IsAt(s, b, t, x)
  {
    assert BatchOk(c, s, b);
    PrefixEnds(s.order[b], c.parts);
    var j := SliceHolding(s.order[b], c.parts, c.parts, t);
    var p := Part(b, j);
    assert PartOk(c, s, p) && ContentOk(c, s, p);
    if s.merger.Merging? && s.merger.batch == b && j < s.merger.next {
      x := AtMerge;
      SliceInPrefix(s.order[b], c.parts, j, s.merger.next, t);
    } else if p in s.queued {
      x := AtQueue(j);
    } else if p in s.done {
      x := AtDone(j);
    } else {
      x := AtWorker(s.holder[p], j);
    }
  }

  lemma {:induction false} SliceInPrefix(tasks: seq<Task>, n: nat, j: nat, m: nat, t: Task)
    requires n > 0 && j < m && t in SliceSet(tasks, n, j)
    ensures t in PrefixSet(tasks, n, m)
    decreases m
  {
    PrefixGrows(tasks, n, m - 1);
    if j < m - 1 {
      SliceInPrefix(tasks, n, j, m - 1, t);
    }
  }

  /**
   The safety of the pipeline. In every state of every interleaving, each task of each batch is
   in exactly one place, no two workers have the same part, and whatever is published is
   exactly the batch that was sent.
   */
  lemma {:induction false} Safety(c: Config, states: seq<State>, actions: seq<Action>, i: nat)
    requires c.Valid() && IsRun(c, states, actions) && i < |states|
    ensures forall b, t | b in c.batches && t in c.batches[b] ::
              exists x :: IsAt(states[i], b, t, x) && forall y :: IsAt(states[i], b, t, y) ==> y == x
    ensures forall g: Gpu, g': Gpu, p | g < |states[i].workers| && g' < |states[i].workers| && states[i].workers[g].Has(p) ::
              states[i].workers[g'].Has(p) ==> g == g'
    ensures forall b | b in states[i].measured :: b in c.batches && states[i].measured[b] == c.batches[b]
  {
    hide IsAt;
    RunKeeps(c, states, actions, i);
    var s := states[i];
    forall b, t | b in c.batches && t in c.batches[b]
      ensures exists x :: IsAt(s, b, t, x) && forall y :: IsAt(s, b, t, y) ==> y == x
    {
      var x := PlaceExists(c, s, b, t);
      forall y | IsAt(s, b, t, y)
        ensures y == x
      {
        PlaceUnique(c, s, b, t, y, x);
      }
    }
    forall g: Gpu, g': Gpu, p | g < |s.workers| && g' < |s.workers| && s.workers[g].Has(p) && s.workers[g'].Has(p)
      ensures g == g'
    {
      assert WorkerOk(s, g) && WorkerOk(s, g');
    }
    forall b | b in s.measured
      ensures b in c.batches && s.measured[b] == c.batches[b]
    {
      assert BatchOk(c, s, b);
    }
  }

  /** Merging starts only when every part has been measured, even though the listing is old. */
  lemma {:induction false} MergeWaitsForAllParts(c: Config, s: State, b: Batch, j: nat)
    requires c.Valid() && Inv(c, s) && Enabled(c, s, Begin(b)) && j < c.parts
    ensures Part(b, j) in s.done && b in s.order
    ensures s.done[Part(b, j)] == SliceSet(s.order[b], c.parts, j)
  {
    assert Part(b, j) in s.merger.seen;
    assert SeenOk(c, s, Part(b, j)) && PartOk(c, s, Part(b, j)) && ContentOk(c, s, Part(b, j));
  }

  /** The divider never finds a part directory in its way, so creating it cannot fail. */
  lemma {:induction false} CopyFindsNoDirectory(c: Config, s: State)
    requires c.Valid() && Inv(c, s) && Enabled(c, s, CopyPart)
    ensures Part(s.divider.batch, s.divider.next) !in s.queued
  {
    assert PartOk(c, s, Part(s.divider.batch, s.divider.next));
  }
}
