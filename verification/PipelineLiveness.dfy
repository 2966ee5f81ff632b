/**
 The pipeline comes to rest: a bound on the work in any run, and what a state with no work
 left looks like.
 */
module PipelineLiveness {
  import opened Slicing
  import opened Pipeline
  import opened PipelineSafety

  // ---------------------------------------------------------------- a measure of the work left

  /** Operations a worker still has to make before its part is merged. */
  function Stage(w: Worker): nat {
    match w
    case Idle => 0
    case Claimed(_) => 5
    case Measured(_) => 4
    case Cleared(_) => 3
    case Ready(_) => 2
  }

  function Stages(ws: seq<Worker>): nat {
    if ws == [] then 0 else Stages(ws[..|ws| - 1]) + Stage(ws[|ws| - 1])
  }

  lemma {:induction false} StagesUpdate(ws: seq<Worker>, g: nat, w: Worker)
    requires g < |ws|
    ensures Stages(ws[g := w]) == Stages(ws) - Stage(ws[g]) + Stage(w)
  {
    var n := |ws| - 1;
    if g == n {
      assert ws[g := w][..n] == ws[..n];
    } else {
      StagesUpdate(ws[..n], g, w);
      assert ws[g := w][..n] == ws[..n][g := w];
    }
  }

  lemma {:induction false} StagesIdle(n: nat)
    ensures Stages(seq(n, _ => Idle)) == 0
  {
    if n > 0 {
      StagesIdle(n - 1);
      assert seq(n, _ => Idle)[..n - 1] == seq(n - 1, _ => Idle);
    }
  }

  /** What the divider has done to the batch it is working on. */
  function DividerDone(d: Divider): nat {
    match d
    case Watching => 0
    case Chosen(_) => 1
    case Splitting(_, i) => 2 + 7 * i
  }

  function MergerDone(m: Merger): nat {
    match m
    case Scanning(_, _) => 0
    case Merging(_, _, _, _) => 1
    case Crashed(_) => 2
  }

  function Times(k: nat, w: nat): nat {
    if k == 0 then 0 else Times(k - 1, w) + w
  }

  lemma {:induction false} TimesIsProduct(k: nat, w: nat)
    ensures Times(k, w) == k * w
  {
    if k > 0 {
      TimesIsProduct(k - 1, w);
      assert k * w == (k - 1) * w + w;
    }
  }

  /** Operations left, batch by batch and part by part. */
  function Work(c: Config, s: State): int {
    Times(|s.pending|, 7 * c.parts + 5) + Times(|s.incoming|, 7 * c.parts + 4) - DividerDone(s.divider)
    + 6 * |s.queued| + Stages(s.workers) + |s.done|
    + 3 * (|c.batches| - |s.measured|) - MergerDone(s.merger)
  }

  lemma MapRemove<K, V>(m: map<K, V>, k: K)
    requires k in m
    ensures |m - {k}| == |m| - 1
  {
    assert (m - {k}).Keys == m.Keys - {k};
  }

  lemma MapAdd<K, V>(m: map<K, V>, k: K, v: V)
    requires k !in m
    ensures |m[k := v]| == |m| + 1
  {
    assert m[k := v].Keys == m.Keys + {k};
  }

  lemma {:induction false} DeliverWork(c: Config, s: State, b: Batch)
    requires c.Valid() && Inv(c, s) && Enabled(c, s, Deliver(b))
    ensures Work(c, Apply(c, s, Deliver(b))) == Work(c, s) - 1
  {
    assert BatchOk(c, s, b);
    hide Inv, Work;
    DeliveredWork(c, s, b);
  }

  lemma {:induction false} DeliveredWork(c: Config, s: State, b: Batch)
    requires b in s.pending && b !in s.incoming
    ensures Work(c, s.(pending := s.pending - {b}, incoming := s.incoming[b := s.pending[b]])) == Work(c, s) - 1
  {
    MapRemove(s.pending, b);
    MapAdd(s.incoming, b, s.pending[b]);
    var k, m, w := |s.pending|, |s.incoming|, 7 * c.parts + 4;
    assert Times(k, w + 1) == Times(k - 1, w + 1) + w + 1 && Times(m + 1, w) == Times(m, w) + w;
    hide Times, Stages;
  }

  lemma {:induction false} CopyPartWork(c: Config, s: State)
    requires c.Valid() && Inv(c, s) && Enabled(c, s, CopyPart)
    ensures Work(c, Apply(c, s, CopyPart)) == Work(c, s) - 1
  {
    var p := Part(s.divider.batch, s.divider.next);
    assert PartOk(c, s, p);
    hide Inv, PartOk, Stages, Times;
    MapAdd(s.queued, p, SliceSet(s.order[p.batch], c.parts, p.index));
  }

  lemma {:induction false} ArchiveWork(c: Config, s: State)
    requires c.Valid() && Inv(c, s) && Enabled(c, s, Archive)
    ensures Work(c, Apply(c, s, Archive)) == Work(c, s) - 2
  {
    assert s.divider.batch in s.incoming;
    hide Inv, Work;
    ArchivedWork(c, s, s.divider.batch);
  }

  lemma {:induction false} ArchivedWork(c: Config, s: State, b: Batch)
    requires b in s.incoming && s.divider == Splitting(b, c.parts)
    ensures Work(c, s.(incoming := s.incoming - {b}, divider := Watching)) == Work(c, s) - 2
  {
    MapRemove(s.incoming, b);
    var k, w := |s.incoming|, 7 * c.parts + 4;
    assert Times(k, w) == Times(k - 1, w) + w;
    hide Times, Stages;
  }

  lemma {:induction false} ClaimWork(c: Config, s: State, g: Gpu, p: Part)
    requires c.Valid() && Enabled(c, s, Claim(g, p))
    ensures Work(c, Apply(c, s, Claim(g, p))) == Work(c, s) - 1
  {
    hide Stages, Times;
    StagesUpdate(s.workers, g, Claimed(p));
    MapRemove(s.queued, p);
  }

  lemma {:induction false} DepositWork(c: Config, s: State, g: Gpu)
    requires c.Valid() && Inv(c, s) && Enabled(c, s, Deposit(g))
    ensures Work(c, Apply(c, s, Deposit(g))) == Work(c, s) - 1
  {
    DepositIsNew(c, s, g);
    hide Inv, Stages, Times;
    StagesUpdate(s.workers, g, Idle);
    MapAdd(s.done, s.workers[g].part, s.tmp[s.workers[g].part]);
  }

  /** Measuring, clearing and passing the lock each move one worker one stage on. */
  lemma {:induction false} StageWork(c: Config, s: State, g: Gpu, s': State)
    requires g < |s.workers| && |s'.workers| == |s.workers| && Stage(s'.workers[g]) + 1 == Stage(s.workers[g])
    requires s' == s.(claimed := s'.claimed, tmp := s'.tmp, workers := s.workers[g := s'.workers[g]])
    ensures Work(c, s') == Work(c, s) - 1
  {
    hide Stages, Times;
    StagesUpdate(s.workers, g, s'.workers[g]);
  }

  lemma {:induction false} DepositIsNew(c: Config, s: State, g: Gpu)
    requires c.Valid() && Inv(c, s) && Enabled(c, s, Deposit(g))
    ensures s.workers[g].part !in s.done
  {
    assert WorkerOk(s, g) && PartOk(c, s, s.workers[g].part);
  }

  lemma {:induction false} MergePartWork(c: Config, s: State)
    requires c.Valid() && Enabled(c, s, MergePart)
    ensures Work(c, Apply(c, s, MergePart)) == Work(c, s) - 1
  {
    hide Stages, Times, Moved;
    MapRemove(s.done, Part(s.merger.batch, s.merger.next));
  }

  lemma {:induction false} PublishWork(c: Config, s: State)
    requires c.Valid() && Inv(c, s) && Enabled(c, s, Publish)
    ensures Work(c, Apply(c, s, Publish)) <= Work(c, s) - 1
  {
    assert s.merger.batch !in s.measured;
    hide Inv, Work;
    if s.merger.batch in s.merged {
      PublishedWork(c, s);
    } else {
      RoleWork(c, s, s.(merger := Crashed(s.merger.batch)));
    }
  }

  lemma {:induction false} PublishedWork(c: Config, s: State)
    requires s.merger.Merging? && s.merger.batch in s.merged && s.merger.batch !in s.measured
    ensures Work(c, Published(s)) == Work(c, s) - 2
  {
    hide Stages, Times;
    MapAdd(s.measured, s.merger.batch, s.merged[s.merger.batch]);
  }

  /** Actions that only change what a process knows. */
  lemma {:induction false} RoleWork(c: Config, s: State, s': State)
    requires s' == s.(divider := s'.divider, merger := s'.merger, order := s'.order)
    ensures Work(c, s') - Work(c, s) ==
            DividerDone(s.divider) - DividerDone(s'.divider) + MergerDone(s.merger) - MergerDone(s'.merger)
  {
    hide Stages, Times, DividerDone, MergerDone;
  }

  /** Every operation that is not polling leaves less work; polling leaves it as it is. */
  lemma {:induction false} WorkDecreases(c: Config, s: State, a: Action)
    requires c.Valid() && Inv(c, s) && Enabled(c, s, a)
    ensures Work(c, Apply(c, s, a)) <= Work(c, s) - (if IsIdle(a) then 0 else 1)
  {
    hide Inv, Work, Enumerates, AllSeen, Starts, Moved;
    match a {
      case Deliver(b) => DeliverWork(c, s, b);
      case CopyPart => CopyPartWork(c, s);
      case Archive => ArchiveWork(c, s);
      case Claim(g, p) => ClaimWork(c, s, g, p);
      case Measure(g) => StageWork(c, s, g, Apply(c, s, a));
      case Clear(g) => StageWork(c, s, g, Apply(c, s, a));
      case Sync(g) => StageWork(c, s, g, Apply(c, s, a));
      case Deposit(g) => DepositWork(c, s, g);
      case MergePart => MergePartWork(c, s);
      case Publish => PublishWork(c, s);
      case Choose(_) => RoleWork(c, s, Apply(c, s, a));
      case Lock(_) => RoleWork(c, s, Apply(c, s, a));
      case Scan => RoleWork(c, s, Apply(c, s, a));
      case Skip(_) => RoleWork(c, s, Apply(c, s, a));
      case Begin(_) => RoleWork(c, s, Apply(c, s, a));
    }
  }

  lemma SubsetSize<T>(a: set<T>, b: set<T>)
    requires a <= b
    ensures |a| <= |b| && (a != b ==> |a| < |b|)
  {
    assert b == a + (b - a);
  }

  lemma {:induction false} WorkNonNegative(c: Config, s: State)
    requires c.Valid() && Inv(c, s)
    ensures Work(c, s) >= 0
  {
    MergerWorkLeft(c, s);
    DividerWorkLeft(c, s);
    hide Inv, Stages, Times;
  }

  /** A batch being merged is not published yet. */
  lemma {:induction false} MergerWorkLeft(c: Config, s: State)
    requires c.Valid() && Inv(c, s)
    ensures 3 * (|c.batches| - |s.measured|) >= MergerDone(s.merger)
  {
    forall b | b in s.measured
      ensures b in c.batches
    {
      assert BatchOk(c, s, b);
    }
    SubsetSize(s.measured.Keys, c.batches.Keys);
    if !s.merger.Scanning? {
      assert BatchOk(c, s, s.merger.batch);
      assert s.merger.batch in c.batches.Keys && s.merger.batch !in s.measured.Keys;
    }
  }

  /** A batch being divided is still incoming. */
  lemma {:induction false} DividerWorkLeft(c: Config, s: State)
    requires c.Valid() && Inv(c, s)
    ensures Times(|s.incoming|, 7 * c.parts + 4) >= DividerDone(s.divider)
  {
    if !s.divider.Watching? {
      assert s.divider.batch in s.incoming;
      MapRemove(s.incoming, s.divider.batch);
    }
  }

  // ---------------------------------------------------------------- bounded runs

  function Productive(actions: seq<Action>): nat {
    if actions == [] then 0
    else Productive(actions[..|actions| - 1]) + (if IsIdle(actions[|actions| - 1]) then 0 else 1)
  }

  lemma {:induction false} RunStep(c: Config, states: seq<State>, actions: seq<Action>, i: nat)
    requires c.Valid() && IsRun(c, states, actions) && i < |actions|
    ensures Enabled(c, states[i], actions[i]) && states[i + 1] == Apply(c, states[i], actions[i])
  {
  }

  lemma {:induction false} RunWork(c: Config, states: seq<State>, actions: seq<Action>, i: nat)
    requires c.Valid() && IsRun(c, states, actions) && i < |states|
    ensures Work(c, states[i]) + Productive(actions[..i]) <= Work(c, states[0])
  {
    hide Inv, Enabled, Apply, Work;
    if i > 0 {
      RunStep(c, states, actions, i - 1);
      RunWork(c, states, actions, i - 1);
      RunKeeps(c, states, actions, i - 1);
      WorkDecreases(c, states[i - 1], actions[i - 1]);
      ProductiveStep(actions, i);
    }
  }

  lemma {:induction false} ProductiveStep(actions: seq<Action>, i: nat)
    requires 0 < i <= |actions|
    ensures Productive(actions[..i]) == Productive(actions[..i - 1]) + (if IsIdle(actions[i - 1]) then 0 else 1)
  {
    assert actions[..i][..i - 1] == actions[..i - 1];
  }

  /** No run makes more than `7 * parts + 8` operations per batch, however long it polls. */
  lemma {:induction false} BoundedWork(c: Config, states: seq<State>, actions: seq<Action>)
    requires c.Valid() && IsRun(c, states, actions)
    ensures Productive(actions) <= |c.batches| * (7 * c.parts + 8)
  {
    hide Inv, Enabled, Apply, Work;
    var n := |actions|;
    RunWork(c, states, actions, n);
    RunKeeps(c, states, actions, n);
    WorkNonNegative(c, states[n]);
    assert actions[..n] == actions;
    InitialWork(c);
  }

  lemma {:induction false} InitialWork(c: Config)
    ensures Work(c, Initial(c)) == |c.batches| * (7 * c.parts + 8)
  {
    var k, n := |c.batches|, c.parts;
    StagesIdle(c.gpus);
    TimesIsProduct(k, 7 * n + 5);
    assert k * (7 * n + 8) == k * (7 * n + 5) + 3 * k;
    assert Initial(c).workers == seq(c.gpus, _ => Idle);
    hide Times, Stages;
    assert Work(c, Initial(c)) == Times(k, 7 * n + 5) + 3 * k;
  }

  // ---------------------------------------------------------------- no work left

  /** Only polling is possible. */
  ghost predicate Stuck(c: Config, s: State) {
    forall a | Enabled(c, s, a) :: IsIdle(a)
  }

  lemma OnlyPolling(c: Config, s: State, a: Action)
    requires Stuck(c, s)
    ensures Enabled(c, s, a) ==> IsIdle(a)
  {
  }

  /** The state after the merger has looked at `measured_part` afresh. */
  ghost function Rescanned(s: State): State {
    if s.merger.Scanning? then s.(merger := Scanning(s.done.Keys, Starts(s.done))) else s
  }

  /** A stuck pipeline reaches that state by polling alone. */
  lemma {:induction false} RescanReachable(c: Config, s: State) returns (states: seq<State>, actions: seq<Action>)
    requires c.Valid() && Inv(c, s) && Stuck(c, s) && s.merger.Scanning?
    ensures |states| == |actions| + 1 && states[0] == s && states[|actions|] == Rescanned(s)
    ensures forall i | 0 <= i < |actions| ::
              IsIdle(actions[i]) && Enabled(c, states[i], actions[i]) && states[i + 1] == Apply(c, states[i], actions[i])
    decreases |s.merger.todo|
  {
    if s.merger.todo == {} {
      assert Enabled(c, s, Scan);
      states, actions := [s, Apply(c, s, Scan)], [Scan];
    } else {
      var b :| b in s.merger.todo;
      var a := SkipPossible(c, s, b);
      var s' := Apply(c, s, a);
      SkipKeeps(c, s, b);
      StuckAfterSkip(c, s, b);
      var states', actions' := RescanReachable(c, s');
      states, actions := [s] + states', [a] + actions';
    }
  }

  /** Whoever holds the lock can go on, so a stuck pipeline has it free. */
  lemma {:induction false} LockIsFree(c: Config, s: State)
    requires c.Valid() && Inv(c, s) && Stuck(c, s)
    ensures s.LockFree()
  {
    if s.divider.Splitting? {
      var a := if s.divider.next < c.parts then CopyPart else Archive;
      OnlyPolling(c, s, a);
    } else if s.merger.Merging? {
      var a := if s.merger.next < c.parts then MergePart else Publish;
      assert SeenOk(c, s, Part(s.merger.batch, s.merger.next));
      OnlyPolling(c, s, a);
    }
  }

  lemma {:induction false} SkipPossible(c: Config, s: State, b: Batch) returns (a: Action)
    requires c.Valid() && Inv(c, s) && Stuck(c, s) && s.merger.Scanning? && b in s.merger.todo
    ensures a == Skip(b) && Enabled(c, s, a)
  {
    a := Skip(b);
    if AllSeen(c, s.merger.seen, b) {
      LockIsFree(c, s);
      OnlyPolling(c, s, Begin(b));
    }
  }

  lemma {:induction false} StuckAfterSkip(c: Config, s: State, b: Batch)
    requires c.Valid() && Stuck(c, s) && Enabled(c, s, Skip(b))
    ensures Stuck(c, Apply(c, s, Skip(b)))
  {
    var s' := Apply(c, s, Skip(b));
    forall a | Enabled(c, s', a)
      ensures IsIdle(a)
    {
      if !IsIdle(a) {
        assert Enabled(c, s, a);
      }
    }
  }

  /** Some listing of the set exists. */
  lemma {:induction false} Listing(all: set<Task>) returns (tasks: seq<Task>)
    ensures Enumerates(tasks, all)
    decreases |all|
  {
    if all == {} {
      tasks := [];
    } else {
      var t :| t in all;
      var rest := Listing(all - {t});
      tasks := rest + [t];
      assert forall i | 0 <= i < |rest| :: rest[i] in SetOf(rest);
      assert SetOf(tasks) == SetOf(rest) + {t};
    }
  }

  /** In a stuck pipeline the divider has nothing left and every worker is idle. */
  lemma {:induction false} NothingUpstream(c: Config, s: State)
    requires c.Valid() && Inv(c, s) && Stuck(c, s)
    ensures s.pending == map[] && s.incoming == map[] && s.queued == map[]
    ensures forall g | 0 <= g < |s.workers| :: s.workers[g].Idle?
  {
    LockIsFree(c, s);
    WorkersIdle(c, s);
    if b :| b in s.pending {
      OnlyPolling(c, s, Deliver(b));
    }
    if p :| p in s.queued {
      OnlyPolling(c, s, Claim(0, p));
    }
    if b :| b in s.incoming {
      if s.divider.Watching? {
        OnlyPolling(c, s, Choose(b));
      } else {
        var tasks := Listing(s.incoming[s.divider.batch]);
        OnlyPolling(c, s, Lock(tasks));
      }
    }
  }

  lemma {:induction false} WorkersIdle(c: Config, s: State)
    requires c.Valid() && Inv(c, s) && Stuck(c, s)
    ensures forall g | 0 <= g < |s.workers| :: s.workers[g].Idle?
  {
    LockIsFree(c, s);
    forall g: Gpu | g < |s.workers|
      ensures s.workers[g].Idle?
    {
      if !s.workers[g].Idle? {
        var p := s.workers[g].part;
        assert WorkerOk(s, g) && PartOk(c, s, p);
        var a := match s.workers[g]
          case Claimed(_) => Measure(g)
          case Measured(_) => Clear(g)
          case Cleared(_) => Sync(g)
          case _ => Deposit(g);
        OnlyPolling(c, s, a);
      }
    }
  }

  /** Then every batch that was listed afresh can be merged, so none is left. */
  lemma {:induction false} NothingLeft(c: Config, s: State, b: Batch)
    requires c.Valid() && Inv(c, s) && s.merger.Scanning? && Stuck(c, s) && Stuck(c, Rescanned(s))
    requires b in c.batches
    ensures b in s.measured
  {
    NothingUpstream(c, s);
    LockIsFree(c, s);
    assert BatchOk(c, s, b);
    if b !in s.measured {
      var s' := Rescanned(s);
      forall j | 0 <= j < c.parts
        ensures Part(b, j) in s.done
      {
        assert PartOk(c, s, Part(b, j));
      }
      assert Part(b, 0) in s.done;
      assert b in Starts(s.done);
      assert AllSeen(c, s'.merger.seen, b);
      OnlyPolling(c, s', Begin(b));
    }
  }

  /**
   When only polling is left, and a fresh look at the finished parts changes nothing, every
   batch has been published if and only if none of them was empty.
   */
  lemma {:induction false} AllPublishedIffNoneEmpty(c: Config, states: seq<State>, actions: seq<Action>)
    requires c.Valid() && IsRun(c, states, actions)
    requires var s := states[|actions|]; Stuck(c, s) && Stuck(c, Rescanned(s))
    ensures states[|actions|].measured == c.batches <==> forall b | b in c.batches :: c.batches[b] != {}
  {
    var s := states[|actions|];
    RunKeeps(c, states, actions, |actions|);
    forall b | b in s.measured
      ensures b in c.batches && s.measured[b] == c.batches[b] && c.batches[b] != {}
    {
      assert BatchOk(c, s, b);
    }
    if forall b | b in c.batches :: c.batches[b] != {} {
      LockIsFree(c, s);
      forall b | b in c.batches
        ensures b in s.measured
      {
        NothingLeft(c, s, b);
      }
    }
  }

  /** Then the merger has stopped if and only if some batch was empty. */
  lemma {:induction false} CrashedIffSomeEmpty(c: Config, states: seq<State>, actions: seq<Action>)
    requires c.Valid() && IsRun(c, states, actions)
    requires var s := states[|actions|]; Stuck(c, s) && Stuck(c, Rescanned(s))
    ensures states[|actions|].merger.Crashed? <==> exists b | b in c.batches :: c.batches[b] == {}
  {
    var s := states[|actions|];
    RunKeeps(c, states, actions, |actions|);
    if b :| b in c.batches && c.batches[b] == {} {
      assert BatchOk(c, s, b);
      LockIsFree(c, s);
      if s.merger.Scanning? {
        NothingLeft(c, s, b);
      }
    }
  }

  /** A merger that has stopped publishes nothing in the rest of the run. */
  lemma {:induction false} CrashedForever(c: Config, states: seq<State>, actions: seq<Action>, i: nat, j: nat)
    requires c.Valid() && IsRun(c, states, actions) && i <= j < |states|
    requires states[i].merger.Crashed?
    ensures states[j].merger == states[i].merger && states[j].measured == states[i].measured
    decreases j
  {
    if i < j {
      CrashedForever(c, states, actions, i, j - 1);
      CrashedStep(c, states[j - 1], actions[j - 1]);
    }
  }

  lemma CrashedStep(c: Config, s: State, a: Action)
    requires c.Valid() && Enabled(c, s, a) && s.merger.Crashed?
    ensures Apply(c, s, a).merger == s.merger && Apply(c, s, a).measured == s.measured
  {
    hide SliceSet, Starts, Moved, AllSeen, Enumerates;
  }

  /** An empty batch is never published, in any run, and no directory for its results is ever made. */
  lemma {:induction false} EmptyBatchNeverPublished(c: Config, states: seq<State>, actions: seq<Action>, i: nat, b: Batch)
    requires c.Valid() && IsRun(c, states, actions) && i < |states|
    requires b in c.batches && c.batches[b] == {}
    ensures b !in states[i].measured && b !in states[i].merged
  {
    var s := states[i];
    RunKeeps(c, states, actions, i);
    assert BatchOk(c, s, b);
    if b in s.order {
      NothingToMerge(s.order[b], c.parts, if s.merger.Merging? then s.merger.next else 0);
    }
  }

  lemma NothingToMerge(tasks: seq<Task>, n: nat, i: nat)
    requires n > 0 && Enumerates(tasks, {})
    ensures PrefixSet(tasks, n, i) == {}
  {
    assert forall k | 0 <= k < |tasks| :: tasks[k] in SetOf(tasks);
  }
}
