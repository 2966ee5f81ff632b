/**
 Every action of every process keeps the pipeline's invariant.
 */
module PipelineSafety {
  import opened Slicing
  import opened Pipeline

  lemma {:induction false} DeliverKeeps(c: Config, s: State, b: Batch)
    requires c.Valid() && Inv(c, s) && Enabled(c, s, Deliver(b))
    ensures Inv(c, Apply(c, s, Deliver(b)))
  {
    hide SliceSet, PrefixSet, Enumerates;
    var s' := Apply(c, s, Deliver(b));
    assert BatchOk(c, s, b);
    forall b' ensures BatchOk(c, s', b') { assert BatchOk(c, s, b'); }
    forall p ensures PartOk(c, s', p) { assert PartOk(c, s, p); }
    forall p ensures ContentOk(c, s', p) { assert ContentOk(c, s, p); }
    forall p ensures SeenOk(c, s', p) { assert SeenOk(c, s, p); }
    forall x ensures SlotOk(s', x) { assert SlotOk(s, x); }
    forall g' ensures WorkerOk(s', g') { assert WorkerOk(s, g'); }
  }

  lemma {:induction false} ChooseKeeps(c: Config, s: State, b: Batch)
    requires c.Valid() && Inv(c, s) && Enabled(c, s, Choose(b))
    ensures Inv(c, Apply(c, s, Choose(b)))
  {
    hide SliceSet, PrefixSet, Enumerates;
    var s' := Apply(c, s, Choose(b));
    assert BatchOk(c, s, b);
    forall b' ensures BatchOk(c, s', b') { assert BatchOk(c, s, b'); }
    forall p ensures PartOk(c, s', p) { assert PartOk(c, s, p); }
    forall p ensures ContentOk(c, s', p) { assert ContentOk(c, s, p); }
    forall p ensures SeenOk(c, s', p) { assert SeenOk(c, s, p); }
    forall x ensures SlotOk(s', x) { assert SlotOk(s, x); }
    forall g' ensures WorkerOk(s', g') { assert WorkerOk(s, g'); }
  }

  lemma {:induction false} LockKeeps(c: Config, s: State, tasks: seq<Task>)
    requires c.Valid() && Inv(c, s) && Enabled(c, s, Lock(tasks))
    ensures Inv(c, Apply(c, s, Lock(tasks)))
  {
    hide SliceSet, PrefixSet;
    var s' := Apply(c, s, Lock(tasks));
    var b := s.divider.batch;
    assert BatchOk(c, s, b);
    forall b' ensures BatchOk(c, s', b') { assert BatchOk(c, s, b'); }
    forall p ensures PartOk(c, s', p) { assert PartOk(c, s, p); }
    forall p ensures ContentOk(c, s', p) {
      assert ContentOk(c, s, p);
      assert PartOk(c, s, p);
      assert forall g :: SlotOk(s, Slot(g, p));
    }
    forall p ensures SeenOk(c, s', p) { assert SeenOk(c, s, p); }
    forall x ensures SlotOk(s', x) { assert SlotOk(s, x); }
    forall g' ensures WorkerOk(s', g') { assert WorkerOk(s, g'); }
  }

  lemma {:induction false} CopyPartKeeps(c: Config, s: State)
    requires c.Valid() && Inv(c, s) && Enabled(c, s, CopyPart)
    ensures Inv(c, Apply(c, s, CopyPart))
  {
    hide SliceSet, PrefixSet, Enumerates;
    var s' := Apply(c, s, CopyPart);
    var p0 := Part(s.divider.batch, s.divider.next);
    assert PartOk(c, s, p0);
    assert BatchOk(c, s, p0.batch);
    forall b' ensures BatchOk(c, s', b') { assert BatchOk(c, s, b'); }
    forall p ensures PartOk(c, s', p) { assert PartOk(c, s, p); }
    forall p ensures ContentOk(c, s', p) { assert ContentOk(c, s, p); }
    forall p ensures SeenOk(c, s', p) { assert SeenOk(c, s, p); }
    forall x ensures SlotOk(s', x) { assert SlotOk(s, x); }
    forall g' ensures WorkerOk(s', g') { assert WorkerOk(s, g'); }
  }

  lemma {:induction false} ArchiveKeeps(c: Config, s: State)
    requires c.Valid() && Inv(c, s) && Enabled(c, s, Archive)
    ensures Inv(c, Apply(c, s, Archive))
  {
    hide SliceSet, PrefixSet, Enumerates;
    var s' := Apply(c, s, Archive);
    assert BatchOk(c, s, s.divider.batch);
    forall b' ensures BatchOk(c, s', b') { assert BatchOk(c, s, b'); }
    forall p ensures PartOk(c, s', p) { assert PartOk(c, s, p); }
    forall p ensures ContentOk(c, s', p) { assert ContentOk(c, s, p); }
    forall p ensures SeenOk(c, s', p) { assert SeenOk(c, s, p); }
    forall x ensures SlotOk(s', x) { assert SlotOk(s, x); }
    forall g' ensures WorkerOk(s', g') { assert WorkerOk(s, g'); }
  }

  lemma {:induction false} ClaimKeepsPlaces(c: Config, s: State, g: Gpu, p0: Part)
    requires c.Valid() && Inv(c, s) && Enabled(c, s, Claim(g, p0))
    ensures forall p :: PartOk(c, Apply(c, s, Claim(g, p0)), p)
  {
    hide SliceSet, PrefixSet, Enumerates, BatchOk, ContentOk, SeenOk;
    var s' := Apply(c, s, Claim(g, p0));
    assert PartOk(c, s, p0);
    forall p ensures PartOk(c, s', p) { assert PartOk(c, s, p); }
  }

  lemma {:induction false} ClaimKeepsContents(c: Config, s: State, g: Gpu, p0: Part)
    requires c.Valid() && Inv(c, s) && Enabled(c, s, Claim(g, p0))
    ensures forall p :: ContentOk(c, Apply(c, s, Claim(g, p0)), p) && SeenOk(c, Apply(c, s, Claim(g, p0)), p)
  {
    hide SliceSet, PrefixSet, Enumerates, BatchOk;
    var s' := Apply(c, s, Claim(g, p0));
    assert PartOk(c, s, p0) && ContentOk(c, s, p0);
    hide PartOk;
    forall p ensures ContentOk(c, s', p) { assert ContentOk(c, s, p); }
    forall p ensures SeenOk(c, s', p) { assert SeenOk(c, s, p); }
  }

  lemma {:induction false} ClaimKeeps(c: Config, s: State, g: Gpu, p0: Part)
    requires c.Valid() && Inv(c, s) && Enabled(c, s, Claim(g, p0))
    ensures Inv(c, Apply(c, s, Claim(g, p0)))
  {
    hide SliceSet, PrefixSet, Enumerates;
    var s' := Apply(c, s, Claim(g, p0));
    ClaimKeepsPlaces(c, s, g, p0);
    ClaimKeepsContents(c, s, g, p0);
    assert PartOk(c, s, p0) && ContentOk(c, s, p0);
    hide PartOk, ContentOk, SeenOk;
    forall b' ensures BatchOk(c, s', b') { assert BatchOk(c, s, b'); }
    forall x ensures SlotOk(s', x) { assert SlotOk(s, x); }
    forall g' ensures WorkerOk(s', g') { assert WorkerOk(s, g'); }
  }

  lemma {:induction false} MeasureKeeps(c: Config, s: State, g: Gpu)
    requires c.Valid() && Inv(c, s) && Enabled(c, s, Measure(g))
    ensures Inv(c, Apply(c, s, Measure(g)))
  {
    hide SliceSet, PrefixSet, Enumerates;
    var s' := Apply(c, s, Measure(g));
    assert WorkerOk(s, g);
    assert PartOk(c, s, s.workers[g].part);
    forall b' ensures BatchOk(c, s', b') { assert BatchOk(c, s, b'); }
    forall p ensures PartOk(c, s', p) { assert PartOk(c, s, p); }
    forall p ensures ContentOk(c, s', p) { assert ContentOk(c, s, p); }
    forall p ensures SeenOk(c, s', p) { assert SeenOk(c, s, p); }
    forall x ensures SlotOk(s', x) { assert SlotOk(s, x); }
    forall g' ensures WorkerOk(s', g') { assert WorkerOk(s, g'); }
  }

  lemma {:induction false} ClearKeeps(c: Config, s: State, g: Gpu)
    requires c.Valid() && Inv(c, s) && Enabled(c, s, Clear(g))
    ensures Inv(c, Apply(c, s, Clear(g)))
  {
    hide SliceSet, PrefixSet, Enumerates;
    var s' := Apply(c, s, Clear(g));
    assert WorkerOk(s, g);
    forall b' ensures BatchOk(c, s', b') { assert BatchOk(c, s, b'); }
    forall p ensures PartOk(c, s', p) { assert PartOk(c, s, p); }
    forall p ensures ContentOk(c, s', p) { assert ContentOk(c, s, p); }
    forall p ensures SeenOk(c, s', p) { assert SeenOk(c, s, p); }
    forall x ensures SlotOk(s', x) { assert SlotOk(s, x); }
    forall g' ensures WorkerOk(s', g') { assert WorkerOk(s, g'); }
  }

  lemma {:induction false} SyncKeeps(c: Config, s: State, g: Gpu)
    requires c.Valid() && Inv(c, s) && Enabled(c, s, Sync(g))
    ensures Inv(c, Apply(c, s, Sync(g)))
  {
    hide SliceSet, PrefixSet, Enumerates;
    var s' := Apply(c, s, Sync(g));
    assert WorkerOk(s, g);
    forall b' ensures BatchOk(c, s', b') { assert BatchOk(c, s, b'); }
    forall p ensures PartOk(c, s', p) { assert PartOk(c, s, p); }
    forall p ensures ContentOk(c, s', p) { assert ContentOk(c, s, p); }
    forall p ensures SeenOk(c, s', p) { assert SeenOk(c, s, p); }
    forall x ensures SlotOk(s', x) { assert SlotOk(s, x); }
    forall g' ensures WorkerOk(s', g') { assert WorkerOk(s, g'); }
  }

  lemma DepositKeepsPlace(c: Config, s: State, g: Gpu, p: Part)
    requires c.Valid() && Enabled(c, s, Deposit(g)) && WorkerOk(s, g)
    requires PartOk(c, s, s.workers[g].part) && PartOk(c, s, p)
    ensures PartOk(c, Apply(c, s, Deposit(g)), p)
  {
  }

  lemma {:induction false} DepositKeepsPlaces(c: Config, s: State, g: Gpu)
    requires c.Valid() && Inv(c, s) && Enabled(c, s, Deposit(g))
    ensures forall p :: PartOk(c, Apply(c, s, Deposit(g)), p)
  {
    hide PartOk, BatchOk, ContentOk, SeenOk, SlotOk, ProcessesOk, Apply;
    assert WorkerOk(s, g) && PartOk(c, s, s.workers[g].part);
    forall p ensures PartOk(c, Apply(c, s, Deposit(g)), p) {
      DepositKeepsPlace(c, s, g, p);
    }
  }

  lemma {:induction false} DepositKeepsContents(c: Config, s: State, g: Gpu)
    requires c.Valid() && Inv(c, s) && Enabled(c, s, Deposit(g))
    ensures forall p :: ContentOk(c, Apply(c, s, Deposit(g)), p) && SeenOk(c, Apply(c, s, Deposit(g)), p)
  {
    hide SliceSet, PrefixSet, Enumerates, BatchOk, SlotOk;
    var s' := Apply(c, s, Deposit(g));
    assert WorkerOk(s, g) && PartOk(c, s, s.workers[g].part);
    hide PartOk;
    forall p ensures ContentOk(c, s', p) { assert ContentOk(c, s, p); }
    forall p ensures SeenOk(c, s', p) { assert SeenOk(c, s, p); }
  }

  lemma {:induction false} DepositKeeps(c: Config, s: State, g: Gpu)
    requires c.Valid() && Inv(c, s) && Enabled(c, s, Deposit(g))
    ensures Inv(c, Apply(c, s, Deposit(g)))
  {
    hide SliceSet, PrefixSet, Enumerates;
    var s' := Apply(c, s, Deposit(g));
    DepositKeepsPlaces(c, s, g);
    DepositKeepsContents(c, s, g);
    assert WorkerOk(s, g) && PartOk(c, s, s.workers[g].part);
    hide PartOk, ContentOk, SeenOk;
    forall b' ensures BatchOk(c, s', b') { assert BatchOk(c, s, b'); }
    forall x ensures SlotOk(s', x) { assert SlotOk(s, x); }
    forall g' ensures WorkerOk(s', g') { assert WorkerOk(s, g'); }
  }

  lemma {:induction false} ScanKeeps(c: Config, s: State)
    requires c.Valid() && Inv(c, s) && Enabled(c, s, Scan)
    ensures Inv(c, Apply(c, s, Scan))
  {
    hide SliceSet, PrefixSet, Enumerates, Starts;
    var s' := Apply(c, s, Scan);
    forall b' ensures BatchOk(c, s', b') { assert BatchOk(c, s, b'); }
    forall p ensures PartOk(c, s', p) { assert PartOk(c, s, p); }
    forall p ensures ContentOk(c, s', p) { assert ContentOk(c, s, p); }
    forall p ensures SeenOk(c, s', p) { assert SeenOk(c, s, p); }
    forall x ensures SlotOk(s', x) { assert SlotOk(s, x); }
    forall g' ensures WorkerOk(s', g') { assert WorkerOk(s, g'); }
  }

  lemma {:induction false} SkipKeeps(c: Config, s: State, b: Batch)
    requires c.Valid() && Inv(c, s) && Enabled(c, s, Skip(b))
    ensures Inv(c, Apply(c, s, Skip(b)))
  {
    hide SliceSet, PrefixSet, Enumerates, AllSeen;
    var s' := Apply(c, s, Skip(b));
    forall b' ensures BatchOk(c, s', b') { assert BatchOk(c, s, b'); }
    forall p ensures PartOk(c, s', p) { assert PartOk(c, s, p); }
    forall p ensures ContentOk(c, s', p) { assert ContentOk(c, s, p); }
    forall p ensures SeenOk(c, s', p) { assert SeenOk(c, s, p); }
    forall x ensures SlotOk(s', x) { assert SlotOk(s, x); }
    forall g' ensures WorkerOk(s', g') { assert WorkerOk(s, g'); }
  }

  lemma {:induction false} BeginKeeps(c: Config, s: State, b: Batch)
    requires c.Valid() && Inv(c, s) && Enabled(c, s, Begin(b))
    ensures Inv(c, Apply(c, s, Begin(b)))
  {
    hide SliceSet, Enumerates;
    var s' := Apply(c, s, Begin(b));
    assert Part(b, 0) in s.merger.seen;
    assert SeenOk(c, s, Part(b, 0)) && PartOk(c, s, Part(b, 0)) && BatchOk(c, s, b);
    PrefixEnds(s.order[b], c.parts);
    forall b' ensures BatchOk(c, s', b') { assert BatchOk(c, s, b'); }
    forall p ensures PartOk(c, s', p) { assert PartOk(c, s, p); }
    forall p ensures ContentOk(c, s', p) { assert ContentOk(c, s, p); }
    forall p ensures SeenOk(c, s', p) { assert SeenOk(c, s, p); }
    forall x ensures SlotOk(s', x) { assert SlotOk(s, x); }
    forall g' ensures WorkerOk(s', g') { assert WorkerOk(s, g'); }
  }

  lemma {:induction false} MergePartKeeps(c: Config, s: State)
    requires c.Valid() && Inv(c, s) && Enabled(c, s, MergePart)
    ensures Inv(c, Apply(c, s, MergePart))
  {
    hide SliceSet, Enumerates, PrefixSet;
    var s' := Apply(c, s, MergePart);
    var p0 := Part(s.merger.batch, s.merger.next);
    assert ContentOk(c, s, p0) && PartOk(c, s, p0);
    PrefixGrows(s.order[p0.batch], c.parts, p0.index);
    forall b' ensures BatchOk(c, s', b') { assert BatchOk(c, s, b'); }
    forall p ensures PartOk(c, s', p) { assert PartOk(c, s, p); }
    forall p ensures ContentOk(c, s', p) { assert ContentOk(c, s, p); }
    forall p ensures SeenOk(c, s', p) { assert SeenOk(c, s, p); }
    forall x ensures SlotOk(s', x) { assert SlotOk(s, x); }
    forall g' ensures WorkerOk(s', g') { assert WorkerOk(s, g'); }
  }

  /** The state after a batch is published. */
  ghost function Published(s: State): State
    requires s.merger.Merging? && s.merger.batch in s.merged
  {
    var Merging(b, _, seen, todo) := s.merger;
    s.(measured := s.measured[b := s.merged[b]], merged := s.merged - {b}, merger := Scanning(seen, todo))
  }

  lemma {:induction false} PublishedKeeps(c: Config, s: State)
    requires c.Valid() && Inv(c, s) && s.merger.Merging? && s.merger.next == c.parts && s.merger.batch in s.merged
    ensures Inv(c, Published(s))
  {
    var s' := Published(s);
    MergeComplete(c, s);
    assert BatchOk(c, s, s.merger.batch);
    hide MergedOk, Enumerates, SliceSet, PrefixSet;
    forall b' ensures BatchOk(c, s', b') { assert BatchOk(c, s, b'); }
    forall p ensures PartOk(c, s', p) { assert PartOk(c, s, p); }
    forall p ensures ContentOk(c, s', p) { assert ContentOk(c, s, p); }
    forall p ensures SeenOk(c, s', p) { assert SeenOk(c, s, p); }
    forall x ensures SlotOk(s', x) { assert SlotOk(s, x); }
    forall g' ensures WorkerOk(s', g') { assert WorkerOk(s, g'); }
  }

  lemma {:induction false} CrashKeeps(c: Config, s: State)
    requires c.Valid() && Inv(c, s) && s.merger.Merging? && s.merger.next == c.parts && s.merger.batch !in s.merged
    ensures Inv(c, s.(merger := Crashed(s.merger.batch)))
  {
    var s' := s.(merger := Crashed(s.merger.batch));
    MergeComplete(c, s);
    hide MergedOk, Enumerates, SliceSet, PrefixSet;
    forall b' ensures BatchOk(c, s', b') { assert BatchOk(c, s, b'); }
    forall p ensures PartOk(c, s', p) { assert PartOk(c, s, p); }
    forall p ensures ContentOk(c, s', p) { assert ContentOk(c, s, p); }
    forall p ensures SeenOk(c, s', p) { assert SeenOk(c, s, p); }
    forall x ensures SlotOk(s', x) { assert SlotOk(s, x); }
    forall g' ensures WorkerOk(s', g') { assert WorkerOk(s, g'); }
  }

  lemma {:induction false} PublishKeeps(c: Config, s: State)
    requires c.Valid() && Inv(c, s) && Enabled(c, s, Publish)
    ensures Inv(c, Apply(c, s, Publish))
  {
    hide Inv;
    if s.merger.batch in s.merged {
      PublishedKeeps(c, s);
    } else {
      CrashKeeps(c, s);
    }
  }

  /** After the last part the merged directory is the whole batch, or was never created. */
  lemma {:induction false} MergeComplete(c: Config, s: State)
    requires c.Valid() && Inv(c, s) && s.merger.Merging? && s.merger.next == c.parts
    ensures var b := s.merger.batch;
            b in c.batches && if b in s.merged then s.merged[b] == c.batches[b] && c.batches[b] != {} else c.batches[b] == {}
  {
    var b := s.merger.batch;
    PrefixEnds(s.order[b], c.parts);
    assert BatchOk(c, s, b);
  }

  /** Every action keeps the invariant, whichever process takes it. */
  lemma InvStep(c: Config, s: State, a: Action)
    requires c.Valid() && Inv(c, s) && Enabled(c, s, a)
    ensures Inv(c, Apply(c, s, a))
  {
    hide Inv, Enabled, Apply;
    match a {
      case Deliver(b) => DeliverKeeps(c, s, b);
      case Choose(b) => ChooseKeeps(c, s, b);
      case Lock(tasks) => LockKeeps(c, s, tasks);
      case CopyPart => CopyPartKeeps(c, s);
      case Archive => ArchiveKeeps(c, s);
      case Claim(g, p) => ClaimKeeps(c, s, g, p);
      case Measure(g) => MeasureKeeps(c, s, g);
      case Clear(g) => ClearKeeps(c, s, g);
      case Sync(g) => SyncKeeps(c, s, g);
      case Deposit(g) => DepositKeeps(c, s, g);
      case Scan => ScanKeeps(c, s);
      case Skip(b) => SkipKeeps(c, s, b);
      case Begin(b) => BeginKeeps(c, s, b);
      case MergePart => MergePartKeeps(c, s);
      case Publish => PublishKeeps(c, s);
    }
  }

  // ---------------------------------------------------------------- runs

  /** A run: each state follows from the one before it by the action between them. */
  ghost predicate IsRun(c: Config, states: seq<State>, actions: seq<Action>)
    requires c.Valid()
  {
    && |states| == |actions| + 1
    && states[0] == Initial(c)
    && forall i | 0 <= i < |actions| ::
         Enabled(c, states[i], actions[i]) && states[i + 1] == Apply(c, states[i], actions[i])
  }

  /** Every state of every run satisfies the invariant. */
  lemma {:induction false} RunKeeps(c: Config, states: seq<State>, actions: seq<Action>, i: nat)
    requires c.Valid() && IsRun(c, states, actions) && i < |states|
    ensures Inv(c, states[i])
  {
    hide Inv, Enabled, Apply;
    if i == 0 {
      InvInitial(c);
    } else {
      RunKeeps(c, states, actions, i - 1);
      InvStep(c, states[i - 1], actions[i - 1]);
    }
  }
}
