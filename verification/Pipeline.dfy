/**
 The measurement pipeline: a divider, GPU workers and a merger that hand batches of tasks from
 directory to directory. Each action below is one file-system operation of one process, so a
 run is any interleaving of them.
 */
module Pipeline {
  import opened Prelude
  import opened Slicing

  type Batch = string
  type Task = string
  type Gpu = nat

  /** Directory `<batch>_part_<index>`. */
  datatype Part = Part(batch: Batch, index: nat)

  /** A part in the private directory of a GPU. */
  datatype Slot = Slot(gpu: Gpu, part: Part)

  datatype Divider =
    | Watching
    | Chosen(batch: Batch)                              // listed, waiting for the lock
    | Splitting(batch: Batch, next: nat)                // holds the lock

  /** A worker, by the last thing it did to its part. */
  datatype Worker =
    | Idle
    | Claimed(part: Part)                               // input moved to the private directory
    | Measured(part: Part)                              // results written to measured_tmp
    | Cleared(part: Part)                               // input removed
    | Ready(part: Part)                                 // been through the lock
  {
    predicate Has(p: Part) {
      !Idle? && part == p
    }

    /** Is the input directory still there? */
    predicate Input() {
      Claimed? || Measured?
    }

    /** Is the results directory there? */
    predicate Output() {
      Measured? || Cleared? || Ready?
    }
  }

  datatype Merger =
    | Scanning(seen: set<Part>, todo: set<Batch>)       // looping over a listing of measured_part
    | Merging(batch: Batch, next: nat, seen: set<Part>, todo: set<Batch>) // holds the lock
    | Crashed(batch: Batch)                             // the merged directory never came to exist

  /** How many parts a batch is divided into, how many workers there are, and all batches ever sent. */
  datatype Config = Config(parts: nat, gpus: nat, batches: map<Batch, set<Task>>) {
    ghost predicate Valid() {
      parts > 0 && gpus > 0
    }
  }

  /**
   The directories, the processes, and two records of the past: the order in which the divider
   listed a batch, and which worker took a part.
   */
  datatype State = State(
    pending: map<Batch, set<Task>>,       // not delivered yet
    incoming: map<Batch, set<Task>>,      // to_measure/<batch>
    queued: map<Part, set<Task>>,         // to_measure/<part>
    claimed: map<Slot, set<Task>>,        // to_measure_<gpu>/<part>
    tmp: map<Part, set<Task>>,            // measured_tmp/<part>
    done: map<Part, set<Task>>,           // measured_part/<part>
    merged: map<Batch, set<Task>>,        // measured_part/<batch>
    measured: map<Batch, set<Task>>,      // measured/<batch>
    divider: Divider,
    workers: seq<Worker>,
    merger: Merger,
    order: map<Batch, seq<Task>>,
    holder: map<Part, Gpu>
  ) {
    predicate LockFree() {
      !divider.Splitting? && !merger.Merging?
    }
  }

  datatype Action =
    | Deliver(b: Batch)
    | Choose(b: Batch)
    | Lock(tasks: seq<Task>)
    | CopyPart
    | Archive
    | Claim(g: Gpu, p: Part)
    | Measure(g: Gpu)
    | Clear(g: Gpu)
    | Sync(g: Gpu)
    | Deposit(g: Gpu)
    | Scan
    | Skip(b: Batch)
    | Begin(b: Batch)
    | MergePart
    | Publish

  /** Polling: looking at a directory and finding nothing to do. */
  predicate IsIdle(a: Action) {
    a.Scan? || a.Skip?
  }

  function Initial(c: Config): State {
    State(c.batches, map[], map[], map[], map[], map[], map[], map[],
          Watching, seq(c.gpus, _ => Idle), Scanning({}, {}), map[], map[])
  }

  ghost predicate Enumerates(tasks: seq<Task>, all: set<Task>) {
    Distinct(tasks) && SetOf(tasks) == all
  }

  ghost predicate Enabled(c: Config, s: State, a: Action) {
    match a
    case Deliver(b) => b in s.pending
    case Choose(b) => s.divider.Watching? && b in s.incoming
    case Lock(tasks) => s.divider.Chosen? && s.LockFree()
                        && s.divider.batch in s.incoming && Enumerates(tasks, s.incoming[s.divider.batch])
    case CopyPart => s.divider.Splitting? && s.divider.next < c.parts && s.divider.batch in s.order
    case Archive => s.divider.Splitting? && s.divider.next == c.parts
    case Claim(g, p) => g < |s.workers| && s.workers[g].Idle? && s.LockFree() && p in s.queued
    case Measure(g) => g < |s.workers| && s.workers[g].Claimed? && Slot(g, s.workers[g].part) in s.claimed
    case Clear(g) => g < |s.workers| && s.workers[g].Measured?
    case Sync(g) => g < |s.workers| && s.workers[g].Cleared? && s.LockFree()
    case Deposit(g) => g < |s.workers| && s.workers[g].Ready? && s.workers[g].part in s.tmp
    case Scan => s.merger.Scanning? && s.merger.todo == {}
    case Skip(b) => s.merger.Scanning? && b in s.merger.todo && !AllSeen(c, s.merger.seen, b)
    case Begin(b) => s.merger.Scanning? && b in s.merger.todo && AllSeen(c, s.merger.seen, b) && s.LockFree()
    case MergePart => s.merger.Merging? && s.merger.next < c.parts && Part(s.merger.batch, s.merger.next) in s.done
    case Publish => s.merger.Merging? && s.merger.next == c.parts
  }

  /** All parts of the batch were in the listing. */
  ghost predicate AllSeen(c: Config, seen: set<Part>, b: Batch) {
    forall j | 0 <= j < c.parts :: Part(b, j) in seen
  }

  /** The batches whose part 0 is in a listing. */
  function Starts(done: map<Part, set<Task>>): set<Batch> {
    set p | p in done && p.index == 0 :: p.batch
  }

  ghost function Apply(c: Config, s: State, a: Action): State
    requires c.Valid() && Enabled(c, s, a)
  {
    match a
    case Deliver(b) => s.(pending := s.pending - {b}, incoming := s.incoming[b := s.pending[b]])
    case Choose(b) => s.(divider := Chosen(b))
    case Lock(tasks) => s.(divider := Splitting(s.divider.batch, 0), order := s.order[s.divider.batch := tasks])
    case CopyPart =>
      var Splitting(b, i) := s.divider;
      s.(queued := s.queued[Part(b, i) := SliceSet(s.order[b], c.parts, i)], divider := Splitting(b, i + 1))
    case Archive => s.(incoming := s.incoming - {s.divider.batch}, divider := Watching)
    case Claim(g, p) =>
      s.(queued := s.queued - {p}, claimed := s.claimed[Slot(g, p) := s.queued[p]],
         workers := s.workers[g := Claimed(p)], holder := s.holder[p := g])
    case Measure(g) =>
      var p := s.workers[g].part;
      s.(tmp := s.tmp[p := s.claimed[Slot(g, p)]], workers := s.workers[g := Measured(p)])
    case Clear(g) =>
      var p := s.workers[g].part;
      s.(claimed := s.claimed - {Slot(g, p)}, workers := s.workers[g := Cleared(p)])
    case Sync(g) => s.(workers := s.workers[g := Ready(s.workers[g].part)])
    case Deposit(g) =>
      var p := s.workers[g].part;
      s.(done := s.done[p := s.tmp[p]], tmp := s.tmp - {p}, workers := s.workers[g := Idle], holder := s.holder - {p})
    case Scan => s.(merger := Scanning(s.done.Keys, Starts(s.done)))
    case Skip(b) => s.(merger := Scanning(s.merger.seen, s.merger.todo - {b}))
    case Begin(b) => s.(merger := Merging(b, 0, s.merger.seen, s.merger.todo - {b}))
    case MergePart =>
      var Merging(b, i, seen, todo) := s.merger;
      var p := Part(b, i);
      s.(done := s.done - {p}, merged := Moved(s.merged, b, s.done[p]), merger := Merging(b, i + 1, seen, todo))
    case Publish =>
      var Merging(b, _, seen, todo) := s.merger;
      if b in s.merged
      then s.(measured := s.measured[b := s.merged[b]], merged := s.merged - {b}, merger := Scanning(seen, todo))
      else s.(merger := Crashed(b))
  }

  /** Moving tasks one by one creates the target directory with the first of them. */
  function Moved(merged: map<Batch, set<Task>>, b: Batch, tasks: set<Task>): map<Batch, set<Task>> {
    if tasks == {} then merged
    else if b in merged then merged[b := merged[b] + tasks]
    else merged[b := tasks]
  }

  // ---------------------------------------------------------------- the invariant

  /** Should a directory for this part exist somewhere? */
  ghost predicate Expected(c: Config, s: State, p: Part) {
    && p.batch in s.order && p.index < c.parts
    && (s.divider.Splitting? && s.divider.batch == p.batch ==> p.index < s.divider.next)
    && (s.merger.Merging? && s.merger.batch == p.batch ==> s.merger.next <= p.index)
    && p.batch !in s.measured
    && !(s.merger.Crashed? && s.merger.batch == p.batch)
  }

  ghost predicate Holds(s: State, p: Part)
  {
    p in s.holder && s.holder[p] < |s.workers| && s.workers[s.holder[p]].Has(p)
  }

  /** The part is in exactly one place, with exactly its slice of the batch. */
  ghost predicate PartOk(c: Config, s: State, p: Part)
    requires c.Valid()
  {
    && (p in s.queued ==> p !in s.holder && p !in s.done)
    && (p in s.holder ==> p !in s.done && Holds(s, p))
    && (Expected(c, s, p) <==> p in s.queued || p in s.holder || p in s.done)
    && (p in s.tmp ==> p in s.holder)
    && (s.divider.Splitting? && s.divider.batch == p.batch ==> p !in s.holder && p !in s.done)
    && (p in s.holder && Holds(s, p) ==>
          var g := s.holder[p];
          && (Slot(g, p) in s.claimed <==> s.workers[g].Input())
          && (p in s.tmp <==> s.workers[g].Output()))
  }

  ghost predicate ContentOk(c: Config, s: State, p: Part)
    requires c.Valid()
  {
    p.batch in s.order ==>
      var all := SliceSet(s.order[p.batch], c.parts, p.index);
      && (p in s.queued ==> s.queued[p] == all)
      && (p in s.tmp ==> s.tmp[p] == all)
      && (p in s.done ==> s.done[p] == all)
      && (forall g | Slot(g, p) in s.claimed :: s.claimed[Slot(g, p)] == all)
  }

  ghost predicate SlotOk(s: State, x: Slot) {
    x in s.claimed ==> x.part in s.holder && s.holder[x.part] == x.gpu && x.gpu < |s.workers|
                       && s.workers[x.gpu].Has(x.part) && s.workers[x.gpu].Input()
  }

  ghost predicate WorkerOk(s: State, g: Gpu) {
    g < |s.workers| && !s.workers[g].Idle? ==>
      s.workers[g].part in s.holder && s.holder[s.workers[g].part] == g
  }

  /** Listed parts of batches still to be visited have not moved, nor have parts still to be merged. */
  ghost predicate SeenOk(c: Config, s: State, p: Part) {
    && (s.merger.Scanning? || s.merger.Merging? ==>
          (p in s.merger.seen && p.batch in s.merger.todo ==> p in s.done))
    && (s.merger.Merging? && p.batch == s.merger.batch && s.merger.next <= p.index < c.parts ==> p in s.done)
  }

  ghost predicate BatchOk(c: Config, s: State, b: Batch)
    requires c.Valid()
  {
    && (b in s.pending ==> b in c.batches && s.pending[b] == c.batches[b] && b !in s.incoming && b !in s.order)
    && (b in s.incoming ==> b in c.batches && s.incoming[b] == c.batches[b] && b !in s.measured)
    && (b in s.order ==> b in c.batches && Enumerates(s.order[b], c.batches[b]))
    && (b in s.order && b in s.incoming ==> s.divider.Splitting? && s.divider.batch == b)
    && (b in s.measured ==> b in s.order && b !in s.incoming && s.measured[b] == c.batches[b] && c.batches[b] != {})
    && (b in s.merged ==> s.merger.Merging? && s.merger.batch == b)
    && (b in c.batches ==> b in s.pending || b in s.incoming || b in s.order)
  }

  ghost predicate ProcessesOk(c: Config, s: State)
    requires c.Valid()
  {
    && |s.workers| == c.gpus
    && !(s.divider.Splitting? && s.merger.Merging?)
    && (s.divider.Chosen? ==> s.divider.batch in s.incoming && s.divider.batch !in s.order)
    && (s.divider.Splitting? ==> s.divider.batch in s.incoming && s.divider.batch in s.order && s.divider.next <= c.parts)
    && (s.merger.Merging? ==>
          && s.merger.batch in s.order && s.merger.batch !in s.incoming && s.merger.batch !in s.measured
          && s.merger.batch !in s.merger.todo && s.merger.next <= c.parts
          && MergedOk(c, s, s.merger.batch, s.merger.next))
    && (s.merger.Crashed? ==>
          && s.merger.batch in s.order && s.merger.batch !in s.incoming && s.merger.batch !in s.measured
          && s.merger.batch in c.batches && c.batches[s.merger.batch] == {})
  }

  /** The directory being merged holds exactly the parts merged so far. */
  ghost predicate MergedOk(c: Config, s: State, b: Batch, i: nat)
    requires c.Valid() && b in s.order
  {
    var sofar := PrefixSet(s.order[b], c.parts, i);
    && (b in s.merged <==> sofar != {})
    && (b in s.merged ==> s.merged[b] == sofar)
    && b in c.batches
  }

  ghost predicate Inv(c: Config, s: State)
    requires c.Valid()
  {
    && ProcessesOk(c, s)
    && (forall b :: BatchOk(c, s, b))
    && (forall p :: PartOk(c, s, p))
    && (forall p :: ContentOk(c, s, p))
    && (forall p :: SeenOk(c, s, p))
    && (forall x :: SlotOk(s, x))
    && (forall g :: WorkerOk(s, g))
  }

  lemma InvInitial(c: Config)
    requires c.Valid()
    ensures Inv(c, Initial(c))
  {
  }
}
