/**
 The tuning-budget scheduler. Histories are lists shared between models and rewritten in
 place, so each is an object.
 */
module Scheduler {
  import opened Latency
  import opened Selection

  class History {
    var entries: seq<real>

    constructor (entries: seq<real>)
      ensures this.entries == entries
    {
      this.entries := entries;
    }

    /** Running minimum and zero padding in place, then the fall across the last `w` entries. */
    method Round(w: nat) returns (score: real)
      requires w > 0
      modifies this
      ensures entries == Process(old(entries), w)
      ensures score == Score(old(entries), w)
    {
      Smooth();
      PadTo(w);
      var view := Last(entries, w);
      score := view[0] - Least(view);
    }

    method Smooth()
      modifies this
      ensures entries == RunMin(old(entries))
    {
      var i := 1;
      while i < |entries|
        invariant |entries| == |old(entries)|
        invariant 1 <= i && (entries == [] || i <= |entries|)
        invariant entries != [] ==> entries[..i] == RunMin(old(entries)[..i]) && entries[i..] == old(entries)[i..]
      {
        assert old(entries)[..i + 1][..i] == old(entries)[..i];
        assert entries[i - 1] == entries[..i][i - 1] && entries[i] == entries[i..][0];
        var before := entries;
        entries := entries[i := Min(entries[i], entries[i - 1])];
        assert entries[..i + 1] == before[..i] + [entries[i]];
        assert entries[i + 1..] == before[i..][1..] == old(entries)[i..][1..];
        i := i + 1;
      }
      assert entries != [] ==> entries[..i] == entries && old(entries)[..i] == old(entries);
    }

    method PadTo(w: nat)
      modifies this
      ensures entries == Pad(old(entries), w)
    {
      while |entries| < w
        invariant |old(entries)| <= |entries| && (|old(entries)| < w ==> |entries| <= w)
        invariant |entries| > |old(entries)| ==> |entries| <= w
        invariant entries == old(entries) + Zeros(|entries| - |old(entries)|)
      {
        entries := entries + [0.0];
      }
    }
  }

  datatype Task = Task(key: Key, history: History, weight: real)

  datatype Model = Model(tasks: seq<Task>, times: int)

  ghost function Histories(tasks: seq<Task>): set<History> {
    set t | t in tasks :: t.history
  }

  /** One entry per key: within a model each task has a history of its own. */
  ghost predicate Separate(tasks: seq<Task>) {
    forall i, j | 0 <= i < j < |tasks| ::
      tasks[i].key != tasks[j].key && tasks[i].history != tasks[j].history
  }

  ghost predicate AllNonNegative(hs: set<History>)
    reads hs
  {
    forall h | h in hs :: NonNegative(h.entries)
  }

  ghost predicate AllGood(hs: set<History>)
    reads hs
  {
    forall h | h in hs :: Good(h.entries)
  }

  /** `math.ceil(n / 4)` */
  function Quarter(n: nat): nat {
    (n + 3) / 4
  }

  /** How many tasks a model may select: a quarter of them, within what is left of 20000 trials. */
  function Want(n: nat, times: int): int {
    var quarter := Quarter(n);
    var afford := (20000 - times - quarter * 2 * 64) / 64;
    if quarter <= afford then quarter else afford
  }

  /**
   With `q` the quarter rounded up: the wanted number is the greatest one that is at most `q`
   and, with 64 trials for each and 128 for each of `q`, stays within 20000.
   */
  lemma WantIsGreatest(n: nat, times: int, q: nat, w: int)
    requires n <= 4 * q < n + 4
    ensures w <= Want(n, times) <==> w <= q && times + 64 * w + 128 * q <= 20000
  {
    assert q == Quarter(n);
    FloorBy64(20000 - times - 128 * q, w);
  }

  lemma FloorBy64(a: int, w: int)
    ensures w <= a / 64 <==> 64 * w <= a
  {
  }

  function Weighted(score: real, weight: real): real {
    score * weight
  }

  /** How much a history fell over its last `w` places, times the weight of its task. */
  ghost function WeightedFall(t: Task, h: seq<real>, w: nat): real
    requires w > 0
  {
    Fall(h, w) * t.weight
  }

  /** One task's entry in `weight_score_dic`. */
  function Weigh(t: Task, history: seq<real>, w: nat): (r: Scored)
    requires w > 0
    ensures r.key == t.key
  {
    Scored(t.key, Weighted(Score(history, w), t.weight))
  }

  lemma WeighMeans(t: Task, h: seq<real>, w: nat)
    requires NonNegative(h) && w > 0
    ensures Weigh(t, h, w) == Scored(t.key, WeightedFall(t, h, w))
  {
    hide Score, Fall;
    ScoreMeans(h, w);
  }

  /** The weighted scores of a model's tasks at window `w`, from histories `hs`. */
  ghost function Scores(tasks: seq<Task>, hs: seq<seq<real>>, w: nat): (r: seq<Scored>)
    requires |hs| == |tasks| && w > 0
    ensures |r| == |tasks|
    ensures forall i | 0 <= i < |tasks| :: r[i] == Weigh(tasks[i], hs[i], w)
  {
    hide Weigh;
    seq(|tasks|, i requires 0 <= i < |tasks| => Weigh(tasks[i], hs[i], w))
  }

  /** The current contents of the histories. */
  ghost function Contents(tasks: seq<Task>): (r: seq<seq<real>>)
    reads Histories(tasks)
    ensures |r| == |tasks| && forall i | 0 <= i < |tasks| :: r[i] == tasks[i].history.entries
  {
    seq(|tasks|, i requires 0 <= i < |tasks| reads Histories(tasks) =>
      (assert tasks[i] in tasks; tasks[i].history.entries))
  }

  method ScoreAll(tasks: seq<Task>, w: nat) returns (scores: seq<Scored>)
    requires w > 0 && Separate(tasks)
    modifies Histories(tasks)
    ensures scores == Scores(tasks, old(Contents(tasks)), w)
    ensures forall i | 0 <= i < |tasks| :: tasks[i].history.entries == Process(old(tasks[i].history.entries), w)
  {
    hide Process, Score, Last, Weighted;
    scores := [];
    var k := 0;
    while k < |tasks|
      invariant 0 <= k <= |tasks| == |old(Contents(tasks))|
      invariant |scores| == k
      invariant forall i | 0 <= i < k :: scores[i] == Scores(tasks, old(Contents(tasks)), w)[i]
      invariant forall i | 0 <= i < k :: tasks[i].history.entries == Process(old(tasks[i].history.entries), w)
      invariant forall i | k <= i < |tasks| :: tasks[i].history.entries == old(tasks[i].history.entries)
    {
      var t := tasks[k];
      assert t in tasks;
      var score := t.history.Round(w);
      var entry := Scored(t.key, Weighted(score, t.weight));
      assert entry == Weigh(t, old(Contents(tasks))[k], w);
      hide Weigh;
      scores := scores + [entry];
      k := k + 1;
    }
  }

  // ---------------------------------------------------------------- one model

  ghost predicate DistinctTaskNames(clean: Key -> Name, tasks: seq<Task>) {
    forall i, j | 0 <= i < j < |tasks| :: clean(tasks[i].key) != clean(tasks[j].key)
  }

  function TaskNames(clean: Key -> Name, tasks: seq<Task>): set<Name> {
    set t | t in tasks :: clean(t.key)
  }

  ghost predicate PositiveWeights(tasks: seq<Task>) {
    forall i | 0 <= i < |tasks| :: tasks[i].weight > 0.0
  }

  /** The tasks that a window offers, best first. */
  ghost function Offered(tasks: seq<Task>, hs: seq<seq<real>>, w: nat): seq<Scored>
    requires |hs| == |tasks| && w > 0
  {
    Positive(SortDesc(Scores(tasks, hs, w)))
  }

  /** Rewriting the lists on the way does not change what a wider window sees. */
  lemma {:induction false} ScoresAfterProcess(tasks: seq<Task>, hs: seq<seq<real>>, hs': seq<seq<real>>, w: nat, w': nat)
    requires |hs| == |hs'| == |tasks| && 0 < w <= w'
    requires forall i | 0 <= i < |tasks| :: NonNegative(hs[i]) && hs'[i] == Process(hs[i], w)
    ensures Scores(tasks, hs', w') == Scores(tasks, hs, w')
    ensures forall i | 0 <= i < |tasks| :: Process(hs'[i], w') == Process(hs[i], w')
  {
    hide Weigh, Process;
    forall i | 0 <= i < |tasks|
      ensures Process(hs'[i], w') == Process(hs[i], w') && Weigh(tasks[i], hs'[i], w') == Weigh(tasks[i], hs[i], w')
    {
      WeighAfterProcess(tasks[i], hs[i], w, w');
    }
  }

  lemma {:induction false} WeighAfterProcess(t: Task, h: seq<real>, w: nat, w': nat)
    requires NonNegative(h) && 0 < w <= w'
    ensures Process(Process(h, w), w') == Process(h, w')
    ensures Weigh(t, Process(h, w), w') == Weigh(t, h, w')
  {
    ProcessTwice(h, w, w');
    ScoreAfterProcess(h, w, w');
    hide Process, Score, Weighted;
  }

  lemma {:induction false} OfferedNames(clean: Key -> Name, tasks: seq<Task>, hs: seq<seq<real>>, w: nat)
    requires |hs| == |tasks| && w > 0
    ensures NamesOf(clean, Offered(tasks, hs, w)) <= TaskNames(clean, tasks)
  {
    var scores := Scores(tasks, hs, w);
    forall x | x in Offered(tasks, hs, w)
      ensures clean(x.key) in TaskNames(clean, tasks)
    {
      PositiveMembers(SortDesc(scores), x);
      SortDescMembers(scores, x);
      var i :| 0 <= i < |scores| && scores[i] == x;
      assert tasks[i] in tasks;
    }
  }

  /** With good histories and positive weights the widest window offers every task. */
  lemma {:induction false} WidestOffersAll(clean: Key -> Name, tasks: seq<Task>, hs: seq<seq<real>>)
    requires |hs| == |tasks| && PositiveWeights(tasks)
    requires forall i | 0 <= i < |tasks| :: Good(hs[i])
    ensures TaskNames(clean, tasks) <= NamesOf(clean, Offered(tasks, hs, MAX_WINDOW))
  {
    hide Weigh;
    var scores := Scores(tasks, hs, MAX_WINDOW);
    forall t | t in tasks
      ensures clean(t.key) in NamesOf(clean, Offered(tasks, hs, MAX_WINDOW))
    {
      var i :| 0 <= i < |tasks| && tasks[i] == t;
      WidestWeighPositive(t, hs[i]);
      SortDescMembers(scores, scores[i]);
      PositiveMembers(SortDesc(scores), scores[i]);
    }
  }

  lemma {:induction false} WidestWeighPositive(t: Task, h: seq<real>)
    requires Good(h) && t.weight > 0.0
    ensures Weigh(t, h, MAX_WINDOW).score > 0.0
  {
    WidestScorePositive(h);
    hide Score, Good, Weighted;
    PositiveProduct(Score(h, MAX_WINDOW), t.weight);
  }

  lemma PositiveProduct(a: real, b: real)
    requires a > 0.0 && b > 0.0
    ensures Weighted(a, b) > 0.0
  {
  }

  lemma {:induction false} TaskNamesCount(clean: Key -> Name, tasks: seq<Task>)
    requires DistinctTaskNames(clean, tasks)
    ensures |TaskNames(clean, tasks)| == |tasks|
  {
    if tasks != [] {
      var n := |tasks| - 1;
      TaskNamesCount(clean, tasks[..n]);
      assert tasks == tasks[..n] + [tasks[n]];
      assert TaskNames(clean, tasks) == TaskNames(clean, tasks[..n]) + {clean(tasks[n].key)};
    }
  }

  /** What one window does to a selection that is not complete yet. */
  lemma {:induction false} WindowStep(
    clean: Key -> Name, tasks: seq<Task>, hs: seq<seq<real>>, w: nat, chosen: set<Name>, want: int)
    requires |hs| == |tasks| && w > 0
    requires |chosen| < want && chosen <= TaskNames(clean, tasks)
    ensures var r := AddUntil(clean, Offered(tasks, hs, w), chosen, want);
            && r <= TaskNames(clean, tasks) && |r| <= want
            && (|r| < want ==> NamesOf(clean, Offered(tasks, hs, w)) <= r)
    ensures DistinctTaskNames(clean, tasks) && chosen == {} && want <= |Offered(tasks, hs, w)| ==>
            want <= |SortDesc(Scores(tasks, hs, w))| && |AddUntil(clean, Offered(tasks, hs, w), chosen, want)| == want
            && AddUntil(clean, Offered(tasks, hs, w), chosen, want) ==
               NamesOf(clean, SortDesc(Scores(tasks, hs, w))[..want])
  {
    hide Weigh, NamesOf, AddUntil;
    AddUntilBounds(clean, Offered(tasks, hs, w), chosen, want);
    OfferedNames(clean, tasks, hs, w);
    if DistinctTaskNames(clean, tasks) && chosen == {} && want <= |Offered(tasks, hs, w)| {
      KeysDistinct(clean, tasks, hs, w);
      TakesTheBest(clean, Scores(tasks, hs, w), want);
    }
  }

  lemma {:induction false} KeysDistinct(clean: Key -> Name, tasks: seq<Task>, hs: seq<seq<real>>, w: nat)
    requires |hs| == |tasks| && w > 0 && DistinctTaskNames(clean, tasks)
    ensures DistinctNames(clean, Scores(tasks, hs, w))
  {
  }

  /** A selection that is short after the widest window cannot happen with good histories. */
  lemma {:induction false} WidestIsEnough(clean: Key -> Name, tasks: seq<Task>, hs: seq<seq<real>>, chosen: set<Name>, times: int)
    requires |hs| == |tasks| && PositiveWeights(tasks) && DistinctTaskNames(clean, tasks)
    requires forall i | 0 <= i < |tasks| :: Good(hs[i])
    requires chosen <= TaskNames(clean, tasks)
    requires NamesOf(clean, Offered(tasks, hs, MAX_WINDOW)) <= chosen
    ensures |chosen| >= Want(|tasks|, times)
  {
    WidestOffersAll(clean, tasks, hs);
    TaskNamesCount(clean, tasks);
    assert chosen == TaskNames(clean, tasks);
    WantIsGreatest(|tasks|, times, Quarter(|tasks|), Want(|tasks|, times));
  }

  /**
   A selection made from a model's tasks: never more than the model wants, and exactly that
   many if its histories are good, its weights positive and its names distinct.
   */
  ghost predicate SelectionOk(clean: Key -> Name, m: Model, good: bool, chosen: set<Name>) {
    var want := Want(|m.tasks|, m.times);
    && chosen <= TaskNames(clean, m.tasks)
    && (want <= 0 ==> chosen == {})
    && (want > 0 ==> |chosen| <= want)
    && (want > 0 && good && PositiveWeights(m.tasks) && DistinctTaskNames(clean, m.tasks) ==> |chosen| == want)
  }

  /** One turn of the window loop: score, sort, and add the positive scores if any are wanted. */
  method TryWindow(tasks: seq<Task>, clean: Key -> Name, w: nat, before: set<Name>, want: int, ghost hs: seq<seq<real>>)
    returns (chosen: set<Name>)
    requires 3 <= w && Separate(tasks) && |hs| == |tasks|
    requires forall i | 0 <= i < |tasks| :: NonNegative(hs[i])
    requires forall i | 0 <= i < |tasks| ::
               tasks[i].history.entries == if w == 3 then hs[i] else Process(hs[i], w - 1)
    modifies Histories(tasks)
    ensures forall i | 0 <= i < |tasks| :: tasks[i].history.entries == Process(hs[i], w)
    ensures chosen == if want <= 0 then before else AddUntil(clean, Offered(tasks, hs, w), before, want)
  {
    hide Weigh, Process, AddUntil, SortDesc, Positive, NonNegative;
    ghost var contents := Contents(tasks);
    var scores := ScoreAll(tasks, w);
    if w > 3 {
      ScoresAfterProcess(tasks, hs, contents, w - 1, w);
    } else {
      assert contents == hs;
    }
    chosen := before;
    if want > 0 {
      chosen := Take(clean, Positive(SortDesc(scores)), before, want);
    }
  }

  /**
   Given the histories at the start of the model's turn: if the first window already offers
   enough tasks, the selection is the best of them by weighted score.
   */
  ghost predicate TopChoice(clean: Key -> Name, m: Model, hs: seq<seq<real>>, chosen: set<Name>)
    requires |hs| == |m.tasks|
  {
    var (want, best) := (Want(|m.tasks|, m.times), SortDesc(Scores(m.tasks, hs, 3)));
    0 < want <= |Positive(best)| && DistinctTaskNames(clean, m.tasks) ==>
      want <= |best| && chosen == NamesOf(clean, best[..want])
  }

  /** The places of the tasks whose latency fell over the first window. */
  ghost function Falling(m: Model, hs: seq<seq<real>>): set<nat>
    requires |hs| == |m.tasks|
  {
    set i: nat | i < |m.tasks| && WeightedFall(m.tasks[i], hs[i], 3) > 0.0
  }

  /** A task is chosen, and nothing that is not chosen fell by more. */
  ghost predicate BestFalls(clean: Key -> Name, m: Model, hs: seq<seq<real>>, chosen: set<Name>)
    requires |hs| == |m.tasks|
  {
    && (forall x | x in chosen :: exists i :: i in Falling(m, hs) && clean(m.tasks[i].key) == x)
    && (forall i, j | 0 <= i < |m.tasks| && 0 <= j < |m.tasks|
            && clean(m.tasks[i].key) in chosen && clean(m.tasks[j].key) !in chosen ::
            WeightedFall(m.tasks[i], hs[i], 3) >= WeightedFall(m.tasks[j], hs[j], 3))
  }

  /**
   What a top choice is: if enough tasks fell over the first window, exactly the wanted number
   is chosen, each of them fell, and none that is left out fell by more.
   */
  lemma {:induction false} TopChoiceMeans(clean: Key -> Name, m: Model, hs: seq<seq<real>>, chosen: set<Name>)
    requires |hs| == |m.tasks| && (forall i | 0 <= i < |hs| :: NonNegative(hs[i]))
    requires DistinctTaskNames(clean, m.tasks) && TopChoice(clean, m, hs, chosen)
    requires 0 < Want(|m.tasks|, m.times) <= |Falling(m, hs)|
    ensures |chosen| == Want(|m.tasks|, m.times) && BestFalls(clean, m, hs, chosen)
  {
    hide Want, SortDesc, Positive, NamesOf, WeightedFall, Weigh, NonNegative;
    var (want, scores) := (Want(|m.tasks|, m.times), Scores(m.tasks, hs, 3));
    var best := SortDesc(scores);
    ScoresAreFalls(m, hs);
    KeysDistinct(clean, m.tasks, hs, 3);
    FallingCount(m, hs);
    PositiveSorted(scores);
    TakesTheBest(clean, scores, want);
    forall x | x in chosen
      ensures exists i :: i in Falling(m, hs) && clean(m.tasks[i].key) == x
    {
      var i := ChosenPlace(clean, m, hs, want, x);
    }
    forall i, j | 0 <= i < |m.tasks| && 0 <= j < |m.tasks|
                  && clean(m.tasks[i].key) in chosen && clean(m.tasks[j].key) !in chosen
      ensures WeightedFall(m.tasks[i], hs[i], 3) >= WeightedFall(m.tasks[j], hs[j], 3)
    {
      InOrder(clean, scores, want, i, j);
    }
  }

  lemma ScoresAreFalls(m: Model, hs: seq<seq<real>>)
    requires |hs| == |m.tasks| && forall i | 0 <= i < |hs| :: NonNegative(hs[i])
    ensures forall i | 0 <= i < |hs| :: Scores(m.tasks, hs, 3)[i] == Scored(m.tasks[i].key, WeightedFall(m.tasks[i], hs[i], 3))
  {
    hide WeightedFall, Weigh, NonNegative;
    forall i | 0 <= i < |hs|
      ensures Scores(m.tasks, hs, 3)[i] == Scored(m.tasks[i].key, WeightedFall(m.tasks[i], hs[i], 3))
    {
      WeighMeans(m.tasks[i], hs[i], 3);
    }
  }

  lemma FallingCount(m: Model, hs: seq<seq<real>>)
    requires |hs| == |m.tasks| && forall i | 0 <= i < |hs| :: NonNegative(hs[i])
    ensures |Falling(m, hs)| == |Positive(Scores(m.tasks, hs, 3))|
  {
    hide WeightedFall, Weigh, NonNegative, Positive;
    ScoresAreFalls(m, hs);
    PositiveCount(Scores(m.tasks, hs, 3));
    assert Falling(m, hs) == PositivePlaces(Scores(m.tasks, hs, 3));
  }

  /** Which task a chosen name belongs to. */
  lemma ChosenPlace(clean: Key -> Name, m: Model, hs: seq<seq<real>>, want: nat, x: Name) returns (i: nat)
    requires |hs| == |m.tasks| && forall i | 0 <= i < |hs| :: NonNegative(hs[i])
    requires want <= |Positive(SortDesc(Scores(m.tasks, hs, 3)))|
    requires x in NamesOf(clean, SortDesc(Scores(m.tasks, hs, 3))[..want])
    ensures i in Falling(m, hs) && clean(m.tasks[i].key) == x
  {
    hide WeightedFall, Weigh, NonNegative, SortDesc, Positive;
    var scores := Scores(m.tasks, hs, 3);
    var best := SortDesc(scores);
    ScoresAreFalls(m, hs);
    SortDescSorts(scores);
    PositiveIsPrefix(best);
    var y :| y in best[..want] && clean(y.key) == x;
    assert y in Positive(best);
    PositiveMembers(best, y);
    SortDescMembers(scores, y);
    i :| 0 <= i < |scores| && scores[i] == y;
  }

  /**
   Select the tasks of one model. The histories end up as one round at the last window used
   would leave them. The selection never exceeds what the model wants; with good histories,
   positive weights and distinct names it is exactly that many; when the first window offers
   enough it is the best of them by weighted score; and with positive weights the window used
   last decides it as `BestInWindow` says.
   */
  method SelectModel(m: Model, clean: Key -> Name) returns (chosen: set<Name>, ghost last: nat)
    requires m.tasks != [] && Separate(m.tasks) && AllNonNegative(Histories(m.tasks))
    modifies Histories(m.tasks)
    ensures 3 <= last <= MAX_WINDOW
    ensures forall i | 0 <= i < |m.tasks| ::
              m.tasks[i].history.entries == Process(old(m.tasks[i].history.entries), last)
    ensures SelectionOk(clean, m, old(AllGood(Histories(m.tasks))), chosen)
    ensures TopChoice(clean, m, old(Contents(m.tasks)), chosen)
    ensures WindowChoice(clean, m, old(Contents(m.tasks)), last, chosen)
  {
    hide Weigh, Process, NamesOf, AddUntil, SortDesc, Positive, NonNegative, Good, TaskNames, Separate, Want, WindowChoice;
    var tasks := m.tasks;
    ghost var hs := old(Contents(tasks));
    assert forall i | 0 <= i < |tasks| :: NonNegative(hs[i]) by {
      assert forall i | 0 <= i < |tasks| :: tasks[i] in tasks;
    }
    var want := Want(|tasks|, m.times);
    chosen := {};
    var w := 3;
    assert Pending(clean, tasks, hs, w, chosen, want);
    while w < 100
      invariant 3 <= w <= 100
      invariant forall i | 0 <= i < |tasks| ::
                  tasks[i].history.entries == if w == 3 then hs[i] else Process(hs[i], w - 1)
      invariant Pending(clean, tasks, hs, w, chosen, want)
      invariant want <= 0 ==> w == 3
    {
      hide Pending, Scores;
      ghost var short := chosen;
      chosen := TryWindow(tasks, clean, w, chosen, want, hs);
      if want <= 0 {
        last := w;
        NothingWanted(clean, m, hs, w, chosen);
        return;
      }
      PendingStep(clean, m, hs, w, short);
      hide SelectionOk, TopChoice;
      if |chosen| == want {
        last := w;
        return;
      }
      w := w + 1;
    }
    last := MAX_WINDOW;
    PendingEnds(clean, m, hs, chosen, old(AllGood(Histories(tasks))));
  }

  /**
   What is chosen by the time the window is `last`: only tasks that fell over it; all that fell
   over the window before it; of the others that fell, those that fell most; and everything
   that fell over the widest window, if that is still short of what is wanted.
   */
  ghost predicate BestInWindow(clean: Key -> Name, m: Model, hs: seq<seq<real>>, last: nat, chosen: set<Name>)
    requires |hs| == |m.tasks| && last >= 3
  {
    var (n, tasks) := (|m.tasks|, m.tasks);
    && (forall x | x in chosen :: exists i :: 0 <= i < n && clean(tasks[i].key) == x && WeightedFall(tasks[i], hs[i], last) > 0.0)
    && (last > 3 ==> forall i | 0 <= i < n && WeightedFall(tasks[i], hs[i], last - 1) > 0.0 :: clean(tasks[i].key) in chosen)
    && (forall i, j | 0 <= i < n && 0 <= j < n && clean(tasks[i].key) in chosen && clean(tasks[j].key) !in chosen
            && (last == 3 || WeightedFall(tasks[i], hs[i], last - 1) <= 0.0) ::
            WeightedFall(tasks[i], hs[i], last) >= WeightedFall(tasks[j], hs[j], last))
    && (|chosen| < Want(n, m.times) ==>
          last == MAX_WINDOW && forall i | 0 <= i < n && WeightedFall(tasks[i], hs[i], last) > 0.0 :: clean(tasks[i].key) in chosen)
  }

  ghost predicate WindowChoice(clean: Key -> Name, m: Model, hs: seq<seq<real>>, last: nat, chosen: set<Name>)
    requires |hs| == |m.tasks| && last >= 3
  {
    Want(|m.tasks|, m.times) > 0 && DistinctTaskNames(clean, m.tasks) && PositiveWeights(m.tasks) ==>
      BestInWindow(clean, m, hs, last, chosen)
  }

  /** A task is offered at a window exactly when it fell over it. */
  lemma OfferedIff(tasks: seq<Task>, hs: seq<seq<real>>, w: nat, i: nat)
    requires |hs| == |tasks| && w > 0 && i < |tasks| && NonNegative(hs[i])
    ensures Scored(tasks[i].key, WeightedFall(tasks[i], hs[i], w)) in Offered(tasks, hs, w) <==> WeightedFall(tasks[i], hs[i], w) > 0.0
    ensures Scores(tasks, hs, w)[i] == Scored(tasks[i].key, WeightedFall(tasks[i], hs[i], w))
  {
    hide Weigh, WeightedFall, NonNegative, SortDesc, Positive;
    WeighMeans(tasks[i], hs[i], w);
    var x := Scores(tasks, hs, w)[i];
    SortDescMembers(Scores(tasks, hs, w), x);
    PositiveMembers(SortDesc(Scores(tasks, hs, w)), x);
  }

  /** Whatever is offered belongs to a task that fell. */
  lemma OfferedTask(tasks: seq<Task>, hs: seq<seq<real>>, w: nat, y: Scored) returns (i: nat)
    requires |hs| == |tasks| && w > 0 && (forall i | 0 <= i < |hs| :: NonNegative(hs[i])) && y in Offered(tasks, hs, w)
    ensures i < |tasks| && y == Scored(tasks[i].key, WeightedFall(tasks[i], hs[i], w)) && WeightedFall(tasks[i], hs[i], w) > 0.0
  {
    hide Weigh, WeightedFall, NonNegative, SortDesc, Positive;
    PositiveMembers(SortDesc(Scores(tasks, hs, w)), y);
    SortDescMembers(Scores(tasks, hs, w), y);
    i :| 0 <= i < |tasks| && Scores(tasks, hs, w)[i] == y;
    OfferedIff(tasks, hs, w, i);
  }

  lemma FallGrows(t: Task, h: seq<real>, w: nat)
    requires NonNegative(h) && w > 0 && t.weight > 0.0 && WeightedFall(t, h, w) > 0.0
    ensures WeightedFall(t, h, w + 1) > 0.0
  {
    hide Fall, Score, NonNegative;
    ScoreMeans(h, w);
    ScoreMeans(h, w + 1);
    ScoreWidens(h, w, w + 1);
    PositiveFactors(Fall(h, w), Fall(h, w + 1), t.weight);
  }

  lemma PositiveFactors(a: real, b: real, c: real)
    requires c > 0.0 && a * c > 0.0 && a <= b
    ensures b * c > 0.0
  {
    assert a > 0.0;
  }

  lemma OfferedGrows(clean: Key -> Name, tasks: seq<Task>, hs: seq<seq<real>>, w: nat)
    requires |hs| == |tasks| && w > 0 && PositiveWeights(tasks) && forall i | 0 <= i < |hs| :: NonNegative(hs[i])
    ensures NamesOf(clean, Offered(tasks, hs, w)) <= NamesOf(clean, Offered(tasks, hs, w + 1))
  {
    hide WeightedFall, NonNegative, Offered;
    forall x | x in NamesOf(clean, Offered(tasks, hs, w))
      ensures x in NamesOf(clean, Offered(tasks, hs, w + 1))
    {
      var y :| y in Offered(tasks, hs, w) && clean(y.key) == x;
      var i := OfferedTask(tasks, hs, w, y);
      FallGrows(tasks[i], hs[i], w);
      OfferedIff(tasks, hs, w + 1, i);
    }
  }

  /** A name is offered exactly when its task fell. */
  lemma OfferedName(clean: Key -> Name, tasks: seq<Task>, hs: seq<seq<real>>, w: nat, i: nat)
    requires |hs| == |tasks| && w > 0 && i < |tasks| && DistinctTaskNames(clean, tasks) && forall i | 0 <= i < |hs| :: NonNegative(hs[i])
    ensures clean(tasks[i].key) in NamesOf(clean, Offered(tasks, hs, w)) <==> WeightedFall(tasks[i], hs[i], w) > 0.0
  {
    hide WeightedFall, NonNegative, Offered;
    OfferedIff(tasks, hs, w, i);
    if clean(tasks[i].key) in NamesOf(clean, Offered(tasks, hs, w)) {
      var y :| y in Offered(tasks, hs, w) && clean(y.key) == clean(tasks[i].key);
      var j := OfferedTask(tasks, hs, w, y);
      assert j == i;
    }
  }

  lemma NameOfTask(clean: Key -> Name, tasks: seq<Task>, hs: seq<seq<real>>, w: nat, x: Name) returns (i: nat)
    requires |hs| == |tasks| && w > 0 && (forall i | 0 <= i < |hs| :: NonNegative(hs[i])) && x in NamesOf(clean, Offered(tasks, hs, w))
    ensures i < |tasks| && clean(tasks[i].key) == x && WeightedFall(tasks[i], hs[i], w) > 0.0
  {
    hide WeightedFall, NonNegative, Offered;
    var y :| y in Offered(tasks, hs, w) && clean(y.key) == x;
    i := OfferedTask(tasks, hs, w, y);
  }

  /** The selection that a window completes. */
  lemma CompleteIsBest(clean: Key -> Name, m: Model, hs: seq<seq<real>>, w: nat, before: set<Name>)
    requires |hs| == |m.tasks| && w >= 3 && Want(|m.tasks|, m.times) > 0 && forall i | 0 <= i < |hs| :: NonNegative(hs[i])
    requires PositiveWeights(m.tasks) && DistinctTaskNames(clean, m.tasks)
    requires Pending(clean, m.tasks, hs, w, before, Want(|m.tasks|, m.times))
    requires |AddUntil(clean, Offered(m.tasks, hs, w), before, Want(|m.tasks|, m.times))| == Want(|m.tasks|, m.times)
    ensures BestInWindow(clean, m, hs, w, AddUntil(clean, Offered(m.tasks, hs, w), before, Want(|m.tasks|, m.times)))
  {
    hide Want, WeightedFall, NonNegative, Offered, NamesOf, AddUntil, PositiveWeights, DistinctTaskNames, TaskNames;
    var (tasks, s) := (m.tasks, Offered(m.tasks, hs, w));
    var r := AddUntil(clean, s, before, Want(|tasks|, m.times));
    var k := AddsPrefix(clean, s, before, Want(|tasks|, m.times));
    AddUntilBounds(clean, s, before, Want(|tasks|, m.times));
    if w > 3 {
      OfferedGrows(clean, tasks, hs, w - 1);
    }
    forall x | x in r
      ensures exists i :: 0 <= i < |tasks| && clean(tasks[i].key) == x && WeightedFall(tasks[i], hs[i], w) > 0.0
    {
      var i := NameOfTask(clean, tasks, hs, w, x);
    }
    forall i | 0 <= i < |tasks|
      ensures w > 3 && WeightedFall(tasks[i], hs[i], w - 1) > 0.0 ==> clean(tasks[i].key) in before
    {
      if w > 3 {
        OfferedName(clean, tasks, hs, w - 1, i);
      }
    }
    forall i, j | 0 <= i < |tasks| && 0 <= j < |tasks| && clean(tasks[i].key) in r && clean(tasks[j].key) !in r
                  && (w == 3 || WeightedFall(tasks[i], hs[i], w - 1) <= 0.0)
      ensures WeightedFall(tasks[i], hs[i], w) >= WeightedFall(tasks[j], hs[j], w)
    {
      NotBefore(clean, tasks, hs, w, before, i);
      AddedInOrder(clean, m, hs, w, k, i, j);
    }
  }

  lemma NotBefore(clean: Key -> Name, tasks: seq<Task>, hs: seq<seq<real>>, w: nat, before: set<Name>, i: nat)
    requires |hs| == |tasks| && w >= 3 && i < |tasks| && DistinctTaskNames(clean, tasks) && forall i | 0 <= i < |hs| :: NonNegative(hs[i])
    requires if w == 3 then before == {} else before <= NamesOf(clean, Offered(tasks, hs, w - 1))
    requires w == 3 || WeightedFall(tasks[i], hs[i], w - 1) <= 0.0
    ensures clean(tasks[i].key) !in before
  {
    hide WeightedFall, NonNegative, Offered, NamesOf, DistinctTaskNames;
    if w > 3 {
      OfferedName(clean, tasks, hs, w - 1, i);
    }
  }

  /** Of an added task and one that is neither added nor chosen before, the first fell no less. */
  lemma AddedInOrder(clean: Key -> Name, m: Model, hs: seq<seq<real>>, w: nat, k: nat, i: nat, j: nat)
    requires |hs| == |m.tasks| && w > 0 && i < |hs| && j < |hs| && forall i | 0 <= i < |hs| :: NonNegative(hs[i])
    requires DistinctTaskNames(clean, m.tasks) && k <= |Offered(m.tasks, hs, w)|
    requires clean(m.tasks[i].key) in NamesOf(clean, Offered(m.tasks, hs, w)[..k])
    requires clean(m.tasks[j].key) !in NamesOf(clean, Offered(m.tasks, hs, w)[..k])
    ensures WeightedFall(m.tasks[i], hs[i], w) >= WeightedFall(m.tasks[j], hs[j], w)
  {
    hide Weigh, WeightedFall, NonNegative, SortDesc, Positive, NamesOf;
    var (scores, s) := (Scores(m.tasks, hs, w), Offered(m.tasks, hs, w));
    var best := SortDesc(scores);
    OfferedIff(m.tasks, hs, w, i);
    OfferedIff(m.tasks, hs, w, j);
    SortDescSorts(scores);
    PositiveIsPrefix(best);
    KeysDistinct(clean, m.tasks, hs, w);
    assert s[..k] == best[..k];
    InOrder(clean, scores, k, i, j);
  }

  /** The selection that even the widest window leaves short. */
  lemma EndIsBest(clean: Key -> Name, m: Model, hs: seq<seq<real>>, chosen: set<Name>)
    requires |hs| == |m.tasks| && PositiveWeights(m.tasks) && DistinctTaskNames(clean, m.tasks)
    requires forall i | 0 <= i < |hs| :: NonNegative(hs[i])
    requires Pending(clean, m.tasks, hs, MAX_WINDOW + 1, chosen, Want(|m.tasks|, m.times))
    ensures BestInWindow(clean, m, hs, MAX_WINDOW, chosen)
  {
    hide Want, WeightedFall, NonNegative, Offered, NamesOf, PositiveWeights, DistinctTaskNames, TaskNames;
    var (tasks, w) := (m.tasks, MAX_WINDOW);
    OfferedGrows(clean, tasks, hs, w - 1);
    forall x | x in chosen
      ensures exists i :: 0 <= i < |tasks| && clean(tasks[i].key) == x && WeightedFall(tasks[i], hs[i], w) > 0.0
    {
      var i := NameOfTask(clean, tasks, hs, w, x);
    }
    forall i | 0 <= i < |tasks|
      ensures WeightedFall(tasks[i], hs[i], w) > 0.0 <==> clean(tasks[i].key) in chosen
      ensures WeightedFall(tasks[i], hs[i], w - 1) > 0.0 ==> clean(tasks[i].key) in chosen
    {
      OfferedName(clean, tasks, hs, w, i);
      OfferedName(clean, tasks, hs, w - 1, i);
    }
  }

  /** The selection before window `w`: short of what is wanted, with everything offered so far in it. */
  ghost predicate Pending(clean: Key -> Name, tasks: seq<Task>, hs: seq<seq<real>>, w: nat, chosen: set<Name>, want: int)
    requires |hs| == |tasks| && w >= 3
  {
    && chosen <= TaskNames(clean, tasks)
    && (if w == 3 then chosen == {} else |chosen| < want)
    && (w > 3 ==> NamesOf(clean, Offered(tasks, hs, w - 1)) <= chosen)
    && (w > 3 && PositiveWeights(tasks) ==> chosen <= NamesOf(clean, Offered(tasks, hs, w - 1)))
    && (w > 3 ==> !(0 < want <= |Offered(tasks, hs, 3)| && DistinctTaskNames(clean, tasks)))
  }

  lemma NothingWanted(clean: Key -> Name, m: Model, hs: seq<seq<real>>, w: nat, chosen: set<Name>)
    requires |hs| == |m.tasks| && w == 3 && Want(|m.tasks|, m.times) <= 0
    requires Pending(clean, m.tasks, hs, w, chosen, Want(|m.tasks|, m.times))
    ensures SelectionOk(clean, m, true, chosen) && SelectionOk(clean, m, false, chosen) && TopChoice(clean, m, hs, chosen)
    ensures WindowChoice(clean, m, hs, w, chosen)
  {
    hide Want, TaskNames, Scores;
  }

  /** One more window either completes the selection or leaves it pending. */
  lemma PendingStep(clean: Key -> Name, m: Model, hs: seq<seq<real>>, w: nat, before: set<Name>)
    requires |hs| == |m.tasks| && w >= 3 && Want(|m.tasks|, m.times) > 0
    requires Pending(clean, m.tasks, hs, w, before, Want(|m.tasks|, m.times))
    requires forall i | 0 <= i < |hs| :: NonNegative(hs[i])
    ensures var (want, r) := (Want(|m.tasks|, m.times), AddUntil(clean, Offered(m.tasks, hs, w), before, Want(|m.tasks|, m.times)));
            if |r| == want
            then SelectionOk(clean, m, true, r) && SelectionOk(clean, m, false, r) && TopChoice(clean, m, hs, r)
                 && WindowChoice(clean, m, hs, w, r)
            else Pending(clean, m.tasks, hs, w + 1, r, want)
  {
    hide Want, TaskNames, Scores, SortDesc, Positive, AddUntil, NamesOf, DistinctTaskNames, PositiveWeights, NonNegative, BestInWindow;
    var want := Want(|m.tasks|, m.times);
    WindowStep(clean, m.tasks, hs, w, before, want);
    AddUntilBounds(clean, Offered(m.tasks, hs, w), before, want);
    if PositiveWeights(m.tasks) {
      if w > 3 {
        OfferedGrows(clean, m.tasks, hs, w - 1);
      }
      if DistinctTaskNames(clean, m.tasks) && |AddUntil(clean, Offered(m.tasks, hs, w), before, want)| == want {
        CompleteIsBest(clean, m, hs, w, before);
      }
    }
  }

  /** After the widest window a selection is short only if the conditions for a full one fail. */
  lemma PendingEnds(clean: Key -> Name, m: Model, hs: seq<seq<real>>, chosen: set<Name>, good: bool)
    requires |hs| == |m.tasks| && Pending(clean, m.tasks, hs, MAX_WINDOW + 1, chosen, Want(|m.tasks|, m.times))
    requires good ==> forall i | 0 <= i < |m.tasks| :: Good(hs[i])
    requires forall i | 0 <= i < |hs| :: NonNegative(hs[i])
    ensures SelectionOk(clean, m, good, chosen) && TopChoice(clean, m, hs, chosen)
    ensures WindowChoice(clean, m, hs, MAX_WINDOW, chosen)
  {
    hide Want, TaskNames, Scores, SortDesc, Positive, NamesOf, DistinctTaskNames, PositiveWeights, Good, NonNegative, BestInWindow;
    if PositiveWeights(m.tasks) && DistinctTaskNames(clean, m.tasks) {
      EndIsBest(clean, m, hs, chosen);
    }
    if good && PositiveWeights(m.tasks) && DistinctTaskNames(clean, m.tasks) {
      WidestIsEnough(clean, m.tasks, hs, chosen, m.times);
    }
  }

  // ---------------------------------------------------------------- all models, with shared histories

  ghost function Shared(models: seq<Model>): set<History> {
    set m, t | m in models && t in m.tasks :: t.history
  }

  /** What the scheduler may have made of a history: nothing, or one round at some window. */
  ghost predicate Derived(before: seq<real>, now: seq<real>) {
    now == before || exists w :: 3 <= w <= MAX_WINDOW && now == Process(before, w)
  }

  /** Rounds for different models add up to a single round at the widest of their windows. */
  lemma {:induction false} DerivedStep(before: seq<real>, now: seq<real>, w: nat)
    requires NonNegative(before) && Derived(before, now) && 3 <= w <= MAX_WINDOW
    ensures Derived(before, Process(now, w))
  {
    if now != before {
      var v :| 3 <= v <= MAX_WINDOW && now == Process(before, v);
      if v <= w {
        ProcessTwice(before, v, w);
      } else {
        ProcessShape(before, v);
        RunMinOfNonIncreasing(now);
        assert Process(now, w) == now;
      }
    }
  }

  /** Such a history still falls, stays non-negative, and stays good if it was. */
  lemma {:induction false} DerivedShape(before: seq<real>, now: seq<real>)
    requires NonNegative(before) && Derived(before, now)
    ensures NonNegative(now) && |before| <= |now|
    ensures now != before ==> NonIncreasing(now) && forall i | |before| <= i < |now| :: now[i] == 0.0
    ensures Good(before) ==> Good(now)
  {
    if now != before {
      var w :| 3 <= w <= MAX_WINDOW && now == Process(before, w);
      ProcessShape(before, w);
      if Good(before) {
        ProcessKeepsGood(before, w);
      }
    }
  }

  ghost function Snapshot(all: set<History>): map<History, seq<real>>
    reads all
  {
    map h | h in all :: h.entries
  }

  /** One finished turn: the histories it found come from the original ones, and its choice is best for them. */
  ghost predicate TurnOk(
    clean: Key -> Name, m: Model, found: seq<seq<real>>, chosen: set<Name>, original: map<History, seq<real>>)
  {
    && |found| == |m.tasks| && TopChoice(clean, m, found, chosen)
    && (exists last: nat | 3 <= last <= MAX_WINDOW :: WindowChoice(clean, m, found, last, chosen))
    && forall i | 0 <= i < |found| ::
         m.tasks[i].history in original && Derived(original[m.tasks[i].history], found[i])
  }

  /** One model's turn, seen from all the histories and their original contents. */
  method SelectShared(m: Model, clean: Key -> Name, ghost all: set<History>, ghost original: map<History, seq<real>>)
    returns (chosen: set<Name>)
    requires m.tasks != [] && Separate(m.tasks) && Histories(m.tasks) <= all <= original.Keys
    requires forall h | h in all :: NonNegative(original[h]) && Derived(original[h], h.entries)
    modifies Histories(m.tasks)
    ensures forall h | h in all :: Derived(original[h], h.entries)
    ensures SelectionOk(clean, m, forall h | h in all :: Good(original[h]), chosen)
    ensures TurnOk(clean, m, old(Contents(m.tasks)), chosen, original)
  {
    hide Process, NonNegative, Good, Want, TaskNames, TopChoice, WindowChoice, Derived;
    forall h | h in all
      ensures NonNegative(h.entries) && (Good(original[h]) ==> Good(h.entries))
    {
      DerivedShape(original[h], h.entries);
    }
    ghost var now := map h | h in all :: h.entries;
    ghost var last;
    chosen, last := SelectModel(m, clean);
    forall h | h in all
      ensures Derived(original[h], h.entries)
    {
      if h in Histories(m.tasks) {
        DerivedStep(original[h], now[h], last);
      }
    }
  }

  /** The first models have had their turns. */
  ghost predicate Finished(clean: Key -> Name, models: seq<Model>, good: bool, original: map<History, seq<real>>,
                           selections: seq<set<Name>>, turns: seq<seq<seq<real>>>)
  {
    && |turns| == |selections| <= |models|
    && forall j | 0 <= j < |selections| ::
         && SelectionOk(clean, models[j], good, selections[j])
         && TurnOk(clean, models[j], turns[j], selections[j], original)
  }

  lemma FinishedGrows(clean: Key -> Name, models: seq<Model>, good: bool, original: map<History, seq<real>>,
                      selections: seq<set<Name>>, turns: seq<seq<seq<real>>>, chosen: set<Name>, found: seq<seq<real>>)
    requires Finished(clean, models, good, original, selections, turns) && |selections| < |models|
    requires SelectionOk(clean, models[|selections|], good, chosen)
    requires TurnOk(clean, models[|selections|], found, chosen, original)
    ensures Finished(clean, models, good, original, selections + [chosen], turns + [found])
  {
    hide SelectionOk, TurnOk;
  }

  lemma SharedHistories(models: seq<Model>, k: nat)
    requires k < |models|
    ensures Histories(models[k].tasks) <= Shared(models)
  {
    assert models[k] in models;
  }

  ghost predicate IsUnion(total: set<Name>, selections: seq<set<Name>>) {
    forall x :: x in total <==> exists k :: 0 <= k < |selections| && x in selections[k]
  }

  lemma UnionGrows(total: set<Name>, selections: seq<set<Name>>, chosen: set<Name>)
    requires IsUnion(total, selections)
    ensures IsUnion(total + chosen, selections + [chosen])
  {
    var all := selections + [chosen];
    forall x
      ensures x in total + chosen <==> exists k :: 0 <= k < |all| && x in all[k]
    {
      if x in total {
        var k :| 0 <= k < |selections| && x in selections[k];
        assert all[k] == selections[k];
      } else if x in chosen {
        assert all[|selections|] == chosen;
      }
    }
  }

  /**
   The whole schedule. Although models share histories and each pads them for the next, every
   history only ever falls and gains zeros at its end, and every model that can afford it
   still selects exactly as many tasks as it wants, the best ones for the histories `turns[k]`
   it finds when its turn comes.
   */
  method ScheduleAll(models: seq<Model>, clean: Key -> Name)
    returns (total: set<Name>, selections: seq<set<Name>>, ghost turns: seq<seq<seq<real>>>)
    requires forall k | 0 <= k < |models| :: models[k].tasks != [] && Separate(models[k].tasks)
    requires AllNonNegative(Shared(models))
    modifies Shared(models)
    ensures |selections| == |models|
    ensures forall k | 0 <= k < |models| :: SelectionOk(clean, models[k], old(AllGood(Shared(models))), selections[k])
    ensures IsUnion(total, selections)
    ensures forall h | h in Shared(models) :: Derived(old(h.entries), h.entries)
    ensures |turns| == |models|
    ensures forall k | 0 <= k < |models| ::
              TurnOk(clean, models[k], turns[k], selections[k], old(Snapshot(Shared(models))))
  {
    hide SelectionOk, NonNegative, Good, TurnOk;
    ghost var all := Shared(models);
    ghost var original := Snapshot(all);
    ghost var good := AllGood(all);
    assert forall h | h in all :: Derived(original[h], h.entries);
    total, selections, turns := {}, [], [];
    var k := 0;
    assert IsUnion(total, selections);
    while k < |models|
      invariant 0 <= k <= |models| && |selections| == k
      invariant forall h | h in all :: Derived(original[h], h.entries)
      invariant IsUnion(total, selections) && Finished(clean, models, good, original, selections, turns)
    {
      hide Derived, IsUnion, Finished, Shared, Histories, Separate, AllGood;
      SharedHistories(models, k);
      ghost var found := Contents(models[k].tasks);
      var chosen := SelectShared(models[k], clean, all, original);
      UnionGrows(total, selections, chosen);
      FinishedGrows(clean, models, good, original, selections, turns, chosen, found);
      total, selections, turns := total + chosen, selections + [chosen], turns + [found];
      k := k + 1;
    }
  }

  /** A model that selects anything stays within its trials. */
  lemma WithinBudget(n: nat, times: int, q: nat, selected: nat)
    requires n <= 4 * q < n + 4 && 0 < selected <= Want(n, times)
    ensures times + 64 * selected + 128 * q <= 20000
  {
    WantIsGreatest(n, times, q, selected);
  }
}
