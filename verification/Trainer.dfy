/**
 The tuning loop: it sends batches ahead to be measured, takes the results back in order and
 keeps a fixed window of batches in flight. Measuring happens elsewhere and in any order.
 */
module Trainer {
  import opened Prelude
  import Files = FileSelection

  /** A batch on the measuring machine: `finetuning_<idx>` or `testtuning_<idx>`, or `0_test_<idx>`. */
  datatype Item = Tuning(idx: nat) | Test(idx: nat)

  /** The order of `ls -v`: tests first, then by number. */
  predicate Before(x: Item, y: Item) {
    if x.Test? != y.Test? then x.Test? else x.idx < y.idx
  }

  datatype Phase =
    | Starting(next: nat)       // sending the first batches
    | Polling
    | Accepted(i: nat)          // training on the results of batch i
    | Tested(i: nat)            // the test batch, if due, is sent
    | Sent(i: nat)              // batch i + window is sent
    | Stopped(i: nat)           // gave up after accepting i
  {
    /** The batch whose results are in hand and not yet archived. */
    predicate InHand(j: nat) {
      (Accepted? || Tested? || Sent? || Stopped?) && i == j
    }
  }

  /** The number of batches sent ahead, and whether test batches are sent along the way. */
  datatype Config = Config(window: nat, tests: bool)

  datatype State = State(
    flying: set<Item>,          // sent and being measured
    measured: set<Item>,        // results waiting
    want: Option<nat>,
    phase: Phase,
    first: nat,                 // how many of the first batches were sent by this run
    sent: seq<nat>,             // batches sent after those, in order
    consumed: seq<nat>          // batches trained on, in order
  )

  datatype Action =
    | SendFirst
    | EndStart
    | Finish(x: Item)
    | Poll(x: Item)
    | SendTest
    | SendNext
    | Archive
    | Stop

  ghost predicate IsFirst(items: set<Item>, x: Item) {
    x in items && forall y | y in items && y != x :: Before(x, y)
  }

  ghost predicate Enabled(c: Config, s: State, a: Action) {
    match a
    case SendFirst => s.phase.Starting? && s.phase.next < c.window
    case EndStart => s.phase.Starting? && s.phase.next >= c.window
    case Finish(x) => x in s.flying
    case Poll(x) => s.phase.Polling? && IsFirst(s.measured, x)
    case SendTest => s.phase.Accepted?
    case SendNext => s.phase.Tested?
    case Archive => s.phase.Sent?
    case Stop => s.phase.Accepted?
  }

  ghost function Apply(c: Config, s: State, a: Action): State
    requires Enabled(c, s, a)
  {
    match a
    case SendFirst =>
      s.(flying := s.flying + {Tuning(s.phase.next)}, first := s.first + 1, phase := Starting(s.phase.next + 1))
    case EndStart => s.(phase := Polling)
    case Finish(x) => s.(flying := s.flying - {x}, measured := s.measured + {x})
    case Poll(x) => Polled(s, x)
    case SendTest =>
      var i := s.phase.i;
      var s' := s.(phase := Tested(i));
      if c.tests && i % 4 == 3 then s'.(flying := s.flying + {Test(i)}) else s'
    case SendNext =>
      var j := s.phase.i + c.window;
      s.(flying := s.flying + {Tuning(j)}, sent := s.sent + [j], phase := Sent(s.phase.i))
    case Archive => s.(measured := s.measured - {Tuning(s.phase.i)}, phase := Polling)
    case Stop => s.(phase := Stopped(s.phase.i))
  }

  /** A test batch is put away; a tuning batch is accepted if it is the one wanted. */
  function Polled(s: State, x: Item): State {
    if x.Test? then s.(measured := s.measured - {x})
    else
      var want := if s.want.None? then x.idx else s.want.value;
      if x.idx != want then s.(want := Some(want))
      else s.(want := Some(want + 1), phase := Accepted(x.idx), consumed := s.consumed + [x.idx])
  }

  /** A run with `--finetuning_init` or `--testtuning_init`, or one that picks up where another left off. */
  ghost predicate Start(s: State, anew: bool) {
    && s.want == None && s.first == 0 && s.sent == [] && s.consumed == []
    && if anew then s.phase == Starting(0) && s.flying == {} && s.measured == {} else s.phase == Polling
  }

  ghost predicate IsRun(c: Config, anew: bool, states: seq<State>, actions: seq<Action>) {
    && |states| == |actions| + 1
    && Start(states[0], anew)
    && forall i | 0 <= i < |actions| ::
         Enabled(c, states[i], actions[i]) && states[i + 1] == Apply(c, states[i], actions[i])
  }

  // ---------------------------------------------------------------- order, in any run

  /** Batches are taken as one ascending sequence and answered by one batch each. */
  ghost predicate Ordered(c: Config, s: State) {
    var n := |s.consumed|;
    && (forall k | 0 <= k < n :: s.consumed[k] == s.consumed[0] + k)
    && (s.want == if n == 0 then None else Some(s.consumed[0] + n))
    && (s.phase.Accepted? || s.phase.Tested? || s.phase.Sent? || s.phase.Stopped? ==>
          n > 0 && s.phase.i == s.consumed[0] + n - 1)
    && (s.phase.Starting? ==> n == 0)
    && |s.sent| == n - (if s.phase.Accepted? || s.phase.Tested? || s.phase.Stopped? then 1 else 0)
    && (forall k | 0 <= k < |s.sent| :: s.sent[k] == s.consumed[k] + c.window)
  }

  lemma {:induction false} OrderedStep(c: Config, s: State, a: Action)
    requires Ordered(c, s) && Enabled(c, s, a)
    ensures Ordered(c, Apply(c, s, a))
  {
  }

  lemma {:induction false} OrderedRun(c: Config, anew: bool, states: seq<State>, actions: seq<Action>, i: nat)
    requires IsRun(c, anew, states, actions) && i < |states|
    ensures Ordered(c, states[i])
  {
    if i > 0 {
      OrderedRun(c, anew, states, actions, i - 1);
      OrderedStep(c, states[i - 1], actions[i - 1]);
    }
  }

  /**
   In every run the trainer consumes consecutive batches, from the first it accepted upwards,
   in whatever order they finish, and every batch it sends in answer is a new one.
   */
  lemma {:induction false} ConsumesInOrder(c: Config, anew: bool, states: seq<State>, actions: seq<Action>, i: nat)
    requires IsRun(c, anew, states, actions) && i < |states|
    ensures var s := states[i];
            && (forall k | 0 <= k < |s.consumed| - 1 :: s.consumed[k + 1] == s.consumed[k] + 1)
            && |s.sent| <= |s.consumed|
            && (forall k | 0 <= k < |s.sent| :: s.sent[k] == s.consumed[k] + c.window)
            && (forall k | 0 <= k < |s.sent| - 1 :: s.sent[k + 1] == s.sent[k] + 1)
  {
    OrderedRun(c, anew, states, actions, i);
  }

  /**
   Each batch is made from a quarter of the files that are not held out, chosen by its number.
   So any four consecutive sends see each of those files as often as it is listed.
   */
  lemma {:induction false} FourSendsCover(c: Config, anew: bool, states: seq<State>, actions: seq<Action>, i: nat, k: nat,
                                          base: Files.Path -> string, files: seq<Files.Path>, names: set<string>, x: Files.Path)
    requires IsRun(c, anew, states, actions) && i < |states| && k + 3 < |states[i].sent|
    ensures var (kept, sent) := (Files.Keep(base, files, names), states[i].sent);
            Count(Files.Quarter(kept, sent[k]), x) + Count(Files.Quarter(kept, sent[k + 1]), x)
            + Count(Files.Quarter(kept, sent[k + 2]), x) + Count(Files.Quarter(kept, sent[k + 3]), x)
            == if base(x) in names then 0 else Count(files, x)
  {
    hide Files.Quarter, Files.Keep, Count;
    ConsumesInOrder(c, anew, states, actions, i);
    var sent := states[i].sent;
    assert sent[k + 1] == sent[k] + 1 && sent[k + 2] == sent[k] + 2 && sent[k + 3] == sent[k] + 3;
    Files.FourBatches(base, files, names, sent[k], x);
  }

  // ---------------------------------------------------------------- test batches

  ghost predicate TestOut(s: State, i: nat) {
    Test(i) in s.flying || Test(i) in s.measured
  }

  /** Its round is over, or past the point where a test is sent. */
  ghost predicate PastTest(s: State, i: nat) {
    i in s.consumed && s.phase != Accepted(i) && s.phase != Stopped(i)
  }

  /** One step, seen from test batch `i`. */
  lemma TestStep(c: Config, s: State, a: Action, i: nat)
    requires Ordered(c, s) && Enabled(c, s, a)
    ensures PastTest(s, i) ==> PastTest(Apply(c, s, a), i)
    ensures !PastTest(s, i) && PastTest(Apply(c, s, a), i) <==> a == SendTest && s.phase == Accepted(i)
    ensures Test(i) in Apply(c, s, a).flying ==> Test(i) in s.flying || (a == SendTest && s.phase == Accepted(i) && c.tests && i % 4 == 3)
    ensures a == SendTest && s.phase == Accepted(i) && c.tests && i % 4 == 3 ==> Test(i) in Apply(c, s, a).flying
    ensures TestOut(Apply(c, s, a), i) ==> TestOut(s, i) || Test(i) in Apply(c, s, a).flying
  {
    var n := |s.consumed|;
    assert n > 0 && s.phase.Accepted? ==> s.consumed[n - 1] == s.phase.i;
    assert s.want.Some? ==> s.want.value !in s.consumed;
  }

  lemma {:induction false} TestsComeAfter(c: Config, states: seq<State>, actions: seq<Action>, k: nat, i: nat)
    requires IsRun(c, true, states, actions) && k < |states|
    ensures TestOut(states[k], i) ==> PastTest(states[k], i)
  {
    if k > 0 {
      TestsComeAfter(c, states, actions, k - 1, i);
      OrderedRun(c, true, states, actions, k - 1);
      TestStep(c, states[k - 1], actions[k - 1], i);
      hide Apply, Enabled, PastTest, Ordered, TestOut;
    }
  }

  /** Step `k` puts test batch `i` on its way. */
  ghost predicate SendsTest(states: seq<State>, k: nat, i: nat) {
    k + 1 < |states| && Test(i) !in states[k].flying && Test(i) in states[k + 1].flying
  }

  lemma {:induction false} SendsTestIff(c: Config, states: seq<State>, actions: seq<Action>, k: nat, i: nat)
    requires IsRun(c, true, states, actions) && k < |actions|
    ensures SendsTest(states, k, i) <==> c.tests && i % 4 == 3 && !PastTest(states[k], i) && PastTest(states[k + 1], i)
  {
    TestsComeAfter(c, states, actions, k, i);
    OrderedRun(c, true, states, actions, k);
    TestStep(c, states[k], actions[k], i);
    hide Apply, Enabled, Ordered;
  }

  lemma {:induction false} PastTestStays(c: Config, states: seq<State>, actions: seq<Action>, k: nat, i: nat)
    requires IsRun(c, true, states, actions) && k < |actions| && PastTest(states[k], i)
    ensures PastTest(states[k + 1], i)
  {
    OrderedRun(c, true, states, actions, k);
    TestStep(c, states[k], actions[k], i);
    hide Apply, Enabled, PastTest, Ordered;
  }

  /**
   In a fresh run with tests on, a test batch is sent for exactly those consumed indices that
   leave remainder 3 modulo 4, once the round of the index has got that far; with tests off,
   for none.
   */
  lemma {:induction false} TestsFollow(c: Config, states: seq<State>, actions: seq<Action>, n: nat, i: nat)
    requires IsRun(c, true, states, actions) && n < |states|
    ensures (exists k | 0 <= k < n :: SendsTest(states, k, i)) <==> c.tests && i % 4 == 3 && PastTest(states[n], i)
  {
    if n > 0 {
      hide SendsTest, PastTest, IsRun;
      TestsFollow(c, states, actions, n - 1, i);
      SendsTestIff(c, states, actions, n - 1, i);
      if PastTest(states[n - 1], i) {
        PastTestStays(c, states, actions, n - 1, i);
      }
      if k :| 0 <= k < n && SendsTest(states, k, i) {
        assert k == n - 1 || exists j | 0 <= j < n - 1 :: SendsTest(states, j, i);
      }
    }
  }

  // ---------------------------------------------------------------- the window, in a fresh run

  /** Sent by this run, as one of the first batches or later. */
  ghost predicate WasSent(s: State, j: nat) {
    j < s.first || j in s.sent
  }

  /** Sent, and not yet taken off the measuring machine. */
  ghost predicate Outstanding(s: State, j: nat) {
    Tuning(j) in s.flying || Tuning(j) in s.measured
  }

  ghost predicate Accounted(s: State, j: nat) {
    && !(Tuning(j) in s.flying && Tuning(j) in s.measured)
    && (Outstanding(s, j) <==> WasSent(s, j) && (j in s.consumed ==> s.phase.InHand(j)))
    && (s.phase.InHand(j) ==> Tuning(j) in s.measured)
  }

  ghost predicate Windowed(c: Config, s: State) {
    && Ordered(c, s)
    && s.first == (if s.phase.Starting? then s.phase.next else c.window)
    && s.first <= c.window
    && (s.consumed != [] ==> s.consumed[0] < c.window)
    && forall j: nat :: Accounted(s, j)
  }

  /** Answers to different batches are different, and none is one of the first batches. */
  lemma {:induction false} SentIsNew(c: Config, s: State)
    requires Windowed(c, s) && s.phase.Tested?
    ensures !WasSent(s, s.phase.i + c.window) && s.phase.i + c.window !in s.consumed
  {
  }

  lemma {:induction false} WindowedStep(c: Config, s: State, a: Action)
    requires Windowed(c, s) && Enabled(c, s, a)
    ensures Windowed(c, Apply(c, s, a))
  {
    var s' := Apply(c, s, a);
    OrderedStep(c, s, a);
    if a.SendNext? {
      SentIsNew(c, s);
    }
    if a.Poll? && a.x.Tuning? {
      assert Accounted(s, a.x.idx);
    }
    if a.Archive? {
      assert s.consumed[|s.consumed| - 1] == s.phase.i;
    }
    forall j: nat ensures Accounted(s', j) {
      assert Accounted(s, j);
    }
  }

  lemma {:induction false} WindowedRun(c: Config, states: seq<State>, actions: seq<Action>, i: nat)
    requires IsRun(c, true, states, actions) && i < |states|
    ensures Windowed(c, states[i])
  {
    if i == 0 {
      assert forall j: nat :: Accounted(states[0], j);
    } else {
      WindowedRun(c, states, actions, i - 1);
      WindowedStep(c, states[i - 1], actions[i - 1]);
    }
  }

  /** No batch is ever sent twice, the first ones included. */
  lemma {:induction false} NeverSendsTwice(c: Config, states: seq<State>, actions: seq<Action>, i: nat)
    requires IsRun(c, true, states, actions) && i < |actions|
    ensures actions[i].SendFirst? ==> !WasSent(states[i], states[i].phase.next)
    ensures actions[i].SendNext? ==> !WasSent(states[i], states[i].phase.i + c.window)
  {
    WindowedRun(c, states, actions, i);
    if actions[i].SendNext? {
      SentIsNew(c, states[i]);
    }
  }

  // ---------------------------------------------------------------- when the loop stalls

  /** A batch below the wanted one is waiting, or will be, and nothing will ever take it. */
  ghost predicate Left(s: State) {
    s.want.Some? && exists j: nat :: Outstanding(s, j) && j < s.want.value && !s.phase.InHand(j)
  }

  /** By its outcome: a fresh run leaves a batch behind exactly when the first it took was not 0. */
  lemma {:induction false} LeftBehindByResult(c: Config, states: seq<State>, actions: seq<Action>, i: nat)
    requires IsRun(c, true, states, actions) && i < |states|
    requires states[i].consumed != []
    ensures Left(states[i]) <==> states[i].consumed[0] != 0
  {
    WindowedRun(c, states, actions, i);
    var s := states[i];
    if s.consumed[0] != 0 {
      assert Accounted(s, 0);
      assert Outstanding(s, 0) && !s.phase.InHand(0);
    } else {
      forall j: nat | Outstanding(s, j) && j < s.want.value
        ensures s.phase.InHand(j)
      {
        assert Accounted(s, j);
        assert s.consumed[j] == j;
      }
    }
  }

  predicate TakesTuning(a: Action) {
    a.Poll? && a.x.Tuning?
  }

  /** The first time the loop looks at a tuning batch. */
  ghost predicate FirstLook(actions: seq<Action>, k: nat) {
    k < |actions| && TakesTuning(actions[k]) && forall j | 0 <= j < k :: !TakesTuning(actions[j])
  }

  /** Until then nothing is wanted or consumed. */
  lemma {:induction false} NothingBefore(c: Config, anew: bool, states: seq<State>, actions: seq<Action>, k: nat, j: nat)
    requires IsRun(c, anew, states, actions) && FirstLook(actions, k) && j <= k
    ensures states[j].want == None && states[j].consumed == []
  {
    if j > 0 {
      NothingBefore(c, anew, states, actions, k, j - 1);
      assert !TakesTuning(actions[j - 1]);
    }
  }

  /** The batch taken then is the lowest that is waiting, and stays the first of all. */
  lemma {:induction false} FirstTaken(c: Config, anew: bool, states: seq<State>, actions: seq<Action>, k: nat, i: nat)
    requires IsRun(c, anew, states, actions) && FirstLook(actions, k) && k < i < |states|
    ensures states[i].consumed != [] && states[i].consumed[0] == actions[k].x.idx
    ensures actions[k].x.idx == 0 <==> Tuning(0) in states[k].measured
  {
    NothingBefore(c, anew, states, actions, k, k);
    assert Enabled(c, states[k], actions[k]) && states[k + 1] == Apply(c, states[k], actions[k]);
    assert Tuning(0) in states[k].measured ==> actions[k].x == Tuning(0) || Before(actions[k].x, Tuning(0));
    if i > k + 1 {
      FirstTaken(c, anew, states, actions, k, i - 1);
      assert Enabled(c, states[i - 1], actions[i - 1]) && states[i] == Apply(c, states[i - 1], actions[i - 1]);
    }
  }

  /** Looking at a tuning batch for the first time always takes it, and what is taken stays taken. */
  lemma {:induction false} LookTakes(c: Config, anew: bool, states: seq<State>, actions: seq<Action>, k: nat, i: nat)
    requires IsRun(c, anew, states, actions) && k < i < |states| && TakesTuning(actions[k])
    ensures states[i].consumed != []
    decreases i
  {
    if i == k + 1 {
      OrderedRun(c, anew, states, actions, k);
    } else {
      LookTakes(c, anew, states, actions, k, i - 1);
    }
    assert Enabled(c, states[i - 1], actions[i - 1]) && states[i] == Apply(c, states[i - 1], actions[i - 1]);
  }

  /** Nothing is taken without a look. */
  lemma {:induction false} LookBefore(c: Config, anew: bool, states: seq<State>, actions: seq<Action>, i: nat) returns (k: nat)
    requires IsRun(c, anew, states, actions) && i < |states| && states[i].consumed != []
    ensures k < i && FirstLook(actions, k)
  {
    assert i > 0;
    k := i - 1;
    if states[k].consumed != [] {
      k := LookBefore(c, anew, states, actions, k);
    } else {
      assert Enabled(c, states[k], actions[k]) && states[i] == Apply(c, states[k], actions[k]);
      forall j | 0 <= j < k
        ensures !TakesTuning(actions[j])
      {
        if TakesTuning(actions[j]) {
          LookTakes(c, anew, states, actions, j, k);
        }
      }
    }
  }

  /**
   Between rounds of a fresh run the batches in flight are exactly the next `window` ones, if
   batch 0 was measured when the loop first looked at a tuning batch, or it has not looked yet.
   */
  lemma {:induction false} WindowIsFull(c: Config, states: seq<State>, actions: seq<Action>, i: nat, j: nat)
    requires IsRun(c, true, states, actions) && i < |states|
    requires states[i].phase.Polling?
    requires forall k | 0 <= k < i && FirstLook(actions, k) :: Tuning(0) in states[k].measured
    ensures var n := |states[i].consumed|;
            Outstanding(states[i], j) <==> n <= j < n + c.window
  {
    var s := states[i];
    var n := |s.consumed|;
    if n > 0 {
      var k := LookBefore(c, true, states, actions, i);
      FirstTaken(c, true, states, actions, k, i);
    }
    WindowedRun(c, states, actions, i);
    assert Accounted(s, j);
    assert j < n ==> s.consumed[j] == j;
    assert c.window <= j < n + c.window ==> s.sent[j - c.window] == j;
  }

  /**
   A fresh run leaves a batch behind if and only if batch 0 is not yet measured when the loop
   first looks at a tuning batch.
   */
  lemma {:induction false} LeftBehindIff(c: Config, states: seq<State>, actions: seq<Action>, k: nat, i: nat)
    requires IsRun(c, true, states, actions) && FirstLook(actions, k) && k < i < |states|
    ensures Left(states[i]) <==> Tuning(0) !in states[k].measured
  {
    FirstTaken(c, true, states, actions, k, i);
    LeftBehindByResult(c, states, actions, i);
  }

  /** Once such a batch has been measured and no round is under way, nothing is consumed again. */
  ghost predicate Stalled(s: State) {
    s.phase.Polling? && s.want.Some? && exists j: nat :: Tuning(j) in s.measured && j < s.want.value
  }

  lemma {:induction false} StalledForever(c: Config, s: State, a: Action)
    requires Stalled(s) && Enabled(c, s, a)
    ensures Stalled(Apply(c, s, a)) && Apply(c, s, a).consumed == s.consumed
  {
    var j: nat :| Tuning(j) in s.measured && j < s.want.value;
    var s' := Apply(c, s, a);
    if a.Poll? && a.x.Tuning? {
      assert a.x.idx <= j;
    }
    assert Tuning(j) in s'.measured;
  }

  /** So it is for the rest of every run. */
  lemma {:induction false} StalledRun(c: Config, anew: bool, states: seq<State>, actions: seq<Action>, i: nat, j: nat)
    requires IsRun(c, anew, states, actions) && i <= j < |states|
    requires Stalled(states[i])
    ensures Stalled(states[j]) && states[j].consumed == states[i].consumed
    decreases j
  {
    if i < j {
      StalledRun(c, anew, states, actions, i, j - 1);
      StalledForever(c, states[j - 1], actions[j - 1]);
    }
  }

  const FRESH := State({}, {}, None, Starting(0), 0, [], [])

  /** With two batches ahead, the second may finish first. Then the loop takes it and stalls on the other. */
  lemma {:induction false} StallingRun(c: Config) returns (states: seq<State>, actions: seq<Action>)
    requires c == Config(2, false)
    ensures IsRun(c, true, states, actions) && FirstLook(actions, 4)
    ensures Tuning(0) !in states[4].measured
    ensures Stalled(states[|actions|]) && states[|actions|].consumed == [1]
  {
    var s0 := FRESH;
    var s1 := Apply(c, s0, SendFirst);
    var s2 := Apply(c, s1, SendFirst);
    var s3 := Apply(c, s2, EndStart);
    var s4 := Apply(c, s3, Finish(Tuning(1)));
    var s5 := Apply(c, s4, Poll(Tuning(1)));
    var s6 := Apply(c, s5, SendTest);
    var s7 := Apply(c, s6, SendNext);
    var s8 := Apply(c, s7, Archive);
    var s9 := Apply(c, s8, Finish(Tuning(0)));
    states := [s0, s1, s2, s3, s4, s5, s6, s7, s8, s9];
    actions := [SendFirst, SendFirst, EndStart, Finish(Tuning(1)), Poll(Tuning(1)), SendTest, SendNext, Archive,
                Finish(Tuning(0))];
    assert Tuning(0) in s9.measured;
  }
}
