/**
 The training set of the best programs: of every group of records with one prompt the
 fastest, labelled by how close it comes to the fastest of all.
 */
module BestRecords {

  import opened Prelude
  import opened Records
  import StableSort

  datatype Line = Line(task: Json, init: Json, steps: Steps, costs: seq<real>)

  datatype Failure = NoPrompt | DivisionByZero | UnknownPlatform

  datatype Result<+T> = Ok(value: T) | Failed(failure: Failure)

  /** The time that stands for a program that did not run. */
  const NEVER := 10000000000.0

  function Sum(costs: seq<real>): real {
    if costs == [] then 0.0 else Sum(costs[..|costs| - 1]) + costs[|costs| - 1]
  }

  function Latency(line: Line): real {
    if line.costs == [0.0] || line.costs == [] then NEVER else Sum(line.costs) / |line.costs| as real
  }

  predicate Usable(line: Line) {
    Latency(line) < NEVER
  }

  /** The mean of no costs divides by zero, and a usable record must have a prompt. */
  function Fault(line: Line): Option<Failure> {
    if line.costs == [] then Some(DivisionByZero)
    else if Usable(line) && PromptOf(line.steps) == None then Some(NoPrompt)
    else None
  }

  function FirstFault(lines: seq<Line>): Option<Failure> {
    if lines == [] then None
    else
      var before := FirstFault(lines[..|lines| - 1]);
      if before.Some? then before else Fault(lines[|lines| - 1])
  }

  function Prompt(line: Line): Option<Steps> {
    PromptOf(line.steps)
  }

  // ---------------------------------------------------------------- the dictionary

  /** The place of a prompt in the dictionary, or its size. */
  function Find(best: seq<Line>, p: Option<Steps>): (i: nat)
    ensures i <= |best| && (i < |best| ==> Prompt(best[i]) == p)
    ensures forall k | 0 <= k < i :: Prompt(best[k]) != p
  {
    if best == [] then 0
    else if Prompt(best[0]) == p then 0
    else
      var i := Find(best[1..], p);
      assert forall k | 0 < k < |best| :: best[k] == best[1..][k - 1];
      i + 1
  }

  /** A new prompt goes to the end, a strictly faster record takes its group's place. */
  function Update(best: seq<Line>, line: Line): seq<Line> {
    var i := Find(best, Prompt(line));
    if !Usable(line) then best
    else if i == |best| then best + [line]
    else if Latency(best[i]) > Latency(line) then best[i := line]
    else best
  }

  function Best(lines: seq<Line>): seq<Line> {
    if lines == [] then [] else Update(Best(lines[..|lines| - 1]), lines[|lines| - 1])
  }

  function LatencyMin(lines: seq<Line>): real {
    if lines == [] then NEVER
    else
      var before := LatencyMin(lines[..|lines| - 1]);
      var last := lines[|lines| - 1];
      if Usable(last) && Latency(last) < before then Latency(last) else before
  }

  /** One record for each prompt, taken from the file. */
  ghost predicate Chosen(best: seq<Line>, lines: seq<Line>) {
    && StableSort.DistinctBy(Prompt, best)
    && forall i | 0 <= i < |best| :: best[i] in lines && Usable(best[i])
  }

  /** Some record of the same prompt is at least as fast. */
  ghost predicate Beaten(best: seq<Line>, line: Line) {
    exists i :: 0 <= i < |best| && Prompt(best[i]) == Prompt(line) && Latency(best[i]) <= Latency(line)
  }

  ghost predicate Covers(best: seq<Line>, lines: seq<Line>) {
    forall j | 0 <= j < |lines| && Usable(lines[j]) :: Beaten(best, lines[j])
  }

  lemma AppendKeepsChosen(best: seq<Line>, lines: seq<Line>, line: Line)
    requires Chosen(best, lines) && Usable(line)
    requires forall k | 0 <= k < |best| :: Prompt(best[k]) != Prompt(line)
    ensures Chosen(best + [line], lines + [line])
  {
    hide Usable, Prompt;
  }

  lemma ReplaceKeepsChosen(best: seq<Line>, lines: seq<Line>, line: Line, i: nat)
    requires Chosen(best, lines) && Usable(line) && i < |best| && Prompt(best[i]) == Prompt(line)
    ensures Chosen(best[i := line], lines + [line])
  {
    hide Usable, Prompt;
    var r := best[i := line];
    assert forall k | 0 <= k < |r| :: Prompt(r[k]) == Prompt(best[k]);
  }

  lemma UpdateKeepsChosen(best: seq<Line>, lines: seq<Line>, line: Line)
    requires Chosen(best, lines)
    ensures Chosen(Update(best, line), lines + [line])
  {
    hide Latency, Find, Prompt, Usable, StableSort.DistinctBy;
    var i := Find(best, Prompt(line));
    if Usable(line) && i == |best| {
      AppendKeepsChosen(best, lines, line);
    } else if Usable(line) && Latency(best[i]) > Latency(line) {
      ReplaceKeepsChosen(best, lines, line, i);
    } else {
      assert forall x | x in lines :: x in lines + [line];
    }
  }

  lemma UpdateBeats(best: seq<Line>, line: Line)
    requires Usable(line)
    ensures Beaten(Update(best, line), line)
  {
    hide Latency, Find;
    var i := Find(best, Prompt(line));
    var r := Update(best, line);
    assert 0 <= i < |r| && Prompt(r[i]) == Prompt(line) && Latency(r[i]) <= Latency(line);
  }

  lemma UpdateKeepsBeaten(best: seq<Line>, line: Line, other: Line)
    requires Beaten(best, other)
    ensures Beaten(Update(best, line), other)
  {
    hide Latency, Find;
    var i :| 0 <= i < |best| && Prompt(best[i]) == Prompt(other) && Latency(best[i]) <= Latency(other);
    var r := Update(best, line);
    assert 0 <= i < |r| && Prompt(r[i]) == Prompt(other) && Latency(r[i]) <= Latency(other);
  }

  lemma UpdateKeepsCovers(best: seq<Line>, lines: seq<Line>, line: Line)
    requires Covers(best, lines)
    ensures Covers(Update(best, line), lines + [line])
  {
    hide Beaten, Update, Usable;
    var all := lines + [line];
    forall j | 0 <= j < |all| && Usable(all[j])
      ensures Beaten(Update(best, line), all[j])
    {
      if j == |lines| {
        UpdateBeats(best, line);
      } else {
        assert all[j] == lines[j];
        UpdateKeepsBeaten(best, line, lines[j]);
      }
    }
  }

  lemma BestLast(lines: seq<Line>)
    requires lines != []
    ensures Best(lines) == Update(Best(lines[..|lines| - 1]), lines[|lines| - 1])
  {
  }

  /** One record per prompt, each the fastest of its group. */
  lemma {:induction false} BestOfEveryGroup(lines: seq<Line>)
    ensures Chosen(Best(lines), lines) && Covers(Best(lines), lines)
  {
    if lines == [] {
      assert Best(lines) == [];
    } else {
      hide Chosen, Covers, Best;
      var front, last := lines[..|lines| - 1], lines[|lines| - 1];
      assert lines == front + [last];
      BestOfEveryGroup(front);
      UpdateKeepsChosen(Best(front), front, last);
      UpdateKeepsCovers(Best(front), front, last);
      BestLast(lines);
    }
  }

  lemma FasterIn(best: seq<Line>, lines: seq<Line>, x: Line) returns (j: nat)
    requires Covers(best, lines) && x in lines && Usable(x)
    ensures j < |best| && Prompt(best[j]) == Prompt(x) && Latency(best[j]) <= Latency(x)
  {
    hide Latency, Usable, Prompt;
    var a :| 0 <= a < |lines| && lines[a] == x;
    assert Beaten(best, lines[a]);
    j :| 0 <= j < |best| && Prompt(best[j]) == Prompt(x) && Latency(best[j]) <= Latency(x);
  }

  /** A list with one fastest record per prompt holds, for a prompt, only one possible time. */
  lemma FastestIsUnique(best: seq<Line>, best': seq<Line>, lines: seq<Line>, i: nat) returns (j: nat)
    requires Chosen(best, lines) && Covers(best, lines) && Chosen(best', lines) && Covers(best', lines)
    requires i < |best|
    ensures j < |best'| && Prompt(best'[j]) == Prompt(best[i]) && Latency(best'[j]) == Latency(best[i])
  {
    hide Latency, Usable, Prompt, Covers;
    j := FasterIn(best', lines, best[i]);
    var k := FasterIn(best, lines, best'[j]);
    Together(best, i, k);
  }

  lemma Together(best: seq<Line>, i: nat, k: nat)
    requires StableSort.DistinctBy(Prompt, best) && i < |best| && k < |best| && Prompt(best[i]) == Prompt(best[k])
    ensures i == k
  {
    hide Prompt;
  }

  lemma SameLines(best: seq<Line>, lines: seq<Line>, lines': seq<Line>)
    requires multiset(lines) == multiset(lines')
    requires Chosen(best, lines) && Covers(best, lines)
    ensures Chosen(best, lines') && Covers(best, lines')
  {
    hide Beaten, Latency, Usable;
    forall x
      ensures x in lines <==> x in lines'
    {
      assert x in multiset(lines) <==> x in multiset(lines');
    }
    forall j | 0 <= j < |lines'| && Usable(lines'[j])
      ensures Beaten(best, lines'[j])
    {
      assert lines'[j] in lines;
    }
  }

  /** The random order of the lines does not change which prompts there are or how fast they are. */
  lemma ShuffleKeepsTimes(lines: seq<Line>, shuffled: seq<Line>, i: nat) returns (j: nat)
    requires multiset(lines) == multiset(shuffled) && i < |Best(lines)|
    ensures j < |Best(shuffled)|
    ensures Prompt(Best(shuffled)[j]) == Prompt(Best(lines)[i])
    ensures Latency(Best(shuffled)[j]) == Latency(Best(lines)[i])
  {
    hide Best, Chosen, Covers, Latency;
    BestOfEveryGroup(lines);
    BestOfEveryGroup(shuffled);
    SameLines(Best(shuffled), shuffled, lines);
    j := FastestIsUnique(Best(lines), Best(shuffled), lines, i);
  }

  /** The overall minimum is the time of the fastest usable record. */
  lemma {:induction false} LatencyMinIsLeast(lines: seq<Line>)
    ensures forall j | 0 <= j < |lines| && Usable(lines[j]) :: LatencyMin(lines) <= Latency(lines[j])
    ensures LatencyMin(lines) == NEVER || exists j | 0 <= j < |lines| :: Usable(lines[j]) && LatencyMin(lines) == Latency(lines[j])
    ensures LatencyMin(lines) <= NEVER
  {
    if lines != [] {
      hide Latency;
      var n := |lines| - 1;
      var front := lines[..n];
      LatencyMinIsLeast(front);
      assert forall j | 0 <= j < n :: front[j] == lines[j];
      if LatencyMin(front) != NEVER {
        var j :| 0 <= j < n && Usable(front[j]) && LatencyMin(front) == Latency(front[j]);
        assert Usable(lines[j]) && LatencyMin(front) == Latency(lines[j]);
      }
      assert Usable(lines[n]) || LatencyMin(lines) == LatencyMin(front);
    }
  }

  // ---------------------------------------------------------------- labels

  datatype Labelled = Labelled(line: Line, score: real)

  function LabelOf(x: Labelled): real {
    x.score
  }

  /** How close a record comes to the fastest of the file. */
  function Score(fastest: real, latency: real): real
    requires latency != 0.0
  {
    fastest / latency
  }

  function LabelAll(best: seq<Line>, fastest: real): (r: seq<Labelled>)
    requires forall i | 0 <= i < |best| :: Latency(best[i]) != 0.0
    ensures |r| == |best|
    ensures forall i | 0 <= i < |best| :: r[i] == Labelled(best[i], Score(fastest, Latency(best[i])))
  {
    seq(|best|, i requires 0 <= i < |best| => Labelled(best[i], Score(fastest, Latency(best[i]))))
  }

  predicate NoZero(best: seq<Line>) {
    forall i | 0 <= i < |best| :: Latency(best[i]) != 0.0
  }

  /** What is kept on each platform of the two the code knows. */
  function Cut(sorted: seq<Labelled>, platform: string): Result<seq<Labelled>> {
    if platform == "i7" then Ok(if sorted == [] then [] else sorted[..1])
    else if platform == "v100" then Ok(sorted)
    else Failed(UnknownPlatform)
  }

  function Dataset(lines: seq<Line>, platform: string): Result<seq<Labelled>> {
    if FirstFault(lines).Some? then Failed(FirstFault(lines).value)
    else if !NoZero(Best(lines)) then Failed(DivisionByZero)
    else Cut(StableSort.Sort(LabelOf, LabelAll(Best(lines), LatencyMin(lines))), platform)
  }

  // ---------------------------------------------------------------- the code

  lemma {:induction false} FaultStays(lines: seq<Line>, i: nat)
    requires i <= |lines| && FirstFault(lines[..i]).Some?
    ensures FirstFault(lines) == FirstFault(lines[..i])
  {
    if i < |lines| {
      var front := lines[..|lines| - 1];
      assert front[..i] == lines[..i];
      FaultStays(front, i);
    } else {
      assert lines[..i] == lines;
    }
  }

  /** What the loop does with the next line. */
  lemma NextLine(lines: seq<Line>, i: nat)
    requires i < |lines| && FirstFault(lines[..i]) == None
    ensures FirstFault(lines[..i + 1]) == Fault(lines[i])
    ensures Fault(lines[i]).Some? ==> FirstFault(lines) == Fault(lines[i])
    ensures Best(lines[..i + 1]) == Update(Best(lines[..i]), lines[i])
    ensures LatencyMin(lines[..i + 1]) ==
            if Usable(lines[i]) && Latency(lines[i]) < LatencyMin(lines[..i]) then Latency(lines[i])
            else LatencyMin(lines[..i])
  {
    hide Fault, Update, Latency, Usable;
    var upto := lines[..i + 1];
    assert upto[..i] == lines[..i];
    if Fault(lines[i]).Some? {
      FaultStays(lines, i + 1);
    }
  }

  /** What the code does with one line. */
  method TakeLine(line: Line, best0: seq<Line>, fastest0: real)
    returns (failure: Option<Failure>, best: seq<Line>, fastest: real)
    ensures failure == Fault(line)
    ensures failure == None ==>
            && best == Update(best0, line)
            && fastest == if Usable(line) && Latency(line) < fastest0 then Latency(line) else fastest0
  {
    hide PromptOf, Find, Sum;
    failure, best, fastest := None, best0, fastest0;
    var steps, prompt := ScanRecord(line.steps);
    var latency := NEVER;
    if line.costs != [0.0] {
      if line.costs == [] {
        failure := Some(DivisionByZero);
        return;
      }
      latency := Sum(line.costs) / |line.costs| as real;
    }
    assert latency == Latency(line);
    if latency < NEVER {
      fastest := if latency < fastest then latency else fastest;
      if prompt == None {
        failure := Some(NoPrompt);
        return;
      }
      var at := Find(best, prompt);
      if at == |best| {
        best := best + [line];
      } else if Latency(best[at]) > latency {
        best := best[at := line];
      }
    }
  }

  /** The records of one file, its lines in the order the shuffle left them. */
  method Collect(lines: seq<Line>) returns (failure: Option<Failure>, best: seq<Line>, fastest: real)
    ensures failure == FirstFault(lines)
    ensures failure == None ==> best == Best(lines) && fastest == LatencyMin(lines)
  {
    failure, best, fastest := None, [], NEVER;
    var i := 0;
    while i < |lines|
      invariant 0 <= i <= |lines|
      invariant failure == None == FirstFault(lines[..i])
      invariant best == Best(lines[..i]) && fastest == LatencyMin(lines[..i])
    {
      hide FirstFault, Best, LatencyMin, Fault, Update, Usable, Latency;
      NextLine(lines, i);
      failure, best, fastest := TakeLine(lines[i], best, fastest);
      if failure.Some? {
        return;
      }
      i := i + 1;
    }
    assert lines[..i] == lines;
  }

  method ForGenBest(lines: seq<Line>, platform: string) returns (r: Result<seq<Labelled>>)
    ensures r == Dataset(lines, platform)
  {
    hide FirstFault, Best, LatencyMin, Latency, StableSort.Sort;
    var failure, best, fastest := Collect(lines);
    if failure.Some? {
      return Failed(failure.value);
    }
    var labelled: seq<Labelled> := [];
    var i := 0;
    while i < |best|
      invariant 0 <= i <= |best| && NoZero(best[..i])
      invariant labelled == LabelAll(best[..i], fastest)
    {
      if Latency(best[i]) == 0.0 {
        return Failed(DivisionByZero);
      }
      assert best[..i + 1] == best[..i] + [best[i]];
      labelled := labelled + [Labelled(best[i], Score(fastest, Latency(best[i])))];
      i := i + 1;
    }
    assert best[..i] == best;
    var sorted := StableSort.Sort(LabelOf, labelled);
    if platform == "i7" {
      r := Ok(if sorted == [] then [] else sorted[..1]);
    } else if platform == "v100" {
      r := Ok(sorted);
    } else {
      r := Failed(UnknownPlatform);
    }
  }

  // ---------------------------------------------------------------- what the dataset is

  /** Measured times are not negative. */
  ghost predicate Measured(lines: seq<Line>) {
    forall i, k | 0 <= i < |lines| && 0 <= k < |lines[i].costs| :: lines[i].costs[k] >= 0.0
  }

  lemma {:induction false} SumNonNegative(costs: seq<real>)
    requires forall k | 0 <= k < |costs| :: costs[k] >= 0.0
    ensures Sum(costs) >= 0.0
  {
    if costs != [] {
      SumNonNegative(costs[..|costs| - 1]);
    }
  }

  // ---- the mean

  lemma {:induction false} SumAppend(a: seq<real>, b: seq<real>)
    ensures Sum(a + b) == Sum(a) + Sum(b)
    ensures |a| == 1 ==> Sum(a) == a[0]
  {
    if b == [] {
      assert a + b == a;
    } else {
      SumAppend(a, b[..|b| - 1]);
      assert (a + b)[..|a + b| - 1] == a + b[..|b| - 1];
    }
  }

  lemma {:induction false} SumBounds(costs: seq<real>, lo: real, hi: real)
    requires forall k | 0 <= k < |costs| :: lo <= costs[k] <= hi
    ensures |costs| as real * lo <= Sum(costs) <= |costs| as real * hi
  {
    if costs != [] {
      var n := |costs| - 1;
      SumBounds(costs[..n], lo, hi);
      OneMore(n, lo);
      OneMore(n, hi);
    }
  }

  lemma OneMore(n: nat, x: real)
    ensures (n + 1) as real * x == n as real * x + x
  {
  }

  /** The latency of a record that ran is the mean of its costs, and lies between the least and the greatest. */
  lemma LatencyIsMean(line: Line, lo: real, hi: real)
    requires line.costs != [] && line.costs != [0.0]
    requires forall k | 0 <= k < |line.costs| :: lo <= line.costs[k] <= hi
    ensures Latency(line) * |line.costs| as real == Sum(line.costs)
    ensures lo <= Latency(line) <= hi
  {
    hide Sum;
    SumBounds(line.costs, lo, hi);
    MeanBetween(|line.costs| as real, Sum(line.costs), lo, hi);
  }

  lemma MeanBetween(n: real, sum: real, lo: real, hi: real)
    requires n > 0.0 && n * lo <= sum <= n * hi
    ensures sum / n * n == sum && lo <= sum / n <= hi
  {
    var q := sum / n;
    assert q * n == sum;
    Cancel(n, q, hi);
    Cancel(n, lo, q);
  }

  lemma Cancel(n: real, a: real, b: real)
    requires n > 0.0
    ensures n * a <= n * b <==> a <= b
  {
    if a < b {
      assert n * (b - a) > 0.0;
    } else if b < a {
      assert n * (a - b) > 0.0;
    }
  }

  /** A record is usable if it ran, in under ten thousand million. */
  lemma UsableIff(line: Line)
    ensures Usable(line) <==> line.costs != [] && line.costs != [0.0] && Sum(line.costs) < 10000000000.0 * |line.costs| as real
  {
    if line.costs != [] && line.costs != [0.0] {
      LatencyIsMean(line, LeastCost(line.costs), GreatestCost(line.costs));
      var n := |line.costs| as real;
      Cancel(n, Latency(line), NEVER);
      Cancel(n, NEVER, Latency(line));
    }
  }

  ghost function LeastCost(costs: seq<real>): (r: real)
    requires costs != []
    ensures forall k | 0 <= k < |costs| :: r <= costs[k]
  {
    if |costs| == 1 then costs[0]
    else
      var r := LeastCost(costs[..|costs| - 1]);
      if r <= costs[|costs| - 1] then r else costs[|costs| - 1]
  }

  ghost function GreatestCost(costs: seq<real>): (r: real)
    requires costs != []
    ensures forall k | 0 <= k < |costs| :: costs[k] <= r
  {
    if |costs| == 1 then costs[0]
    else
      var r := GreatestCost(costs[..|costs| - 1]);
      if r >= costs[|costs| - 1] then r else costs[|costs| - 1]
  }

  lemma Quotient(a: real, b: real)
    requires a >= 0.0 && b > 0.0
    ensures a / b >= 0.0
  {
  }

  lemma LatencyNonNegative(lines: seq<Line>, line: Line)
    requires Measured(lines) && line in lines
    ensures Latency(line) >= 0.0
  {
    var i :| 0 <= i < |lines| && lines[i] == line;
    SumNonNegative(line.costs);
    if line.costs != [] {
      Quotient(Sum(line.costs), |line.costs| as real);
    }
  }

  /** A zero time is divided by exactly when some usable record has it. */
  lemma ZeroIff(lines: seq<Line>)
    requires Measured(lines)
    ensures NoZero(Best(lines)) <==> forall j | 0 <= j < |lines| && Usable(lines[j]) :: Latency(lines[j]) > 0.0
  {
    hide Latency, Best, Measured, Covers, Prompt, StableSort.DistinctBy;
    BestOfEveryGroup(lines);
    var best := Best(lines);
    if NoZero(best) {
      forall j | 0 <= j < |lines| && Usable(lines[j])
        ensures Latency(lines[j]) > 0.0
      {
        var k := FasterIn(best, lines, lines[j]);
        LatencyNonNegative(lines, best[k]);
      }
    } else {
      var k :| 0 <= k < |best| && Latency(best[k]) == 0.0;
      var j :| 0 <= j < |lines| && lines[j] == best[k];
      assert Usable(lines[j]) && Latency(lines[j]) == 0.0;
    }
  }

  /** A line the code cannot use: no costs at all, or a usable record without a partition step. */
  ghost predicate Unreadable(line: Line) {
    line.costs == [] || (Usable(line) && NoPromptStep(line.steps))
  }

  lemma FaultMeans(line: Line)
    ensures Fault(line).Some? <==> Unreadable(line)
    ensures Fault(line).Some? ==> Fault(line).value == if line.costs == [] then DivisionByZero else NoPrompt
  {
    hide Usable, PromptOf;
    PromptMeans(line.steps);
  }

  /** The failure reported is that of the first line the code cannot use. */
  lemma {:induction false} FirstFailure(lines: seq<Line>)
    ensures FirstFault(lines) == None <==> forall j | 0 <= j < |lines| :: !Unreadable(lines[j])
    ensures FirstFault(lines).Some? ==>
            exists j | 0 <= j < |lines| ::
              && Unreadable(lines[j]) && (forall i | 0 <= i < j :: !Unreadable(lines[i]))
              && FirstFault(lines).value == if lines[j].costs == [] then DivisionByZero else NoPrompt
  {
    if lines != [] {
      hide Fault, Unreadable;
      var (front, n) := (lines[..|lines| - 1], |lines| - 1);
      FirstFailure(front);
      FaultMeans(lines[n]);
      assert forall j | 0 <= j < n :: front[j] == lines[j];
      if FirstFault(front).Some? {
        var j :| 0 <= j < n && Unreadable(front[j]) && (forall i | 0 <= i < j :: !Unreadable(front[i]))
                 && FirstFault(front).value == if front[j].costs == [] then DivisionByZero else NoPrompt;
        assert Unreadable(lines[j]) && forall i | 0 <= i < j :: !Unreadable(lines[i]);
      } else {
        assert FirstFault(lines) == Fault(lines[n]);
      }
    }
  }

  /** When the code fails: a line it cannot use, a time of zero, or another platform. */
  lemma FailsIff(lines: seq<Line>, platform: string)
    requires Measured(lines)
    ensures Dataset(lines, platform).Failed? <==>
            || platform !in {"i7", "v100"}
            || (exists j | 0 <= j < |lines| :: Unreadable(lines[j]))
            || (exists j | 0 <= j < |lines| :: Usable(lines[j]) && Latency(lines[j]) <= 0.0)
  {
    hide Unreadable, FirstFault, Latency, Best, Measured, StableSort.Sort, Usable, NoZero, LatencyMin;
    FirstFailure(lines);
    ZeroIff(lines);
  }

  // ---- the labelled, sorted records

  ghost predicate AnyUsable(lines: seq<Line>) {
    exists j | 0 <= j < |lines| :: Usable(lines[j])
  }

  /** A record of the file whose score is the fastest time divided by its own, in (0, 1]. */
  ghost predicate Scored(x: Labelled, lines: seq<Line>) {
    && x.line in lines && Usable(x.line)
    && 0.0 < x.score <= 1.0
    && x.score * Latency(x.line) == LatencyMin(lines)
  }

  ghost predicate AllScored(r: seq<Labelled>, lines: seq<Line>) {
    forall i | 0 <= i < |r| :: Scored(r[i], lines)
  }

  function PromptOfRecord(x: Labelled): Option<Steps> {
    Prompt(x.line)
  }

  /** For every usable line there is a record with its prompt that is not slower. */
  ghost predicate Answers(r: seq<Labelled>, lines: seq<Line>) {
    forall j | 0 <= j < |lines| && Usable(lines[j]) ::
      exists i :: 0 <= i < |r| && PromptOfRecord(r[i]) == Prompt(lines[j]) && Latency(r[i].line) <= Latency(lines[j])
  }

  function Sorted(lines: seq<Line>): seq<Labelled>
    requires NoZero(Best(lines))
  {
    StableSort.Sort(LabelOf, LabelAll(Best(lines), LatencyMin(lines)))
  }

  lemma Ratio(m: real, l: real)
    requires 0.0 < m <= l
    ensures 0.0 < Score(m, l) <= 1.0 && Score(m, l) * l == m
  {
    var q := m / l;
    assert q * l == m;
    Product(q, l);
  }

  lemma Product(q: real, l: real)
    requires l > 0.0
    ensures q <= 0.0 ==> q * l <= 0.0
    ensures q < 1.0 ==> q * l < l
    ensures q > 1.0 ==> q * l > l
  {
    assert (q - 1.0) * l == q * l - l;
    assert q > 1.0 ==> (q - 1.0) * l > 0.0;
    assert q < 1.0 ==> (1.0 - q) * l > 0.0;
  }

  lemma FastestPositive(lines: seq<Line>)
    requires Measured(lines) && NoZero(Best(lines))
    ensures 0.0 < LatencyMin(lines)
  {
    hide Latency, Best, Measured, LatencyMin, NoZero;
    ZeroIff(lines);
    LatencyMinIsLeast(lines);
  }

  lemma LabelsScored(lines: seq<Line>, x: Labelled)
    requires Measured(lines) && NoZero(Best(lines))
    requires x in LabelAll(Best(lines), LatencyMin(lines))
    ensures Scored(x, lines)
  {
    hide Latency, Best, Measured, LatencyMin, Covers, StableSort.DistinctBy, Score;
    var best := Best(lines);
    var i :| 0 <= i < |best| && x == LabelAll(best, LatencyMin(lines))[i];
    BestOfEveryGroup(lines);
    FastestPositive(lines);
    AtMost(lines, best[i]);
    Ratio(LatencyMin(lines), Latency(best[i]));
  }

  lemma AtMost(lines: seq<Line>, x: Line)
    requires x in lines && Usable(x)
    ensures LatencyMin(lines) <= Latency(x)
  {
    hide Latency, LatencyMin;
    LatencyMinIsLeast(lines);
    var j :| 0 <= j < |lines| && lines[j] == x;
  }

  lemma SortedScored(lines: seq<Line>)
    requires Measured(lines) && NoZero(Best(lines))
    ensures AllScored(Sorted(lines), lines) && StableSort.Descending(LabelOf, Sorted(lines))
  {
    hide StableSort.Sort, StableSort.Descending, Best, LatencyMin, Measured, Scored;
    var labels := LabelAll(Best(lines), LatencyMin(lines));
    var r := Sorted(lines);
    StableSort.SortSorts(LabelOf, labels);
    forall i | 0 <= i < |r|
      ensures Scored(r[i], lines)
    {
      StableSort.SortMembers(LabelOf, labels, r[i]);
      LabelsScored(lines, r[i]);
    }
  }

  lemma SortedDistinct(lines: seq<Line>)
    requires NoZero(Best(lines))
    ensures StableSort.DistinctBy(PromptOfRecord, Sorted(lines))
  {
    hide StableSort.Sort, Best, LatencyMin, Latency, Prompt, Covers;
    BestOfEveryGroup(lines);
    var labels := LabelAll(Best(lines), LatencyMin(lines));
    assert StableSort.DistinctBy(PromptOfRecord, labels);
    StableSort.SortKeepsDistinct(LabelOf, PromptOfRecord, labels);
  }

  /** A usable line and the record that answers for it. */
  lemma AnswerFor(lines: seq<Line>, x: Line) returns (i: nat)
    requires NoZero(Best(lines)) && x in lines && Usable(x)
    ensures i < |Sorted(lines)|
    ensures PromptOfRecord(Sorted(lines)[i]) == Prompt(x) && Latency(Sorted(lines)[i].line) <= Latency(x)
  {
    hide StableSort.Sort, Best, LatencyMin, Latency, Prompt, Covers, Chosen;
    BestOfEveryGroup(lines);
    var labels := LabelAll(Best(lines), LatencyMin(lines));
    var k := FasterIn(Best(lines), lines, x);
    StableSort.SortMembers(LabelOf, labels, labels[k]);
    i :| 0 <= i < |Sorted(lines)| && Sorted(lines)[i] == labels[k];
  }

  lemma SortedAnswers(lines: seq<Line>)
    requires NoZero(Best(lines))
    ensures Answers(Sorted(lines), lines)
  {
    hide Sorted, Latency, Prompt, NoZero, Best;
    forall j | 0 <= j < |lines| && Usable(lines[j])
      ensures exists i :: 0 <= i < |Sorted(lines)| && PromptOfRecord(Sorted(lines)[i]) == Prompt(lines[j])
                          && Latency(Sorted(lines)[i].line) <= Latency(lines[j])
    {
      var i := AnswerFor(lines, lines[j]);
    }
  }

  /** The first record is the fastest of the file and has score one. */
  lemma HeadIsFastest(lines: seq<Line>)
    requires Measured(lines) && NoZero(Best(lines)) && AnyUsable(lines)
    ensures Sorted(lines) != [] && Sorted(lines)[0].score == 1.0
  {
    hide Sorted, Latency, Prompt, NoZero, Best, LatencyMin, Measured;
    LatencyMinIsLeast(lines);
    var j :| 0 <= j < |lines| && Usable(lines[j]) && Latency(lines[j]) == LatencyMin(lines);
    var i := AnswerFor(lines, lines[j]);
    SortedScored(lines);
    FastestPositive(lines);
    ScoreOne(lines, Sorted(lines), i);
  }

  lemma ScoreOne(lines: seq<Line>, r: seq<Labelled>, i: nat)
    requires AllScored(r, lines) && StableSort.Descending(LabelOf, r)
    requires i < |r| && 0.0 < LatencyMin(lines) && Latency(r[i].line) <= LatencyMin(lines)
    ensures r[0].score == 1.0
  {
    hide Latency, LatencyMin, Usable;
    assert Scored(r[i], lines) && Scored(r[0], lines);
    AtLeastOne(r[i].score, Latency(r[i].line), LatencyMin(lines));
    assert LabelOf(r[0]) >= LabelOf(r[i]);
  }

  lemma AtLeastOne(s: real, l: real, m: real)
    requires 0.0 < s <= 1.0 && s * l == m && 0.0 < m && l <= m
    ensures s == 1.0
  {
    Product(l, s);
    Product(s, if l > 0.0 then l else 1.0);
  }

  lemma NothingUsable(lines: seq<Line>)
    requires NoZero(Best(lines)) && !AnyUsable(lines)
    ensures Sorted(lines) == []
  {
    hide Latency, LatencyMin, Best, Chosen, Covers, AnyUsable;
    BestOfEveryGroup(lines);
    if Best(lines) != [] {
      ChosenUsable(Best(lines), lines);
    }
  }

  lemma ChosenUsable(best: seq<Line>, lines: seq<Line>)
    requires Chosen(best, lines) && best != []
    ensures AnyUsable(lines)
  {
    hide Usable;
    assert best[0] in lines && Usable(best[0]);
  }

  /** On the platform that keeps all: one record per prompt, the fastest of it, best first. */
  lemma AllKept(lines: seq<Line>, r: seq<Labelled>)
    requires Measured(lines) && Dataset(lines, "v100") == Ok(r)
    ensures AllScored(r, lines) && Answers(r, lines)
    ensures StableSort.DistinctBy(PromptOfRecord, r) && StableSort.Descending(LabelOf, r)
    ensures r != [] <==> AnyUsable(lines)
    ensures r != [] ==> r[0].score == 1.0
  {
    hide AllScored, Answers, StableSort.DistinctBy, StableSort.Descending, AnyUsable, Measured, StableSort.Sort,
         FirstFault, Best, NoZero, LatencyMin;
    assert r == Sorted(lines);
    SortedScored(lines);
    SortedAnswers(lines);
    SortedDistinct(lines);
    if AnyUsable(lines) {
      HeadIsFastest(lines);
    } else {
      NothingUsable(lines);
    }
  }

  /** On the platform that keeps one: the fastest record of the file. */
  lemma OneKept(lines: seq<Line>, r: seq<Labelled>)
    requires Measured(lines) && Dataset(lines, "i7") == Ok(r)
    ensures |r| == if AnyUsable(lines) then 1 else 0
    ensures forall i, j | 0 <= i < |r| && 0 <= j < |lines| && Usable(lines[j]) ::
              r[i].line in lines && r[i].score == 1.0 && Latency(r[i].line) <= Latency(lines[j])
  {
    hide AnyUsable, Measured, StableSort.Sort, StableSort.Descending, FirstFault, Best, NoZero, LatencyMin, Latency, Usable;
    assert r == if Sorted(lines) == [] then [] else Sorted(lines)[..1];
    if AnyUsable(lines) {
      HeadIsFastest(lines);
      SortedScored(lines);
      LatencyMinIsLeast(lines);
      assert Scored(r[0], lines);
    } else {
      NothingUsable(lines);
    }
  }

  /**
   Two usable lines whose steps up to the last partition step differ only in tile sizes have
   one record between them, and it is as fast as either.
   */
  lemma OneRecordPerProgram(lines: seq<Line>, r: seq<Labelled>, a: nat, b: nat, n: nat) returns (k: nat)
    requires Measured(lines) && Dataset(lines, "v100") == Ok(r)
    requires a < |lines| && b < |lines| && Usable(lines[a]) && Usable(lines[b])
    requires LastAt(lines[a].steps, n) && LastAt(lines[b].steps, n)
    requires forall i | 0 <= i <= n :: Alike(lines[a].steps[i], lines[b].steps[i])
    ensures k < |r| && PromptOfRecord(r[k]) == Prompt(lines[a]) == Prompt(lines[b])
    ensures Latency(r[k].line) <= Latency(lines[a]) && Latency(r[k].line) <= Latency(lines[b])
    ensures forall l | 0 <= l < |r| && l != k :: PromptOfRecord(r[l]) != Prompt(lines[a])
  {
    hide Dataset, Measured, Usable, Latency, LastAt, Alike, PromptOf, AllScored;
    AllKept(lines, r);
    SamePromptIff(lines[a].steps, lines[b].steps, n, n);
    k :| 0 <= k < |r| && PromptOfRecord(r[k]) == Prompt(lines[a]) && Latency(r[k].line) <= Latency(lines[a]);
    var k' :| 0 <= k' < |r| && PromptOfRecord(r[k']) == Prompt(lines[b]) && Latency(r[k'].line) <= Latency(lines[b]);
    SameRecord(r, k, k');
    forall l | 0 <= l < |r| && l != k
      ensures PromptOfRecord(r[l]) != Prompt(lines[a])
    {
      if PromptOfRecord(r[l]) == Prompt(lines[a]) {
        SameRecord(r, k, l);
      }
    }
  }

  lemma SameRecord(r: seq<Labelled>, i: nat, k: nat)
    requires StableSort.DistinctBy(PromptOfRecord, r) && i < |r| && k < |r| && PromptOfRecord(r[i]) == PromptOfRecord(r[k])
    ensures i == k
  {
    hide PromptOfRecord;
  }
}
