/**
 A task's latency history, as the scheduler rewrites it: running minimum, then zero padding
 up to the window. The score is how much the latency fell across the window.
 */
module Latency {

  function Min(a: real, b: real): real {
    if a <= b then a else b
  }

  /** Each entry replaced by the least entry up to it. */
  function RunMin(s: seq<real>): (r: seq<real>)
    ensures |r| == |s|
    ensures s != [] ==> r[0] == s[0]
  {
    if |s| <= 1 then s
    else
      var r := RunMin(s[..|s| - 1]);
      r + [Min(s[|s| - 1], r[|r| - 1])]
  }

  function Zeros(n: nat): (r: seq<real>)
    ensures |r| == n && forall i | 0 <= i < n :: r[i] == 0.0
  {
    seq(n, _ => 0.0)
  }

  function Pad(s: seq<real>, w: nat): (r: seq<real>)
    ensures |r| == if |s| < w then w else |s|
    ensures r[..|s|] == s && forall i | |s| <= i < |r| :: r[i] == 0.0
  {
    if |s| < w then s + Zeros(w - |s|) else s
  }

  /** What one round with window `w` leaves in the list. */
  function Process(s: seq<real>, w: nat): seq<real> {
    Pad(RunMin(s), w)
  }

  /** `s[-w:]` */
  function Last(s: seq<real>, w: nat): (r: seq<real>)
    ensures |r| == if |s| < w then |s| else w
  {
    if |s| < w then s else s[|s| - w..]
  }

  function Least(s: seq<real>): (r: real)
    requires s != []
    ensures r in s && forall i | 0 <= i < |s| :: r <= s[i]
  {
    if |s| == 1 then s[0] else Min(Least(s[..|s| - 1]), s[|s| - 1])
  }

  function Score(s: seq<real>, w: nat): real
    requires w > 0
  {
    var view := Last(Process(s, w), w);
    view[0] - Least(view)
  }

  // ---------------------------------------------------------------- the shape of a processed list

  ghost predicate NonNegative(s: seq<real>) {
    forall i | 0 <= i < |s| :: s[i] >= 0.0
  }

  ghost predicate NonIncreasing(s: seq<real>) {
    forall i, j | 0 <= i <= j < |s| :: s[j] <= s[i]
  }

  lemma {:induction false} RunMinShape(s: seq<real>)
    ensures NonIncreasing(RunMin(s))
    ensures NonNegative(s) ==> NonNegative(RunMin(s))
  {
    if |s| > 1 {
      RunMinShape(s[..|s| - 1]);
    }
  }

  lemma {:induction false} RunMinOfNonIncreasing(s: seq<real>)
    requires NonIncreasing(s)
    ensures RunMin(s) == s
  {
    if |s| > 1 {
      RunMinOfNonIncreasing(s[..|s| - 1]);
    }
  }

  /** A processed list falls, and zeros only ever follow its own entries. */
  lemma {:induction false} ProcessShape(s: seq<real>, w: nat)
    requires NonNegative(s)
    ensures NonIncreasing(Process(s, w)) && NonNegative(Process(s, w))
    ensures Process(s, w)[..|s|] == RunMin(s)
    ensures forall i | |s| <= i < |Process(s, w)| :: Process(s, w)[i] == 0.0
  {
    RunMinShape(s);
    var r, p := RunMin(s), Process(s, w);
    forall i, j | 0 <= i <= j < |p|
      ensures p[j] <= p[i]
    {
      assert i < |s| ==> p[i] == p[..|s|][i];
      assert j < |s| ==> p[j] == p[..|s|][j];
    }
  }

  /** Processing again with a wider window is processing once with it. */
  lemma {:induction false} ProcessTwice(s: seq<real>, w: nat, w': nat)
    requires NonNegative(s) && w <= w'
    ensures Process(Process(s, w), w') == Process(s, w')
  {
    ProcessShape(s, w);
    RunMinOfNonIncreasing(Process(s, w));
    PadTwice(RunMin(s), w, w');
    hide Pad, RunMin;
  }

  lemma PadTwice(r: seq<real>, w: nat, w': nat)
    requires w <= w'
    ensures Pad(Pad(r, w), w') == Pad(r, w')
  {
  }

  lemma {:induction false} ScoreAfterProcess(s: seq<real>, w: nat, w': nat)
    requires NonNegative(s) && 0 < w <= w'
    ensures Score(Process(s, w), w') == Score(s, w')
  {
    ProcessTwice(s, w, w');
    hide Process;
  }

  /** The score is the fall from the first entry in view to the last. */
  lemma {:induction false} ScoreIsFall(s: seq<real>, w: nat)
    requires NonNegative(s) && w > 0
    ensures var p := Process(s, w);
            |p| >= w && Score(s, w) == p[|p| - w] - p[|p| - 1] && Score(s, w) >= 0.0
  {
    var p := Process(s, w);
    ProcessShape(s, w);
    var view := Last(p, w);
    LeastIsLast(view);
  }

  lemma LeastIsLast(s: seq<real>)
    requires s != [] && NonIncreasing(s)
    ensures Least(s) == s[|s| - 1]
  {
    var i :| 0 <= i < |s| && s[i] == Least(s);
  }

  /** Widening the window never lowers a score. */
  lemma {:induction false} ScoreWidens(s: seq<real>, w: nat, w': nat)
    requires NonNegative(s) && 0 < w <= w'
    ensures Score(s, w) <= Score(s, w')
  {
    hide Score, RunMin;
    var p, p' := Process(s, w), Process(s, w');
    ScoreIsFall(s, w);
    ScoreIsFall(s, w');
    ProcessShape(s, w');
    PadPrefix(RunMin(s), w, w', |p| - w);
    PadPrefix(RunMin(s), w, w', |p| - 1);
  }

  lemma PadPrefix(r: seq<real>, w: nat, w': nat, i: nat)
    requires w <= w' && i < |Pad(r, w)|
    ensures |Pad(r, w)| <= |Pad(r, w')| && Pad(r, w')[i] == Pad(r, w)[i]
  {
  }

  // ---------------------------------------------------------------- what is computed, from the history alone

  lemma {:induction false} RunMinPrefix(s: seq<real>, n: nat)
    requires n <= |s|
    ensures RunMin(s)[..n] == RunMin(s[..n])
  {
    if n == |s| {
      assert s[..n] == s;
    } else if n == 0 {
      assert s[..n] == [];
    } else {
      var front := s[..|s| - 1];
      RunMinPrefix(front, n);
      assert front[..n] == s[..n] && RunMin(s)[..|s| - 1] == RunMin(front);
      hide RunMin;
      assert RunMin(s)[..n] == RunMin(s)[..|s| - 1][..n];
    }
  }

  lemma {:induction false} RunMinLastIsLeast(s: seq<real>)
    requires s != []
    ensures RunMin(s)[|s| - 1] == Least(s)
  {
    if |s| > 1 {
      RunMinLastIsLeast(s[..|s| - 1]);
    }
  }

  /** Each entry becomes the least entry up to it. */
  lemma {:induction false} RunMinIsLeast(s: seq<real>, i: nat)
    requires i < |s|
    ensures RunMin(s)[i] == Least(s[..i + 1])
  {
    hide RunMin, Least;
    RunMinPrefix(s, i + 1);
    RunMinLastIsLeast(s[..i + 1]);
    assert RunMin(s)[..i + 1][i] == RunMin(s)[i];
  }

  /** The least latency up to place `i`, and zero beyond the history. */
  ghost function Seen(s: seq<real>, i: nat): real {
    if i < |s| then Least(s[..i + 1]) else 0.0
  }

  lemma ProcessMeans(s: seq<real>, w: nat)
    ensures |Process(s, w)| == if |s| < w then w else |s|
    ensures forall i | 0 <= i < |Process(s, w)| :: Process(s, w)[i] == Seen(s, i)
  {
    forall i | 0 <= i < |Process(s, w)|
      ensures Process(s, w)[i] == Seen(s, i)
    {
      if i < |s| {
        RunMinIsLeast(s, i);
        assert Pad(RunMin(s), w)[..|s|][i] == RunMin(s)[i];
      }
    }
  }

  /** By how much the least latency fell over the last `w` places of a history of at least that length. */
  ghost function Fall(s: seq<real>, w: nat): real
    requires w > 0
  {
    var n := if |s| < w then w else |s|;
    Seen(s, n - w) - Seen(s, n - 1)
  }

  lemma ScoreMeans(s: seq<real>, w: nat)
    requires NonNegative(s) && w > 0
    ensures Score(s, w) == Fall(s, w)
  {
    hide Process, Score, Seen;
    ScoreIsFall(s, w);
    ProcessMeans(s, w);
  }

  // ---------------------------------------------------------------- histories that keep their promise

  const MAX_WINDOW: nat := 99

  /**
   A history that still has a positive score to show at the widest window: short enough to be
   padded, or padded already.
   */
  ghost predicate Good(s: seq<real>) {
    && 0 < |s| <= MAX_WINDOW && NonNegative(s) && s[0] > 0.0
    && (|s| == MAX_WINDOW ==> s[|s| - 1] == 0.0)
  }

  lemma {:induction false} ProcessKeepsGood(s: seq<real>, w: nat)
    requires Good(s) && w <= MAX_WINDOW
    ensures Good(Process(s, w))
  {
    ProcessShape(s, w);
    var p := Process(s, w);
    assert p[0] == p[..|s|][0];
    if |s| == MAX_WINDOW {
      RunMinLast(s);
    }
  }

  lemma {:induction false} RunMinLast(s: seq<real>)
    requires s != []
    ensures RunMin(s)[|s| - 1] <= s[|s| - 1]
  {
  }

  /** At the widest window every such history scores its whole first latency. */
  lemma {:induction false} WidestScorePositive(s: seq<real>)
    requires Good(s)
    ensures Score(s, MAX_WINDOW) == s[0] > 0.0
  {
    ScoreIsFall(s, MAX_WINDOW);
    ProcessShape(s, MAX_WINDOW);
    var p := Process(s, MAX_WINDOW);
    assert p[0] == p[..|s|][0] == s[0];
    if |s| == MAX_WINDOW {
      RunMinLast(s);
      assert p[|s| - 1] == p[..|s|][|s| - 1];
    }
  }
}
