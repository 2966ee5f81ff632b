/**
 Which files a dataset is made of: removing held-out files from a list while looping over it,
 and giving each batch every fourth of the rest.
 */
module FileSelection {
  import opened Prelude

  type Path = string

  /** What `list.remove(x)` leaves. */
  function RemoveFirst(files: seq<Path>, x: Path): seq<Path> {
    if files == [] then []
    else if files[0] == x then files[1..]
    else [files[0]] + RemoveFirst(files[1..], x)
  }

  lemma {:induction false} RemoveFirstAt(files: seq<Path>, i: nat)
    requires Distinct(files) && i < |files|
    ensures RemoveFirst(files, files[i]) == files[..i] + files[i + 1..]
  {
    if i > 0 {
      RemoveFirstAt(files[1..], i - 1);
      assert files[..i] == [files[0]] + files[1..][..i - 1];
      assert files[i + 1..] == files[1..][i..];
    }
  }

  /** The files whose base name is not `b`. */
  function Without(base: Path -> string, files: seq<Path>, b: string): seq<Path> {
    if files == [] then []
    else (if base(files[0]) == b then [] else [files[0]]) + Without(base, files[1..], b)
  }

  /**
   What the loop really leaves of the rest of the list: the file after a removed one slides
   into the place just visited and is never looked at.
   */
  function Survivors(base: Path -> string, files: seq<Path>, b: string): seq<Path> {
    if files == [] then []
    else if base(files[0]) != b then [files[0]] + Survivors(base, files[1..], b)
    else if |files| == 1 then []
    else [files[1]] + Survivors(base, files[2..], b)
  }

  /** What the loop leaves in the end when it stands before place `i` of the list. */
  ghost function Outcome(base: Path -> string, files: seq<Path>, i: nat, b: string): seq<Path> {
    if i <= |files| then files[..i] + Survivors(base, files[i..], b) else files
  }

  ghost function Drop(files: seq<Path>, i: nat): seq<Path>
    requires i < |files|
  {
    files[..i] + files[i + 1..]
  }

  lemma KeepStep(base: Path -> string, files: seq<Path>, i: nat, b: string)
    requires i < |files| && base(files[i]) != b
    ensures Outcome(base, files, i + 1, b) == Outcome(base, files, i, b)
  {
    assert files[i..][1..] == files[i + 1..];
    assert files[..i + 1] == files[..i] + [files[i]];
    assert Survivors(base, files[i..], b) == [files[i]] + Survivors(base, files[i + 1..], b);
    hide Survivors;
    Assoc(files[..i], [files[i]], Survivors(base, files[i + 1..], b));
  }

  lemma RemoveStep(base: Path -> string, files: seq<Path>, i: nat, b: string)
    requires i < |files| && base(files[i]) == b
    ensures Outcome(base, Drop(files, i), i + 1, b) == Outcome(base, files, i, b)
  {
    var left := Drop(files, i);
    if i + 1 < |files| {
      assert files[i..][2..] == files[i + 2..] == left[i + 1..];
      assert left[..i + 1] == files[..i] + [files[i + 1]];
      assert Survivors(base, files[i..], b) == [files[i + 1]] + Survivors(base, files[i + 2..], b);
      hide Survivors;
      Assoc(files[..i], [files[i + 1]], Survivors(base, files[i + 2..], b));
    } else {
      assert left == files[..i];
    }
  }

  lemma DropDistinct(files: seq<Path>, i: nat)
    requires Distinct(files) && i < |files|
    ensures Distinct(Drop(files, i))
  {
    var left := Drop(files, i);
    forall j, k | 0 <= j < k < |left|
      ensures left[j] != left[k]
    {
      assert left[j] == files[if j < i then j else j + 1];
      assert left[k] == files[if k < i then k else k + 1];
    }
  }

  /** The inner loop over the list it removes from. */
  method RemoveMatching(base: Path -> string, files0: seq<Path>, b: string) returns (files: seq<Path>)
    requires Distinct(files0)
    ensures files == Survivors(base, files0, b) && Distinct(files)
  {
    hide Survivors;
    files := files0;
    var i := 0;
    assert Outcome(base, files, 0, b) == Survivors(base, files0, b) by {
      assert files[0..] == files0;
    }
    while i < |files|
      invariant 0 <= i <= |files| + 1 && Distinct(files)
      invariant Outcome(base, files, i, b) == Survivors(base, files0, b)
      decreases |files| - i
    {
      hide Outcome, Distinct;
      var file := files[i];
      if base(file) == b {
        RemoveFirstAt(files, i);
        RemoveStep(base, files, i, b);
        DropDistinct(files, i);
        files := RemoveFirst(files, file);
      } else {
        KeepStep(base, files, i, b);
      }
      i := i + 1;
    }
    AtEnd(base, files, i, b);
  }

  lemma AtEnd(base: Path -> string, files: seq<Path>, i: nat, b: string)
    requires i >= |files|
    ensures Outcome(base, files, i, b) == files
  {
  }

  ghost predicate NoAdjacentMatches(base: Path -> string, files: seq<Path>, b: string) {
    forall i | 0 <= i < |files| - 1 :: !(base(files[i]) == b && base(files[i + 1]) == b)
  }

  lemma {:induction false} WithoutHasNone(base: Path -> string, files: seq<Path>, b: string, x: Path)
    ensures x in Without(base, files, b) <==> x in files && base(x) != b
  {
    if files != [] {
      WithoutHasNone(base, files[1..], b, x);
    }
  }

  /** The adjacent pairs of a list are the first pair and those of the tail. */
  lemma Neighbours(base: Path -> string, files: seq<Path>, b: string)
    requires |files| > 1
    ensures NoAdjacentMatches(base, files, b) <==>
            NoAdjacentMatches(base, files[1..], b) && !(base(files[0]) == b && base(files[1]) == b)
  {
    var tail := files[1..];
    assert forall i | 0 <= i < |tail| :: tail[i] == files[i + 1];
    assert forall i | 0 < i < |files| :: files[i] == tail[i - 1];
  }

  lemma TwoMatches(base: Path -> string, files: seq<Path>, b: string)
    requires |files| > 1 && base(files[0]) == b && base(files[1]) == b
    ensures Survivors(base, files, b) != Without(base, files, b)
  {
    WithoutHasNone(base, files, b, files[1]);
    assert Survivors(base, files, b)[0] == files[1];
  }

  lemma Cancel<T>(x: T, s: seq<T>, t: seq<T>)
    ensures [x] + s == [x] + t <==> s == t
  {
    assert ([x] + s)[1..] == s && ([x] + t)[1..] == t;
  }

  /** The loop removes what it should if and only if no two neighbours both have the name. */
  lemma {:induction false} RemovesAllIff(base: Path -> string, files: seq<Path>, b: string)
    ensures Survivors(base, files, b) == Without(base, files, b) <==> NoAdjacentMatches(base, files, b)
    decreases |files|
  {
    if |files| <= 1 {
    } else if base(files[0]) != b {
      hide NoAdjacentMatches;
      RemovesAllIff(base, files[1..], b);
      Neighbours(base, files, b);
      Cancel(files[0], Survivors(base, files[1..], b), Without(base, files[1..], b));
    } else if base(files[1]) == b {
      hide Survivors, Without;
      TwoMatches(base, files, b);
    } else {
      SkipStep(base, files, b);
      RemovesAllIff(base, files[2..], b);
    }
  }

  /** A removed file and the one after it, which is not looked at and need not be. */
  lemma SkipStep(base: Path -> string, files: seq<Path>, b: string)
    requires |files| > 1 && base(files[0]) == b && base(files[1]) != b
    ensures Survivors(base, files, b) == Without(base, files, b) <==>
            Survivors(base, files[2..], b) == Without(base, files[2..], b)
    ensures NoAdjacentMatches(base, files, b) <==> NoAdjacentMatches(base, files[2..], b)
  {
    assert files[1..][1..] == files[2..];
    assert Without(base, files, b) == Without(base, files[1..], b) == [files[1]] + Without(base, files[2..], b);
    Cancel(files[1], Survivors(base, files[2..], b), Without(base, files[2..], b));
    Neighbours(base, files, b);
    if |files| > 2 {
      Neighbours(base, files[1..], b);
    }
  }

  // ---- several held-out names, one pass each ----

  function Names(base: Path -> string, paths: seq<Path>): seq<string> {
    seq(|paths|, i requires 0 <= i < |paths| => base(paths[i]))
  }

  function AfterPasses(base: Path -> string, files: seq<Path>, outs: seq<string>): seq<Path>
    decreases |outs|
  {
    if outs == [] then files else AfterPasses(base, Survivors(base, files, outs[0]), outs[1..])
  }

  /** The files whose base name is not among `names`. */
  function Keep(base: Path -> string, files: seq<Path>, names: set<string>): seq<Path> {
    if files == [] then []
    else Keep(base, files[..|files| - 1], names)
         + if base(files[|files| - 1]) in names then [] else [files[|files| - 1]]
  }

  /**
   What a caller can look at beforehand: when the pass for a name begins, and all files with
   earlier names are gone, no two neighbours have that name.
   */
  ghost predicate Separable(base: Path -> string, files: seq<Path>, outs: seq<string>)
    decreases |outs|
  {
    outs == [] ||
    (NoAdjacentMatches(base, files, outs[0]) && Separable(base, Without(base, files, outs[0]), outs[1..]))
  }

  /** One pass keeps what it is not after, and two matching neighbours leave a match behind. */
  lemma {:induction false} SurvivorKept(base: Path -> string, files: seq<Path>, b: string, x: Path)
    requires x in files && base(x) != b
    ensures x in Survivors(base, files, b)
    decreases |files|
  {
    if base(files[0]) != b {
      if x != files[0] {
        SurvivorKept(base, files[1..], b, x);
      }
    } else if x != files[1] {
      SurvivorKept(base, files[2..], b, x);
    }
  }

  lemma {:induction false} MatchLeft(base: Path -> string, files: seq<Path>, b: string) returns (x: Path)
    requires !NoAdjacentMatches(base, files, b)
    ensures x in Survivors(base, files, b) && base(x) == b
    decreases |files|
  {
    if base(files[0]) != b {
      Neighbours(base, files, b);
      x := MatchLeft(base, files[1..], b);
    } else if base(files[1]) == b {
      x := files[1];
    } else {
      SkipStep(base, files, b);
      x := MatchLeft(base, files[2..], b);
    }
  }

  lemma {:induction false} PassesKeep(base: Path -> string, files: seq<Path>, outs: seq<string>, x: Path)
    requires x in files && base(x) !in outs
    ensures x in AfterPasses(base, files, outs)
    decreases |outs|
  {
    if outs != [] {
      SurvivorKept(base, files, outs[0], x);
      PassesKeep(base, Survivors(base, files, outs[0]), outs[1..], x);
    }
  }

  lemma {:induction false} KeepMember(base: Path -> string, files: seq<Path>, names: set<string>, x: Path)
    ensures x in Keep(base, files, names) <==> x in files && base(x) !in names
  {
    if files != [] {
      KeepMember(base, files[..|files| - 1], names, x);
      assert files == files[..|files| - 1] + [files[|files| - 1]];
    }
  }

  lemma {:induction false} WithoutAppend(base: Path -> string, s: seq<Path>, t: seq<Path>, b: string)
    ensures Without(base, s + t, b) == Without(base, s, b) + Without(base, t, b)
  {
    if s == [] {
      assert s + t == t;
    } else {
      WithoutAppend(base, s[1..], t, b);
      assert (s + t)[1..] == s[1..] + t && (s + t)[0] == s[0];
      var head := if base(s[0]) == b then [] else [s[0]];
      assert Without(base, s, b) == head + Without(base, s[1..], b);
      assert Without(base, s + t, b) == head + Without(base, s[1..] + t, b);
      hide Without;
      Assoc(head, Without(base, s[1..], b), Without(base, t, b));
    }
  }

  lemma {:induction false} KeepAppend(base: Path -> string, s: seq<Path>, t: seq<Path>, names: set<string>)
    ensures Keep(base, s + t, names) == Keep(base, s, names) + Keep(base, t, names)
  {
    if t == [] {
      assert s + t == s;
    } else {
      var front, x := t[..|t| - 1], t[|t| - 1];
      KeepAppend(base, s, front, names);
      assert (s + t)[..|s + t| - 1] == s + front && (s + t)[|s + t| - 1] == x;
      var last := if base(x) in names then [] else [x];
      assert Keep(base, t, names) == Keep(base, front, names) + last;
      assert Keep(base, s + t, names) == Keep(base, s + front, names) + last;
      hide Keep;
      Assoc(Keep(base, s, names), Keep(base, front, names), last);
    }
  }

  lemma KeepWithoutOne(base: Path -> string, x: Path, b: string, names: set<string>)
    ensures Keep(base, Without(base, [x], b), names) == Keep(base, [x], names + {b})
  {
    assert [x][1..] == [] && [x][..0] == [];
    assert Without(base, [x], b) == if base(x) == b then [] else [x];
  }

  /** Removing the names one after the other is removing them all. */
  lemma {:induction false} KeepWithout(base: Path -> string, files: seq<Path>, b: string, names: set<string>)
    ensures Keep(base, Without(base, files, b), names) == Keep(base, files, names + {b})
  {
    if files != [] {
      hide Keep, Without;
      var init, x := files[..|files| - 1], files[|files| - 1];
      assert files == init + [x];
      KeepWithout(base, init, b, names);
      KeepWithoutOne(base, x, b, names);
      WithoutAppend(base, init, [x], b);
      KeepAppend(base, Without(base, init, b), Without(base, [x], b), names);
      KeepAppend(base, init, [x], names + {b});
    }
  }

  lemma {:induction false} KeepAll(base: Path -> string, files: seq<Path>)
    ensures Keep(base, files, {}) == files
  {
    if files != [] {
      KeepAll(base, files[..|files| - 1]);
    }
  }

  /**
   All passes together leave exactly the files that are not held out if and only if the
   names are separable; and when they are, repeated names do no harm.
   */
  lemma {:induction false} HoldOutIff(base: Path -> string, files: seq<Path>, outs: seq<string>)
    ensures Separable(base, files, outs) ==>
              AfterPasses(base, files, outs) == Keep(base, files, set b | b in outs)
    ensures Distinct(outs) && !Separable(base, files, outs) ==>
              AfterPasses(base, files, outs) != Keep(base, files, set b | b in outs)
    decreases |outs|
  {
    var names := set b | b in outs;
    if outs == [] {
      assert names == {};
      KeepAll(base, files);
    } else {
      var rest := set b | b in outs[1..];
      assert names == rest + {outs[0]};
      if NoAdjacentMatches(base, files, outs[0]) {
        RemovesAllIff(base, files, outs[0]);
        HoldOutIff(base, Without(base, files, outs[0]), outs[1..]);
        KeepWithout(base, files, outs[0], rest);
      } else if Distinct(outs) {
        LeftBehind(base, files, outs, names);
      }
    }
  }

  lemma LeftBehind(base: Path -> string, files: seq<Path>, outs: seq<string>, names: set<string>)
    requires outs != [] && Distinct(outs) && outs[0] in names && !NoAdjacentMatches(base, files, outs[0])
    ensures AfterPasses(base, files, outs) != Keep(base, files, names)
  {
    hide NoAdjacentMatches, Survivors, Keep;
    var x := MatchLeft(base, files, outs[0]);
    PassesKeep(base, Survivors(base, files, outs[0]), outs[1..], x);
    KeepMember(base, files, names, x);
  }

  ghost predicate DistinctNames(base: Path -> string, files: seq<Path>) {
    forall i, j | 0 <= i < j < |files| :: base(files[i]) != base(files[j])
  }

  lemma {:induction false} WithoutDistinct(base: Path -> string, files: seq<Path>, b: string)
    requires DistinctNames(base, files)
    ensures DistinctNames(base, Without(base, files, b))
  {
    if files != [] {
      var tail := Without(base, files[1..], b);
      WithoutDistinct(base, files[1..], b);
      forall i | 0 <= i < |tail|
        ensures base(tail[i]) != base(files[0])
      {
        WithoutHasNone(base, files[1..], b, tail[i]);
      }
    }
  }

  /** Files of one directory have distinct names, so there every held-out file goes. */
  lemma {:induction false} DistinctNamesSeparable(base: Path -> string, files: seq<Path>, outs: seq<string>)
    requires DistinctNames(base, files)
    ensures Separable(base, files, outs)
    decreases |outs|
  {
    if outs != [] {
      WithoutDistinct(base, files, outs[0]);
      DistinctNamesSeparable(base, Without(base, files, outs[0]), outs[1..]);
    }
  }

  /** Three files, two names: the order of the held-out names decides what is left. */
  lemma OrderMatters(base: Path -> string, x: Path, y: Path, z: Path)
    requires base(x) == base(z) != base(y)
    ensures AfterPasses(base, [x, y, z], [base(x), base(y)]) == []
    ensures AfterPasses(base, [x, y, z], [base(y), base(x)]) == [z]
  {
    var b, c := base(x), base(y);
    assert [x, y, z][1..] == [y, z] && [x, y, z][2..] == [z] && [y, z][1..] == [z];
    assert Survivors(base, [z], b) == [] && Survivors(base, [z], c) == [z];
    assert Survivors(base, [x, y, z], b) == [y];
    assert Survivors(base, [x, y, z], c) == [x, z];
    assert Survivors(base, [y], c) == [] && Survivors(base, [x, z], b) == [z];
    assert [b, c][1..] == [c] && [c, b][1..] == [b] && [b][1..] == [] == [c][1..];
    assert AfterPasses(base, [y], [c]) == AfterPasses(base, [], []) == [];
    assert AfterPasses(base, [x, z], [b]) == AfterPasses(base, [z], []) == [z];
  }

  /** A name held out twice is passed over twice, which may take what one pass left behind. */
  lemma RepeatedName(base: Path -> string, x: Path, y: Path)
    requires base(x) == base(y)
    ensures AfterPasses(base, [x, y], [base(x)]) == [y]
    ensures AfterPasses(base, [x, y], [base(x), base(x)]) == []
    ensures !Separable(base, [x, y], [base(x), base(x)])
  {
    var b := base(x);
    assert [x, y][2..] == [] && [x, y][0] == x && [x, y][1] == y;
    assert Survivors(base, [x, y], b) == [y] && Survivors(base, [y], b) == [];
    assert [b, b][1..] == [b] && [b][1..] == [];
    assert AfterPasses(base, [y], [b]) == AfterPasses(base, [], []) == [];
    assert !NoAdjacentMatches(base, [x, y], b);
  }

  /** The whole nested loop. */
  method HoldOut(base: Path -> string, files0: seq<Path>, outs: seq<Path>) returns (files: seq<Path>)
    requires Distinct(files0)
    ensures files == AfterPasses(base, files0, Names(base, outs))
    ensures DistinctNames(base, files0) ==> files == Keep(base, files0, set b | b in Names(base, outs))
  {
    files := files0;
    var names := Names(base, outs);
    var i := 0;
    assert names[0..] == names;
    while i < |outs|
      invariant 0 <= i <= |outs| && Distinct(files)
      invariant AfterPasses(base, files, names[i..]) == AfterPasses(base, files0, names)
    {
      hide Survivors, Distinct;
      assert names[i..][1..] == names[i + 1..];
      files := RemoveMatching(base, files, base(outs[i]));
      i := i + 1;
    }
    if DistinctNames(base, files0) {
      DistinctNamesSeparable(base, files0, names);
      HoldOutIff(base, files0, names);
    }
  }

  // ---- the form without removal, and a quarter of the files for each batch ----

  method HoldOutBySet(base: Path -> string, files: seq<Path>, outs: seq<Path>) returns (kept: seq<Path>)
    ensures kept == Keep(base, files, set b | b in Names(base, outs))
  {
    var names: set<string> := {};
    var i := 0;
    while i < |outs|
      invariant 0 <= i <= |outs| && names == set b | b in Names(base, outs)[..i]
    {
      assert Names(base, outs)[..i + 1] == Names(base, outs)[..i] + [base(outs[i])];
      names := names + {base(outs[i])};
      i := i + 1;
    }
    assert Names(base, outs)[..i] == Names(base, outs);
    kept := [];
    i := 0;
    while i < |files|
      invariant 0 <= i <= |files| && kept == Keep(base, files[..i], names)
    {
      assert files[..i + 1][..i] == files[..i];
      if base(files[i]) !in names {
        kept := kept + [files[i]];
      }
      i := i + 1;
    }
    assert files[..i] == files;
  }

  /** Every fourth file, beginning with the one whose place leaves remainder `r`. */
  function Quarter(files: seq<Path>, r: int): seq<Path> {
    if files == [] then []
    else Quarter(files[..|files| - 1], r)
         + if (|files| - 1) % 4 == r % 4 then [files[|files| - 1]] else []
  }

  method SelectQuarter(files: seq<Path>, idx: int) returns (chosen: seq<Path>)
    ensures chosen == Quarter(files, idx)
  {
    chosen := [];
    var i := 0;
    while i < |files|
      invariant 0 <= i <= |files| && chosen == Quarter(files[..i], idx)
    {
      assert files[..i + 1][..i] == files[..i];
      if i % 4 == idx % 4 {
        chosen := chosen + [files[i]];
      }
      i := i + 1;
    }
    assert files[..i] == files;
  }

  /** Batch `r` takes the files at the places with its remainder modulo 4, in order. */
  lemma {:induction false} QuarterAt(files: seq<Path>, r: int, k: nat)
    ensures k < |Quarter(files, r)| <==> 4 * k + r % 4 < |files|
    ensures k < |Quarter(files, r)| ==> Quarter(files, r)[k] == files[4 * k + r % 4]
  {
    if files != [] {
      var n := |files| - 1;
      QuarterAt(files[..n], r, k);
      if n % 4 == r % 4 {
        var j := n / 4;
        QuarterAt(files[..n], r, j);
        if j > 0 {
          QuarterAt(files[..n], r, j - 1);
        }
      }
    }
  }

  /** Whether batch `r` takes the file at place `k`, as a number. */
  ghost function Turn(k: int, r: int): nat {
    if k % 4 == r % 4 then 1 else 0
  }

  lemma OneOfFour(k: int, n: int)
    ensures Turn(k, n) + Turn(k, n + 1) + Turn(k, n + 2) + Turn(k, n + 3) == 1
  {
  }

  lemma CountLast(files: seq<Path>, x: Path)
    requires files != []
    ensures Count(files, x) == Count(files[..|files| - 1], x) + if files[|files| - 1] == x then 1 else 0
  {
    assert files == files[..|files| - 1] + [files[|files| - 1]];
  }

  lemma QuarterLast(files: seq<Path>, r: int, x: Path)
    requires files != []
    ensures Count(Quarter(files, r), x) == Count(Quarter(files[..|files| - 1], r), x)
            + if files[|files| - 1] == x then Turn(|files| - 1, r) else 0
  {
  }

  /** Any four consecutive batches visit every file exactly once. */
  lemma {:induction false} FourQuartersCover(files: seq<Path>, n: int, x: Path)
    ensures Count(Quarter(files, n), x) + Count(Quarter(files, n + 1), x)
            + Count(Quarter(files, n + 2), x) + Count(Quarter(files, n + 3), x) == Count(files, x)
  {
    if files != [] {
      hide Quarter, Turn, Count;
      var last := |files| - 1;
      FourQuartersCover(files[..last], n, x);
      QuarterLast(files, n, x);
      QuarterLast(files, n + 1, x);
      QuarterLast(files, n + 2, x);
      QuarterLast(files, n + 3, x);
      OneOfFour(last, n);
      CountLast(files, x);
    }
  }

  lemma {:induction false} KeepCount(base: Path -> string, files: seq<Path>, names: set<string>, x: Path)
    ensures Count(Keep(base, files, names), x) == if base(x) in names then 0 else Count(files, x)
  {
    if files != [] {
      KeepCount(base, files[..|files| - 1], names, x);
      CountLast(files, x);
    }
  }

  /**
   Four batches with consecutive numbers, each given a quarter of the files that are not held
   out, together see each of those as often as the directory lists it, and no held-out file.
   */
  lemma FourBatches(base: Path -> string, files: seq<Path>, names: set<string>, n: int, x: Path)
    ensures var kept := Keep(base, files, names);
            Count(Quarter(kept, n), x) + Count(Quarter(kept, n + 1), x)
            + Count(Quarter(kept, n + 2), x) + Count(Quarter(kept, n + 3), x)
            == if base(x) in names then 0 else Count(files, x)
  {
    KeepCount(base, files, names, x);
    FourQuartersCover(Keep(base, files, names), n, x);
  }
}
