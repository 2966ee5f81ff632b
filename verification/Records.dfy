/**
 The text of a tuning record: its steps with tile sizes erased, the prompt that ends at the
 partition step, and the flattening of a record into words.
 */
module Records {
  import opened Prelude

  /**
   A loaded value. `Atom` holds the printed form of a number or a boolean, and a dictionary is
   given by its items in the order of their keys.
   */
  datatype Json =
    | Str(text: string)
    | Atom(text: string)
    | Null
    | List(items: seq<Json>)
    | Dict(entries: seq<Entry>)

  datatype Entry = Entry(key: string, value: Json)

  // ---------------------------------------------------------------- flattening

  /** Null is the one kind of value the flattening refuses. */
  predicate NoNull(j: Json) {
    match j
    case Null => false
    case List(items) => forall i | 0 <= i < |items| :: NoNull(items[i])
    case Dict(entries) => forall i | 0 <= i < |entries| :: NoNull(entries[i].value)
    case _ => true
  }

  function Tokens(j: Json): seq<string>
    decreases j, 1
  {
    match j
    case Str(text) => [text]
    case Atom(text) => [text]
    case Null => []
    case List(items) => AllTokens(items)
    case Dict(entries) => DictTokens(entries)
  }

  function AllTokens(items: seq<Json>): seq<string>
    decreases items, 0
  {
    if items == [] then [] else Tokens(items[0]) + AllTokens(items[1..])
  }

  function DictTokens(entries: seq<Entry>): seq<string>
    decreases entries, 0
  {
    if entries == [] then [] else [entries[0].key] + Tokens(entries[0].value) + DictTokens(entries[1..])
  }

  /** Flattening has no brackets, so a concatenation of lists becomes one of words. */
  lemma {:induction false} AllTokensAppend(a: seq<Json>, b: seq<Json>)
    ensures AllTokens(a + b) == AllTokens(a) + AllTokens(b)
  {
    if a == [] {
      assert a + b == b;
    } else {
      hide Tokens;
      AllTokensAppend(a[1..], b);
      assert (a + b)[1..] == a[1..] + b && (a + b)[0] == a[0];
      Assoc(Tokens(a[0]), AllTokens(a[1..]), AllTokens(b));
    }
  }

  /** The caller's list, which every recursive call appends to. */
  class Words {
    var list: seq<string>

    constructor ()
      ensures list == []
    {
      list := [];
    }

    /** Appends the words of `j`; `ok` is false when an assertion fails on the way. */
    method Dfs(j: Json) returns (ok: bool)
      modifies this
      ensures ok == NoNull(j)
      ensures ok ==> list == old(list) + Tokens(j)
      decreases j
    {
      match j
      case Str(text) =>
        list := list + [text];
        ok := true;
      case Atom(text) =>
        list := list + [text];
        ok := true;
      case Null =>
        ok := false;
      case List(items) =>
        var i := 0;
        while i < |items|
          invariant 0 <= i <= |items|
          invariant forall k | 0 <= k < i :: NoNull(items[k])
          invariant list == old(list) + AllTokens(items[..i])
        {
          AllTokensLast(items, i);
          ok := Dfs(items[i]);
          if !ok {
            return;
          }
          i := i + 1;
        }
        ok := true;
        assert items[..i] == items;
      case Dict(entries) =>
        var i := 0;
        while i < |entries|
          invariant 0 <= i <= |entries|
          invariant forall k | 0 <= k < i :: NoNull(entries[k].value)
          invariant list == old(list) + DictTokens(entries[..i])
        {
          DictTokensLast(entries, i);
          list := list + [entries[i].key];
          ok := Dfs(entries[i].value);
          if !ok {
            return;
          }
          i := i + 1;
        }
        ok := true;
        assert entries[..i] == entries;
    }
  }

  lemma AllTokensLast(items: seq<Json>, i: nat)
    requires i < |items|
    ensures AllTokens(items[..i + 1]) == AllTokens(items[..i]) + Tokens(items[i])
  {
    AllTokensAppend(items[..i], [items[i]]);
    assert items[..i + 1] == items[..i] + [items[i]];
    assert AllTokens([items[i]]) == Tokens(items[i]) + AllTokens([]);
  }

  lemma {:induction false} DictTokensLast(entries: seq<Entry>, i: nat)
    requires i < |entries|
    ensures DictTokens(entries[..i + 1]) == DictTokens(entries[..i]) + [entries[i].key] + Tokens(entries[i].value)
  {
    var upto := entries[..i + 1];
    if i == 0 {
      assert upto[1..] == [];
    } else {
      DictTokensLast(entries[1..], i - 1);
      assert upto[1..] == entries[1..][..i] && entries[..i][1..] == entries[1..][..i - 1];
    }
  }

  // ---- what the words are

  /** How often a word stands at a leaf or as a key. */
  ghost function Leaves(j: Json, word: string): nat
    decreases j, 1
  {
    match j
    case Str(text) => if text == word then 1 else 0
    case Atom(text) => if text == word then 1 else 0
    case Null => 0
    case List(items) => ItemLeaves(items, |items|, word)
    case Dict(entries) => EntryLeaves(entries, |entries|, word)
  }

  ghost function ItemLeaves(items: seq<Json>, n: nat, word: string): nat
    requires n <= |items|
    decreases items, 0, n
  {
    if n == 0 then 0 else ItemLeaves(items, n - 1, word) + Leaves(items[n - 1], word)
  }

  ghost function EntryLeaves(entries: seq<Entry>, n: nat, word: string): nat
    requires n <= |entries|
    decreases entries, 0, n
  {
    if n == 0 then 0
    else
      EntryLeaves(entries, n - 1, word) + (if entries[n - 1].key == word then 1 else 0)
      + Leaves(entries[n - 1].value, word)
  }

  /** Flattening yields each leaf and each key once. */
  lemma {:induction false} TokensAreLeaves(j: Json, word: string)
    ensures Count(Tokens(j), word) == Leaves(j, word)
    decreases j, 1
  {
    match j
    case List(items) =>
      assert items[..|items|] == items;
      ItemTokens(items, |items|, word);
    case Dict(entries) =>
      assert entries[..|entries|] == entries;
      EntryTokens(entries, |entries|, word);
    case _ =>
  }

  lemma {:induction false} ItemTokens(items: seq<Json>, n: nat, word: string)
    requires n <= |items|
    ensures Count(AllTokens(items[..n]), word) == ItemLeaves(items, n, word)
    decreases items, 0, n
  {
    if n > 0 {
      ItemTokens(items, n - 1, word);
      TokensAreLeaves(items[n - 1], word);
      OneMoreItem(items, n, word);
    }
  }

  lemma OneMoreItem(items: seq<Json>, n: nat, word: string)
    requires 0 < n <= |items|
    requires Count(AllTokens(items[..n - 1]), word) == ItemLeaves(items, n - 1, word)
    requires Count(Tokens(items[n - 1]), word) == Leaves(items[n - 1], word)
    ensures Count(AllTokens(items[..n]), word) == ItemLeaves(items, n, word)
  {
    hide Tokens, AllTokens, Count, Leaves;
    AllTokensLast(items, n - 1);
    CountAppend(AllTokens(items[..n - 1]), Tokens(items[n - 1]), word);
  }

  lemma {:induction false} EntryTokens(entries: seq<Entry>, n: nat, word: string)
    requires n <= |entries|
    ensures Count(DictTokens(entries[..n]), word) == EntryLeaves(entries, n, word)
    decreases entries, 0, n
  {
    if n > 0 {
      EntryTokens(entries, n - 1, word);
      TokensAreLeaves(entries[n - 1].value, word);
      OneMoreEntry(entries, n, word);
    }
  }

  lemma OneMoreEntry(entries: seq<Entry>, n: nat, word: string)
    requires 0 < n <= |entries|
    requires Count(DictTokens(entries[..n - 1]), word) == EntryLeaves(entries, n - 1, word)
    requires Count(Tokens(entries[n - 1].value), word) == Leaves(entries[n - 1].value, word)
    ensures Count(DictTokens(entries[..n]), word) == EntryLeaves(entries, n, word)
  {
    hide Tokens, DictTokens, Count, Leaves;
    var (before, e) := (DictTokens(entries[..n - 1]), entries[n - 1]);
    DictTokensLast(entries, n - 1);
    CountAppend(before, [e.key], word);
    CountAppend(before + [e.key], Tokens(e.value), word);
    CountOne(e.key, word);
  }

  /** `" ".join(words)`. */
  function Join(words: seq<string>): string {
    if words == [] then ""
    else if |words| == 1 then words[0]
    else words[0] + " " + Join(words[1..])
  }

  lemma {:induction false} JoinAppend(a: seq<string>, b: seq<string>)
    requires a != [] && b != []
    ensures Join(a + b) == Join(a) + " " + Join(b)
    ensures |a| == 1 ==> Join(a) == a[0]
  {
    assert (a + b)[1..] == a[1..] + b;
    if |a| == 1 {
      assert a[1..] + b == b;
    } else {
      JoinAppend(a[1..], b);
    }
  }

  lemma JoinPrefix(a: seq<string>, b: seq<string>)
    requires a <= b
    ensures Join(a) <= Join(b)
  {
    if a != [] && a != b {
      assert b == a + b[|a|..];
      JoinAppend(a, b[|a|..]);
    }
  }

  // ---------------------------------------------------------------- steps

  /** The shape the code relies on: a list that begins with its kind, a split with its sizes. */
  predicate Step(j: Json) {
    j.List? && j.items != [] && (j.items[0] == Str("SP") ==> |j.items| > 4 && j.items[4].List?)
  }

  predicate IsSplit(j: Json)
    requires Step(j)
  {
    j.items[0] == Str("SP")
  }

  predicate IsPrompt(j: Json)
    requires Step(j)
  {
    j.items[0] == Str("PPT")
  }

  type Steps = s: seq<Json> | forall i | 0 <= i < |s| :: Step(s[i])

  function Ones(n: nat): seq<Json> {
    seq(n, _ => Atom("1"))
  }

  function EraseStep(j: Json): (r: Json)
    requires Step(j)
    ensures Step(r) && IsPrompt(r) == IsPrompt(j) && IsSplit(r) == IsSplit(j)
  {
    if IsSplit(j) then List(j.items[4 := List(Ones(|j.items[4].items|))]) else j
  }

  function Erase(steps: Steps): (r: Steps)
    ensures |r| == |steps|
    ensures forall i | 0 <= i < |steps| :: r[i] == EraseStep(steps[i])
  {
    seq(|steps|, i requires 0 <= i < |steps| => EraseStep(steps[i]))
  }

  /** What erasing promises: the sizes of a split become ones, as many as there were; nothing else changes. */
  ghost predicate ErasedTo(j: Json, r: Json)
    requires Step(j)
  {
    if j.items[0] == Str("SP") then
      && r.List? && |r.items| == |j.items|
      && (forall k | 0 <= k < |j.items| && k != 4 :: r.items[k] == j.items[k])
      && r.items[4].List? && |r.items[4].items| == |j.items[4].items|
      && (forall k | 0 <= k < |j.items[4].items| :: r.items[4].items[k] == Atom("1"))
    else r == j
  }

  lemma EraseStepMeans(j: Json)
    requires Step(j)
    ensures ErasedTo(j, EraseStep(j))
  {
  }

  /** The same step but for the values of tile sizes. */
  ghost predicate Alike(a: Json, b: Json)
    requires Step(a) && Step(b)
  {
    if a.items[0] == Str("SP") then
      && |a.items| == |b.items| && (forall k | 0 <= k < |a.items| && k != 4 :: a.items[k] == b.items[k])
      && b.items[4].List? && |a.items[4].items| == |b.items[4].items|
    else a == b
  }

  lemma EraseForgetsSizes(a: Json, b: Json)
    requires Step(a) && Step(b)
    ensures EraseStep(a) == EraseStep(b) <==> Alike(a, b)
  {
    EraseStepMeans(a);
    EraseStepMeans(b);
    assert EraseStep(a) == EraseStep(b) ==> IsSplit(a) == IsSplit(EraseStep(a)) == IsSplit(b);
    assert Alike(a, b) && IsSplit(a) ==> IsSplit(b) && EraseStep(a).items == EraseStep(b).items;
  }

  lemma EraseStepTwice(j: Json)
    requires Step(j)
    ensures EraseStep(EraseStep(j)) == EraseStep(j)
  {
    if IsSplit(j) {
      var r := EraseStep(j);
      assert |r.items[4].items| == |j.items[4].items|;
      assert r.items[4 := r.items[4]] == r.items;
    }
  }

  lemma EraseTwice(steps: Steps)
    ensures Erase(Erase(steps)) == Erase(steps)
  {
    forall i | 0 <= i < |steps|
      ensures Erase(Erase(steps))[i] == Erase(steps)[i]
    {
      EraseStepTwice(steps[i]);
    }
  }

  lemma EraseTake(steps: Steps, n: nat)
    requires n <= |steps|
    ensures Erase(steps[..n]) == Erase(steps)[..n]
  {
  }

  /** The place of the first partition step, or the length. */
  function FirstPrompt(steps: Steps): (i: nat)
    ensures i <= |steps| && (i < |steps| ==> IsPrompt(steps[i]))
    ensures forall k | 0 <= k < i :: !IsPrompt(steps[k])
  {
    if steps == [] then 0
    else if IsPrompt(steps[0]) then 0
    else
      var rest: Steps := steps[1..];
      assert forall k | 0 < k < |steps| :: steps[k] == rest[k - 1];
      FirstPrompt(rest) + 1
  }

  /** One more than the place of the last partition step, or zero. */
  function PromptEnd(steps: Steps): (i: nat)
    ensures i <= |steps| && (i > 0 ==> IsPrompt(steps[i - 1]))
    ensures forall k | i <= k < |steps| :: !IsPrompt(steps[k])
  {
    if steps == [] then 0
    else if IsPrompt(steps[|steps| - 1]) then |steps|
    else PromptEnd(steps[..|steps| - 1])
  }

  /** The key under which a training record is filed. */
  function PromptOf(steps: Steps): Option<Steps> {
    if PromptEnd(steps) == 0 then None else Some(Erase(steps)[..PromptEnd(steps)])
  }

  /** The steps of a sketch: up to the first partition step, erased. */
  function SketchOf(steps: Steps): Option<Steps> {
    var i := FirstPrompt(steps);
    if i == |steps| then None else Some(Erase(steps[..i + 1]))
  }

  /** The steps up to place `n`, each erased. */
  ghost predicate CutTo(steps: Steps, r: Steps, n: nat) {
    |r| == n <= |steps| && forall k | 0 <= k < n :: ErasedTo(steps[k], r[k])
  }

  ghost predicate NoPromptStep(steps: Steps) {
    forall k | 0 <= k < |steps| :: steps[k].items[0] != Str("PPT")
  }

  /** Place `n` is that of the last partition step. */
  ghost predicate LastAt(steps: Steps, n: nat) {
    n < |steps| && steps[n].items[0] == Str("PPT") && forall k | n < k < |steps| :: steps[k].items[0] != Str("PPT")
  }

  /** Place `n` is that of the first partition step. */
  ghost predicate FirstAt(steps: Steps, n: nat) {
    n < |steps| && steps[n].items[0] == Str("PPT") && forall k | 0 <= k < n :: steps[k].items[0] != Str("PPT")
  }

  /** The prompt of a record is its steps up to the last partition step, erased. */
  lemma PromptMeans(steps: Steps)
    ensures PromptOf(steps) == None <==> NoPromptStep(steps)
    ensures PromptOf(steps).Some? ==>
            var r := PromptOf(steps).value; |r| > 0 && LastAt(steps, |r| - 1) && CutTo(steps, r, |r|)
  {
    hide PromptEnd, EraseStep;
    var e := PromptEnd(steps);
    forall k | 0 <= k < e
      ensures ErasedTo(steps[k], Erase(steps)[k])
    {
      EraseStepMeans(steps[k]);
    }
  }

  /** A sketch is the steps up to the first partition step, erased. */
  lemma SketchMeans(steps: Steps)
    ensures SketchOf(steps) == None <==> NoPromptStep(steps)
    ensures SketchOf(steps).Some? ==>
            var r := SketchOf(steps).value; |r| > 0 && FirstAt(steps, |r| - 1) && CutTo(steps, r, |r|)
  {
    hide FirstPrompt, EraseStep;
    var i := FirstPrompt(steps);
    forall k | 0 <= k < i + 1 && i < |steps|
      ensures ErasedTo(steps[k], Erase(steps[..i + 1])[k])
    {
      EraseStepMeans(steps[k]);
    }
  }

  /**
   Two records have the same prompt if and only if their steps up to the last partition step
   are the same but for the values of tile sizes.
   */
  lemma SamePromptIff(x: Steps, y: Steps, n: nat, m: nat)
    requires LastAt(x, n) && LastAt(y, m)
    ensures PromptOf(x) == PromptOf(y) <==> n == m && forall k | 0 <= k <= n :: Alike(x[k], y[k])
  {
    hide EraseStep, Alike;
    LastIsEnd(x, n);
    LastIsEnd(y, m);
    var (p, q) := (Erase(x)[..n + 1], Erase(y)[..m + 1]);
    if n == m {
      forall k | 0 <= k <= n
        ensures p[k] == q[k] <==> Alike(x[k], y[k])
      {
        EraseForgetsSizes(x[k], y[k]);
      }
      assert (forall k | 0 <= k <= n :: Alike(x[k], y[k])) ==> p == q;
      if p == q {
        forall k | 0 <= k <= n
          ensures Alike(x[k], y[k])
        {
          assert p[k] == q[k];
        }
      }
    } else {
      assert |p| != |q|;
    }
  }

  lemma LastIsEnd(steps: Steps, n: nat)
    requires LastAt(steps, n)
    ensures PromptEnd(steps) == n + 1
  {
    hide PromptEnd;
    var e := PromptEnd(steps);
    assert IsPrompt(steps[n]);
    assert e > 0 ==> steps[e - 1].items[0] == Str("PPT");
  }

  ghost predicate OnePrompt(steps: Steps) {
    forall i, j | 0 <= i < j < |steps| :: !(IsPrompt(steps[i]) && IsPrompt(steps[j]))
  }

  /** The two ways to cut a record agree exactly when it has no second partition step. */
  lemma SketchIsPromptIff(steps: Steps)
    ensures SketchOf(steps) == PromptOf(steps) <==> OnePrompt(steps)
  {
    hide FirstPrompt, PromptEnd;
    var i, e := FirstPrompt(steps), PromptEnd(steps);
    if i < |steps| {
      EraseTake(steps, i + 1);
      assert i < e;
      if i + 1 < e {
        assert IsPrompt(steps[i]) && IsPrompt(steps[e - 1]);
        assert |SketchOf(steps).value| < |PromptOf(steps).value|;
      }
    }
  }

  // ---------------------------------------------------------------- the loops over the steps

  method EraseFactors(sizes: seq<Json>) returns (r: seq<Json>)
    ensures r == Ones(|sizes|)
  {
    r := sizes;
    var i := 0;
    while i < |r|
      invariant 0 <= i <= |r| == |sizes|
      invariant forall k | 0 <= k < i :: r[k] == Atom("1")
    {
      r := r[i := Atom("1")];
      i := i + 1;
    }
  }

  /** One step as the loops leave it. */
  method EraseInPlace(step: Json) returns (r: Json)
    requires Step(step)
    ensures r == EraseStep(step) && ErasedTo(step, r)
  {
    r := step;
    if IsSplit(step) {
      var sizes := EraseFactors(step.items[4].items);
      r := List(step.items[4 := List(sizes)]);
    }
  }

  /** The state of the loops before place `n`: erased up to there, untouched from there on. */
  ghost predicate Partly(steps0: Steps, steps: Steps, n: nat) {
    && n <= |steps| == |steps0|
    && (forall k | 0 <= k < n :: steps[k] == EraseStep(steps0[k]))
    && forall k | n <= k < |steps| :: steps[k] == steps0[k]
  }

  lemma PartlyNext(steps0: Steps, steps: Steps, n: nat)
    requires Partly(steps0, steps, n) && n < |steps|
    ensures steps[n] == steps0[n] && |steps| == |steps0|
    ensures Partly(steps0, steps[n := EraseStep(steps[n])], n + 1)
  {
    hide EraseStep;
  }

  lemma ErasedPrefix(steps0: Steps, steps: Steps, n: nat)
    requires Partly(steps0, steps, n)
    ensures steps[..n] == Erase(steps0)[..n] == Erase(steps0[..n])
  {
    hide EraseStep;
  }

  /** Erases every split and keeps the steps up to the latest partition step. */
  method ScanRecord(steps0: Steps) returns (steps: Steps, prompt: Option<Steps>)
    ensures steps == Erase(steps0) && prompt == PromptOf(steps0)
  {
    steps, prompt := steps0, None;
    var i := 0;
    while i < |steps|
      invariant 0 <= i <= |steps| && Partly(steps0, steps, i)
      invariant prompt == PromptOf(steps0[..i])
    {
      hide PromptOf, PromptEnd, Erase, EraseStep, Partly;
      var step := steps[i];
      PromptNext(steps0, i);
      var erased := EraseInPlace(step);
      PartlyNext(steps0, steps, i);
      steps := steps[i := erased];
      if IsPrompt(step) {
        prompt := Some(steps[..i + 1]);
        ErasedPrefix(steps0, steps, i + 1);
      }
      i := i + 1;
    }
    assert steps0[..i] == steps0 && steps[..i] == steps;
    ErasedPrefix(steps0, steps, i);
  }

  lemma PromptNext(steps: Steps, i: nat)
    requires i < |steps|
    ensures PromptOf(steps[..i + 1]) ==
            if IsPrompt(steps[i]) then Some(Erase(steps)[..i + 1]) else PromptOf(steps[..i])
  {
    var upto: Steps := steps[..i + 1];
    assert upto[..i] == steps[..i];
    EraseTake(steps, i + 1);
    EraseTake(steps, i);
    if IsPrompt(steps[i]) {
      assert Erase(upto)[..i + 1] == Erase(steps)[..i + 1];
    } else {
      var e := PromptEnd(steps[..i]);
      assert PromptEnd(upto) == e;
      assert Erase(upto)[..e] == Erase(steps)[..e] == Erase(steps[..i])[..e];
    }
  }

  /** Erases splits until the first partition step, and cuts the record there. */
  method ScanSketch(steps0: Steps) returns (r: Option<Steps>)
    ensures r == SketchOf(steps0)
  {
    var steps: Steps := steps0;
    var i := 0;
    while i < |steps|
      invariant 0 <= i <= |steps| && Partly(steps0, steps, i)
      invariant forall k | 0 <= k < i :: !IsPrompt(steps0[k])
    {
      hide Erase, Partly;
      var step := steps[i];
      PartlyNext(steps0, steps, i);
      assert !IsSplit(step) ==> steps[i := EraseStep(step)] == steps;
      if IsSplit(step) {
        var erased := EraseInPlace(step);
        steps := steps[i := erased];
      } else if IsPrompt(step) {
        r := Some(steps[..i + 1]);
        assert FirstPrompt(steps0) == i;
        ErasedPrefix(steps0, steps, i + 1);
        return;
      }
      i := i + 1;
    }
    r := None;
  }

  // ---------------------------------------------------------------- prompts and training texts

  /** The value that is flattened: the program, then its workload and state. */
  function Text(dag: string, task: Json, init: Json, steps: seq<Json>): Json {
    List([Str(dag), List([task, List([init, List(steps)])])])
  }

  lemma TextTokens(dag: string, task: Json, init: Json, steps: seq<Json>)
    ensures Tokens(Text(dag, task, init, steps)) == [dag] + Tokens(task) + Tokens(init) + AllTokens(steps)
  {
    Pair(init, List(steps));
    Pair(task, List([init, List(steps)]));
    Pair(Str(dag), List([task, List([init, List(steps)])]));
  }

  lemma Pair(a: Json, b: Json)
    ensures Tokens(List([a, b])) == Tokens(a) + Tokens(b)
  {
    assert [a, b][1..] == [b] && [b][1..] == [];
    assert AllTokens([b]) == Tokens(b) + AllTokens([]);
  }

  /** What the model is shown for a state whose last steps are still to be found. */
  function PromptText(dag: string, task: Json, init: Json, steps: Steps): string {
    Join(Tokens(Text(dag, task, init, Erase(steps))))
  }

  /** Each record's text becomes the line of its words; none does when one of them cannot. */
  method JsonToToken(texts: seq<Json>) returns (lines: Option<seq<string>>)
    ensures lines.Some? <==> forall i | 0 <= i < |texts| :: NoNull(texts[i])
    ensures lines.Some? ==> |lines.value| == |texts|
    ensures lines.Some? ==> forall i | 0 <= i < |texts| :: lines.value[i] == Join(Tokens(texts[i]))
  {
    hide Tokens, Join, NoNull;
    var done: seq<string> := [];
    var i := 0;
    while i < |texts|
      invariant 0 <= i <= |texts| && |done| == i
      invariant forall k | 0 <= k < i :: NoNull(texts[k]) && done[k] == Join(Tokens(texts[k]))
    {
      var words := new Words();
      var ok := words.Dfs(texts[i]);
      if !ok {
        return None;
      }
      assert words.list == Tokens(texts[i]);
      done := done + [Join(words.list)];
      i := i + 1;
    }
    lines := Some(done);
  }

  /** The prompts for the states that grow from one input. */
  method InputToTokens(dag: string, task: Json, init: Json, states: seq<Steps>) returns (lines: Option<seq<string>>)
    ensures lines.Some? ==> |lines.value| == |states|
    ensures lines.Some? ==> forall i | 0 <= i < |states| :: lines.value[i] == PromptText(dag, task, init, states[i])
    ensures lines.Some? <==> forall i | 0 <= i < |states| :: NoNull(Text(dag, task, init, Erase(states[i])))
  {
    hide Tokens, Join, NoNull;
    var texts: seq<Json> := [];
    var i := 0;
    while i < |states|
      invariant 0 <= i <= |states| && |texts| == i
      invariant forall k | 0 <= k < i :: texts[k] == Text(dag, task, init, Erase(states[k]))
    {
      var steps, _ := ScanRecord(states[i]);
      texts := texts + [Text(dag, task, init, steps)];
      i := i + 1;
    }
    lines := JsonToToken(texts);
  }

  /** A state with more steps has a text that continues that of the state it came from. */
  lemma MoreSteps(dag: string, task: Json, init: Json, steps: Steps, more: Steps)
    requires Erase(steps) <= Erase(more)
    ensures Tokens(Text(dag, task, init, Erase(steps))) <= Tokens(Text(dag, task, init, Erase(more)))
    ensures PromptText(dag, task, init, steps) <= PromptText(dag, task, init, more)
  {
    hide Tokens, AllTokens, Join;
    var p, q := Erase(steps), Erase(more);
    TextTokens(dag, task, init, p);
    TextTokens(dag, task, init, q);
    assert q == p + q[|p|..];
    AllTokensAppend(p, q[|p|..]);
    JoinPrefix(Tokens(Text(dag, task, init, p)), Tokens(Text(dag, task, init, q)));
  }

  /**
   The prompt made from a sketch begins the training text of every record filed under that
   sketch, and of every record cut to the same sketch.
   */
  lemma SketchBeginsTrainingText(dag: string, task: Json, init: Json, sketch: Steps, steps: Steps)
    requires PromptOf(steps) == Some(sketch) || SketchOf(steps) == Some(sketch)
    ensures Erase(sketch) == sketch
    ensures PromptText(dag, task, init, sketch) <= PromptText(dag, task, init, steps)
  {
    hide FirstPrompt, PromptEnd;
    EraseTwice(steps);
    var n := |sketch|;
    if SketchOf(steps) == Some(sketch) {
      EraseTake(steps, n);
    }
    assert sketch == Erase(steps)[..n];
    EraseTake(Erase(steps), n);
    hide PromptText;
    MoreSteps(dag, task, init, sketch, steps);
  }
}
