/**
 Dividing the tasks of a batch into parts: consecutive slices of the rounded-up length.
 */
module Slicing {
  import opened Prelude

  /** `math.ceil(k / n)` */
  function PartLen(k: nat, n: nat): nat
    requires n > 0
  {
    (k + n - 1) / n
  }

  /** Where slice `j` starts; Python clamps slice bounds to the length of the list. */
  function Lo(k: nat, n: nat, j: nat): (r: nat)
    requires n > 0
    ensures r <= k
  {
    if j * PartLen(k, n) <= k then j * PartLen(k, n) else k
  }

  /** `tasks[j * part_len : (j + 1) * part_len]` */
  function Slice<T>(tasks: seq<T>, n: nat, j: nat): seq<T>
    requires n > 0
  {
    LoMono(|tasks|, n, j, j + 1);
    tasks[Lo(|tasks|, n, j)..Lo(|tasks|, n, j + 1)]
  }

  lemma LoMono(k: nat, n: nat, i: nat, j: nat)
    requires n > 0 && i <= j
    ensures Lo(k, n, i) <= Lo(k, n, j)
  {
    assert i * PartLen(k, n) <= j * PartLen(k, n);
  }

  /** The slices start at the front and reach the end. */
  lemma LoEnds(k: nat, n: nat)
    requires n > 0
    ensures Lo(k, n, 0) == 0 && Lo(k, n, n) == k
  {
    var q := PartLen(k, n);
    assert n * q >= k by {
      assert k + n - 1 == n * q + (k + n - 1) % n;
    }
  }

  function SetOf<T(==)>(s: seq<T>): set<T> {
    set x | x in s
  }

  /** The tasks of part `j`. */
  function SliceSet<T(==)>(tasks: seq<T>, n: nat, j: nat): set<T>
    requires n > 0
  {
    SetOf(Slice(tasks, n, j))
  }

  /** The tasks of the first `j` parts. */
  function PrefixSet<T(==)>(tasks: seq<T>, n: nat, j: nat): set<T>
    requires n > 0
  {
    SetOf(tasks[..Lo(|tasks|, n, j)])
  }

  /** Each part adds its own tasks to those of the parts before it. */
  lemma PrefixGrows<T>(tasks: seq<T>, n: nat, j: nat)
    requires n > 0
    ensures PrefixSet(tasks, n, j + 1) == PrefixSet(tasks, n, j) + SliceSet(tasks, n, j)
  {
    var a, b := Lo(|tasks|, n, j), Lo(|tasks|, n, j + 1);
    LoMono(|tasks|, n, j, j + 1);
    assert tasks[..b] == tasks[..a] + tasks[a..b];
  }

  /** No part at all before the first, every task after the last. */
  lemma PrefixEnds<T>(tasks: seq<T>, n: nat)
    requires n > 0
    ensures PrefixSet(tasks, n, 0) == {} && PrefixSet(tasks, n, n) == SetOf(tasks)
  {
    LoEnds(|tasks|, n);
    assert tasks[..|tasks|] == tasks;
  }

  /** No task is in two parts. */
  lemma SlicesDisjoint<T>(tasks: seq<T>, n: nat, i: nat, j: nat)
    requires n > 0 && i < j && Distinct(tasks)
    ensures SliceSet(tasks, n, i) !! SliceSet(tasks, n, j)
  {
    LoMono(|tasks|, n, i + 1, j);
    LoMono(|tasks|, n, i, i + 1);
    LoMono(|tasks|, n, j, j + 1);
  }

  /** Every task is in some part. */
  lemma {:induction false} SliceHolding<T>(tasks: seq<T>, n: nat, m: nat, x: T) returns (j: nat)
    requires 0 < n && m <= n && x in PrefixSet(tasks, n, m)
    ensures j < m && x in SliceSet(tasks, n, j)
  {
    if m == 0 {
      PrefixEnds(tasks, n);
      assert false;
    } else {
      PrefixGrows(tasks, n, m - 1);
      if x in SliceSet(tasks, n, m - 1) {
        j := m - 1;
      } else {
        j := SliceHolding(tasks, n, m - 1, x);
      }
    }
  }

  function Flatten<T>(parts: seq<seq<T>>): seq<T> {
    if parts == [] then [] else Flatten(parts[..|parts| - 1]) + parts[|parts| - 1]
  }

  lemma FlattenAppend<T>(parts: seq<seq<T>>, part: seq<T>)
    ensures Flatten(parts + [part]) == Flatten(parts) + part
  {
    assert (parts + [part])[..|parts|] == parts;
  }

  /** A slice begins where the ones before it end, and is no longer than the rounded-up share. */
  lemma SliceExtends<T>(tasks: seq<T>, n: nat, i: nat)
    requires n > 0
    ensures |Slice(tasks, n, i)| <= PartLen(|tasks|, n)
    ensures tasks[..Lo(|tasks|, n, i + 1)] == tasks[..Lo(|tasks|, n, i)] + Slice(tasks, n, i)
  {
    LoMono(|tasks|, n, i, i + 1);
    hide PartLen;
    var k := PartLen(|tasks|, n);
    assert (i + 1) * k == i * k + k;
  }

  /** The length of a part is the least that is enough, and every part but the last is full. */
  lemma PartLenIsLeast(k: nat, n: nat)
    requires n > 0
    ensures n * PartLen(k, n) >= k
    ensures PartLen(k, n) > 0 ==> n * (PartLen(k, n) - 1) < k
  {
    var q: int := PartLen(k, n);
    var r := (k + n - 1) % n;
    assert k + n - 1 == n * q + r;
    assert n * (q - 1) == n * q - n;
  }

  lemma SliceAt<T>(tasks: seq<T>, n: nat, j: nat, i: nat)
    requires n > 0
    ensures i < |Slice(tasks, n, j)| <==> i < PartLen(|tasks|, n) && j * PartLen(|tasks|, n) + i < |tasks|
    ensures i < |Slice(tasks, n, j)| ==> Slice(tasks, n, j)[i] == tasks[j * PartLen(|tasks|, n) + i]
  {
    hide PartLen;
    var k := PartLen(|tasks|, n);
    assert (j + 1) * k == j * k + k;
  }

  /** The dividing loop: laid end to end, the parts are the original list. */
  method Divide<T>(tasks: seq<T>, n: nat) returns (parts: seq<seq<T>>)
    requires n > 0
    ensures |parts| == n && Flatten(parts) == tasks
    ensures forall j | 0 <= j < n :: parts[j] == Slice(tasks, n, j) && |parts[j]| <= PartLen(|tasks|, n)
  {
    parts := [];
    LoEnds(|tasks|, n);
    for i := 0 to n
      invariant |parts| == i && Flatten(parts) == tasks[..Lo(|tasks|, n, i)]
      invariant forall j | 0 <= j < i :: parts[j] == Slice(tasks, n, j) && |parts[j]| <= PartLen(|tasks|, n)
    {
      hide Slice, Lo, PartLen, Flatten;
      var part := Slice(tasks, n, i);
      SliceExtends(tasks, n, i);
      FlattenAppend(parts, part);
      parts := parts + [part];
    }
    assert tasks[..|tasks|] == tasks;
  }
}
