/**
 Choosing tasks by score: sorting them by score, and adding names to a set until
 it is large enough.
 */
module Selection {

  import opened Prelude
  import StableSort

  type Key = string
  type Name = string

  datatype Scored = Scored(key: Key, score: real)

  function ScoreOf(x: Scored): real {
    x.score
  }

  /** Largest score first. */
  function SortDesc(s: seq<Scored>): (r: seq<Scored>)
    ensures |r| == |s|
  {
    StableSort.Sort(ScoreOf, s)
  }

  ghost predicate Descending(s: seq<Scored>) {
    forall i, j | 0 <= i < j < |s| :: s[i].score >= s[j].score
  }

  lemma SortDescSorts(s: seq<Scored>)
    ensures Descending(SortDesc(s)) && multiset(SortDesc(s)) == multiset(s)
  {
    hide StableSort.Sort;
    StableSort.SortSorts(ScoreOf, s);
    var r := SortDesc(s);
    assert forall i | 0 <= i < |r| :: ScoreOf(r[i]) == r[i].score;
  }

  lemma SortDescMembers(s: seq<Scored>, x: Scored)
    ensures x in SortDesc(s) <==> x in s
  {
    StableSort.SortMembers(ScoreOf, s, x);
  }

  // ---------------------------------------------------------------- taking the best

  /** The entries with a positive score, in order. */
  function Positive(s: seq<Scored>): (r: seq<Scored>)
    ensures |r| <= |s|
  {
    if s == [] then []
    else if s[0].score > 0.0 then [s[0]] + Positive(s[1..])
    else Positive(s[1..])
  }

  lemma {:induction false} PositiveMembers(s: seq<Scored>, x: Scored)
    ensures x in Positive(s) <==> x in s && x.score > 0.0
  {
    if s != [] {
      PositiveMembers(s[1..], x);
    }
  }

  /** Of a descending list the positive entries come first. */
  lemma {:induction false} PositiveIsPrefix(s: seq<Scored>)
    requires Descending(s)
    ensures Positive(s) == s[..|Positive(s)|]
  {
    if s != [] {
      PositiveIsPrefix(s[1..]);
      if s[0].score <= 0.0 && Positive(s[1..]) != [] {
        assert Positive(s[1..])[0] == s[1];
        PositiveMembers(s[1..], s[1]);
      }
      assert s[1..][..|Positive(s[1..])|] == s[1..|Positive(s[1..])| + 1];
    }
  }

  lemma {:induction false} PositiveAppend(s: seq<Scored>, t: seq<Scored>)
    ensures Positive(s + t) == Positive(s) + Positive(t)
  {
    if s == [] {
      assert s + t == t;
    } else {
      PositiveAppend(s[1..], t);
      assert (s + t)[1..] == s[1..] + t && (s + t)[0] == s[0];
      var head := if s[0].score > 0.0 then [s[0]] else [];
      assert Positive(s) == head + Positive(s[1..]) && Positive(s + t) == head + Positive(s[1..] + t);
      hide Positive;
      Assoc(head, Positive(s[1..]), Positive(t));
    }
  }

  lemma {:induction false} PositiveInsert(s: seq<Scored>, x: Scored)
    ensures |Positive(StableSort.Insert(ScoreOf, s, x))| == |Positive(s)| + |Positive([x])|
  {
    if s == [] || s[|s| - 1].score >= x.score {
      PositiveAppend(s, [x]);
    } else {
      var front, last := s[..|s| - 1], [s[|s| - 1]];
      assert s == front + last;
      PositiveInsert(front, x);
      PositiveAppend(front, last);
      PositiveAppend(StableSort.Insert(ScoreOf, front, x), last);
    }
  }

  /** Sorting keeps the number of positive scores. */
  lemma {:induction false} PositiveSorted(s: seq<Scored>)
    ensures |Positive(SortDesc(s))| == |Positive(s)|
  {
    if s != [] {
      var front, x := s[..|s| - 1], s[|s| - 1];
      assert s == front + [x];
      PositiveSorted(front);
      PositiveInsert(SortDesc(front), x);
      PositiveAppend(front, [x]);
    }
  }

  ghost function PositivePlaces(s: seq<Scored>): set<nat> {
    set i: nat | i < |s| && s[i].score > 0.0
  }

  lemma {:induction false} PositiveCount(s: seq<Scored>)
    ensures |Positive(s)| == |PositivePlaces(s)|
  {
    if s == [] {
      assert PositivePlaces(s) == {};
    } else {
      var n := |s| - 1;
      assert s == s[..n] + [s[n]];
      PositiveCount(s[..n]);
      PositiveAppend(s[..n], [s[n]]);
      assert PositivePlaces(s) == PositivePlaces(s[..n]) + if s[n].score > 0.0 then {n} else {};
      assert [s[n]][1..] == [];
    }
  }

  function NamesOf(clean: Key -> Name, s: seq<Scored>): set<Name> {
    set x | x in s :: clean(x.key)
  }

  /** Add names in order until the set holds `want` of them. */
  function AddUntil(clean: Key -> Name, s: seq<Scored>, chosen: set<Name>, want: int): (r: set<Name>) {
    if s == [] then chosen
    else
      var chosen' := chosen + {clean(s[0].key)};
      if |chosen'| == want then chosen' else AddUntil(clean, s[1..], chosen', want)
  }

  /** The set grows by names of the list, and stops exactly at `want` or after the whole list. */
  lemma {:induction false} AddUntilBounds(clean: Key -> Name, s: seq<Scored>, chosen: set<Name>, want: int)
    requires |chosen| < want
    ensures var r := AddUntil(clean, s, chosen, want);
            && chosen <= r <= chosen + NamesOf(clean, s)
            && |r| <= want
            && (|r| < want ==> r == chosen + NamesOf(clean, s))
  {
    if s == [] {
      assert NamesOf(clean, s) == {};
    } else {
      hide NamesOf;
      var chosen' := chosen + {clean(s[0].key)};
      OneMore(chosen, clean(s[0].key));
      NamesHead(clean, s);
      if |chosen'| != want {
        AddUntilBounds(clean, s[1..], chosen', want);
      }
    }
  }

  /** What is added is a stretch of the list from its beginning. */
  lemma {:induction false} AddsPrefix(clean: Key -> Name, s: seq<Scored>, chosen: set<Name>, want: int) returns (k: nat)
    ensures k <= |s| && AddUntil(clean, s, chosen, want) == chosen + NamesOf(clean, s[..k])
  {
    if s == [] {
      k := 0;
      assert NamesOf(clean, s[..0]) == {};
    } else {
      var chosen' := chosen + {clean(s[0].key)};
      assert s[..1] == [s[0]] && s[..1][1..] == [];
      if |chosen'| == want {
        k := 1;
        assert NamesOf(clean, s[..1]) == {clean(s[0].key)};
      } else {
        var j := AddsPrefix(clean, s[1..], chosen', want);
        k := j + 1;
        assert s[..k][1..] == s[1..][..j];
        NamesHead(clean, s[..k]);
      }
    }
  }

  lemma OneMore<T>(a: set<T>, x: T)
    ensures |a + {x}| <= |a| + 1
  {
    if x in a {
      assert a + {x} == a;
    }
  }

  lemma NamesHead(clean: Key -> Name, s: seq<Scored>)
    requires s != []
    ensures NamesOf(clean, s) == {clean(s[0].key)} + NamesOf(clean, s[1..])
  {
    assert s == [s[0]] + s[1..];
  }

  ghost predicate DistinctNames(clean: Key -> Name, s: seq<Scored>) {
    forall i, j | 0 <= i < j < |s| :: clean(s[i].key) != clean(s[j].key)
  }

  /** Sorting keeps names distinct. */
  lemma SortKeepsDistinct(clean: Key -> Name, s: seq<Scored>)
    requires DistinctNames(clean, s)
    ensures DistinctNames(clean, SortDesc(s))
  {
    hide StableSort.Sort;
    var name := (x: Scored) => clean(x.key);
    assert StableSort.DistinctBy(name, s);
    StableSort.SortKeepsDistinct(ScoreOf, name, s);
    var r := SortDesc(s);
    assert forall i | 0 <= i < |r| :: name(r[i]) == clean(r[i].key);
  }

  /** The names the code takes when the first window already offers enough: the best `want`. */
  lemma {:induction false} TakesTheBest(clean: Key -> Name, s: seq<Scored>, want: nat)
    requires DistinctNames(clean, s) && 0 < want <= |Positive(SortDesc(s))|
    ensures want <= |SortDesc(s)|
    ensures AddUntil(clean, Positive(SortDesc(s)), {}, want) == NamesOf(clean, SortDesc(s)[..want])
    ensures |NamesOf(clean, SortDesc(s)[..want])| == want
    ensures forall i, j | 0 <= i < want <= j < |s| :: SortDesc(s)[i].score >= SortDesc(s)[j].score
  {
    var sorted := SortDesc(s);
    var best := Positive(sorted);
    SortDescSorts(s);
    SortKeepsDistinct(clean, s);
    PositiveIsPrefix(sorted);
    assert best[..0] == [] && best[0..] == best;
    assert NamesOf(clean, best[..0]) == {};
    AddUntilTakesFirst(clean, best, 0, want);
    assert best[..want] == sorted[..want];
    NamesCount(clean, sorted[..want]);
  }

  lemma EarlyName(clean: Key -> Name, s: seq<Scored>, want: nat, k: nat)
    requires k < want <= |s|
    ensures clean(s[k].key) in NamesOf(clean, s[..want])
  {
    assert s[..want][k] == s[k];
  }

  /** Of two entries, one among the best `want` by name and one not, the first scores no less. */
  lemma InOrder(clean: Key -> Name, s: seq<Scored>, want: nat, i: nat, j: nat)
    requires DistinctNames(clean, s) && want <= |s| && i < |s| && j < |s|
    requires clean(s[i].key) in NamesOf(clean, SortDesc(s)[..want])
    requires clean(s[j].key) !in NamesOf(clean, SortDesc(s)[..want])
    ensures s[i].score >= s[j].score
  {
    hide SortDesc;
    var best := SortDesc(s);
    SortDescSorts(s);
    var y :| y in best[..want] && clean(y.key) == clean(s[i].key);
    var a :| 0 <= a < want && best[a] == y;
    SortDescMembers(s, y);
    SortDescMembers(s, s[j]);
    var b :| 0 <= b < |best| && best[b] == s[j];
    if b < want {
      EarlyName(clean, best, want, b);
    }
    assert y == s[i];
  }

  lemma {:induction false} NamesCount(clean: Key -> Name, s: seq<Scored>)
    requires DistinctNames(clean, s)
    ensures |NamesOf(clean, s)| == |s|
  {
    if s != [] {
      var n := |s| - 1;
      assert s == s[..n] + [s[n]];
      NamesCount(clean, s[..n]);
      assert NamesOf(clean, s) == NamesOf(clean, s[..n]) + {clean(s[n].key)};
    }
  }

  /** With enough distinct names the set is that of the first `want` entries. */
  lemma {:induction false} AddUntilTakesFirst(clean: Key -> Name, s: seq<Scored>, k: nat, want: nat)
    requires DistinctNames(clean, s) && k < want <= |s|
    ensures AddUntil(clean, s[k..], NamesOf(clean, s[..k]), want) == NamesOf(clean, s[..want])
    decreases want - k
  {
    assert s[..k + 1] == s[..k] + [s[k]];
    assert NamesOf(clean, s[..k + 1]) == NamesOf(clean, s[..k]) + {clean(s[k].key)};
    NamesCount(clean, s[..k + 1]);
    assert s[k..][1..] == s[k + 1..];
    if k + 1 < want {
      AddUntilTakesFirst(clean, s, k + 1, want);
    }
  }

  /** The selecting loop. */
  method Take(clean: Key -> Name, wanted: seq<Scored>, before: set<Name>, want: int) returns (chosen: set<Name>)
    ensures chosen == AddUntil(clean, wanted, before, want)
  {
    chosen := before;
    var i := 0;
    while i < |wanted|
      invariant 0 <= i <= |wanted|
      invariant AddUntil(clean, wanted, before, want) == AddUntil(clean, wanted[i..], chosen, want)
    {
      chosen := chosen + {clean(wanted[i].key)};
      if |chosen| == want {
        return;
      }
      assert wanted[i..][1..] == wanted[i + 1..];
      i := i + 1;
    }
  }
}
