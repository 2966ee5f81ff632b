/**
 Values and the trees the serializer walks: the order of members does not change the value, and
 every value has a tree in every order, so the round trip is one of values.
 */
module JsonValues {
  import opened JsonCursor
  import opened JsonGrammar
  import opened JsonSerializer
  import opened JsonRoundTrip

  ghost predicate DistinctKeys(members: seq<Member>) {
    forall i, j | 0 <= i < j < |members| :: members[i].key != members[j].key
  }

  /** `MembersOf` is the map the members describe. */
  lemma {:induction false} MembersOfLookup(members: seq<Member>, n: nat, i: nat)
    requires i < n <= |members| && DistinctKeys(members)
    ensures members[i].key in MembersOf(members, n)
    ensures MembersOf(members, n)[members[i].key] == ValueOf(members[i].value)
    decreases n
  {
    if i < n - 1 {
      MembersOfLookup(members, n - 1, i);
    }
  }

  lemma {:induction false} MembersOfKeys(members: seq<Member>, n: nat, key: Text) returns (i: nat)
    requires n <= |members| && key in MembersOf(members, n)
    ensures i < n && members[i].key == key
    decreases n
  {
    if members[n - 1].key == key {
      i := n - 1;
    } else {
      i := MembersOfKeys(members, n - 1, key);
    }
  }

  /** Whatever one order of the members says of a key, every other order says too. */
  lemma SameEntry(a: seq<Member>, b: seq<Member>, key: Text)
    requires DistinctKeys(a) && DistinctKeys(b) && multiset(a) == multiset(b)
    requires key in MembersOf(a, |a|)
    ensures key in MembersOf(b, |b|) && MembersOf(b, |b|)[key] == MembersOf(a, |a|)[key]
  {
    hide MembersOf, ValueOf;
    var i := MembersOfKeys(a, |a|, key);
    assert a[i] in multiset(b);
    var j :| 0 <= j < |b| && b[j] == a[i];
    MembersOfLookup(a, |a|, i);
    MembersOfLookup(b, |b|, j);
  }

  /** The order in which the members of an object are visited does not change its value. */
  lemma OrderDoesNotMatter(a: seq<Member>, b: seq<Member>)
    requires DistinctKeys(a) && DistinctKeys(b) && multiset(a) == multiset(b)
    ensures ValueOf(TObj(a)) == ValueOf(TObj(b))
  {
    hide MembersOf, DistinctKeys;
    var (ma, mb) := (MembersOf(a, |a|), MembersOf(b, |b|));
    forall key | key in ma
      ensures key in mb && mb[key] == ma[key]
    {
      SameEntry(a, b, key);
    }
    forall key | key in mb
      ensures key in ma
    {
      SameEntry(b, a, key);
    }
    assert ma == mb;
  }

  // ---------------------------------------------------------------- a tree for every value

  /** A value without doubles whose integers fit 64 bits. */
  ghost predicate Plain(v: Value) {
    match v
    case Double(_) => false
    case Int(i) => INT64_MIN <= i <= INT64_MAX
    case Arr(items) => forall i | 0 <= i < |items| :: Plain(items[i])
    case Obj(members) => forall k | k in members :: Plain(members[k])
    case _ => true
  }

  ghost predicate IsTreeOf(tree: Tree, v: Value) {
    WellFormed(tree) && ValueOf(tree) == v
  }

  /** The keys of an object, each once. */
  ghost predicate IsOrder(order: seq<Text>, members: map<Text, Value>) {
    && (forall i, j | 0 <= i < j < |order| :: order[i] != order[j])
    && (forall k :: k in order <==> k in members)
  }

  lemma {:induction false} SomeOrder(keys: set<Text>) returns (order: seq<Text>)
    ensures forall i, j | 0 <= i < j < |order| :: order[i] != order[j]
    ensures forall k :: k in order <==> k in keys
    decreases |keys|
  {
    if keys == {} {
      order := [];
    } else {
      var k :| k in keys;
      var rest := SomeOrder(keys - {k});
      order := rest + [k];
    }
  }

  lemma {:induction false} TreeFor(v: Value) returns (tree: Tree)
    requires Plain(v)
    ensures IsTreeOf(tree, v)
    decreases v, 1
  {
    match v
    case Null => tree := TNull;
    case Bool(b) => tree := TBool(b);
    case Int(i) => tree := TInt(i);
    case Str(s) => tree := TStr(s);
    case Arr(items) =>
      var trees := ItemsFor(v, |items|);
      ValuesOfAll(trees, items, |items|);
      tree := TArr(trees);
    case Obj(members) =>
      var order := SomeOrder(members.Keys);
      assert IsOrder(order, members);
      tree := TreeInOrder(v, order);
  }

  lemma {:induction false} ItemsFor(v: Value, n: nat) returns (trees: seq<Tree>)
    requires v.Arr? && Plain(v) && n <= |v.items|
    ensures |trees| == n && forall i | 0 <= i < n :: IsTreeOf(trees[i], v.items[i])
    decreases v, 0, n
  {
    trees := [];
    if n > 0 {
      var before := ItemsFor(v, n - 1);
      var last := TreeFor(v.items[n - 1]);
      trees := before + [last];
    }
  }

  lemma {:induction false} ValuesOfAll(trees: seq<Tree>, items: seq<Value>, n: nat)
    requires n <= |trees| == |items| && forall i | 0 <= i < |items| :: IsTreeOf(trees[i], items[i])
    ensures ValuesOf(trees, n) == items[..n]
  {
    if n > 0 {
      ValuesOfAll(trees, items, n - 1);
      assert items[..n] == items[..n - 1] + [items[n - 1]];
    }
  }

  lemma {:induction false} MembersFor(v: Value, order: seq<Text>, n: nat) returns (ms: seq<Member>)
    requires v.Obj? && Plain(v) && IsOrder(order, v.members) && n <= |order|
    ensures |ms| == n
    ensures forall i | 0 <= i < n :: ms[i].key == order[i] && IsTreeOf(ms[i].value, v.members[order[i]])
    decreases v, 0, n
  {
    ms := [];
    if n > 0 {
      var before := MembersFor(v, order, n - 1);
      assert order[n - 1] in v.members;
      var last := TreeFor(v.members[order[n - 1]]);
      ms := before + [Member(order[n - 1], last)];
    }
  }

  /** For every order of its members, an object has a tree that visits them in that order. */
  lemma {:induction false} TreeInOrder(v: Value, order: seq<Text>) returns (tree: Tree)
    requires v.Obj? && Plain(v) && IsOrder(order, v.members)
    ensures tree.TObj? && |tree.members| == |order| && forall i | 0 <= i < |order| :: tree.members[i].key == order[i]
    ensures IsTreeOf(tree, v)
    decreases v, 0, |order| + 1
  {
    var ms := MembersFor(v, order, |order|);
    tree := TObj(ms);
    MapOfOrder(v.members, order, ms);
  }

  lemma MapOfOrder(members: map<Text, Value>, order: seq<Text>, ms: seq<Member>)
    requires IsOrder(order, members) && |ms| == |order|
    requires forall i | 0 <= i < |order| ::
               ms[i].key == order[i] && order[i] in members && ValueOf(ms[i].value) == members[order[i]]
    ensures DistinctKeys(ms) && MembersOf(ms, |ms|) == members
  {
    hide MembersOf, ValueOf;
    var m := MembersOf(ms, |ms|);
    forall k | k in members
      ensures k in m && m[k] == members[k]
    {
      assert k in order;
      var i :| 0 <= i < |order| && order[i] == k;
      MembersOfLookup(ms, |ms|, i);
    }
    forall k | k in m
      ensures k in members
    {
      var i := MembersOfKeys(ms, |ms|, k);
    }
  }

  lemma IntegerTrees(tree: Tree, v: Value)
    requires IsTreeOf(tree, v)
    ensures tree.TInt? <==> v.Int?
  {
  }

  /**
   The round trip of values: each has a tree, and the text of any of its trees, in any member
   order, is read back as the value.
   */
  lemma ValueRoundTrip(v: Value, pretty: bool, before: Text, after: Text)
    requires Plain(v)
    requires v.Int? && !pretty ==> !IsNumberChar(At(after, 0))
    ensures exists tree :: IsTreeOf(tree, v)
    ensures var indent := if pretty then 0 else -1;
            forall tree | IsTreeOf(tree, v) ::
              Parse(Building, before + FullText(tree, indent) + after, |before|) == Ok(v, |before| + |Own(tree, indent)|)
  {
    hide Parse, FullText, Own, Plain, WellFormed, ValueOf;
    var some := TreeFor(v);
    var indent := if pretty then 0 else -1;
    forall tree | IsTreeOf(tree, v)
      ensures Parse(Building, before + FullText(tree, indent) + after, |before|) == Ok(v, |before| + |Own(tree, indent)|)
    {
      IntegerTrees(tree, v);
      RoundTrip(tree, pretty, before, after);
    }
  }
}
