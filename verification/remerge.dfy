/** When merging an overlay a second time changes nothing. Properties never stand in the way; what counts is in
    which order the names of siblings come, and that can be said exactly. */
module Remerge {
  import opened Bytes
  import opened StructBlock
  import opened MergeLaws
  import T = Tree

  // ---- properties ------------------------------------------------------------------------------

  lemma FindPropSame(ps: seq<T.Property>, qs: seq<T.Property>, name: seq<byte>)
    requires |ps| == |qs| && forall k :: 0 <= k < |ps| ==> ps[k].name == qs[k].name
    ensures T.FindProp(ps, name) == T.FindProp(qs, name)
  {
    T.FindPropIs(qs, name, T.FindProp(ps, name));
  }

  /** Setting properties that are all there changes the first of each name, in place. */
  lemma {:induction false} PropsInPlace(t: T.Tree, ps: seq<T.Property>)
    requires forall i :: 0 <= i < |ps| ==> T.FindProp(t.props, ps[i].name) < |t.props|
    ensures var r := T.MergeProps(t, ps);
      && |r.props| == |t.props|
      && forall k :: 0 <= k < |t.props| ==>
           r.props[k].name == t.props[k].name && (T.FindProp(t.props, t.props[k].name) != k ==> r.props[k] == t.props[k])
    decreases |ps|
  {
    if ps != [] {
      var t1 := T.SetProp(t, ps[0].name, ps[0].val);
      forall name
        ensures T.FindProp(t1.props, name) == T.FindProp(t.props, name)
      {
        FindPropSame(t.props, t1.props, name);
      }
      PropsInPlace(t1, ps[1..]);
    }
  }

  /** Setting properties a second time changes nothing, whatever names are repeated. */
  lemma MergePropsTwice(t: T.Tree, ps: seq<T.Property>)
    ensures T.MergeProps(T.MergeProps(t, ps), ps) == T.MergeProps(t, ps)
  {
    hide T.MergeProps, LastOf;
    var r := T.MergeProps(t, ps);
    var r2 := T.MergeProps(r, ps);
    forall i | 0 <= i < |ps|
      ensures T.FindProp(r.props, ps[i].name) < |r.props|
    {
      MergePropsValue(t, ps, ps[i].name);
      LastThere(ps, i);
    }
    PropsInPlace(r, ps);
    T.MergePropsKids(r, ps);
    forall k | 0 <= k < |r.props|
      ensures r2.props[k] == r.props[k]
    {
      var name := r.props[k].name;
      if T.FindProp(r.props, name) == k {
        FindPropSame(r.props, r2.props, name);
        MergePropsValue(t, ps, name);
        MergePropsValue(r, ps, name);
      }
    }
    assert r2.props == r.props;
  }

  lemma {:induction false} LastThere(ps: seq<T.Property>, i: nat)
    requires i < |ps|
    ensures LastOf(ps, ps[i].name).Some?
    decreases |ps|
  {
    if i < |ps| - 1 {
      LastThere(ps[..|ps| - 1], i);
    }
  }

  const P: Name := [112]

  /** A node with nothing in it. */
  function Bare(name: Name): T.Tree { T.Tree(name, [], []) }

  // ---- lookups ------------------------------------------------------------------------------------

  predicate Found(kids: seq<T.Tree>, name: seq<byte>) {
    T.FindKid(kids, name) < |kids|
  }

  predicate AllFound(kids: seq<T.Tree>, os: seq<T.Tree>) {
    forall i :: 0 <= i < |os| ==> Found(kids, os[i].name)
  }

  /** The same names in the same order. */
  predicate SameHeads(a: seq<T.Tree>, b: seq<T.Tree>) {
    |a| == |b| && forall i :: 0 <= i < |a| ==> a[i].name == b[i].name
  }

  lemma HeadsFind(a: seq<T.Tree>, b: seq<T.Tree>, name: seq<byte>)
    requires SameHeads(a, b)
    ensures T.FindKid(a, name) == T.FindKid(b, name)
  {
    hide T.NameMatches;
    T.FindKidIs(b, name, T.FindKid(a, name));
  }

  lemma FindFirst(kids: seq<T.Tree>, name: seq<byte>)
    requires kids != [] && T.NameMatches(kids[0].name, name)
    ensures T.FindKid(kids, name) == 0
  {
  }

  /** Overlay nodes merged into one node, one after the other. */
  function MergeAll(x: T.Tree, os: seq<T.Tree>): T.Tree
    decreases |os|
  {
    if os == [] then x else T.Merge(MergeAll(x, os[..|os| - 1]), os[|os| - 1])
  }

  /** The nodes with one of these names. */
  function Picked(os: seq<T.Tree>, names: set<Name>): (r: seq<T.Tree>)
    ensures Count(Kids(r)) + |r| <= Count(os)
    ensures (exists i :: 0 <= i < |os| && os[i].name in names) ==> r != []
    decreases |os|
  {
    if os == [] then [] else
      var n := |os| - 1;
      var r := Picked(os[..n], names);
      if os[n].name in names then
        KidsSnoc(r, os[n]);
        CountConcat(Kids(r), os[n].kids);
        r + [os[n]]
      else
        assert forall i :: 0 <= i < n ==> os[..n][i] == os[i];
        r
  }

  /** The children of all nodes of a list. */
  function Kids(os: seq<T.Tree>): seq<T.Tree>
    decreases |os|
  {
    if os == [] then [] else Kids(os[..|os| - 1]) + os[|os| - 1].kids
  }

  lemma KidsSnoc(os: seq<T.Tree>, o: T.Tree)
    ensures Kids(os + [o]) == Kids(os) + o.kids
  {
    assert (os + [o])[..|os|] == os;
  }

  /** How many nodes there are. */
  function Count(os: seq<T.Tree>): nat
    decreases os
  {
    if os == [] then 0 else Count(os[..|os| - 1]) + 1 + Count(os[|os| - 1].kids)
  }

  lemma {:induction false} CountConcat(a: seq<T.Tree>, b: seq<T.Tree>)
    ensures Count(a + b) == Count(a) + Count(b)
    decreases |b|
  {
    if b == [] {
      assert a + b == a;
    } else {
      var n := |b| - 1;
      assert (a + b)[..|a + b| - 1] == a + b[..n];
      CountConcat(a, b[..n]);
    }
  }

  lemma MergeKidFound(kids: seq<T.Tree>, o: T.Tree)
    requires Found(kids, o.name)
    ensures var i := T.FindKid(kids, o.name);
      T.MergeKid(kids, o) == kids[i := T.Merge(kids[i], o)] && SameHeads(kids, T.MergeKid(kids, o))
  {
    MergeName(kids[T.FindKid(kids, o.name)], o);
    hide T.Merge, T.FindKid;
  }

  /** When all names are found, names and places stay, and every child gets the nodes whose names lead to it. */
  lemma {:induction false} InPlace(kids: seq<T.Tree>, os: seq<T.Tree>, c: nat, names: set<Name>)
    requires AllFound(kids, os) && (c < |kids| ==> forall i :: 0 <= i < |os| ==> (os[i].name in names <==> T.FindKid(kids, os[i].name) == c))
    ensures var r := T.MergeKids(kids, os);
      SameHeads(kids, r) && (c < |kids| ==> r[c] == MergeAll(kids[c], Picked(os, names)))
    decreases |os|
  {
    hide T.MergeKid, T.Merge, T.FindKid, Kids, Count;
    if os != [] {
      var n := |os| - 1;
      var init, o := os[..n], os[n];
      assert os == init + [o];
      T.MergeKidsSnoc(kids, init, o);
      assert Found(kids, o.name);
      assert forall i :: 0 <= i < n ==> init[i] == os[i] && Found(kids, os[i].name);
      InPlace(kids, init, c, names);
      var m := T.MergeKids(kids, init);
      HeadsFind(kids, m, o.name);
      MergeKidFound(m, o);
      if c < |kids| && o.name in names {
        assert (Picked(init, names) + [o])[..|Picked(init, names)|] == Picked(init, names);
      }
    }
  }

  /** A child in front that no name leads to stays aside. */
  lemma {:induction false} Aside(x: T.Tree, kids: seq<T.Tree>, os: seq<T.Tree>)
    requires AllFound(kids, os) && forall i :: 0 <= i < |os| ==> !T.NameMatches(x.name, os[i].name)
    ensures T.MergeKids([x] + kids, os) == [x] + T.MergeKids(kids, os)
    decreases |os|
  {
    hide T.MergeKid, T.Merge, T.NameMatches, T.FindKid;
    if os != [] {
      var n := |os| - 1;
      var init, o := os[..n], os[n];
      assert os == init + [o];
      T.MergeKidsSnoc(kids, init, o);
      T.MergeKidsSnoc([x] + kids, init, o);
      assert forall i :: 0 <= i < n ==> init[i] == os[i] && Found(kids, os[i].name);
      Aside(x, kids, init);
      InPlace(kids, init, |kids|, {});
      var m := T.MergeKids(kids, init);
      HeadsFind(kids, m, o.name);
      assert Found(kids, o.name);
      AsideOne(x, m, o);
    }
  }

  lemma AsideOne(x: T.Tree, kids: seq<T.Tree>, o: T.Tree)
    requires Found(kids, o.name) && !T.NameMatches(x.name, o.name)
    ensures T.MergeKid([x] + kids, o) == [x] + T.MergeKid(kids, o)
  {
    hide T.Merge, T.NameMatches;
    var i := T.FindKid(kids, o.name);
    T.FindKidIs([x] + kids, o.name, i + 1);
    MergeKidFound(kids, o);
    MergeKidFound([x] + kids, o);
    assert ([x] + kids)[i + 1 := T.Merge(kids[i], o)] == [x] + kids[i := T.Merge(kids[i], o)];
  }

  // ---- the order of siblings --------------------------------------------------------------------------

  /** One of the first `n` nodes has the name. */
  predicate Named(os: seq<T.Tree>, n: nat, name: Name) {
    exists k :: 0 <= k < n && k < |os| && os[k].name == name
  }

  /** A name that also stands for a node with a unit address comes when that node has been mentioned. */
  predicate Ordered(os: seq<T.Tree>) {
    forall i, j :: 0 <= i < j < |os| && os[j].name != os[i].name && T.NameMatches(os[j].name, os[i].name) ==> Named(os, i, os[j].name)
  }

  /** Two names that may lead to the same child. */
  predicate Meet(a: Name, b: Name) {
    a == b || T.NameMatches(a, b)
  }

  /** The condition, on names alone: siblings are in order, and so are the children of those that may be merged
      into the same node, taken together. */
  predicate Settles(os: seq<T.Tree>)
    decreases Count(os)
  {
    Ordered(os) && forall i, j :: 0 <= i < |os| && 0 <= j < |os| && Meet(os[i].name, os[j].name) ==>
      Settles(Kids(Picked(os, {os[i].name, os[j].name})))
  }

  /** The base with an empty node for every name that is not found. */
  function Prepared(kids: seq<T.Tree>, os: seq<T.Tree>): seq<T.Tree>
    decreases |os|
  {
    if os == [] then kids else
      var p, name := Prepared(kids, os[..|os| - 1]), os[|os| - 1].name;
      if Found(p, name) then p else [Bare(name)] + p
  }

  lemma {:induction false} PreparedFound(kids: seq<T.Tree>, os: seq<T.Tree>)
    ensures AllFound(Prepared(kids, os), os)
    decreases |os|
  {
    hide T.NameMatches;
    if os != [] {
      var n := |os| - 1;
      var p, r := Prepared(kids, os[..n]), Prepared(kids, os);
      PreparedFound(kids, os[..n]);
      forall i | 0 <= i < |os|
        ensures Found(r, os[i].name)
      {
        if i < n {
          assert Found(p, os[..n][i].name);
          FoundStill(Bare(os[n].name), p, os[i].name);
        } else if !Found(p, os[n].name) {
          MatchSelf(os[n].name);
        }
      }
    }
  }

  lemma FoundStill(x: T.Tree, kids: seq<T.Tree>, name: seq<byte>)
    requires Found(kids, name)
    ensures Found([x] + kids, name)
  {
    hide T.NameMatches;
    var i := T.FindKid(kids, name);
    assert ([x] + kids)[i + 1] == kids[i];
  }

  /** In order, the nodes that a merge makes can as well be there before. */
  lemma {:induction false} PreparedFirst(kids: seq<T.Tree>, os: seq<T.Tree>)
    requires Ordered(os)
    ensures T.MergeKids(kids, os) == T.MergeKids(Prepared(kids, os), os)
    decreases |os|
  {
    hide T.MergeKid, T.Merge, T.NameMatches, T.FindKid, T.MergeKids;
    if os != [] {
      var n := |os| - 1;
      var init, o := os[..n], os[n];
      assert os == init + [o];
      OrderedPrefix(os, n);
      PreparedFirst(kids, init);
      var p := Prepared(kids, init);
      T.MergeKidsSnoc(kids, init, o);
      PreparedFound(kids, init);
      if Found(p, o.name) {
        T.MergeKidsSnoc(p, init, o);
      } else {
        NewAside(p, init, o);
        T.MergeKidsSnoc([Bare(o.name)] + p, init, o);
        Aside(Bare(o.name), p, init);
        InPlace(p, init, |p|, {});
        HeadsFind(p, T.MergeKids(p, init), o.name);
        MadeFirst(T.MergeKids(p, init), o);
      }
    }
  }

  lemma OrderedPrefix(os: seq<T.Tree>, n: nat)
    requires Ordered(os) && n <= |os|
    ensures Ordered(os[..n])
  {
    hide T.NameMatches, Named;
    forall i, j | 0 <= i < j < n && os[j].name != os[i].name && T.NameMatches(os[j].name, os[i].name)
      ensures Named(os[..n], i, os[j].name)
    {
      NamedIn(os, os[..n], i, os[j].name);
    }
  }

  lemma NamedIn(a: seq<T.Tree>, b: seq<T.Tree>, i: nat, name: Name)
    requires i <= |a| && i <= |b| && forall k :: 0 <= k < i ==> a[k].name == b[k].name
    requires Named(a, i, name)
    ensures Named(b, i, name)
  {
    var k :| 0 <= k < i && k < |a| && a[k].name == name;
    assert b[k].name == name;
  }

  /** A name that is not found among the nodes of the names before it is matched by none of these. */
  lemma NewAside(p: seq<T.Tree>, os: seq<T.Tree>, o: T.Tree)
    requires Ordered(os + [o]) && AllFound(p, os) && !Found(p, o.name)
    ensures forall i :: 0 <= i < |os| ==> !T.NameMatches(o.name, os[i].name)
  {
    hide T.NameMatches, T.FindKid;
    var all := os + [o];
    forall i | 0 <= i < |os|
      ensures !T.NameMatches(o.name, os[i].name)
    {
      assert Found(p, os[i].name) && all[i] == os[i] && all[|os|] == o;
      if T.NameMatches(o.name, os[i].name) {
        NamedFound(p, os, o, i);
      }
    }
  }

  lemma NamedFound(p: seq<T.Tree>, os: seq<T.Tree>, o: T.Tree, i: nat)
    requires AllFound(p, os) && i < |os| && Named(os + [o], i, o.name)
    ensures Found(p, o.name)
  {
    hide Found;
    var k :| 0 <= k < i && (os + [o])[k].name == o.name;
    assert os[k].name == o.name;
  }

  /** A new node is the merge into an empty one in front. */
  lemma MadeFirst(kids: seq<T.Tree>, o: T.Tree)
    requires !Found(kids, o.name)
    ensures T.MergeKid(kids, o) == T.MergeKid([Bare(o.name)] + kids, o)
  {
    hide T.Merge;
    MatchSelf(o.name);
    FindFirst([Bare(o.name)] + kids, o.name);
    hide T.NameMatches, T.FindKid;
    assert ([Bare(o.name)] + kids)[0 := T.Merge(Bare(o.name), o)] == [T.Merge(Bare(o.name), o)] + kids;
  }

  // ---- the second time -----------------------------------------------------------------------------------

  /** Of the names of a list, at most two lead to the same child, and they meet. */
  lemma {:induction false} LeadersMeet(kids: seq<T.Tree>, os: seq<T.Tree>, i: nat, j: nat)
    requires AllFound(kids, os) && i < |os| && j < |os| && T.FindKid(kids, os[i].name) == T.FindKid(kids, os[j].name)
    ensures Meet(os[i].name, os[j].name) || Meet(os[j].name, os[i].name)
  {
    hide T.NameMatches, T.FindKid;
    assert Found(kids, os[i].name) && Found(kids, os[j].name);
    var c := T.FindKid(kids, os[i].name);
    MatchBoth(kids[c].name, os[i].name, os[j].name);
  }

  /** A name that matches another one and is not it has no unit address, so no third name comes in. */
  lemma NoThird(a: Name, b: Name, c: Name)
    requires T.NameMatches(a, b) && a != b
    requires Meet(a, c) || Meet(c, a)
    requires Meet(b, c) || Meet(c, b)
    requires exists n: Name :: T.NameMatches(n, a) && T.NameMatches(n, b) && T.NameMatches(n, c)
    ensures c == a || c == b
  {
    var n: Name :| T.NameMatches(n, a) && T.NameMatches(n, b) && T.NameMatches(n, c);
    assert a[|b|] == T.AT;
    assert n[|b|] == a[|b|];
  }

  /** The names that lead to a child, written as the two of a pair. */
  lemma PairFor(kids: seq<T.Tree>, os: seq<T.Tree>, c: nat, i: nat) returns (a: nat, b: nat)
    requires AllFound(kids, os) && c < |kids| && i < |os| && T.FindKid(kids, os[i].name) == c
    ensures a < |os| && b < |os| && Meet(os[a].name, os[b].name)
    ensures forall k :: 0 <= k < |os| ==> (os[k].name in {os[a].name, os[b].name} <==> T.FindKid(kids, os[k].name) == c)
  {
    hide T.NameMatches, T.FindKid;
    a, b := i, i;
    if j: nat :| j < |os| && T.FindKid(kids, os[j].name) == c && os[j].name != os[i].name {
      LeadersMeet(kids, os, i, j);
      if T.NameMatches(os[i].name, os[j].name) {
        b := j;
      } else {
        a := j;
      }
      forall k | 0 <= k < |os| && T.FindKid(kids, os[k].name) == c
        ensures os[k].name in {os[a].name, os[b].name}
      {
        LeadersMeet(kids, os, a, k);
        LeadersMeet(kids, os, b, k);
        assert Found(kids, os[a].name) && Found(kids, os[b].name) && Found(kids, os[k].name);
        assert T.NameMatches(kids[c].name, os[a].name) && T.NameMatches(kids[c].name, os[b].name) && T.NameMatches(kids[c].name, os[k].name);
        NoThird(os[a].name, os[b].name, os[k].name);
      }
    }
  }

  /** Several nodes merged into one: properties, and children as of one list. */
  lemma {:induction false} MergeAllParts(x: T.Tree, es: seq<T.Tree>)
    ensures var r := MergeAll(x, es);
      r.name == x.name && r.kids == T.MergeKids(x.kids, Kids(es)) && r.props == T.MergeProps(x, AllProps(es)).props
    decreases |es|
  {
    hide T.MergeKids, T.MergeProps;
    T.MergeNothing(x);
    if es != [] {
      var n := |es| - 1;
      MergeAllParts(x, es[..n]);
      var m := MergeAll(x, es[..n]);
      T.MergePropsKids(m, es[n].props);
      KidsConcat(x.kids, Kids(es[..n]), es[n].kids);
      PropsConcat(x, AllProps(es[..n]), es[n].props);
      PropsAlone(m, T.MergeProps(x, AllProps(es[..n])), es[n].props);
    }
  }

  function AllProps(es: seq<T.Tree>): seq<T.Property>
    decreases |es|
  {
    if es == [] then [] else AllProps(es[..|es| - 1]) + es[|es| - 1].props
  }

  lemma {:induction false} KidsConcat(kids: seq<T.Tree>, a: seq<T.Tree>, b: seq<T.Tree>)
    ensures T.MergeKids(kids, a + b) == T.MergeKids(T.MergeKids(kids, a), b)
    decreases |b|
  {
    hide T.MergeKid;
    if b == [] {
      assert a + b == a;
    } else {
      var n := |b| - 1;
      assert a + b == (a + b[..n]) + [b[n]] && b == b[..n] + [b[n]];
      T.MergeKidsSnoc(kids, a + b[..n], b[n]);
      T.MergeKidsSnoc(T.MergeKids(kids, a), b[..n], b[n]);
      KidsConcat(kids, a, b[..n]);
    }
  }

  lemma {:induction false} PropsConcat(t: T.Tree, a: seq<T.Property>, b: seq<T.Property>)
    ensures T.MergeProps(t, a + b) == T.MergeProps(T.MergeProps(t, a), b)
    decreases |b|
  {
    hide T.SetProp;
    T.MergeNothing(T.MergeProps(t, a));
    if b == [] {
      assert a + b == a;
    } else {
      var n := |b| - 1;
      assert a + b == (a + b[..n]) + [b[n]] && b == b[..n] + [b[n]];
      T.MergePropsSnoc(t, a + b[..n], b[n]);
      T.MergePropsSnoc(T.MergeProps(t, a), b[..n], b[n]);
      PropsConcat(t, a, b[..n]);
    }
  }

  /** Properties are merged without a look at anything else. */
  lemma {:induction false} PropsAlone(t: T.Tree, u: T.Tree, ps: seq<T.Property>)
    requires t.props == u.props
    ensures T.MergeProps(t, ps).props == T.MergeProps(u, ps).props
    decreases |ps|
  {
    if ps != [] {
      PropsAlone(T.SetProp(t, ps[0].name, ps[0].val), T.SetProp(u, ps[0].name, ps[0].val), ps[1..]);
    }
  }

  /** A second merge of several nodes into one, when the children settle. */
  lemma AllTwice(x: T.Tree, es: seq<T.Tree>)
    requires T.MergeKids(T.MergeKids(x.kids, Kids(es)), Kids(es)) == T.MergeKids(x.kids, Kids(es))
    ensures MergeAll(MergeAll(x, es), es) == MergeAll(x, es)
  {
    hide T.MergeKids, T.MergeProps, MergeAll;
    var m := MergeAll(x, es);
    MergeAllParts(x, es);
    MergeAllParts(m, es);
    MergePropsTwice(x, AllProps(es));
    PropsAlone(m, T.MergeProps(x, AllProps(es)), AllProps(es));
  }

  /** Children that settle: merging them a second time changes nothing. */
  lemma {:induction false} KidsTwice(kids: seq<T.Tree>, os: seq<T.Tree>)
    requires Settles(os)
    ensures T.MergeKids(T.MergeKids(kids, os), os) == T.MergeKids(kids, os)
    decreases Count(os)
  {
    hide T.MergeKids, T.MergeKid, T.Merge, T.NameMatches, T.FindKid, MergeAll, Picked, Kids, Ordered, AllFound;
    var p := Prepared(kids, os);
    PreparedFirst(kids, os);
    PreparedFound(kids, os);
    var r := T.MergeKids(p, os);
    InPlace(p, os, |p|, {});
    HeadsFindAll(p, r, os);
    var r2 := T.MergeKids(r, os);
    InPlace(r, os, |r|, {});
    forall c: nat | c < |r|
      ensures r2[c] == r[c]
    {
      ChildTwice(p, os, c);
    }
    assert r2 == r;
  }

  lemma HeadsFindAll(a: seq<T.Tree>, b: seq<T.Tree>, os: seq<T.Tree>)
    requires SameHeads(a, b)
    ensures AllFound(b, os) <==> AllFound(a, os)
    ensures forall i :: 0 <= i < |os| ==> T.FindKid(b, os[i].name) == T.FindKid(a, os[i].name)
  {
    hide T.FindKid;
    forall i | 0 <= i < |os|
      ensures T.FindKid(b, os[i].name) == T.FindKid(a, os[i].name)
    {
      HeadsFind(a, b, os[i].name);
    }
  }

  lemma {:induction false} ChildTwice(p: seq<T.Tree>, os: seq<T.Tree>, c: nat)
    requires Settles(os) && AllFound(p, os) && c < |p|
    ensures var r := T.MergeKids(p, os); c < |r| && |T.MergeKids(r, os)| == |r| && T.MergeKids(r, os)[c] == r[c]
    decreases Count(os), 0
  {
    hide T.MergeKids, T.MergeKid, T.Merge, T.NameMatches, T.FindKid, MergeAll, Picked, Kids, Ordered, AllFound;
    var names: set<Name>;
    if i: nat :| i < |os| && T.FindKid(p, os[i].name) == c {
      var a, b := PairFor(p, os, c, i);
      names := {os[a].name, os[b].name};
      PickedSmaller(os, a, names);
      KidsTwice(p[c].kids, Kids(Picked(os, names)));
    } else {
      names := {};
      PickedNone(os);
      NoKids(p[c].kids);
    }
    InPlace(p, os, c, names);
    var r := T.MergeKids(p, os);
    HeadsFindAll(p, r, os);
    InPlace(r, os, c, names);
    AllTwice(p[c], Picked(os, names));
  }

  lemma PickedSmaller(os: seq<T.Tree>, a: nat, names: set<Name>)
    requires a < |os| && os[a].name in names
    ensures Count(Kids(Picked(os, names))) < Count(os)
  {
    hide Picked, Count, Kids;
  }

  lemma {:induction false} PickedNone(os: seq<T.Tree>)
    ensures Picked(os, {}) == []
    decreases |os|
  {
    if os != [] {
      PickedNone(os[..|os| - 1]);
    }
  }

  lemma NoKids(kids: seq<T.Tree>)
    ensures Kids([]) == [] && T.MergeKids(kids, []) == kids
  {
  }

  /** Merging an overlay a second time changes nothing, when its names settle. */
  lemma MergeTwice(t: T.Tree, o: T.Tree)
    requires Settles(o.kids)
    ensures T.Merge(T.Merge(t, o), o) == T.Merge(t, o)
  {
    hide T.MergeKids, T.MergeProps, MergeAll, Kids, Settles;
    assert [o][..0] == [];
    KidsSnoc([], o);
    NoKids([]);
    assert [] + o.kids == o.kids && [] + [o] == [o];
    KidsTwice(t.kids, o.kids);
    AllTwice(t, [o]);
    OneMerged(t, o);
    OneMerged(T.Merge(t, o), o);
  }

  lemma OneMerged(t: T.Tree, o: T.Tree)
    ensures MergeAll(t, [o]) == T.Merge(t, o)
  {
    hide T.Merge;
    assert [o][..0] == [];
  }

  /** Where no name can be taken for a sibling's, names settle. */
  lemma {:induction false} UnambiguousSettles(o: T.Tree)
    requires Unambiguous(o)
    ensures Settles(o.kids)
    decreases o
  {
    hide T.NameMatches, Picked, Count, Kids;
    var os := o.kids;
    forall i, j | 0 <= i < |os| && 0 <= j < |os| && Meet(os[i].name, os[j].name)
      ensures Settles(Kids(Picked(os, {os[i].name, os[j].name})))
    {
      MatchSelf(os[i].name);
      assert i == j;
      PickedOne(os, i);
      UnambiguousSettles(os[i]);
      assert {os[i].name, os[j].name} == {os[i].name};
    }
  }

  lemma PickedOne(os: seq<T.Tree>, i: nat)
    requires Distinct(os) && i < |os|
    ensures Kids(Picked(os, {os[i].name})) == os[i].kids
  {
    hide T.NameMatches, Count;
    forall k | 0 <= k < |os| && k != i
      ensures os[k].name != os[i].name
    {
      MatchSelf(os[i].name);
    }
    PickedOnly(os, i);
    assert [os[i]][..0] == [];
  }

  lemma {:induction false} PickedOnly(os: seq<T.Tree>, i: nat)
    requires i < |os| && forall k :: 0 <= k < |os| && k != i ==> os[k].name != os[i].name
    ensures Picked(os, {os[i].name}) == [os[i]]
    decreases |os|
  {
    hide Count, Kids;
    var n := |os| - 1;
    if i < n {
      PickedOnly(os[..n], i);
    } else {
      NonePicked(os[..n], {os[i].name});
    }
  }

  lemma {:induction false} NonePicked(os: seq<T.Tree>, names: set<Name>)
    requires forall k :: 0 <= k < |os| ==> os[k].name !in names
    ensures Picked(os, names) == []
    decreases |os|
  {
    hide Count, Kids;
    if os != [] {
      NonePicked(os[..|os| - 1], names);
    }
  }

  // ---- where names do not settle ---------------------------------------------------------------------------

  /** The same nodes, whatever their properties. */
  predicate SameNames(a: seq<T.Tree>, b: seq<T.Tree>)
    decreases a
  {
    |a| == |b| && forall i :: 0 <= i < |a| ==> SameNode(a[i], b[i])
  }

  predicate SameNode(x: T.Tree, y: T.Tree)
    decreases x
  {
    x.name == y.name && SameNames(x.kids, y.kids)
  }

  lemma {:induction false} SameSelf(a: seq<T.Tree>)
    ensures SameNames(a, a)
    decreases a
  {
    forall i | 0 <= i < |a|
      ensures SameNode(a[i], a[i])
    {
      SameSelf(a[i].kids);
    }
  }

  lemma SameLength(a: seq<T.Tree>, b: seq<T.Tree>)
    requires SameNames(a, b)
    ensures |a| == |b|
  {
  }

  lemma SameAt(a: seq<T.Tree>, b: seq<T.Tree>, k: nat)
    requires SameNames(a, b) && k < |a|
    ensures k < |b| && SameNode(a[k], b[k])
  {
    hide SameNode;
  }

  lemma SameFrom(a: seq<T.Tree>, b: seq<T.Tree>)
    requires |a| == |b| && forall k :: 0 <= k < |a| ==> SameNode(a[k], b[k])
    ensures SameNames(a, b)
  {
    hide SameNode;
  }

  lemma SameParts(a: seq<T.Tree>, b: seq<T.Tree>, l: seq<T.Tree>)
    requires SameNames(a + b, l)
    ensures |l| == |a| + |b| && SameNames(a, l[..|a|]) && SameNames(b, l[|a|..])
  {
    hide SameNode, SameNames;
    SameLength(a + b, l);
    forall k | 0 <= k < |a|
      ensures SameNode(a[k], l[..|a|][k])
    {
      SameAt(a + b, l, k);
    }
    forall k | 0 <= k < |b|
      ensures SameNode(b[k], l[|a|..][k])
    {
      SameAt(a + b, l, |a| + k);
    }
    SameFrom(a, l[..|a|]);
    SameFrom(b, l[|a|..]);
  }

  lemma SameConcat(a: seq<T.Tree>, b: seq<T.Tree>, c: seq<T.Tree>, d: seq<T.Tree>)
    requires SameNames(a, b) && SameNames(c, d)
    ensures SameNames(a + c, b + d)
  {
    hide SameNode, SameNames;
    SameLength(a, b);
    SameLength(c, d);
    forall k | 0 <= k < |a + c|
      ensures SameNode((a + c)[k], (b + d)[k])
    {
      if k < |a| {
        SameAt(a, b, k);
      } else {
        SameAt(c, d, k - |a|);
      }
    }
    SameFrom(a + c, b + d);
  }

  lemma SameOne(x: T.Tree, y: T.Tree)
    requires x.name == y.name && SameNames(x.kids, y.kids)
    ensures SameNames([x], [y])
  {
    assert SameNode(x, y);
  }

  lemma {:induction false} PickedSame(a: seq<T.Tree>, b: seq<T.Tree>, names: set<Name>)
    requires SameNames(a, b)
    ensures SameNames(Kids(Picked(a, names)), Kids(Picked(b, names)))
    decreases |a|
  {
    hide Count, Kids, SameNames;
    SameLength(a, b);
    if a == [] {
      SameSelf(Kids([]));
    } else {
      var n := |a| - 1;
      assert a == a[..n] + [a[n]];
      SameParts(a[..n], [a[n]], b);
      PickedSame(a[..n], b[..n], names);
      SameAt(a, b, n);
      var p, q := Picked(a[..n], names), Picked(b[..n], names);
      KidsSnoc(p, a[n]);
      KidsSnoc(q, b[n]);
      SameConcat(Kids(p), Kids(q), a[n].kids, b[n].kids);
    }
  }

  lemma OrderedSame(a: seq<T.Tree>, b: seq<T.Tree>)
    requires |a| == |b| && (forall i :: 0 <= i < |a| ==> a[i].name == b[i].name) && Ordered(a)
    ensures Ordered(b)
  {
    hide T.NameMatches, Named;
    forall i, j | 0 <= i < j < |b| && b[j].name != b[i].name && T.NameMatches(b[j].name, b[i].name)
      ensures Named(b, i, b[j].name)
    {
      assert a[i].name == b[i].name && a[j].name == b[j].name;
      NamedIn(a, b, i, a[j].name);
    }
  }

  /** Settling depends on names only. */
  lemma {:induction false} SameSettles(a: seq<T.Tree>, b: seq<T.Tree>)
    requires SameNames(a, b) && Settles(a)
    ensures Settles(b)
    decreases Count(a)
  {
    hide T.NameMatches, Picked, Count, Kids, Ordered, SameNames;
    SameHeadsOf(a, b);
    OrderedSame(a, b);
    forall i, j | 0 <= i < |b| && 0 <= j < |b| && Meet(b[i].name, b[j].name)
      ensures Settles(Kids(Picked(b, {b[i].name, b[j].name})))
    {
      var names := {b[i].name, b[j].name};
      assert a[i].name == b[i].name && a[j].name == b[j].name;
      PickedSame(a, b, names);
      PickedSmaller(a, i, names);
      SameSettles(Kids(Picked(a, names)), Kids(Picked(b, names)));
    }
  }

  /** The first child that the name leads to has no properties. */
  predicate FirstBare(kids: seq<T.Tree>, name: seq<byte>) {
    var i := T.FindKid(kids, name);
    i < |kids| && kids[i].props == []
  }

  lemma BareMerge(t: T.Tree, o: T.Tree)
    requires o.props == []
    ensures T.Merge(t, o).props == t.props
  {
    hide T.MergeKids;
  }

  lemma BareKept(kids: seq<T.Tree>, o: T.Tree, name: seq<byte>)
    requires FirstBare(kids, name) && o.props == []
    ensures FirstBare(T.MergeKid(kids, o), name)
  {
    var r, i, j := T.MergeKid(kids, o), T.FindKid(kids, o.name), T.FindKid(kids, name);
    if Found(kids, o.name) {
      MergeKidFound(kids, o);
      BareMerge(kids[i], o);
      HeadsFind(kids, r, name);
    } else {
      var x := T.Tree(o.name, [], []);
      BareMerge(x, o);
      MergeName(x, o);
      hide T.Merge, T.NameMatches;
      T.FindKidIs(r, name, if T.NameMatches(o.name, name) then 0 else j + 1);
    }
  }

  lemma {:induction false} BareFold(kids: seq<T.Tree>, os: seq<T.Tree>, name: seq<byte>)
    requires FirstBare(kids, name) && forall i :: 0 <= i < |os| ==> os[i].props == []
    ensures FirstBare(T.MergeKids(kids, os), name)
    decreases |os|
  {
    hide T.MergeKid, T.Merge, FirstBare;
    if os != [] {
      var n := |os| - 1;
      assert os == os[..n] + [os[n]];
      T.MergeKidsSnoc(kids, os[..n], os[n]);
      BareFold(kids, os[..n], name);
      BareKept(T.MergeKids(kids, os[..n]), os[n], name);
    }
  }

  /** A name with a unit address that no overlay node has is not made. */
  lemma {:induction false} NotMade(os: seq<T.Tree>, name: Name)
    requires T.AT in name && forall i :: 0 <= i < |os| ==> os[i].name != name
    ensures !Found(T.MergeKids([], os), name)
    decreases |os|
  {
    hide T.MergeKid, T.Merge, T.FindKid;
    if os != [] {
      var n := |os| - 1;
      assert os == os[..n] + [os[n]];
      T.MergeKidsSnoc([], os[..n], os[n]);
      NotMade(os[..n], name);
      NotMadeNow(T.MergeKids([], os[..n]), os[n], name);
    }
  }

  lemma NotMadeNow(kids: seq<T.Tree>, o: T.Tree, name: Name)
    requires T.AT in name && o.name != name && !Found(kids, name)
    ensures !Found(T.MergeKid(kids, o), name)
  {
    var r := T.MergeKid(kids, o);
    if Found(kids, o.name) {
      MergeKidFound(kids, o);
      HeadsFind(kids, r, name);
    } else {
      MergeName(T.Tree(o.name, [], []), o);
      hide T.Merge;
      assert !T.NameMatches(o.name, name);
      T.FindKidIs(r, name, |r|);
    }
  }

  lemma {:induction false} FoundAfter(kids: seq<T.Tree>, os: seq<T.Tree>)
    ensures AllFound(T.MergeKids(kids, os), os)
    decreases |os|
  {
    hide T.MergeKid, T.Merge, T.FindKid;
    if os != [] {
      var n := |os| - 1;
      assert os == os[..n] + [os[n]];
      T.MergeKidsSnoc(kids, os[..n], os[n]);
      FoundAfter(kids, os[..n]);
      var m := T.MergeKids(kids, os[..n]);
      MergedKidFound(m, os[n]);
      forall i | 0 <= i < n
        ensures Found(T.MergeKid(m, os[n]), os[i].name)
      {
        assert Found(m, os[..n][i].name);
        FoundKept(m, os[n], os[i].name);
      }
    }
  }

  lemma FoundKept(kids: seq<T.Tree>, o: T.Tree, name: seq<byte>)
    requires Found(kids, name)
    ensures Found(T.MergeKid(kids, o), name)
  {
    if Found(kids, o.name) {
      MergeKidFound(kids, o);
      HeadsFind(kids, T.MergeKid(kids, o), name);
    } else {
      hide T.Merge;
      FoundStill(T.Merge(T.Tree(o.name, [], []), o), kids, name);
    }
  }

  /** Nodes as in the list, with one property in all, at node `i`. */
  function Marked(os: seq<T.Tree>, i: nat): (r: seq<T.Tree>)
    ensures |r| == |os| && forall k :: 0 <= k < |os| ==>
      r[k] == os[k].(props := if k == i then [T.Property(P, [])] else [])
  {
    seq(|os|, k requires 0 <= k < |os| => os[k].(props := if k == i then [T.Property(P, [])] else []))
  }

  lemma {:induction false} PropPicked(os: seq<T.Tree>, i: nat, names: set<Name>)
    requires i < |os| && os[i].name in names && os[i].props == [T.Property(P, [])]
    ensures exists k :: 0 <= k < |AllProps(Picked(os, names))| && AllProps(Picked(os, names))[k].name == P
    decreases |os|
  {
    hide Kids, Count;
    var n := |os| - 1;
    var p := Picked(os[..n], names);
    if os[n].name in names {
      assert (p + [os[n]])[..|p|] == p;
    }
    if i == n {
      assert AllProps(Picked(os, names))[|AllProps(p)|].name == P;
    } else {
      PropPicked(os[..n], i, names);
      var k :| 0 <= k < |AllProps(p)| && AllProps(p)[k].name == P;
      assert AllProps(Picked(os, names))[k].name == P;
    }
  }

  /** Out of order: a name is mentioned before a node with that name and a unit address. A property set under it
      lands in another node the second time. */
  lemma OutOfOrder(os: seq<T.Tree>) returns (ps: seq<T.Tree>)
    requires !Ordered(os)
    ensures SameNames(os, ps) && T.MergeKids(T.MergeKids([], ps), ps) != T.MergeKids([], ps)
  {
    hide T.MergeKids, T.MergeKid, T.Merge, T.FindKid, Picked, AllProps, FirstBare, T.NameMatches, SameHeads;
    var i: nat, j: nat :| i < j < |os| && os[j].name != os[i].name && T.NameMatches(os[j].name, os[i].name) && !Named(os, i, os[j].name);
    ps := Marked(os, i);
    forall k | 0 <= k < |os|
      ensures SameNode(os[k], ps[k])
    {
      SameSelf(os[k].kids);
    }
    var r := T.MergeKids([], ps);
    LateFirst(os, ps, i, j);
    FoundAfter([], ps);
    LandsElsewhere(r, ps, i);
  }

  /** After the first merge, the first node that the name leads to is one made later, without a property. */
  lemma LateFirst(os: seq<T.Tree>, ps: seq<T.Tree>, i: nat, j: nat)
    requires i < j < |os| && os[j].name != os[i].name && T.NameMatches(os[j].name, os[i].name) && !Named(os, i, os[j].name)
    requires ps == Marked(os, i)
    ensures FirstBare(T.MergeKids([], ps), ps[i].name)
  {
    hide T.MergeKids, T.MergeKid, T.Merge, FirstBare;
    var y, s := os[j].name, os[i].name;
    var n := KidNamed(os, y);
    KidNamedBy(os, j);
    assert os[n].name == y;
    assert y[|s|] == T.AT;
    NotMade(ps[..n], y);
    var m := T.MergeKids([], ps[..n]);
    MadeBare(m, ps[n], s);
    assert ps[..n + 1] == ps[..n] + [ps[n]];
    T.MergeKidsSnoc([], ps[..n], ps[n]);
    BareFold(T.MergeKid(m, ps[n]), ps[n + 1..], s);
    assert ps == ps[..n + 1] + ps[n + 1..];
    KidsConcat([], ps[..n + 1], ps[n + 1..]);
  }

  lemma KidNamedBy(os: seq<T.Tree>, j: nat)
    requires j < |os|
    ensures KidNamed(os, os[j].name) <= j
  {
  }

  lemma MadeBare(kids: seq<T.Tree>, o: T.Tree, name: seq<byte>)
    requires !Found(kids, o.name) && o.props == [] && T.NameMatches(o.name, name)
    ensures FirstBare(T.MergeKid(kids, o), name)
  {
    var x := T.Tree(o.name, [], []);
    BareMerge(x, o);
    MergeName(x, o);
    hide T.Merge, T.NameMatches;
    FindFirst(T.MergeKid(kids, o), name);
  }

  lemma LandsElsewhere(r: seq<T.Tree>, ps: seq<T.Tree>, i: nat)
    requires AllFound(r, ps) && i < |ps| && ps[i].props == [T.Property(P, [])] && FirstBare(r, ps[i].name)
    ensures T.MergeKids(r, ps) != r
  {
    hide T.MergeKids, T.FindKid, Picked, AllProps, MergeAll;
    var c := T.FindKid(r, ps[i].name);
    var names := set k | 0 <= k < |ps| && T.FindKid(r, ps[k].name) == c :: ps[k].name;
    InPlace(r, ps, c, names);
    MergeAllParts(r[c], Picked(ps, names));
    PropPicked(ps, i, names);
    var all := AllProps(Picked(ps, names));
    var k: nat :| k < |all| && all[k].name == P;
    LastThere(all, k);
    MergePropsValue(r[c], all, P);
    assert PropValue(r[c], P) == None;
    SamePropValue(T.MergeKids(r, ps)[c], T.MergeProps(r[c], all), P);
  }

  /** The picked nodes with other children, dealt out from a list. */
  function Refilled(os: seq<T.Tree>, names: set<Name>, l: seq<T.Tree>): (r: seq<T.Tree>)
    requires |l| == |Kids(Picked(os, names))|
    ensures |r| == |os|
    decreases |os|
  {
    if os == [] then [] else
      var n := |os| - 1;
      if os[n].name in names then
        var m := |l| - |os[n].kids|;
        KidsSnoc(Picked(os[..n], names), os[n]);
        Refilled(os[..n], names, l[..m]) + [os[n].(kids := l[m..])]
      else
        Refilled(os[..n], names, l) + [os[n]]
  }

  lemma {:induction false} RefilledKids(os: seq<T.Tree>, names: set<Name>, l: seq<T.Tree>)
    requires |l| == |Kids(Picked(os, names))|
    ensures Kids(Picked(Refilled(os, names, l), names)) == l
    decreases |os|
  {
    hide Kids, Count;
    if os == [] {
      NoKids([]);
    } else {
      var n := |os| - 1;
      if os[n].name in names {
        var m := |l| - |os[n].kids|;
        KidsSnoc(Picked(os[..n], names), os[n]);
        RefilledKids(os[..n], names, l[..m]);
        var init, o := Refilled(os[..n], names, l[..m]), os[n].(kids := l[m..]);
        assert (init + [o])[..n] == init;
        KidsSnoc(Picked(init, names), o);
      } else {
        RefilledKids(os[..n], names, l);
        assert (Refilled(os[..n], names, l) + [os[n]])[..n] == Refilled(os[..n], names, l);
      }
    }
  }

  lemma {:induction false} RefilledSame(os: seq<T.Tree>, names: set<Name>, l: seq<T.Tree>)
    requires |l| == |Kids(Picked(os, names))| && SameNames(Kids(Picked(os, names)), l)
    ensures SameNames(os, Refilled(os, names, l))
    decreases |os|
  {
    hide Kids, Count, SameNames;
    SameSelf(os);
    if os != [] {
      var n := |os| - 1;
      assert os == os[..n] + [os[n]];
      if os[n].name in names {
        var p := Picked(os[..n], names);
        KidsSnoc(p, os[n]);
        SameParts(Kids(p), os[n].kids, l);
        var m := |l| - |os[n].kids|;
        RefilledSame(os[..n], names, l[..m]);
        SameOne(os[n], os[n].(kids := l[m..]));
        SameConcat(os[..n], Refilled(os[..n], names, l[..m]), [os[n]], [os[n].(kids := l[m..])]);
      } else {
        RefilledSame(os[..n], names, l);
        SameSelf([os[n]]);
        SameConcat(os[..n], Refilled(os[..n], names, l), [os[n]], [os[n]]);
      }
    }
  }

  /** A base in which every name is found, and exactly the two of a pair lead to the child with these children. */
  lemma Stage(os: seq<T.Tree>, i: nat, j: nat, base: seq<T.Tree>) returns (kids: seq<T.Tree>, c: nat)
    requires i < |os| && j < |os| && Meet(os[i].name, os[j].name)
    ensures c < |kids| && kids[c].kids == base && AllFound(kids, os)
    ensures forall k :: 0 <= k < |os| ==> (os[k].name in {os[i].name, os[j].name} <==> T.FindKid(kids, os[k].name) == c)
  {
    hide T.FindKid;
    var y, s := os[i].name, os[j].name;
    var bares := seq(|os|, k requires 0 <= k < |os| => Bare(os[k].name));
    var front: seq<T.Tree> := [];
    if f: nat :| y == s && f < |os| && os[f].name != y && T.NameMatches(y, os[f].name) {
      front := [Bare(os[f].name)];
    }
    kids, c := front + [T.Tree(y, [], base)] + bares, |front|;
    forall k | 0 <= k < |os|
      ensures Found(kids, os[k].name) && (os[k].name in {y, s} <==> T.FindKid(kids, os[k].name) == c)
    {
      var n := os[k].name;
      assert kids[c + 1 + k].name == n;
      if n == y || n == s {
        T.FindKidIs(kids, n, c);
      } else if T.FindKid(kids, n) == c {
        OneBase(y, n, if s != y then s else kids[0].name);
      }
    }
  }

  /** A name with a unit address stands for a node under one name without it. */
  lemma OneBase(y: Name, a: Name, b: Name)
    requires T.NameMatches(y, a) && T.NameMatches(y, b) && a != y && b != y
    ensures a == b
  {
    assert a == y[..|a|] && b == y[..|b|];
  }

  /** Names that do not settle: with these names, properties and a base can be chosen so that a second merge does
      change something. */
  lemma {:induction false} Unsettled(os: seq<T.Tree>) returns (ps: seq<T.Tree>, kids: seq<T.Tree>)
    requires !Settles(os)
    ensures SameNames(os, ps) && T.MergeKids(T.MergeKids(kids, ps), ps) != T.MergeKids(kids, ps)
    decreases Count(os)
  {
    hide T.MergeKids, T.FindKid, T.NameMatches, Picked, Kids, Count, Ordered, SameNames, Meet, MergeAll;
    if !Ordered(os) {
      ps := OutOfOrder(os);
      kids := [];
    } else {
      var i: nat, j: nat :| i < |os| && j < |os| && Meet(os[i].name, os[j].name) && !Settles(Kids(Picked(os, {os[i].name, os[j].name})));
      var names := {os[i].name, os[j].name};
      PickedSmaller(os, i, names);
      var l, base := Unsettled(Kids(Picked(os, names)));
      SameLength(Kids(Picked(os, names)), l);
      ps := Refilled(os, names, l);
      RefilledSame(os, names, l);
      RefilledKids(os, names, l);
      var c;
      kids, c := Stage(os, i, j, base);
      SameHeadsOf(os, ps);
      ChildDiffers(kids, ps, c, names, l);
    }
  }

  lemma SameHeadsOf(a: seq<T.Tree>, b: seq<T.Tree>)
    requires SameNames(a, b)
    ensures |a| == |b| && forall i :: 0 <= i < |a| ==> a[i].name == b[i].name
  {
  }

  lemma ChildDiffers(kids: seq<T.Tree>, ps: seq<T.Tree>, c: nat, names: set<Name>, l: seq<T.Tree>)
    requires AllFound(kids, ps) && c < |kids| && Kids(Picked(ps, names)) == l
    requires forall k :: 0 <= k < |ps| ==> (ps[k].name in names <==> T.FindKid(kids, ps[k].name) == c)
    requires T.MergeKids(T.MergeKids(kids[c].kids, l), l) != T.MergeKids(kids[c].kids, l)
    ensures T.MergeKids(T.MergeKids(kids, ps), ps) != T.MergeKids(kids, ps)
  {
    hide T.MergeKids, T.FindKid, Picked, Kids, MergeAll, AllFound;
    InPlace(kids, ps, c, names);
    var r := T.MergeKids(kids, ps);
    HeadsFindAll(kids, r, ps);
    InPlace(r, ps, c, names);
    MergeAllParts(kids[c], Picked(ps, names));
    MergeAllParts(r[c], Picked(ps, names));
  }

  /** Exactly when the names settle, a second merge changes nothing, whatever properties the overlay's nodes have
      and whatever the base is. */
  lemma SettlesExactly(o: T.Tree)
    ensures Settles(o.kids) <==>
      forall o2: T.Tree, t: T.Tree :: SameNames(o.kids, o2.kids) ==> T.Merge(T.Merge(t, o2), o2) == T.Merge(t, o2)
  {
    hide T.MergeKids, T.MergeProps, Settles, SameNames, T.Merge;
    if Settles(o.kids) {
      forall o2: T.Tree, t: T.Tree | SameNames(o.kids, o2.kids)
        ensures T.Merge(T.Merge(t, o2), o2) == T.Merge(t, o2)
      {
        SameSettles(o.kids, o2.kids);
        MergeTwice(t, o2);
      }
    } else {
      var ps, kids := Unsettled(o.kids);
      var t, o2 := T.Tree([], [], kids), T.Tree([], [], ps);
      MergedKids(t, o2);
      MergedKids(T.Merge(t, o2), o2);
      assert SameNames(o.kids, o2.kids) && T.Merge(T.Merge(t, o2), o2) != T.Merge(t, o2);
    }
  }

  lemma MergedKids(t: T.Tree, o: T.Tree)
    ensures T.Merge(t, o).kids == T.MergeKids(t.kids, o.kids)
  {
    hide T.MergeKids;
    T.MergePropsKids(t, o.props);
  }

  // ---- an overlay that does not settle ---------------------------------------------------------------------

  const A: Name := [97]
  const A_AT: Name := [97, 64, 49]
  /** A node with one property and no children. */
  function Leaf(name: Name): T.Tree { T.Tree(name, [T.Property(P, [])], []) }

  lemma Names()
    ensures !T.NameMatches(A, A_AT) && T.NameMatches(A_AT, A) && T.NameMatches(A, A) && T.NameMatches(A_AT, A_AT)
  {
    assert A_AT[..1] == A;
    assert A_AT[1] == T.AT;
  }

  lemma MergeBare(t: T.Tree, name: Name)
    ensures T.Merge(t, Bare(name)) == t
  {
  }

  lemma MergeLeaf(t: T.Tree, name: Name)
    requires T.FindProp(t.props, P) == |t.props|
    ensures T.Merge(t, Leaf(name)) == t.(props := [T.Property(P, [])] + t.props)
  {
    var ps := [T.Property(P, [])];
    assert ps[1..] == [];
    assert T.MergeProps(t, ps) == T.MergeProps(T.SetProp(t, P, []), []);
  }

  /** Siblings `a` and `a@1`, in this order: `a` makes a node of its own the first time and is merged into `a@1`
      the second time. */
  lemma TwiceDiffers()
    ensures var o := T.Tree([], [], [Leaf(A), Bare(A_AT)]);
      !Settles(o.kids) && T.Merge(T.Merge(Bare([]), o), o) != T.Merge(Bare([]), o)
  {
    hide T.NameMatches, T.Merge, T.FindKid;
    var os := [Leaf(A), Bare(A_AT)];
    var o := T.Tree([], [], os);
    Names();
    assert T.NameMatches(os[1].name, os[0].name) && !Named(os, 0, A_AT) && !Ordered(os);
    var one := Bare([]).(kids := [Bare(A_AT), Leaf(A)]);
    assert T.Merge(Bare([]), o) == one by {
      MergeTwo(Bare([]), Leaf(A), Bare(A_AT));
      FindIn([], A);
      MergeLeaf(Bare(A), A);
      assert [T.Property(P, [])] + [] == [T.Property(P, [])];
      assert T.MergeKid([], Leaf(A)) == [Leaf(A)];
      FindMiss(Leaf(A), A_AT);
      MergeBare(Bare(A_AT), A_AT);
      assert T.MergeKid([Leaf(A)], Bare(A_AT)) == [Bare(A_AT), Leaf(A)];
    }
    assert T.Merge(one, o) != one by {
      MergeTwo(one, Leaf(A), Bare(A_AT));
      FindFirst(one.kids, A);
      MergeLeaf(Bare(A_AT), A);
      var two := T.MergeKid(one.kids, Leaf(A));
      assert two[0] == Bare(A_AT).(props := [T.Property(P, [])] + []);
      FindFirst(two, A_AT);
      MergeBare(two[0], A_AT);
      assert T.MergeKid(two, Bare(A_AT))[0] == two[0];
    }
  }

  lemma FindIn(kids: seq<T.Tree>, name: seq<byte>)
    requires kids == []
    ensures T.FindKid(kids, name) == 0
  {
  }

  lemma FindMiss(k: T.Tree, name: seq<byte>)
    requires !T.NameMatches(k.name, name)
    ensures T.FindKid([k], name) == 1
  {
    T.FindKidIs([k], name, 1);
  }

  /** Merging an overlay that has two children and nothing else. */
  lemma MergeTwo(t: T.Tree, x: T.Tree, y: T.Tree)
    ensures T.Merge(t, T.Tree([], [], [x, y])) == t.(kids := T.MergeKid(T.MergeKid(t.kids, x), y))
  {
    hide T.MergeKid;
    assert [x, y][1..] == [y] && [y][1..] == [];
    T.MergeNothing(t);
    T.MergeKidsSnoc(t.kids, [x], y);
    assert [x] + [y] == [x, y];
    T.MergeKidsSnoc(t.kids, [], x);
    assert [] + [x] == [x];
  }
}
