/** What merging an overlay is for: the overlay wins where it says something, everything else stays. */
module MergeLaws {
  import opened Bytes
  import opened StructBlock
  import opened Results
  import opened FdtBase
  import opened Naming
  import opened Overlay
  import T = Tree

  // ---- properties ----------------------------------------------------------------------------

  datatype Option<+T> = None | Some(value: T)

  /** The value a node has under a name. */
  function PropValue(t: T.Tree, name: seq<byte>): Option<T.Property> {
    var i := T.FindProp(t.props, name);
    if i < |t.props| then Some(t.props[i]) else None
  }

  /** The last property of a list that has the name. */
  function LastOf(ps: seq<T.Property>, name: seq<byte>): Option<T.Property>
    decreases |ps|
  {
    if ps == [] then None else
    if ps[|ps| - 1].name == name then Some(ps[|ps| - 1]) else LastOf(ps[..|ps| - 1], name)
  }

  lemma SetPropValue(t: T.Tree, name: Name, val: Data, other: seq<byte>)
    ensures PropValue(T.SetProp(t, name, val), other) ==
            if other == name then Some(T.Property(name, val)) else PropValue(t, other)
  {
    var t2, i, j := T.SetProp(t, name, val), T.FindProp(t.props, name), T.FindProp(t.props, other);
    if i < |t.props| {
      T.FindPropIs(t2.props, other, if other == name then i else j);
    } else {
      T.FindPropIs(t2.props, other, if other == name then 0 else j + 1);
    }
  }

  /** Merged properties: the overlay's last word on a name, otherwise what was there. */
  lemma {:induction false} MergePropsValue(t: T.Tree, ps: seq<T.Property>, name: seq<byte>)
    ensures PropValue(T.MergeProps(t, ps), name) == if LastOf(ps, name).Some? then LastOf(ps, name) else PropValue(t, name)
    decreases |ps|
  {
    hide T.SetProp, PropValue;
    T.MergeNothing(t);
    if ps != [] {
      var init, p := ps[..|ps| - 1], ps[|ps| - 1];
      assert ps == init + [p];
      T.MergePropsSnoc(t, init, p);
      MergePropsValue(t, init, name);
      SetPropValue(T.MergeProps(t, init), p.name, p.val, name);
    }
  }

  lemma {:induction false} LastOfOnly(ps: seq<T.Property>, i: nat)
    requires DistinctProps(ps) && i < |ps|
    ensures LastOf(ps, ps[i].name) == Some(ps[i])
    decreases |ps|
  {
    if i < |ps| - 1 {
      LastOfOnly(ps[..|ps| - 1], i);
    }
  }

  lemma SamePropValue(a: T.Tree, b: T.Tree, name: seq<byte>)
    requires a.props == b.props
    ensures PropValue(a, name) == PropValue(b, name)
  {
  }

  // ---- children --------------------------------------------------------------------------------

  /** No name of the list can be taken for another one of it. */
  predicate Distinct(os: seq<T.Tree>) {
    forall i, j :: 0 <= i < |os| && 0 <= j < |os| && i != j ==> !T.NameMatches(os[i].name, os[j].name)
  }

  /** In the whole overlay no property is set twice, and no name can be taken for a sibling's. */
  predicate Unambiguous(o: T.Tree)
    decreases o
  {
    DistinctProps(o.props) && Distinct(o.kids) && forall i :: 0 <= i < |o.kids| ==> Unambiguous(o.kids[i])
  }

  predicate DistinctProps(ps: seq<T.Property>) {
    forall i, j :: 0 <= i < j < |ps| ==> ps[i].name != ps[j].name
  }

  /** A node that two names match tells them apart: one is the other with a unit address. */
  lemma MatchBoth(n: seq<byte>, a: seq<byte>, b: seq<byte>)
    requires T.NameMatches(n, a) && T.NameMatches(n, b)
    ensures a == b || T.NameMatches(a, b) || T.NameMatches(b, a)
  {
    if |a| < |b| {
      assert a <= b;
      if |b| < |n| {
        assert n[|a|] == b[|a|];
      }
    } else if |b| < |a| {
      assert b <= a;
    }
  }

  /** The child that `o` is merged into. */
  function Chosen(kids: seq<T.Tree>, o: T.Tree): T.Tree {
    var i := T.FindKid(kids, o.name);
    if i < |kids| then kids[i] else T.Tree(o.name, [], [])
  }

  lemma MatchSelf(name: seq<byte>)
    ensures T.NameMatches(name, name)
  {
  }

  lemma MergeName(t: T.Tree, o: T.Tree)
    ensures T.Merge(t, o).name == t.name
  {
    hide T.MergeKids;
    T.MergePropsKids(t, o.props);
  }

  /** After one child has been merged, its name finds the result of that merge. */
  lemma MergedKidFound(kids: seq<T.Tree>, o: T.Tree)
    ensures var r := T.MergeKid(kids, o);
      var k := T.FindKid(r, o.name);
      k < |r| && r[k] == T.Merge(Chosen(kids, o), o)
  {
    hide T.Merge, T.NameMatches;
    var i := T.FindKid(kids, o.name);
    MergeName(Chosen(kids, o), o);
    MatchSelf(o.name);
    T.FindKidIs(T.MergeKid(kids, o), o.name, if i < |kids| then i else 0);
  }

  /** A lookup by a name that cannot be taken for the merged one finds the child it found before. */
  lemma OtherKidFound(kids: seq<T.Tree>, o: T.Tree, name: seq<byte>)
    requires !T.NameMatches(o.name, name) && !T.NameMatches(name, o.name)
    ensures var r := T.MergeKid(kids, o);
      var j, k := T.FindKid(kids, name), T.FindKid(r, name);
      if j < |kids| then k < |r| && r[k] == kids[j] else k == |r|
  {
    hide T.Merge, T.NameMatches;
    var i, j := T.FindKid(kids, o.name), T.FindKid(kids, name);
    var r := T.MergeKid(kids, o);
    MergeName(Chosen(kids, o), o);
    if i < |kids| {
      if j == i {
        MatchSelf(name);
        MatchBoth(kids[i].name, o.name, name);
      }
      T.FindKidIs(r, name, j);
    } else {
      T.FindKidIs(r, name, j + 1);
    }
  }

  /** After merging a whole list, every name of it finds its own merge. */
  lemma {:induction false} MergedKidsFound(kids: seq<T.Tree>, os: seq<T.Tree>, i: nat)
    requires Distinct(os) && i < |os|
    ensures var r := T.MergeKids(kids, os);
      var k := T.FindKid(r, os[i].name);
      k < |r| && r[k] == T.Merge(Chosen(kids, os[i]), os[i])
    decreases |os|
  {
    hide T.Merge, T.NameMatches, T.MergeKid;
    var n := |os| - 1;
    var init, o := os[..n], os[n];
    assert os == init + [o];
    T.MergeKidsSnoc(kids, init, o);
    var m := T.MergeKids(kids, init);
    if i == n {
      MergedKidFound(m, o);
      ChosenKept(kids, init, o);
    } else {
      assert init[i] == os[i];
      MergedKidsFound(kids, init, i);
      OtherKidFound(m, o, os[i].name);
    }
  }

  /** A child is merged into what stood there before the other children were merged. */
  lemma {:induction false} ChosenKept(kids: seq<T.Tree>, os: seq<T.Tree>, o: T.Tree)
    requires forall i :: 0 <= i < |os| ==> !T.NameMatches(os[i].name, o.name) && !T.NameMatches(o.name, os[i].name)
    ensures Chosen(T.MergeKids(kids, os), o) == Chosen(kids, o)
    decreases |os|
  {
    hide T.Merge, T.NameMatches, T.MergeKid;
    if os != [] {
      var n := |os| - 1;
      var init := os[..n];
      assert os == init + [os[n]];
      T.MergeKidsSnoc(kids, init, os[n]);
      ChosenKept(kids, init, o);
      OtherKidFound(T.MergeKids(kids, init), os[n], o.name);
    }
  }

  // ---- the overlay wins, the rest stays -----------------------------------------------------------

  /** The first child of exactly that name, or |kids|. */
  function KidNamed(kids: seq<T.Tree>, name: seq<byte>): (i: nat)
    ensures i <= |kids| && (i < |kids| ==> kids[i].name == name)
    ensures forall j :: 0 <= j < i ==> kids[j].name != name
  {
    if kids == [] || kids[0].name == name then 0 else 1 + KidNamed(kids[1..], name)
  }

  lemma KidNamedIs(kids: seq<T.Tree>, name: seq<byte>, i: nat)
    requires i <= |kids| && (i < |kids| ==> kids[i].name == name)
    requires forall j :: 0 <= j < i ==> kids[j].name != name
    ensures KidNamed(kids, name) == i
  {
  }

  /** The node that a list of exact names leads to. */
  function NodeNamed(t: T.Tree, names: seq<Name>): Option<T.Tree>
    decreases |names|
  {
    if names == [] then Some(t) else
      var k := KidNamed(t.kids, names[0]);
      if k == |t.kids| then None else NodeNamed(t.kids[k], names[1..])
  }

  /** The property of that name at the node that the names lead to. */
  function ValueAt(t: T.Tree, names: seq<Name>, name: seq<byte>): Option<T.Property> {
    var n := NodeNamed(t, names);
    if n.None? then None else PropValue(n.value, name)
  }

  /** A name of the overlay does not take a node of the base that has another name. */
  predicate FitsKid(kids: seq<T.Tree>, name: seq<byte>) {
    KidNamed(kids, name) == T.FindKid(kids, name)
  }

  predicate Fits(t: T.Tree, o: T.Tree)
    decreases o
  {
    forall i :: 0 <= i < |o.kids| ==> FitsKid(t.kids, o.kids[i].name) && Fits(Chosen(t.kids, o.kids[i]), o.kids[i])
  }

  /** Merging one child leaves exact lookups of other names alone. */
  lemma OtherKidNamed(kids: seq<T.Tree>, o: T.Tree, name: seq<byte>)
    requires FitsKid(kids, o.name) && name != o.name
    ensures var r := T.MergeKid(kids, o);
      var j, k := KidNamed(kids, name), KidNamed(r, name);
      && (if j < |kids| then k < |r| && r[k] == kids[j] else k == |r|)
      && k == if T.FindKid(kids, o.name) < |kids| then j else j + 1
  {
    hide T.Merge, T.NameMatches;
    var i, j := T.FindKid(kids, o.name), KidNamed(kids, name);
    var r := T.MergeKid(kids, o);
    MergeName(Chosen(kids, o), o);
    KidNamedIs(r, name, if i < |kids| then j else j + 1);
  }

  lemma FoundByName(kids: seq<T.Tree>, name: seq<byte>)
    requires FitsKid(kids, name)
    ensures var i := T.FindKid(kids, name); i < |kids| ==> kids[i].name == name
  {
    hide T.NameMatches;
  }

  lemma OtherKidAt(kids: seq<T.Tree>, o: T.Tree, name: seq<byte>)
    requires !T.NameMatches(o.name, name)
    requires var i := T.FindKid(kids, o.name); i < |kids| ==> kids[i].name == o.name
    ensures var i, j := T.FindKid(kids, o.name), T.FindKid(kids, name);
      T.FindKid(T.MergeKid(kids, o), name) == if i < |kids| then j else j + 1
  {
    hide T.Merge, T.NameMatches;
    var i, j := T.FindKid(kids, o.name), T.FindKid(kids, name);
    MergeName(Chosen(kids, o), o);
    T.FindKidIs(T.MergeKid(kids, o), name, if i < |kids| then j else j + 1);
  }

  /** And it keeps the other names of the overlay fitting. */
  lemma FitsKept(kids: seq<T.Tree>, o: T.Tree, name: seq<byte>)
    requires FitsKid(kids, o.name) && FitsKid(kids, name) && !T.NameMatches(o.name, name) && !T.NameMatches(name, o.name)
    ensures FitsKid(T.MergeKid(kids, o), name)
  {
    MatchSelf(name);
    OtherKidNamed(kids, o, name);
    FoundByName(kids, o.name);
    hide T.MergeKid, T.NameMatches, T.FindKid, KidNamed;
    OtherKidAt(kids, o, name);
  }

  lemma {:induction false} FitsAfter(kids: seq<T.Tree>, os: seq<T.Tree>, name: seq<byte>)
    requires Distinct(os) && FitsKid(kids, name)
    requires forall i :: 0 <= i < |os| ==> FitsKid(kids, os[i].name) && !T.NameMatches(os[i].name, name) && !T.NameMatches(name, os[i].name)
    ensures FitsKid(T.MergeKids(kids, os), name)
    decreases |os|
  {
    hide T.Merge, T.NameMatches, T.MergeKid, FitsKid;
    if os != [] {
      var n := |os| - 1;
      var init := os[..n];
      assert os == init + [os[n]];
      T.MergeKidsSnoc(kids, init, os[n]);
      FitsAfter(kids, init, name);
      FitsAfter(kids, init, os[n].name);
      FitsKept(T.MergeKids(kids, init), os[n], name);
    }
  }

  /** A child that no name of the overlay mentions is still there, unchanged; no other appears. */
  lemma {:induction false} UnmentionedKept(kids: seq<T.Tree>, os: seq<T.Tree>, name: seq<byte>)
    requires Distinct(os) && forall i :: 0 <= i < |os| ==> FitsKid(kids, os[i].name) && os[i].name != name
    ensures var r := T.MergeKids(kids, os);
      var j, k := KidNamed(kids, name), KidNamed(r, name);
      if j < |kids| then k < |r| && r[k] == kids[j] else k == |r|
    decreases |os|
  {
    hide T.Merge, T.NameMatches, T.MergeKid, FitsKid;
    if os != [] {
      var n := |os| - 1;
      var init := os[..n];
      assert os == init + [os[n]];
      T.MergeKidsSnoc(kids, init, os[n]);
      UnmentionedKept(kids, init, name);
      FitsAfter(kids, init, os[n].name);
      OtherKidNamed(T.MergeKids(kids, init), os[n], name);
    }
  }

  /** A child that the overlay mentions is the merge of what had that name before. */
  lemma MentionedMerged(kids: seq<T.Tree>, os: seq<T.Tree>, i: nat)
    requires Distinct(os) && i < |os| && FitsKid(kids, os[i].name)
    ensures var r := T.MergeKids(kids, os);
      var k := KidNamed(r, os[i].name);
      k < |r| && r[k] == T.Merge(Chosen(kids, os[i]), os[i])
    ensures KidNamed(os, os[i].name) == i
  {
    hide T.Merge, T.NameMatches, T.MergeKids;
    var r := T.MergeKids(kids, os);
    MergedKidsFound(kids, os, i);
    MergeName(Chosen(kids, os[i]), os[i]);
    FoundIsNamed(r, os[i].name);
    forall j | 0 <= j < i
      ensures os[j].name != os[i].name
    {
      MatchSelf(os[i].name);
    }
    KidNamedIs(os, os[i].name, i);
  }

  lemma FoundIsNamed(kids: seq<T.Tree>, name: seq<byte>)
    requires var k := T.FindKid(kids, name); k < |kids| && kids[k].name == name
    ensures KidNamed(kids, name) == T.FindKid(kids, name)
  {
    MatchSelf(name);
    KidNamedIs(kids, name, T.FindKid(kids, name));
  }

  /** The meaning of a deep merge: at every path and for every property name, the overlay's value
      where it has one, otherwise the base's; and the nodes of both. */
  lemma {:induction false} MergeIsUnion(t: T.Tree, o: T.Tree, names: seq<Name>, name: seq<byte>)
    requires Unambiguous(o) && Fits(t, o)
    ensures ValueAt(T.Merge(t, o), names, name) ==
            if ValueAt(o, names, name).Some? then ValueAt(o, names, name) else ValueAt(t, names, name)
    ensures NodeNamed(T.Merge(t, o), names).Some? <==> NodeNamed(t, names).Some? || NodeNamed(o, names).Some?
    decreases |names|
  {
    hide T.MergeKids, T.MergeProps, PropValue, Distinct, T.NameMatches;
    var r := T.Merge(t, o);
    T.MergePropsKids(t, o.props);
    if names == [] {
      MergePropsValue(t, o.props, name);
      LastIsValue(o, name);
      SamePropValue(r, T.MergeProps(t, o.props), name);
    } else {
      var x, i := names[0], KidNamed(o.kids, names[0]);
      if i < |o.kids| {
        MentionedMerged(t.kids, o.kids, i);
        MergeIsUnion(Chosen(t.kids, o.kids[i]), o.kids[i], names[1..], name);
        ChosenNamed(t, o.kids[i], names, name);
      } else {
        UnmentionedKept(t.kids, o.kids, x);
      }
    }
  }

  lemma LastIsValue(o: T.Tree, name: seq<byte>)
    requires DistinctProps(o.props)
    ensures LastOf(o.props, name) == PropValue(o, name)
  {
    var i := T.FindProp(o.props, name);
    if i < |o.props| {
      LastOfOnly(o.props, i);
    } else {
      LastOfNone(o.props, name);
    }
  }

  lemma {:induction false} LastOfNone(ps: seq<T.Property>, name: seq<byte>)
    requires forall i :: 0 <= i < |ps| ==> ps[i].name != name
    ensures LastOf(ps, name) == None
    decreases |ps|
  {
    if ps != [] {
      LastOfNone(ps[..|ps| - 1], name);
    }
  }

  /** Below the chosen child stands what stood below the child of that name, or nothing. */
  lemma ChosenNamed(t: T.Tree, o: T.Tree, names: seq<Name>, name: seq<byte>)
    requires names != [] && names[0] == o.name && FitsKid(t.kids, o.name)
    ensures NodeNamed(Chosen(t.kids, o), names[1..]).Some? ==> NodeNamed(t, names).Some? || names[1..] == []
    ensures NodeNamed(t, names).Some? ==> NodeNamed(Chosen(t.kids, o), names[1..]) == NodeNamed(t, names)
    ensures ValueAt(Chosen(t.kids, o), names[1..], name) == ValueAt(t, names, name)
  {
    hide T.NameMatches;
    if KidNamed(t.kids, o.name) == |t.kids| && names[1..] != [] {
      assert KidNamed([], names[1..][0]) == 0;
    }
  }

  // ---- fragments -----------------------------------------------------------------------------------------

  /** A fragment changes nothing outside the node it names: what stands beside it is untouched, and
      of the nodes above it names, properties and number of children stay. */
  lemma FragmentElsewhere(b: T.Tree, fragment: T.Tree, q: Path)
    requires MergeFragment(b, fragment).Ok? && Target(b, fragment).Ok? && T.HasPath(b, q)
    requires !(Target(b, fragment).value <= q)
    ensures var b1, p := MergeFragment(b, fragment).value, Target(b, fragment).value;
      && T.HasPath(b1, q) && (T.Diverge(p, q) ==> T.At(b1, q) == T.At(b, q))
      && T.At(b1, q).name == T.At(b, q).name && T.At(b1, q).props == T.At(b, q).props
      && |T.At(b1, q).kids| == |T.At(b, q).kids|
  {
    hide Target, T.Merge;
    var p := Target(b, fragment).value;
    var i := T.FindKid(fragment.kids, OVERLAY);
    if i < |fragment.kids| {
      PutOutside(b, p, T.Merge(T.At(b, p), fragment.kids[i]), q);
    }
  }

  /** No fragment is merged into the node at `q` or one above it; with `apart`, not into one below it either. */
  ghost predicate OffTargets(b: T.Tree, fragments: seq<T.Tree>, q: Path, apart: bool)
    decreases |fragments|
  {
    fragments == [] ||
    (MergeFragment(b, fragments[0]).Ok? ==>
       && (T.FindKid(fragments[0].kids, OVERLAY) < |fragments[0].kids| ==>
             var p := Target(b, fragments[0]).value; !(p <= q) && (apart ==> T.Diverge(p, q)))
       && OffTargets(MergeFragment(b, fragments[0]).value, fragments[1..], q, apart))
  }

  /** All fragments, each merged into what the ones before it made of the base: a node that none of them names,
      nor any above it, keeps its name, its properties and the number of its children; and one that none names a
      node below of either is as it was. */
  lemma {:induction false} FragmentsElsewhere(b: T.Tree, fragments: seq<T.Tree>, q: Path, apart: bool)
    requires MergeFragments(b, fragments).Ok? && T.HasPath(b, q) && OffTargets(b, fragments, q, apart)
    ensures var r := MergeFragments(b, fragments).value;
      && T.HasPath(r, q) && (apart ==> T.At(r, q) == T.At(b, q))
      && T.At(r, q).name == T.At(b, q).name && T.At(r, q).props == T.At(b, q).props
      && |T.At(r, q).kids| == |T.At(b, q).kids|
    decreases |fragments|
  {
    hide Target, T.Merge, T.Diverge, T.FindKid, T.At, T.HasPath, T.Put;
    if fragments != [] {
      if T.FindKid(fragments[0].kids, OVERLAY) < |fragments[0].kids| {
        FragmentElsewhere(b, fragments[0], q);
      }
      FragmentsElsewhere(MergeFragment(b, fragments[0]).value, fragments[1..], q, apart);
    }
  }

  lemma {:induction false} PutOutside(t: T.Tree, p: Path, x: T.Tree, q: Path)
    requires T.HasPath(t, p) && T.HasPath(t, q) && !(p <= q)
    ensures var t1 := T.Put(t, p, x);
      && T.HasPath(t1, q) && (T.Diverge(p, q) ==> T.At(t1, q) == T.At(t, q))
      && T.At(t1, q).name == T.At(t, q).name && T.At(t1, q).props == T.At(t, q).props
      && |T.At(t1, q).kids| == |T.At(t, q).kids|
    decreases |p|
  {
    if q != [] && p[0] == q[0] {
      assert p == [p[0]] + p[1..] && q == [q[0]] + q[1..];
      PutOutside(t.kids[p[0]], p[1..], x, q[1..]);
    }
  }
}
