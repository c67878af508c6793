/** dtc's merge of an override without deletions and libfdt's merge of an overlay come to the same
    tree, up to the order of properties and nodes. */
module LivetreeOverlay {
  import opened Bytes
  import opened StructBlock
  import L = Livetree
  import M = MergeLaws
  import T = Tree

  function LiftProps(ps: seq<T.Property>): (r: seq<L.LProp>)
    ensures |r| == |ps| && forall i :: 0 <= i < |ps| ==> r[i] == L.LProp(false, ps[i].name, ps[i].val)
  {
    seq(|ps|, i requires 0 <= i < |ps| => L.LProp(false, ps[i].name, ps[i].val))
  }

  function LiftKids(ks: seq<T.Tree>): (r: seq<L.LTree>)
    ensures |r| == |ks| && forall i :: 0 <= i < |ks| ==> r[i] == Lift(ks[i])
    decreases ks
  {
    if ks == [] then [] else
      var r := [Lift(ks[0])] + LiftKids(ks[1..]);
      assert forall i :: 1 <= i < |ks| ==> r[i] == LiftKids(ks[1..])[i - 1];
      r
  }

  /** A tree as dtc has it, with nothing deleted. */
  function Lift(t: T.Tree): L.LTree
    decreases t
  {
    L.LTree(false, t.name, LiftProps(t.props), LiftKids(t.kids))
  }

  /** A tree up to order. */
  function View(t: T.Tree): L.View {
    L.ViewOf(Lift(t))
  }

  lemma LiftDef(t: T.Tree)
    ensures Lift(t).props == LiftProps(t.props) && Lift(t).kids == LiftKids(t.kids) && Lift(t).name == t.name && !Lift(t).deleted
    ensures L.Unique(Lift(t)) ==> L.UniqueProps(LiftProps(t.props)) && L.UniqueKids(LiftKids(t.kids))
    ensures L.Unique(Lift(t)) ==> forall i :: 0 <= i < |t.kids| ==> L.Unique(Lift(t.kids[i]))
    ensures View(t) == L.View(L.PropView(LiftProps(t.props)), L.KidView(LiftKids(t.kids)))
  {
  }

  // ---- properties --------------------------------------------------------------------------------

  lemma LiftFind(ps: seq<T.Property>, name: seq<byte>)
    ensures L.FindProp(LiftProps(ps), name) == T.FindProp(ps, name)
  {
    L.FindPropIs(LiftProps(ps), name, T.FindProp(ps, name));
  }

  lemma PropFirst(p: L.LProp, ps: seq<L.LProp>)
    requires !p.deleted
    ensures L.PropView([p] + ps) == L.PropView(ps)[p.name := p.val]
  {
    assert ([p] + ps)[1..] == ps;
  }

  lemma SetPropView(t: T.Tree, name: Name, val: Data)
    requires L.UniqueProps(LiftProps(t.props))
    ensures var r := LiftProps(T.SetProp(t, name, val).props);
      L.UniqueProps(r) && L.PropView(r) == L.PropView(LiftProps(t.props))[name := val]
  {
    hide L.PropView, L.FindProp, T.FindProp;
    var ps, i := LiftProps(t.props), T.FindProp(t.props, name);
    var p := L.LProp(false, name, val);
    LiftFind(t.props, name);
    if i < |t.props| {
      L.MergePropView(ps, p);
      assert LiftProps(T.SetProp(t, name, val).props) == L.MergeProp(ps, p);
      L.MergePropUnique(ps, p);
    } else {
      PropFirst(p, ps);
      assert LiftProps(T.SetProp(t, name, val).props) == [p] + ps;
    }
  }

  lemma {:induction false} MergePropsView(t: T.Tree, qs: seq<T.Property>)
    requires L.UniqueProps(LiftProps(t.props))
    ensures var r := LiftProps(T.MergeProps(t, qs).props);
      L.UniqueProps(r) && L.PropView(r) == L.PatchProps(L.PropView(LiftProps(t.props)), LiftProps(qs))
    decreases |qs|
  {
    hide T.SetProp, L.PropView, L.UniqueProps;
    if qs != [] {
      var t1 := T.SetProp(t, qs[0].name, qs[0].val);
      SetPropView(t, qs[0].name, qs[0].val);
      MergePropsView(t1, qs[1..]);
      assert LiftProps(qs)[1..] == LiftProps(qs[1..]);
    }
  }

  // ---- children ------------------------------------------------------------------------------------

  lemma LiftKidNamed(ks: seq<T.Tree>, name: seq<byte>)
    ensures L.FindKid(LiftKids(ks), name) == M.KidNamed(ks, name)
  {
    hide Lift;
    var i, j := L.FindKid(LiftKids(ks), name), M.KidNamed(ks, name);
    LiftNames(ks);
  }

  lemma LiftNames(ks: seq<T.Tree>)
    ensures forall i :: 0 <= i < |ks| ==> LiftKids(ks)[i].name == ks[i].name && !LiftKids(ks)[i].deleted
  {
  }

  lemma KidFirst(c: L.LTree, ks: seq<L.LTree>)
    requires !c.deleted && L.FindKid(ks, c.name) == |ks|
    ensures L.KidView([c] + ks) == L.KidView(ks)[c.name := L.ViewOf(c)]
    ensures L.UniqueKids(ks) ==> L.UniqueKids([c] + ks)
  {
    hide L.ViewOf;
    assert ([c] + ks)[1..] == ks;
  }

  /** One overlay child merged: the same as one entry of a patch. */
  lemma MergeKidView(ks: seq<T.Tree>, o: T.Tree)
    requires L.UniqueKids(LiftKids(ks)) && M.FitsKid(ks, o.name)
    requires var c := M.Chosen(ks, o); View(T.Merge(c, o)) == L.Patch(View(c), Lift(o))
    ensures var r, v := LiftKids(T.MergeKid(ks, o)), L.KidView(LiftKids(ks));
      L.UniqueKids(r) && L.KidView(r) == v[o.name := L.Patch(if o.name in v then v[o.name] else L.NOTHING, Lift(o))]
  {
    hide T.Merge, Lift, L.ViewOf, L.Patch, L.KidView, T.FindKid;
    var i := T.FindKid(ks, o.name);
    var x := T.Merge(M.Chosen(ks, o), o);
    M.MergeName(M.Chosen(ks, o), o);
    LiftKidNamed(ks, o.name);
    L.KidViewAt(LiftKids(ks), o.name);
    LiftNames(ks);
    LiftDef(x);
    if i < |ks| {
      L.ReplacedView(LiftKids(ks), i, Lift(x));
      LiftReplaced(ks, i, x);
    } else {
      BareView(o.name);
      LiftAdded(ks, x);
      hide L.UniqueKids;
      KidFirst(Lift(x), LiftKids(ks));
    }
  }

  lemma LiftReplaced(ks: seq<T.Tree>, i: nat, x: T.Tree)
    requires i < |ks|
    ensures LiftKids(ks[i := x]) == LiftKids(ks)[i := Lift(x)]
  {
    hide LiftKids, Lift;
  }

  lemma LiftAdded(ks: seq<T.Tree>, x: T.Tree)
    ensures LiftKids([x] + ks) == [Lift(x)] + LiftKids(ks)
  {
    hide LiftKids, Lift;
  }

  lemma BareView(name: Name)
    ensures View(T.Tree(name, [], [])) == L.NOTHING
  {
    LiftDef(T.Tree(name, [], []));
    assert LiftProps([]) == [] && LiftKids([]) == [];
    L.DeadProps([]);
    L.DeadKids([]);
  }

  lemma {:induction false} PatchKidsSnoc(v: map<Name, L.View>, cs: seq<L.LTree>, c: L.LTree)
    ensures L.PatchKids(v, cs + [c]) ==
      var w := L.PatchKids(v, cs);
      if c.deleted then w - {c.name} else w[c.name := L.Patch(if c.name in w then w[c.name] else L.NOTHING, c)]
    decreases |cs|
  {
    hide L.Patch;
    if cs == [] {
      assert (cs + [c])[1..] == [];
    } else {
      assert (cs + [c])[0] == cs[0] && (cs + [c])[1..] == cs[1..] + [c];
      var d := cs[0];
      PatchKidsSnoc(if d.deleted then v - {d.name} else v[d.name := L.Patch(if d.name in v then v[d.name] else L.NOTHING, d)], cs[1..], c);
    }
  }

  lemma FitsParts(t: T.Tree, o: T.Tree, i: nat)
    requires M.Unambiguous(o) && M.Fits(t, o) && i < |o.kids|
    ensures M.Distinct(o.kids) && M.Unambiguous(o.kids[i])
    ensures M.FitsKid(t.kids, o.kids[i].name) && M.Fits(M.Chosen(t.kids, o.kids[i]), o.kids[i])
  {
  }

  /** The first `n` children of an overlay node. */
  lemma {:induction false} MergeKidsView(t: T.Tree, o: T.Tree, n: nat)
    requires M.Unambiguous(o) && M.Fits(t, o) && L.Unique(Lift(t)) && n <= |o.kids|
    ensures var r := LiftKids(T.MergeKids(t.kids, o.kids[..n]));
      L.UniqueKids(r) && L.KidView(r) == L.PatchKids(L.KidView(LiftKids(t.kids)), LiftKids(o.kids)[..n])
    decreases o, 0, n
  {
    hide T.MergeKid, T.MergeKids, T.Merge, T.NameMatches, Lift, L.ViewOf, L.Patch, L.KidView, L.UniqueKids, L.Unique, M.Fits, M.FitsKid, M.Unambiguous, M.Distinct, M.Chosen, L.PatchKids;
    LiftDef(t);
    if n == 0 {
      T.MergeNothing(t);
      PatchNone(L.KidView(LiftKids(t.kids)));
      assert o.kids[..0] == [] && LiftKids(o.kids)[..0] == [];
    } else {
      var os, x := o.kids[..n - 1], o.kids[n - 1];
      var c := M.Chosen(t.kids, x);
      MergeKidsView(t, o, n - 1);
      FitsParts(t, o, n - 1);
      OthersApart(t, o, n - 1);
      M.FitsAfter(t.kids, os, x.name);
      M.ChosenKept(t.kids, os, x);
      ChosenUnique(t, x);
      MergeView(c, x);
      MergeKidView(T.MergeKids(t.kids, os), x);
      assert o.kids[..n] == os + [x];
      T.MergeKidsSnoc(t.kids, os, x);
      assert LiftKids(o.kids)[..n] == LiftKids(o.kids)[..n - 1] + [Lift(x)];
      LiftDef(x);
      PatchKidsSnoc(L.KidView(LiftKids(t.kids)), LiftKids(o.kids)[..n - 1], Lift(x));
    }
  }

  lemma PatchNone(v: map<Name, L.View>)
    ensures L.PatchKids(v, []) == v
  {
  }

  lemma OthersApart(t: T.Tree, o: T.Tree, n: nat)
    requires M.Unambiguous(o) && M.Fits(t, o) && n < |o.kids|
    ensures M.Distinct(o.kids[..n])
    ensures forall i :: 0 <= i < n ==> M.FitsKid(t.kids, o.kids[i].name)
    ensures forall i :: 0 <= i < n ==>
      !T.NameMatches(o.kids[i].name, o.kids[n].name) && !T.NameMatches(o.kids[n].name, o.kids[i].name)
  {
    hide T.NameMatches, M.FitsKid;
  }

  lemma ChosenUnique(t: T.Tree, x: T.Tree)
    requires L.Unique(Lift(t))
    ensures L.Unique(Lift(M.Chosen(t.kids, x)))
  {
    LiftDef(t);
    hide T.FindKid;
  }

  /** Merging an overlay is patching with it. */
  lemma {:induction false} MergeView(t: T.Tree, o: T.Tree)
    requires M.Unambiguous(o) && M.Fits(t, o) && L.Unique(Lift(t))
    ensures View(T.Merge(t, o)) == L.Patch(View(t), Lift(o))
    decreases o, 1
  {
    hide T.MergeKids, T.MergeProps, L.KidView, L.PropView, L.PatchKids, L.PatchProps, L.Unique, M.Unambiguous, M.Fits, Lift, L.ViewOf;
    var r := T.Merge(t, o);
    LiftDef(t);
    LiftDef(o);
    LiftDef(r);
    T.MergePropsKids(t, o.props);
    MergePropsView(t, o.props);
    MergeKidsView(t, o, |o.kids|);
    assert o.kids[..|o.kids|] == o.kids && LiftKids(o.kids)[..|o.kids|] == LiftKids(o.kids);
    PatchDef(View(t), Lift(o));
  }

  lemma PatchDef(v: L.View, o: L.LTree)
    ensures L.Patch(v, o) == L.View(L.PatchProps(v.props, o.props), L.PatchKids(v.kids, o.kids))
  {
  }

  lemma {:induction false} LiftClean(t: T.Tree)
    ensures L.Clean(Lift(t))
    decreases t
  {
    forall i | 0 <= i < |t.kids|
      ensures L.Clean(Lift(t).kids[i])
    {
      LiftClean(t.kids[i]);
    }
  }

  lemma {:induction false} LiftUnique(o: T.Tree)
    requires M.Unambiguous(o)
    ensures L.Unique(Lift(o))
    decreases o
  {
    hide T.NameMatches;
    forall i | 0 <= i < |o.kids|
      ensures L.Unique(Lift(o).kids[i]) && Lift(o).kids[i].name == o.kids[i].name
    {
      LiftUnique(o.kids[i]);
    }
    forall i, j | 0 <= i < j < |o.kids|
      ensures o.kids[i].name != o.kids[j].name
    {
      M.MatchSelf(o.kids[i].name);
    }
  }

  /** merge_nodes and overlay_apply_node agree on trees without tombstones. */
  lemma MergesAgree(t: T.Tree, o: T.Tree)
    requires M.Unambiguous(o) && M.Fits(t, o) && L.Unique(Lift(t))
    ensures L.ViewOf(L.Merge(Lift(t), Lift(o))) == View(T.Merge(t, o))
  {
    hide L.Merge, T.Merge, L.ViewOf, L.Patch, L.Unique, L.Clean, Lift, M.Unambiguous, M.Fits;
    LiftClean(t);
    LiftClean(o);
    LiftUnique(o);
    LiftDef(o);
    L.MergeIsPatch(Lift(t), Lift(o));
    MergeView(t, o);
  }
}
