/** dtc's livetree.c as values: trees with tombstones, and merging an override into one. */
module Livetree {
  import opened Bytes
  import opened StructBlock

  datatype LProp = LProp(deleted: bool, name: Name, val: Data)

  datatype LTree = LTree(deleted: bool, name: Name, props: seq<LProp>, kids: seq<LTree>)

  // ---- the operations --------------------------------------------------------------------------

  /** First property of that name, deleted or not. */
  function FindProp(ps: seq<LProp>, name: seq<byte>): (i: nat)
    ensures i <= |ps| && (i < |ps| ==> ps[i].name == name)
    ensures forall j :: 0 <= j < i ==> ps[j].name != name
  {
    if ps == [] || ps[0].name == name then 0 else 1 + FindProp(ps[1..], name)
  }

  function FindKid(ks: seq<LTree>, name: seq<byte>): (i: nat)
    ensures i <= |ks| && (i < |ks| ==> ks[i].name == name)
    ensures forall j :: 0 <= j < i ==> ks[j].name != name
  {
    if ks == [] || ks[0].name == name then 0 else 1 + FindKid(ks[1..], name)
  }

  function KillProps(ps: seq<LProp>): (r: seq<LProp>)
    ensures |r| == |ps| && forall i :: 0 <= i < |ps| ==> r[i] == ps[i].(deleted := true)
  {
    seq(|ps|, i requires 0 <= i < |ps| => ps[i].(deleted := true))
  }

  /** delete_node: the node and everything live in it. */
  function Kill(t: LTree): LTree
    decreases t
  {
    LTree(true, t.name, KillProps(t.props), KillKids(t.kids))
  }

  /** Children that are dead already are not looked into. */
  function KillKids(ks: seq<LTree>): (r: seq<LTree>)
    ensures |r| == |ks| && forall i :: 0 <= i < |ks| ==> r[i] == if ks[i].deleted then ks[i] else Kill(ks[i])
    decreases ks
  {
    if ks == [] then [] else
      var r := [if ks[0].deleted then ks[0] else Kill(ks[0])] + KillKids(ks[1..]);
      assert forall i :: 1 <= i < |ks| ==> r[i] == KillKids(ks[1..])[i - 1];
      r
  }

  /** One property of an override. */
  function MergeProp(ps: seq<LProp>, p: LProp): seq<LProp> {
    var i := FindProp(ps, p.name);
    if p.deleted then (if i < |ps| then ps[i := ps[i].(deleted := true)] else ps)
    else if i < |ps| then ps[i := LProp(false, ps[i].name, p.val)]
    else ps + [p]
  }

  function MergeProps(ps: seq<LProp>, qs: seq<LProp>): seq<LProp>
    decreases |qs|
  {
    if qs == [] then ps else MergeProps(MergeProp(ps, qs[0]), qs[1..])
  }

  /** One child of an override. */
  function MergeKid(ks: seq<LTree>, c: LTree): seq<LTree>
    decreases c, 1
  {
    var i := FindKid(ks, c.name);
    if c.deleted then (if i < |ks| then ks[i := Kill(ks[i])] else ks)
    else if i < |ks| then ks[i := Merge(ks[i], c)]
    else ks + [c]
  }

  function MergeKids(ks: seq<LTree>, cs: seq<LTree>): seq<LTree>
    decreases cs
  {
    if cs == [] then ks else MergeKids(MergeKid(ks, cs[0]), cs[1..])
  }

  /** merge_nodes: the node comes back to life and takes over what the override says. */
  function Merge(t: LTree, o: LTree): LTree
    decreases o, 0
  {
    LTree(false, t.name, MergeProps(t.props, o.props), MergeKids(t.kids, o.kids))
  }

  // ---- what a tree with tombstones stands for --------------------------------------------------------

  /** A live tree without the order of its parts. */
  datatype View = View(props: map<Name, Data>, kids: map<Name, View>)

  const NOTHING: View := View(map[], map[])

  /** The live properties; of two with one name the first counts. */
  function PropView(ps: seq<LProp>): map<Name, Data>
  {
    if ps == [] then map[] else
    if ps[0].deleted then PropView(ps[1..]) else PropView(ps[1..])[ps[0].name := ps[0].val]
  }

  function KidView(ks: seq<LTree>): map<Name, View>
    decreases ks
  {
    if ks == [] then map[] else
    if ks[0].deleted then KidView(ks[1..]) else KidView(ks[1..])[ks[0].name := ViewOf(ks[0])]
  }

  function ViewOf(t: LTree): View
    decreases t
  {
    View(PropView(t.props), KidView(t.kids))
  }

  /** An override as a patch: what it sets is set, what it deletes is gone, and what it defines anew
      starts from nothing. */
  function PatchProps(v: map<Name, Data>, qs: seq<LProp>): map<Name, Data>
    decreases |qs|
  {
    if qs == [] then v else
    PatchProps(if qs[0].deleted then v - {qs[0].name} else v[qs[0].name := qs[0].val], qs[1..])
  }

  function PatchKids(v: map<Name, View>, cs: seq<LTree>): map<Name, View>
    decreases cs
  {
    if cs == [] then v else
    var c := cs[0];
    PatchKids(if c.deleted then v - {c.name} else v[c.name := Patch(if c.name in v then v[c.name] else NOTHING, c)], cs[1..])
  }

  function Patch(v: View, o: LTree): View
    decreases o
  {
    View(PatchProps(v.props, o.props), PatchKids(v.kids, o.kids))
  }

  // ---- invariants --------------------------------------------------------------------------------------

  predicate UniqueProps(ps: seq<LProp>) {
    forall i, j :: 0 <= i < j < |ps| ==> ps[i].name != ps[j].name
  }

  predicate UniqueKids(ks: seq<LTree>) {
    forall i, j :: 0 <= i < j < |ks| ==> ks[i].name != ks[j].name
  }

  /** No two siblings share a name, tombstones included. */
  predicate Unique(t: LTree)
    decreases t
  {
    UniqueProps(t.props) && UniqueKids(t.kids) && forall i :: 0 <= i < |t.kids| ==> Unique(t.kids[i])
  }

  /** A dead node has no live content. */
  predicate Clean(t: LTree)
    decreases t
  {
    && (t.deleted ==> (forall i :: 0 <= i < |t.props| ==> t.props[i].deleted) && forall i :: 0 <= i < |t.kids| ==> t.kids[i].deleted)
    && forall i :: 0 <= i < |t.kids| ==> Clean(t.kids[i])
  }

  lemma FindPropIs(ps: seq<LProp>, name: seq<byte>, i: nat)
    requires i <= |ps| && (i < |ps| ==> ps[i].name == name) && forall j :: 0 <= j < i ==> ps[j].name != name
    ensures FindProp(ps, name) == i
  {
  }

  // ---- killing --------------------------------------------------------------------------------------------

  lemma {:induction false} KillClean(t: LTree)
    requires Clean(t)
    ensures Clean(Kill(t)) && ViewOf(Kill(t)) == NOTHING && Kill(t).deleted && Kill(t).name == t.name
    decreases t
  {
    hide ViewOf;
    var k := Kill(t);
    forall i | 0 <= i < |t.kids|
      ensures k.kids[i].deleted && Clean(k.kids[i])
    {
      KillClean(t.kids[i]);
    }
    CleanView(k);
  }

  lemma {:induction false} KillUnique(t: LTree)
    requires Unique(t)
    ensures Unique(Kill(t))
    decreases t
  {
    forall i | 0 <= i < |t.kids|
      ensures Unique(Kill(t).kids[i])
    {
      KillUnique(t.kids[i]);
    }
  }

  lemma {:induction false} DeadProps(ps: seq<LProp>)
    requires forall i :: 0 <= i < |ps| ==> ps[i].deleted
    ensures PropView(ps) == map[]
  {
    if ps != [] {
      DeadProps(ps[1..]);
    }
  }

  lemma {:induction false} DeadKids(ks: seq<LTree>)
    requires forall i :: 0 <= i < |ks| ==> ks[i].deleted
    ensures KidView(ks) == map[]
  {
    hide ViewOf;
    if ks != [] {
      DeadKids(ks[1..]);
    }
  }

  /** There is nothing to see in a dead node. */
  lemma CleanView(t: LTree)
    requires Clean(t) && t.deleted
    ensures ViewOf(t) == NOTHING
  {
    DeadProps(t.props);
    DeadKids(t.kids);
  }

  // ---- merging one entry -----------------------------------------------------------------------------------

  /** The view of a list by lookup. */
  lemma {:induction false} PropViewAt(ps: seq<LProp>, name: Name)
    requires UniqueProps(ps)
    ensures var i := FindProp(ps, name);
      if i < |ps| && !ps[i].deleted then name in PropView(ps) && PropView(ps)[name] == ps[i].val else name !in PropView(ps)
  {
    if ps != [] {
      PropViewAt(ps[1..], name);
    }
  }

  lemma MergePropUnique(ps: seq<LProp>, p: LProp)
    requires UniqueProps(ps)
    ensures UniqueProps(MergeProp(ps, p))
  {
  }

  lemma MergePropFind(ps: seq<LProp>, p: LProp, name: Name)
    ensures var r := MergeProp(ps, p);
      if name == p.name && !p.deleted then
        FindProp(r, name) < |r| && r[FindProp(r, name)] == LProp(false, name, p.val)
      else if name == p.name then
        FindProp(r, name) < |r| ==> r[FindProp(r, name)].deleted
      else
        FindProp(r, name) == (if FindProp(ps, name) < |ps| then FindProp(ps, name) else |r|) &&
        (FindProp(ps, name) < |ps| ==> FindProp(r, name) < |r| && r[FindProp(r, name)] == ps[FindProp(ps, name)])
  {
    var r, i, j := MergeProp(ps, p), FindProp(ps, p.name), FindProp(ps, name);
    if name == p.name {
      FindPropIs(r, name, if i < |ps| || !p.deleted then i else |r|);
    } else {
      FindPropIs(r, name, if j < |ps| then j else |r|);
    }
  }

  lemma MergePropView(ps: seq<LProp>, p: LProp)
    requires UniqueProps(ps)
    ensures PropView(MergeProp(ps, p)) == if p.deleted then PropView(ps) - {p.name} else PropView(ps)[p.name := p.val]
  {
    hide MergeProp, PropView, UniqueProps;
    var r := MergeProp(ps, p);
    var v := if p.deleted then PropView(ps) - {p.name} else PropView(ps)[p.name := p.val];
    MergePropUnique(ps, p);
    forall name: Name
      ensures name in PropView(r) <==> name in v
      ensures name in v ==> PropView(r)[name] == v[name]
    {
      PropViewAt(ps, name);
      PropViewAt(r, name);
      MergePropFind(ps, p, name);
    }
  }

  lemma {:induction false} MergePropsView(ps: seq<LProp>, qs: seq<LProp>)
    requires UniqueProps(ps)
    ensures UniqueProps(MergeProps(ps, qs)) && PropView(MergeProps(ps, qs)) == PatchProps(PropView(ps), qs)
    decreases |qs|
  {
    hide MergeProp, PropView, UniqueProps;
    if qs != [] {
      MergePropUnique(ps, qs[0]);
      MergePropView(ps, qs[0]);
      MergePropsView(MergeProp(ps, qs[0]), qs[1..]);
    }
  }

  // ---- children -----------------------------------------------------------------------------------------------

  lemma {:induction false} KidViewAt(ks: seq<LTree>, name: Name)
    requires UniqueKids(ks)
    ensures var i := FindKid(ks, name);
      if i < |ks| && !ks[i].deleted then name in KidView(ks) && KidView(ks)[name] == ViewOf(ks[i]) else name !in KidView(ks)
  {
    hide ViewOf;
    if ks != [] {
      KidViewAt(ks[1..], name);
    }
  }

  /** One entry replaced by another of the same name. */
  lemma ReplacedView(ks: seq<LTree>, i: nat, x: LTree)
    requires UniqueKids(ks) && i < |ks| && x.name == ks[i].name
    ensures UniqueKids(ks[i := x])
    ensures KidView(ks[i := x]) == if x.deleted then KidView(ks) - {x.name} else KidView(ks)[x.name := ViewOf(x)]
  {
    hide ViewOf, KidView;
    var r := ks[i := x];
    var v := if x.deleted then KidView(ks) - {x.name} else KidView(ks)[x.name := ViewOf(x)];
    forall name: Name
      ensures name in KidView(r) <==> name in v
      ensures name in v ==> KidView(r)[name] == v[name]
    {
      KidViewAt(ks, name);
      KidViewAt(r, name);
      SameFind(ks, r, name);
    }
  }

  lemma SameFind(a: seq<LTree>, b: seq<LTree>, name: seq<byte>)
    requires |a| == |b| && forall i :: 0 <= i < |a| ==> a[i].name == b[i].name
    ensures FindKid(a, name) == FindKid(b, name)
  {
    var i, j := FindKid(a, name), FindKid(b, name);
  }

  lemma {:induction false} AppendedView(ks: seq<LTree>, x: LTree)
    requires FindKid(ks, x.name) == |ks| && !x.deleted
    ensures KidView(ks + [x]) == KidView(ks)[x.name := ViewOf(x)]
    ensures UniqueKids(ks) ==> UniqueKids(ks + [x])
    decreases |ks|
  {
    hide ViewOf;
    AppendedUnique(ks, x);
    hide UniqueKids;
    if ks == [] {
      assert (ks + [x])[1..] == [];
    } else {
      assert (ks + [x])[1..] == ks[1..] + [x];
      AppendedView(ks[1..], x);
    }
  }

  lemma AppendedUnique(ks: seq<LTree>, x: LTree)
    requires FindKid(ks, x.name) == |ks|
    ensures UniqueKids(ks) ==> UniqueKids(ks + [x])
  {
  }

  /** A definition that meets nothing is taken over as it is, which is what patching nothing gives. */
  lemma {:induction false} PatchNothing(o: LTree)
    requires Unique(o)
    ensures Patch(NOTHING, o) == ViewOf(o)
    decreases o, 1
  {
    PatchNoProps(map[], o.props);
    PatchNoKids(map[], o.kids);
    assert map[] + PropView(o.props) == PropView(o.props);
    assert map[] + KidView(o.kids) == KidView(o.kids);
  }

  lemma {:induction false} PatchNoProps(v: map<Name, Data>, qs: seq<LProp>)
    requires UniqueProps(qs) && forall i :: 0 <= i < |qs| ==> qs[i].name !in v
    ensures PatchProps(v, qs) == v + PropView(qs)
    decreases |qs|
  {
    if qs != [] {
      var v1 := if qs[0].deleted then v - {qs[0].name} else v[qs[0].name := qs[0].val];
      PropViewAt(qs[1..], qs[0].name);
      PatchNoProps(v1, qs[1..]);
    }
  }

  lemma {:induction false} PatchNoKids(v: map<Name, View>, cs: seq<LTree>)
    requires UniqueKids(cs) && (forall i :: 0 <= i < |cs| ==> cs[i].name !in v) && forall i :: 0 <= i < |cs| ==> Unique(cs[i])
    ensures PatchKids(v, cs) == v + KidView(cs)
    decreases cs, 0
  {
    hide ViewOf, Patch;
    if cs != [] {
      var c := cs[0];
      PatchNothing(c);
      var v1 := if c.deleted then v - {c.name} else v[c.name := ViewOf(c)];
      KidViewAt(cs[1..], c.name);
      PatchNoKids(v1, cs[1..]);
    }
  }

  // ---- the main theorem ------------------------------------------------------------------------------------------

  /** What merging keeps, and what it means. */
  lemma {:induction false} MergeIsPatch(t: LTree, o: LTree)
    requires Unique(t) && Clean(t) && Unique(o) && Clean(o) && !o.deleted
    ensures ViewOf(Merge(t, o)) == Patch(ViewOf(t), o)
    ensures Unique(Merge(t, o)) && Clean(Merge(t, o)) && !Merge(t, o).deleted && Merge(t, o).name == t.name
    decreases o, 1
  {
    hide MergeProps, MergeKids, PropView, KidView, PatchProps, PatchKids, UniqueProps, UniqueKids;
    MergePropsView(t.props, o.props);
    MergeKidsIsPatch(t.kids, o.kids);
  }

  lemma {:induction false} MergeKidsIsPatch(ks: seq<LTree>, cs: seq<LTree>)
    requires UniqueKids(ks) && forall i :: 0 <= i < |ks| ==> Unique(ks[i]) && Clean(ks[i])
    requires forall i :: 0 <= i < |cs| ==> Unique(cs[i]) && Clean(cs[i])
    ensures var r := MergeKids(ks, cs);
      && KidView(r) == PatchKids(KidView(ks), cs)
      && UniqueKids(r) && forall i :: 0 <= i < |r| ==> Unique(r[i]) && Clean(r[i])
    decreases cs, 0
  {
    hide MergeKid, KidView, UniqueKids, Unique, Clean, Patch;
    if cs != [] {
      MergeKidIsPatch(ks, cs[0]);
      MergeKidsIsPatch(MergeKid(ks, cs[0]), cs[1..]);
    }
  }

  lemma {:induction false} MergeKidIsPatch(ks: seq<LTree>, c: LTree)
    requires UniqueKids(ks) && forall i :: 0 <= i < |ks| ==> Unique(ks[i]) && Clean(ks[i])
    requires Unique(c) && Clean(c)
    ensures var r, v := MergeKid(ks, c), KidView(ks);
      && KidView(r) == (if c.deleted then v - {c.name} else v[c.name := Patch(if c.name in v then v[c.name] else NOTHING, c)])
      && UniqueKids(r) && forall i :: 0 <= i < |r| ==> Unique(r[i]) && Clean(r[i])
    decreases c, 2
  {
    hide Merge, Kill, KidView, ViewOf, Unique, Clean, Patch;
    var i := FindKid(ks, c.name);
    KidViewAt(ks, c.name);
    if c.deleted {
      if i < |ks| {
        KillClean(ks[i]);
        KillUnique(ks[i]);
        ReplacedView(ks, i, Kill(ks[i]));
      } else {
        assert KidView(ks) - {c.name} == KidView(ks);
      }
    } else if i < |ks| {
      MergeIsPatch(ks[i], c);
      if ks[i].deleted {
        CleanView(ks[i]);
      }
      ReplacedView(ks, i, Merge(ks[i], c));
    } else {
      PatchNothing(c);
      AppendedView(ks, c);
    }
  }

  // ---- where the conditions are needed -----------------------------------------------------------------------------

  const P: Name := [112]

  /** A definition that sets a property and then deletes it: met by nothing it is taken over as it is,
      and the property stays; as a patch it would remove it. */
  lemma DefineThenDelete()
    ensures var c := LTree(false, [], [LProp(false, P, []), LProp(true, P, [])], []);
      !Unique(c) && ViewOf(c).props == map[P := []] && Patch(NOTHING, c).props == map[]
  {
    var a, b := LProp(false, P, []), LProp(true, P, []);
    assert [a, b][0].name == [a, b][1].name;
    assert [a, b][1..] == [b] && [b][1..] == [];
    assert PropView([b]) == map[];
    var v: map<Name, Data> := map[P := []];
    assert v - {P} == map[];
    var w: map<Name, Data> := map[];
    assert w[P := []] == v;
    assert PatchProps(v, [b]) == map[];
  }

  /** A dead node that still has live content comes back with it, although the override defines nothing. */
  lemma DirtyComesBack()
    ensures var dead, o := LTree(true, P, [LProp(false, P, [])], []), LTree(false, P, [], []);
      !Clean(dead) && ViewOf(Merge(dead, o)).props == map[P := []] && Patch(NOTHING, o).props == map[]
  {
    var dead, o := LTree(true, P, [LProp(false, P, [])], []), LTree(false, P, [], []);
    assert !dead.props[0].deleted;
    assert dead.props[1..] == [];
    assert MergeProps(dead.props, []) == dead.props;
    var w: map<Name, Data> := map[];
    assert PropView(dead.props) == w[P := []];
  }
}
