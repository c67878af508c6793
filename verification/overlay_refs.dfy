/** libfdt/fdt_overlay.c: shifting the references that `__local_fixups__` lists, in place. */
module OverlayRefs {
  import opened Bytes
  import opened StructBlock
  import opened Results
  import opened Concrete
  import opened FdtBase
  import opened FdtRo
  import opened NodeEdit
  import opened BlockEdit
  import opened Paths
  import opened Lookup
  import opened Shape
  import opened Naming
  import opened Overlay
  import opened OverlayReloc
  import T = Tree

  // ---- the node that is updated and the fixups node --------------------------------------------

  /** The fixups stand beside the node being updated; or they are a child of it that they do not
      themselves describe. Their offsets do not wrap around. */
  predicate Aside(t: T.Tree, tp: Path, fp: Path)
    requires T.HasPath(t, tp) && T.HasPath(t, fp)
  {
    && OffsetsFit(T.At(t, fp))
    && (|| T.Diverge(tp, fp)
        || (fp != [] && fp[..|fp| - 1] == tp &&
            forall j :: 0 <= j < |T.At(t, fp).kids| ==> T.FindKid(T.At(t, tp).kids, T.At(t, fp).kids[j].name) != fp[|fp| - 1]))
  }

  lemma {:induction false} DivergeSnoc(p: Path, q: Path, j: nat, k: nat)
    requires T.Diverge(p, q)
    ensures T.Diverge(p + [k], q + [j])
    decreases |p|
  {
    assert (p + [k])[1..] == p[1..] + [k] && (q + [j])[1..] == q[1..] + [j];
    if p[0] == q[0] {
      DivergeSnoc(p[1..], q[1..], j, k);
    }
  }

  lemma {:induction false} DivergeSide(p: Path, f: nat, k: nat, j: nat)
    requires k != f
    ensures T.Diverge(p + [k], p + [f] + [j]) && T.Diverge(p + [k], p + [f])
    decreases |p|
  {
    if p != [] {
      assert (p + [k])[1..] == p[1..] + [k] && (p + [f] + [j])[1..] == p[1..] + [f] + [j] && (p + [f])[1..] == p[1..] + [f];
      DivergeSide(p[1..], f, k, j);
    }
  }

  /** A step down on both sides leaves them beside each other. */
  lemma AsideBelow(t: T.Tree, tp: Path, fp: Path, j: nat)
    requires T.HasPath(t, tp) && T.HasPath(t, fp) && Aside(t, tp, fp) && j < |T.At(t, fp).kids|
    ensures var k := T.FindKid(T.At(t, tp).kids, T.At(t, fp).kids[j].name);
      k < |T.At(t, tp).kids| ==>
        T.HasPath(t, tp + [k]) && T.HasPath(t, fp + [j]) && Aside(t, tp + [k], fp + [j]) && T.Diverge(tp + [k], fp)
  {
    hide T.At, T.HasPath, T.FindKid;
    var k := T.FindKid(T.At(t, tp).kids, T.At(t, fp).kids[j].name);
    if k < |T.At(t, tp).kids| {
      HasPathSnoc(t, tp, k);
      HasPathSnoc(t, fp, j);
      if T.Diverge(tp, fp) {
        DivergeSnoc(tp, fp, j, k);
        DivergeOne(tp, fp, k);
      } else {
        DivergeSide(tp, fp[|fp| - 1], k, j);
        assert fp == tp + [fp[|fp| - 1]];
      }
    }
  }

  lemma {:induction false} DivergeOne(p: Path, q: Path, k: nat)
    requires T.Diverge(p, q)
    ensures T.Diverge(p + [k], q)
    decreases |p|
  {
    assert (p + [k])[1..] == p[1..] + [k];
    if p[0] == q[0] {
      DivergeOne(p[1..], q[1..], k);
    }
  }

  /** New values of properties at `tp` are not seen from the fixups. */
  lemma PropsAside(t: T.Tree, tp: Path, fp: Path, x: T.Tree)
    requires T.HasPath(t, tp) && T.HasPath(t, fp) && Aside(t, tp, fp) && x.kids == T.At(t, tp).kids
    ensures T.HasPath(T.Put(t, tp, x), fp) && T.At(T.Put(t, tp, x), fp) == T.At(t, fp)
  {
    if T.Diverge(tp, fp) {
      T.PutElsewhere(t, tp, x, fp);
    } else {
      hide T.At, T.HasPath, T.Put, T.FindKid;
      var f := fp[|fp| - 1];
      assert fp == tp + [f];
      HasPathPrefix(t, tp, f);
      HasPathSnoc(t, tp, f);
      HasPathSnoc(T.Put(t, tp, x), tp, f);
    }
  }

  lemma {:induction false} HasPathPrefix(t: T.Tree, p: Path, k: nat)
    requires T.HasPath(t, p + [k])
    ensures T.HasPath(t, p) && k < |T.At(t, p).kids|
    decreases |p|
  {
    if p != [] {
      assert (p + [k])[1..] == p[1..] + [k];
      HasPathPrefix(t.kids[p[0]], p[1..], k);
    }
  }

  /** Lookups by name give the same answer on blobs of the same shape. */
  lemma SameFind(c: Cst, c2: Cst, p: Path, tab: seq<byte>, name: seq<byte>)
    requires SameShape(c, c2) && HasPath(c, p)
    ensures HasPath(c2, p) && T.HasPath(Den(c, tab), p) && T.HasPath(Den(c2, tab), p)
    ensures T.FindKid(T.At(Den(c2, tab), p).kids, name) == T.FindKid(T.At(Den(c, tab), p).kids, name)
    ensures |T.At(Den(c2, tab), p).kids| == |T.At(Den(c, tab), p).kids|
  {
    hide HasPath, NodeAt, Blank, Den, T.At, T.HasPath, T.NameMatches;
    SamePlace(c, c2, p);
    HasPathDen(c, p, tab);
    HasPathDen(c2, p, tab);
    var m, n := NodeAt(c, p), NodeAt(c2, p);
    DenDef(m, tab);
    DenDef(n, tab);
    BlankDef(m);
    BlankDef(n);
    forall i | 0 <= i < |m.kids|
      ensures m.kids[i].name == n.kids[i].name
    {
      BlankDef(m.kids[i]);
      BlankDef(n.kids[i]);
      assert Blank(m.kids[i]) == Blank(n.kids[i]);
    }
    FindKidDen(m.kids, tab, name);
    FindKidDen(n.kids, tab, name);
    SameFindNames(m.kids, n.kids, name);
  }

  lemma SameFindNames(a: seq<Cst>, b: seq<Cst>, name: seq<byte>)
    requires |a| == |b| && forall i :: 0 <= i < |a| ==> a[i].name == b[i].name
    ensures FindKid(a, name) == FindKid(b, name)
  {
    var i, j := FindKid(a, name), FindKid(b, name);
  }

  /** `c` has become `c2`: at `tp` it is now `x`, and the fixups at `fp` are what they were. */
  ghost predicate Updated(c: Cst, c2: Cst, tab: seq<byte>, tp: Path, x: T.Tree, fp: Path) {
    && Became(c, c2, tab, tp, x)
    && T.HasPath(Den(c, tab), fp) && T.HasPath(Den(c2, tab), fp)
    && T.At(Den(c2, tab), fp) == T.At(Den(c, tab), fp)
  }

  lemma UpdatedNothing(c: Cst, tab: seq<byte>, tp: Path, fp: Path)
    requires T.HasPath(Den(c, tab), tp) && T.HasPath(Den(c, tab), fp)
    ensures Updated(c, c, tab, tp, T.At(Den(c, tab), tp), fp)
  {
    hide Became, Den, T.At, T.HasPath;
    BecameNothing(c, tab, tp);
  }

  lemma UpdatedAgain(c: Cst, c1: Cst, c2: Cst, tab: seq<byte>, tp: Path, x: T.Tree, y: T.Tree, fp: Path)
    requires Updated(c, c1, tab, tp, x, fp) && Updated(c1, c2, tab, tp, y, fp)
    ensures Updated(c, c2, tab, tp, y, fp)
  {
    hide Became, Den, T.At, T.HasPath;
    BecameAgain(c, c1, c2, tab, tp, x, y);
  }

  /** A child updated beside the fixups. */
  lemma UpdatedKid(c: Cst, c2: Cst, tab: seq<byte>, tp: Path, k: nat, x: T.Tree, fp: Path)
    requires T.HasPath(Den(c, tab), tp) && k < |T.At(Den(c, tab), tp).kids| && Became(c, c2, tab, tp + [k], x)
    requires T.HasPath(Den(c, tab), fp) && T.Diverge(tp + [k], fp)
    ensures var y := T.At(Den(c, tab), tp); Updated(c, c2, tab, tp, y.(kids := y.kids[k := x]), fp)
  {
    BecameKid(c, c2, tab, tp, k, x);
    hide Den, T.At, Blank;
    T.PutElsewhere(Den(c, tab), tp + [k], x, fp);
  }

  /** What both places offer to a method that updates one of them. */
  lemma UpdatedAt(c: Cst, c1: Cst, tab: seq<byte>, tp: Path, x: T.Tree, fp: Path)
    requires Updated(c, c1, tab, tp, x, fp) && HasPath(c, tp) && HasPath(c, fp)
    ensures SameShape(c, c1) && HasPath(c1, tp) && HasPath(c1, fp)
    ensures NodeOff(c1, tp) == NodeOff(c, tp) && NodeOff(c1, fp) == NodeOff(c, fp)
    ensures T.HasPath(Den(c1, tab), tp) && T.At(Den(c1, tab), tp) == x
    ensures T.HasPath(Den(c, tab), fp) && T.HasPath(Den(c1, tab), fp) && T.At(Den(c1, tab), fp) == T.At(Den(c, tab), fp)
    ensures Blank(NodeAt(c1, fp)) == Blank(NodeAt(c, fp))
  {
    hide HasPath, NodeAt, Blank, Den, T.At, T.HasPath, PreAt;
    BecameAt(c, c1, tab, tp, x);
    SamePlace(c, c1, tp);
    SamePlace(c, c1, fp);
    BlankSame(c, c1, fp);
  }

  lemma {:induction false} AsideKept(c: Cst, c1: Cst, tab: seq<byte>, tp: Path, x: T.Tree, fp: Path)
    requires Updated(c, c1, tab, tp, x, fp) && HasPath(c, tp)
    requires T.HasPath(Den(c, tab), tp) && Aside(Den(c, tab), tp, fp)
    ensures T.HasPath(Den(c1, tab), tp) && Aside(Den(c1, tab), tp, fp)
  {
    hide HasPath, Blank, Den, T.At, T.HasPath, T.FindKid;
    BecameAt(c, c1, tab, tp, x);
    if !T.Diverge(tp, fp) {
      var ks := T.At(Den(c, tab), fp).kids;
      forall j | 0 <= j < |ks|
        ensures T.FindKid(T.At(Den(c1, tab), tp).kids, ks[j].name) != fp[|fp| - 1]
      {
        SameFind(c, c1, tp, tab, ks[j].name);
      }
    }
  }

  // ---- cells and properties ------------------------------------------------------------------------

  /** In-place edits of one property, found by name. */
  lemma PatchFound(x: T.Tree, name: seq<byte>, i: nat, idx: nat, val: seq<byte>)
    requires i == T.FindProp(x.props, name) && i < |x.props| && idx + |val| <= |x.props[i].val|
    ensures var y := T.PatchProp(x, i, idx, val);
      T.FindProp(y.props, name) == i && |y.props| == |x.props| && y.kids == x.kids && |y.props[i].val| == |x.props[i].val|
  {
    hide T.FindProp, T.Patched;
    T.FindPropIs(T.PatchProp(x, i, idx, val).props, name, i);
  }

  /** The loop over the cells of one fixups property. */
  method UpdateCellRefs(fdto: Fdt, treeNode: nat, name: Name, fix: seq<byte>, delta: u32, ghost c: Cst, ghost tp: Path, ghost fp: Path)
    returns (ret: int, ghost c2: Cst)
    requires Apart(fdto) && Whole(fdto, c) && HasPath(c, tp) && HasPath(c, fp) && treeNode == NodeOff(c, tp)
    requires T.HasPath(Den(c, fdto.Strs()), tp) && T.HasPath(Den(c, fdto.Strs()), fp) && Aside(Den(c, fdto.Strs()), tp, fp)
    requires |fix| % 4 == 0 && CellsFit(fix) && T.FindProp(T.At(Den(c, fdto.Strs()), tp).props, name) < |T.At(Den(c, fdto.Strs()), tp).props|
    modifies fdto.buf
    ensures InPlace(fdto, c2)
    ensures var y := T.At(Den(c, fdto.Strs()), tp);
      var r := UpdateCells(y, T.FindProp(y.props, name), fix, 0, delta);
      SameShape(c, c2) && if r.Err? then ret == r.code else ret == 0 && Updated(c, c2, fdto.Strs(), tp, r.value, fp)
  {
    hide Whole, HasPath, NodeOff, T.At, T.HasPath, T.Put, T.FindProp, T.PatchProp, Den, Blank, Fdt.Layout, Fdt.Strs, Fdt.Mem, NodeAt, Became, Updated, Aside, Word, Bumped, BE32;
    c2 := c;
    WholeLayout(fdto, c);
    ghost var tab := fdto.Strs();
    ghost var y := T.At(Den(c, tab), tp);
    ghost var x, at := y, T.FindProp(y.props, name);
    UpdatedNothing(c, tab, tp, fp);
    var i := 0;
    while i < |fix| / 4
      invariant 4 * i <= |fix|
      invariant InPlace(fdto, c2) && Updated(c, c2, tab, tp, x, fp) && SameShape(c, c2)
      invariant x.kids == y.kids && at == T.FindProp(x.props, name) < |x.props|
      invariant UpdateCells(x, at, fix, i, delta) == UpdateCells(y, at, fix, 0, delta)
    {
      ghost var c1 := c2;
      var poffset := Word(fix, 4 * i);
      UpdatedAt(c, c1, tab, tp, x, fp);
      AsideKept(c, c1, tab, tp, x, fp);
      var treeVal, treeLen := GetPropAt(fdto, treeNode, name, c1, tp);
      // past the end of the value the source reads what comes next; it is not used
      var adjVal := if poffset + 4 <= |treeVal| then Bumped(treeVal, poffset, delta) else BE32(0);
      ret, c2 := PatchAt(fdto, treeNode, name, poffset, adjVal, c1, tp);
      if ret == ERR_NOSPACE {
        return ERR_BADOVERLAY, c2;
      }
      if ret != 0 {
        return;
      }
      PatchFound(x, name, at, poffset, adjVal);
      ghost var x2 := T.PatchProp(x, at, poffset, adjVal);
      PatchUpdates(c, c1, c2, tab, tp, x, x2, fp);
      x := x2;
      i := i + 1;
    }
    ret := 0;
  }

  lemma PatchUpdates(c: Cst, c1: Cst, c2: Cst, tab: seq<byte>, tp: Path, x: T.Tree, x2: T.Tree, fp: Path)
    requires Updated(c, c1, tab, tp, x, fp) && HasPath(c, tp) && T.HasPath(Den(c, tab), tp) && Aside(Den(c, tab), tp, fp)
    requires x2.kids == x.kids && SameShape(c1, c2) && T.HasPath(Den(c1, tab), tp) && Den(c2, tab) == T.Put(Den(c1, tab), tp, x2)
    ensures Updated(c, c2, tab, tp, x2, fp)
  {
    hide HasPath, Blank, Den, T.At, T.HasPath, T.Put, Aside;
    BecameAt(c, c1, tab, tp, x);
    AsideKept(c, c1, tab, tp, x, fp);
    PropsAside(Den(c1, tab), tp, fp, x2);
    assert Updated(c1, c2, tab, tp, x2, fp);
    UpdatedAgain(c, c1, c2, tab, tp, x, x2, fp);
  }

  /** An in-place method's answer about the node at `tp`, with the fixups at `fp` untouched. */
  ghost predicate UpdateAnswer(c: Cst, c2: Cst, tab: seq<byte>, tp: Path, fp: Path, ret: int, r: Result<T.Tree>) {
    SameShape(c, c2) && if r.Err? then ret == r.code else ret == 0 && Updated(c, c2, tab, tp, r.value, fp)
  }

  /** What the methods below start from. */
  ghost predicate Both(fdto: Fdt, c: Cst, tp: Path, fp: Path)
    reads fdto, fdto.buf
  {
    && Apart(fdto) && Whole(fdto, c) && HasPath(c, tp) && HasPath(c, fp)
    && T.HasPath(Den(c, fdto.Strs()), tp) && T.HasPath(Den(c, fdto.Strs()), fp) && Aside(Den(c, fdto.Strs()), tp, fp)
  }

  /** One property of the fixups node. */
  method UpdatePropRef(fdto: Fdt, treeNode: nat, fixupProp: nat, delta: u32, ghost c: Cst, ghost tp: Path, ghost fp: Path, ghost i: nat)
    returns (ret: int, ghost c2: Cst)
    requires Both(fdto, c, tp, fp) && treeNode == NodeOff(c, tp)
    requires i < |NodeAt(c, fp).props| && fixupProp == PropPlace(c, fp, i)
    modifies fdto.buf
    ensures InPlace(fdto, c2) && i < |T.At(Den(c, fdto.Strs()), fp).props|
    ensures UpdateAnswer(c, c2, fdto.Strs(), tp, fp, ret,
                         UpdateProp(T.At(Den(c, fdto.Strs()), tp), T.At(Den(c, fdto.Strs()), fp).props[i], delta))
  {
    hide Whole, HasPath, NodeOff, T.At, T.HasPath, T.FindProp, Den, Blank, Fdt.Layout, Fdt.Strs, Fdt.Mem, NodeAt, PropPlace, Updated, Aside, UpdateCells;
    c2 := c;
    var name, fixupVal := PropertyAtPlace(fdto, fixupProp, c, fp, i);
    if |fixupVal| % 4 != 0 {
      return ERR_BADOVERLAY, c2;
    }
    var treeVal, treeLen := GetPropAt(fdto, treeNode, name, c, tp);
    if treeLen < 0 {
      return ERR_BADOVERLAY, c2;
    }
    AsideFits(Den(c, fdto.Strs()), tp, fp, i);
    ret, c2 := UpdateCellRefs(fdto, treeNode, name, fixupVal, delta, c, tp, fp);
  }

  lemma AsideFits(t: T.Tree, tp: Path, fp: Path, i: nat)
    requires T.HasPath(t, tp) && T.HasPath(t, fp) && Aside(t, tp, fp) && i < |T.At(t, fp).props|
    ensures CellsFit(T.At(t, fp).props[i].val)
  {
    hide CellsFit, T.At, T.HasPath;
  }

  /** Half way through the properties: the node has become `x`. */
  ghost predicate UpdatingProps(c: Cst, c2: Cst, tab: seq<byte>, tp: Path, fp: Path, x: T.Tree, i: nat, delta: u32) {
    && Updated(c, c2, tab, tp, x, fp) && T.HasPath(Den(c, tab), tp)
    && var fs := T.At(Den(c, tab), fp).props;
       i <= |fs| && UpdateProps(T.At(Den(c, tab), tp), fs, delta) == UpdateProps(x, fs[i..], delta)
  }

  lemma UpdatingPropsStarts(c: Cst, tab: seq<byte>, tp: Path, fp: Path, delta: u32)
    requires T.HasPath(Den(c, tab), tp) && T.HasPath(Den(c, tab), fp)
    ensures UpdatingProps(c, c, tab, tp, fp, T.At(Den(c, tab), tp), 0, delta)
  {
    hide Den, T.At, T.HasPath, UpdateProps, Updated;
    UpdatedNothing(c, tab, tp, fp);
    assert T.At(Den(c, tab), fp).props[0..] == T.At(Den(c, tab), fp).props;
    assert Updated(c, c, tab, tp, T.At(Den(c, tab), tp), fp);
  }

  lemma UpdatingPropsGoesOn(c: Cst, c1: Cst, c2: Cst, tab: seq<byte>, tp: Path, fp: Path, x: T.Tree, i: nat, delta: u32)
    requires UpdatingProps(c, c1, tab, tp, fp, x, i, delta) && T.HasPath(Den(c, tab), fp) && i < |T.At(Den(c, tab), fp).props|
    ensures var r := UpdateProp(x, T.At(Den(c, tab), fp).props[i], delta);
      if r.Err? then UpdateProps(T.At(Den(c, tab), tp), T.At(Den(c, tab), fp).props, delta) == Err(r.code)
      else Updated(c1, c2, tab, tp, r.value, fp) ==> UpdatingProps(c, c2, tab, tp, fp, r.value, i + 1, delta)
  {
    hide Den, T.At, T.HasPath, UpdateProp, Updated;
    var fs := T.At(Den(c, tab), fp).props;
    var r := UpdateProp(x, fs[i], delta);
    assert fs[i..][0] == fs[i] && fs[i..][1..] == fs[i + 1..];
    if r.Ok? && Updated(c1, c2, tab, tp, r.value, fp) {
      UpdatedAgain(c, c1, c2, tab, tp, x, r.value, fp);
    }
  }

  /** The first loop of overlay_update_local_node_references. */
  method UpdatePropRefs(fdto: Fdt, treeNode: nat, fixupNode: nat, delta: u32, ghost c: Cst, ghost tp: Path, ghost fp: Path)
    returns (ret: int, ghost c2: Cst)
    requires Both(fdto, c, tp, fp) && treeNode == NodeOff(c, tp) && fixupNode == NodeOff(c, fp)
    modifies fdto.buf
    ensures InPlace(fdto, c2)
    ensures UpdateAnswer(c, c2, fdto.Strs(), tp, fp, ret,
                         UpdateProps(T.At(Den(c, fdto.Strs()), tp), T.At(Den(c, fdto.Strs()), fp).props, delta))
  {
    hide Whole, HasPath, NodeOff, T.At, T.HasPath, T.FindProp, Den, Blank, Fdt.Layout, Fdt.Strs, Fdt.Mem, NodeAt, PropPlace, Updated, Aside, UpdateProp, UpdateProps, UpdatingProps;
    c2 := c;
    WholeLayout(fdto, c);
    PlaceSizes(fdto, c, fp);
    ghost var tab := fdto.Strs();
    ghost var x, fs, i := T.At(Den(c, tab), tp), T.At(Den(c, tab), fp).props, 0;
    UpdatingPropsStarts(c, tab, tp, fp, delta);
    PropPlaceEnd(c, fp, 0);
    var fixupProp := FirstPropAt(fdto, fixupNode, c, fp);
    while fixupProp >= 0
      invariant InPlace(fdto, c2) && UpdatingProps(c, c2, tab, tp, fp, x, i, delta) && SameShape(c, c2)
      invariant i <= |fs| == |NodeAt(c, fp).props| && fixupProp == PropPlace(c, fp, i)
      decreases |fs| - i
    {
      ghost var c1 := c2;
      PropPlaceEnd(c, fp, i);
      UpdatingPropsAt(c, c1, tab, tp, fp, x, i, delta);
      ret, c2 := UpdatePropRef(fdto, treeNode, fixupProp, delta, c1, tp, fp, i);
      UpdatingPropsGoesOn(c, c1, c2, tab, tp, fp, x, i, delta);
      if ret != 0 {
        return;
      }
      SamePropPlace(c, c2, fp, i);
      fixupProp := NextPropAt(fdto, fixupProp, c2, fp, i);
      x := UpdateProp(x, fs[i], delta).value;
      i := i + 1;
    }
    PropPlaceEnd(c, fp, i);
    UpdatingPropsEnds(c, c2, tab, tp, fp, x, delta);
    ret := 0;
  }

  lemma PropPlaceEnd(c: Cst, p: Path, i: nat)
    requires HasPath(c, p)
    ensures PropPlace(c, p, i) >= 0 <==> i < |NodeAt(c, p).props|
  {
    hide HasPath, NodeAt, EncAll;
  }

  lemma SamePropPlace(c: Cst, c2: Cst, p: Path, i: nat)
    requires SameShape(c, c2) && HasPath(c, p)
    ensures HasPath(c2, p) && |NodeAt(c2, p).props| == |NodeAt(c, p).props|
    ensures PropPlace(c2, p, i) == PropPlace(c, p, i) && PropPlace(c2, p, i + 1) == PropPlace(c, p, i + 1)
  {
    hide HasPath, NodeAt, Blank, PreAt, Size;
    SamePlace(c, c2, p);
    BlankDef(NodeAt(c, p));
    BlankDef(NodeAt(c2, p));
    if i < |NodeAt(c, p).props| {
      SameProps(c, c2, p, i);
    }
    if i + 1 < |NodeAt(c, p).props| {
      SameProps(c, c2, p, i + 1);
    }
  }

  lemma UpdatingPropsAt(c: Cst, c1: Cst, tab: seq<byte>, tp: Path, fp: Path, x: T.Tree, i: nat, delta: u32)
    requires UpdatingProps(c, c1, tab, tp, fp, x, i, delta) && HasPath(c, tp) && HasPath(c, fp)
    requires T.HasPath(Den(c, tab), tp) && T.HasPath(Den(c, tab), fp) && Aside(Den(c, tab), tp, fp)
    ensures HasPath(c1, tp) && HasPath(c1, fp) && NodeOff(c1, tp) == NodeOff(c, tp)
    ensures T.HasPath(Den(c1, tab), tp) && T.HasPath(Den(c1, tab), fp) && Aside(Den(c1, tab), tp, fp)
    ensures T.At(Den(c1, tab), tp) == x && T.At(Den(c1, tab), fp) == T.At(Den(c, tab), fp)
    ensures |NodeAt(c1, fp).props| == |NodeAt(c, fp).props| && PropPlace(c1, fp, i) == PropPlace(c, fp, i)
  {
    hide HasPath, NodeOff, T.At, T.HasPath, Den, Blank, NodeAt, PropPlace, Updated, Aside, UpdateProps;
    UpdatedAt(c, c1, tab, tp, x, fp);
    AsideKept(c, c1, tab, tp, x, fp);
    SamePropPlace(c, c1, fp, i);
  }

  lemma UpdatingPropsEnds(c: Cst, c2: Cst, tab: seq<byte>, tp: Path, fp: Path, x: T.Tree, delta: u32)
    requires T.HasPath(Den(c, tab), fp) && T.HasPath(Den(c, tab), tp)
    requires UpdatingProps(c, c2, tab, tp, fp, x, |T.At(Den(c, tab), fp).props|, delta)
    ensures Updated(c, c2, tab, tp, x, fp)
    ensures UpdateProps(T.At(Den(c, tab), tp), T.At(Den(c, tab), fp).props, delta) == Ok(x)
  {
    hide Den, T.At, T.HasPath, UpdateProp, Updated;
    var fs := T.At(Den(c, tab), fp).props;
    assert fs[|fs|..] == [];
  }

  // ---- children --------------------------------------------------------------------------------------

  /** Half way through the children: the node has become `x`. */
  ghost predicate UpdatingKids(c: Cst, c2: Cst, tab: seq<byte>, tp: Path, fp: Path, x: T.Tree, j: nat, delta: u32) {
    && Updated(c, c2, tab, tp, x, fp) && T.HasPath(Den(c, tab), tp)
    && var fs := T.At(Den(c, tab), fp).kids;
       j <= |fs| && UpdateKids(T.At(Den(c, tab), tp), fs, delta) == UpdateKids(x, fs[j..], delta)
  }

  lemma UpdatingKidsStarts(c: Cst, tab: seq<byte>, tp: Path, fp: Path, delta: u32)
    requires T.HasPath(Den(c, tab), tp) && T.HasPath(Den(c, tab), fp)
    ensures UpdatingKids(c, c, tab, tp, fp, T.At(Den(c, tab), tp), 0, delta)
  {
    hide Den, T.At, T.HasPath, UpdateKids, Updated;
    UpdatedNothing(c, tab, tp, fp);
    assert T.At(Den(c, tab), fp).kids[0..] == T.At(Den(c, tab), fp).kids;
  }

  lemma UpdatingKidsGoesOn(c: Cst, c1: Cst, c2: Cst, tab: seq<byte>, tp: Path, fp: Path, x: T.Tree, j: nat, delta: u32)
    requires UpdatingKids(c, c1, tab, tp, fp, x, j, delta) && T.HasPath(Den(c, tab), fp) && j < |T.At(Den(c, tab), fp).kids|
    ensures var r := UpdateKid(x, T.At(Den(c, tab), fp).kids[j], delta);
      if r.Err? then UpdateKids(T.At(Den(c, tab), tp), T.At(Den(c, tab), fp).kids, delta) == Err(r.code)
      else Updated(c1, c2, tab, tp, r.value, fp) ==> UpdatingKids(c, c2, tab, tp, fp, r.value, j + 1, delta)
  {
    hide Den, T.At, T.HasPath, UpdateKid, Updated;
    var fs := T.At(Den(c, tab), fp).kids;
    var r := UpdateKid(x, fs[j], delta);
    assert fs[j..][0] == fs[j] && fs[j..][1..] == fs[j + 1..];
    if r.Ok? && Updated(c1, c2, tab, tp, r.value, fp) {
      UpdatedAgain(c, c1, c2, tab, tp, x, r.value, fp);
    }
  }

  lemma UpdatingKidsAt(c: Cst, c1: Cst, tab: seq<byte>, tp: Path, fp: Path, x: T.Tree, j: nat, delta: u32)
    requires UpdatingKids(c, c1, tab, tp, fp, x, j, delta) && HasPath(c, tp) && HasPath(c, fp)
    requires T.HasPath(Den(c, tab), tp) && T.HasPath(Den(c, tab), fp) && Aside(Den(c, tab), tp, fp)
    ensures HasPath(c1, tp) && HasPath(c1, fp) && NodeOff(c1, tp) == NodeOff(c, tp)
    ensures T.HasPath(Den(c1, tab), tp) && T.HasPath(Den(c1, tab), fp) && Aside(Den(c1, tab), tp, fp)
    ensures T.At(Den(c1, tab), tp) == x && T.At(Den(c1, tab), fp) == T.At(Den(c, tab), fp)
    ensures |NodeAt(c1, fp).kids| == |NodeAt(c, fp).kids| && KidPlace(c1, fp, j) == KidPlace(c, fp, j)
    ensures Blank(NodeAt(c1, fp)) == Blank(NodeAt(c, fp))
  {
    hide HasPath, NodeOff, T.At, T.HasPath, Den, Blank, NodeAt, KidPlace, Updated, Aside, UpdateKids;
    UpdatedAt(c, c1, tab, tp, x, fp);
    AsideKept(c, c1, tab, tp, x, fp);
    SameKids(c, c1, fp, j);
  }

  lemma UpdatingKidsEnds(c: Cst, c2: Cst, tab: seq<byte>, tp: Path, fp: Path, x: T.Tree, delta: u32)
    requires T.HasPath(Den(c, tab), fp) && T.HasPath(Den(c, tab), tp)
    requires UpdatingKids(c, c2, tab, tp, fp, x, |T.At(Den(c, tab), fp).kids|, delta)
    ensures Updated(c, c2, tab, tp, x, fp)
    ensures UpdateKids(T.At(Den(c, tab), tp), T.At(Den(c, tab), fp).kids, delta) == Ok(x)
  {
    hide Den, T.At, T.HasPath, UpdateKid, Updated;
    var fs := T.At(Den(c, tab), fp).kids;
    assert fs[|fs|..] == [];
  }

  /** One pass of the second loop: the child of the same name is updated. */
  method UpdateKidRef(fdto: Fdt, treeNode: nat, fixupChild: nat, delta: u32, ghost c: Cst, ghost tp: Path, ghost fp: Path, ghost j: nat)
    returns (ret: int, ghost c2: Cst)
    requires Both(fdto, c, tp, fp) && treeNode == NodeOff(c, tp) && fdto.CheckHeader() == 0
    requires j < |NodeAt(c, fp).kids| && fixupChild == KidPlace(c, fp, j)
    modifies fdto.buf
    ensures InPlace(fdto, c2) && j < |T.At(Den(c, fdto.Strs()), fp).kids|
    ensures UpdateAnswer(c, c2, fdto.Strs(), tp, fp, ret,
                         UpdateKid(T.At(Den(c, fdto.Strs()), tp), T.At(Den(c, fdto.Strs()), fp).kids[j], delta))
    decreases Blank(NodeAt(c, fp)), 0
  {
    hide Whole, HasPath, NodeOff, T.At, T.HasPath, T.FindKid, Den, Blank, Fdt.Layout, Fdt.Strs, Fdt.Mem, NodeAt, KidPlace, Updated, Became, Aside, UpdateNode;
    c2 := c;
    WholeLayout(fdto, c);
    PlaceSizes(fdto, c, fp);
    KidPlaceIs(c, fp, j);
    BlankKid(c, c, fp, j);
    ghost var tab := fdto.Strs();
    ghost var t := Den(c, tab);
    HasPathSnoc(t, fp, j);
    AsideBelow(t, tp, fp, j);
    var name := NameAt(fdto, fixupChild, c, fp + [j]);
    var treeChild := SubnodeAt(fdto, treeNode, name, c, tp);
    if treeChild == ERR_NOTFOUND {
      return ERR_BADOVERLAY, c2;
    }
    ghost var k := T.FindKid(T.At(t, tp).kids, name);
    HasPathSnoc(t, tp, k);
    ret, c2 := UpdateNodeRefs(fdto, treeChild, fixupChild, delta, c, tp + [k], fp + [j]);
    ghost var r := UpdateNode(T.At(t, tp).kids[k], T.At(t, fp).kids[j], delta);
    if r.Ok? {
      UpdatedBecame(c, c2, tab, tp + [k], r.value, fp + [j]);
      UpdatedKid(c, c2, tab, tp, k, r.value, fp);
    }
  }

  lemma UpdatedBecame(c: Cst, c2: Cst, tab: seq<byte>, tp: Path, x: T.Tree, fp: Path)
    requires Updated(c, c2, tab, tp, x, fp)
    ensures Became(c, c2, tab, tp, x)
  {
  }

  /** The second loop of overlay_update_local_node_references. */
  method UpdateKidRefs(fdto: Fdt, treeNode: nat, fixupNode: nat, delta: u32, ghost c: Cst, ghost tp: Path, ghost fp: Path)
    returns (ret: int, ghost c2: Cst)
    requires Both(fdto, c, tp, fp) && treeNode == NodeOff(c, tp) && fixupNode == NodeOff(c, fp) && fdto.CheckHeader() == 0
    modifies fdto.buf
    ensures InPlace(fdto, c2)
    ensures UpdateAnswer(c, c2, fdto.Strs(), tp, fp, ret,
                         UpdateKids(T.At(Den(c, fdto.Strs()), tp), T.At(Den(c, fdto.Strs()), fp).kids, delta))
    decreases Blank(NodeAt(c, fp)), 1
  {
    hide Whole, HasPath, NodeOff, T.At, T.HasPath, T.FindKid, Den, Blank, Fdt.Layout, Fdt.Strs, Fdt.Mem, NodeAt, KidPlace, Updated, Aside, UpdateKid, UpdateKids, UpdatingKids;
    c2 := c;
    WholeLayout(fdto, c);
    PlaceSizes(fdto, c, fp);
    ghost var tab := fdto.Strs();
    ghost var x, fs, j := T.At(Den(c, tab), tp), T.At(Den(c, tab), fp).kids, 0;
    UpdatingKidsStarts(c, tab, tp, fp, delta);
    KidPlaceEnd(c, fp, 0);
    var fixupChild := FirstSubnodeAt(fdto, fixupNode, c, fp);
    while fixupChild >= 0
      invariant InPlace(fdto, c2) && UpdatingKids(c, c2, tab, tp, fp, x, j, delta) && SameShape(c, c2)
      invariant j <= |fs| == |NodeAt(c, fp).kids| && fixupChild == KidPlace(c, fp, j)
      decreases |fs| - j
    {
      ghost var c1 := c2;
      KidPlaceEnd(c, fp, j);
      UpdatingKidsAt(c, c1, tab, tp, fp, x, j, delta);
      ret, c2 := UpdateKidRef(fdto, treeNode, fixupChild, delta, c1, tp, fp, j);
      UpdatingKidsGoesOn(c, c1, c2, tab, tp, fp, x, j, delta);
      if ret != 0 {
        return;
      }
      SameKids(c, c2, fp, j);
      SameKids(c, c2, fp, j + 1);
      fixupChild := NextSubnodeAt(fdto, fixupChild, c2, fp, j);
      x := UpdateKid(x, fs[j], delta).value;
      j := j + 1;
    }
    KidPlaceEnd(c, fp, j);
    UpdatingKidsEnds(c, c2, tab, tp, fp, x, delta);
    ret := 0;
  }

  lemma UpdateNodeDef(t: T.Tree, fix: T.Tree, delta: u32)
    ensures var r := UpdateProps(t, fix.props, delta);
      UpdateNode(t, fix, delta) == if r.Err? then r else UpdateKids(r.value, fix.kids, delta)
  {
    hide UpdateProps, UpdateKids;
  }

  /** overlay_update_local_node_references. */
  method UpdateNodeRefs(fdto: Fdt, treeNode: nat, fixupNode: nat, delta: u32, ghost c: Cst, ghost tp: Path, ghost fp: Path)
    returns (ret: int, ghost c2: Cst)
    requires Both(fdto, c, tp, fp) && treeNode == NodeOff(c, tp) && fixupNode == NodeOff(c, fp) && fdto.CheckHeader() == 0
    modifies fdto.buf
    ensures InPlace(fdto, c2)
    ensures UpdateAnswer(c, c2, fdto.Strs(), tp, fp, ret,
                         UpdateNode(T.At(Den(c, fdto.Strs()), tp), T.At(Den(c, fdto.Strs()), fp), delta))
    decreases Blank(NodeAt(c, fp)), 2
  {
    hide Whole, HasPath, NodeOff, T.At, T.HasPath, Den, Blank, Fdt.Layout, Fdt.Strs, Fdt.Mem, NodeAt, Updated, Aside, UpdateNode, UpdateProps, UpdateKids;
    WholeLayout(fdto, c);
    ghost var tab := fdto.Strs();
    ghost var y, f := T.At(Den(c, tab), tp), T.At(Den(c, tab), fp);
    UpdateNodeDef(y, f, delta);
    ret, c2 := UpdatePropRefs(fdto, treeNode, fixupNode, delta, c, tp, fp);
    if ret != 0 {
      return;
    }
    ghost var c1, x := c2, UpdateProps(y, f.props, delta).value;
    UpdatedAt(c, c1, tab, tp, x, fp);
    AsideKept(c, c1, tab, tp, x, fp);
    ret, c2 := UpdateKidRefs(fdto, treeNode, fixupNode, delta, c1, tp, fp);
    if ret == 0 {
      UpdatedAgain(c, c1, c2, tab, tp, x, UpdateKids(x, f.kids, delta).value, fp);
    }
  }
}
