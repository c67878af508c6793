/** libfdt/fdt_overlay.c: fdt_overlay_apply. */
module OverlayApply {
  import opened Bytes
  import opened StructBlock
  import opened Results
  import opened Concrete
  import opened FdtBase
  import opened Focus
  import opened BlockEdit
  import opened NodeEdit
  import opened TokenEdit
  import opened Paths
  import opened Lookup
  import opened Shape
  import opened Naming
  import opened Overlay
  import opened OverlayReloc
  import opened OverlayRefs
  import opened OverlayFixups
  import opened OverlayMerge
  import opened EditRoom
  import opened OverlayRoom
  import T = Tree

  const LOCAL_FIXUPS_PATH: Name := [SLASH] + LOCAL_FIXUPS
  const FIXUPS_PATH: Name := [SLASH] + FIXUPS
  const SYMBOLS_PATH: Name := [SLASH] + SYMBOLS

  lemma SpecialPaths()
    ensures Components(LOCAL_FIXUPS_PATH) == [LOCAL_FIXUPS]
    ensures Components(FIXUPS_PATH) == [FIXUPS]
    ensures Components(SYMBOLS_PATH) == [SYMBOLS]
  {
    assert SLASH !in LOCAL_FIXUPS && SLASH !in FIXUPS && SLASH !in SYMBOLS;
    TopLevel(LOCAL_FIXUPS);
    TopLevel(FIXUPS);
    TopLevel(SYMBOLS);
  }

  /** Looking for a child of the root. */
  lemma DescendOne(t: T.Tree, name: Name)
    ensures var k := T.FindKid(t.kids, name);
      Descend(t, [], [name]) == if k == |t.kids| then Err(ERR_NOTFOUND) else Ok([k])
    ensures var k := T.FindKid(t.kids, name);
      k < |t.kids| ==> T.HasPath(t, [k]) && T.At(t, [k]) == t.kids[k]
  {
    hide T.FindKid;
    var k := T.FindKid(t.kids, name);
    if k < |t.kids| {
      HasPathSnoc(t, [], k);
      assert [] + [k] == [k];
      assert Descend(t, [k], []) == Ok([k]);
      assert [name][1..] == [];
    }
  }

  // ---- what an overlay must look like -----------------------------------------------------------------

  /** A target-path is a path. */
  ghost predicate TargetSound(b: T.Tree, fragment: T.Tree) {
    var j := T.FindProp(fragment.props, TARGET_PATH);
    j < |fragment.props| ==> PathValue(b, fragment.props[j].val)
  }

  /** The target-paths are paths in what the fragments before have made of the base. */
  ghost predicate TargetsSound(b: T.Tree, fs: seq<T.Tree>)
    decreases |fs|
  {
    fs == [] ||
    ((T.FindKid(fs[0].kids, OVERLAY) < |fs[0].kids| ==> TargetSound(b, fs[0])) &&
     var r := MergeFragment(b, fs[0]);
     r.Ok? ==> TargetsSound(r.value, fs[1..]))
  }

  /** The paths in the tables and in the fragments are strings, their lookups come to an end, and
      neither `__local_fixups__` nor `__fixups__` describes itself. */
  ghost predicate Sound(b: T.Tree, o: T.Tree) {
    match AdjustNode(o, MaxPhandle(b))
    case Err(_) => true
    case Ok(o1) =>
      && LocalFixupsApart(o1)
      && match UpdateLocal(o1, MaxPhandle(b))
         case Err(_) => true
         case Ok(o2) =>
           FixupsSound(b, o2) &&
           match FixupAll(b, o2)
           case Err(_) => true
           case Ok(o3) => TargetsSound(b, o3.kids)
  }

  // ---- preparing the overlay ------------------------------------------------------------------------------

  /** The answer of a step that rewrites the overlay. */
  ghost predicate Step(fdto: Fdt, c2: Cst, ret: int, r: Result<T.Tree>)
    requires fdto.Layout()
    reads fdto, fdto.buf
  {
    if r.Err? then ret == r.code else ret == 0 && Den(c2, fdto.Strs()) == r.value
  }

  /** overlay_adjust_local_phandles. */
  method AdjustLocalPhandles(fdto: Fdt, delta: u32, ghost c: Cst) returns (ret: int, ghost c2: Cst)
    requires Apart(fdto) && Whole(fdto, c)
    modifies fdto.buf
    ensures InPlace(fdto, c2) && Step(fdto, c2, ret, AdjustNode(old(TreeOf(fdto, c)), delta))
  {
    hide Whole, HasPath, NodeOff, T.HasPath, Den, Fdt.Layout, Fdt.Strs, Blank, AdjustNode;
    RootPlace(fdto, c);
    ret, c2 := AdjustNodePhandles(fdto, 0, delta, c, []);
  }

  /** overlay_update_local_references. */
  method UpdateLocalReferences(fdto: Fdt, delta: u32, ghost c: Cst) returns (ret: int, ghost c2: Cst)
    requires Apart(fdto) && Whole(fdto, c) && fdto.CheckHeader() == 0 && LocalFixupsApart(TreeOf(fdto, c))
    modifies fdto.buf
    ensures InPlace(fdto, c2) && Step(fdto, c2, ret, UpdateLocal(old(TreeOf(fdto, c)), delta))
  {
    hide Whole, HasPath, NodeOff, T.HasPath, T.FindKid, Den, Fdt.Layout, Fdt.Strs, Blank, UpdateNode, Descend, Components, NodeByPath, PathEnds, Ends;
    RootPlace(fdto, c);
    SpecialPaths();
    ghost var t := TreeOf(fdto, c);
    DescendOne(t, LOCAL_FIXUPS);
    AbsoluteEnds(t, LOCAL_FIXUPS_PATH);
    c2 := c;
    var fixups := PathOffset(fdto, LOCAL_FIXUPS_PATH, c, 0);
    if fixups < 0 {
      if fixups == ERR_NOTFOUND {
        return 0, c2;
      }
      return fixups, c2;
    }
    ghost var f := T.FindKid(t.kids, LOCAL_FIXUPS);
    ret, c2 := UpdateNodeRefs(fdto, 0, fixups, delta, c, [], [f]);
  }

  /** overlay_fixup_phandles. */
  method FixupPhandles(fdt: Fdt, fdto: Fdt, ghost b: Cst, ghost c: Cst) returns (ret: int, ghost c2: Cst)
    requires fdt != fdto && fdt.buf != fdto.buf && Whole(fdt, b) && fdt.CheckHeader() == 0
    requires Apart(fdto) && Whole(fdto, c) && fdto.CheckHeader() == 0
    requires FixupsSound(TreeOf(fdt, b), TreeOf(fdto, c))
    modifies fdto.buf
    ensures InPlace(fdto, c2) && Step(fdto, c2, ret, FixupAll(old(TreeOf(fdt, b)), old(TreeOf(fdto, c))))
  {
    hide Whole, HasPath, NodeOff, T.HasPath, T.FindKid, Den, Fdt.Layout, Fdt.Strs, Blank, Descend, Components, FixupProps, ListsSound, NodeByPath, PathEnds, Ends;
    RootPlace(fdto, c);
    RootPlace(fdt, b);
    SpecialPaths();
    ghost var o := TreeOf(fdto, c);
    DescendOne(o, FIXUPS);
    AbsoluteEnds(o, FIXUPS_PATH);
    AbsoluteEnds(TreeOf(fdt, b), SYMBOLS_PATH);
    c2 := c;
    var fixupsOff := PathOffset(fdto, FIXUPS_PATH, c, 0);
    if fixupsOff == ERR_NOTFOUND {
      return 0, c2;
    }
    if fixupsOff < 0 {
      return fixupsOff, c2;
    }
    var symbolsOff := PathOffset(fdt, SYMBOLS_PATH, b, 0);
    if symbolsOff < 0 && symbolsOff != ERR_NOTFOUND {
      return symbolsOff, c2;
    }
    ghost var f, symbols := T.FindKid(o.kids, FIXUPS), Descend(TreeOf(fdt, b), [], [SYMBOLS]);
    ret, c2 := FixupProperties(fdt, fdto, symbolsOff, fixupsOff, b, c, symbols, f);
  }

  // ---- merging ---------------------------------------------------------------------------------------------------

  /** overlay_get_target. */
  method GetTarget(fdt: Fdt, fdto: Fdt, fragment: nat, ghost b: Cst, ghost c: Cst, ghost k: nat) returns (r: int)
    requires Whole(fdt, b) && fdt.CheckHeader() == 0 && Whole(fdto, c)
    requires HasPath(c, [k]) && fragment == NodeOff(c, [k])
    requires T.HasPath(Den(c, fdto.Strs()), [k]) && TargetSound(Den(b, fdt.Strs()), T.At(Den(c, fdto.Strs()), [k]))
    ensures fdt.Layout() && IsPlace(b, r, Target(TreeOf(fdt, b), T.At(Den(c, fdto.Strs()), [k])))
  {
    hide Whole, HasPath, NodeOff, T.HasPath, T.FindProp, T.At, Den, Fdt.Layout, Fdt.Strs, NodeByPath, PathEnds, NodeByPhandle, NulFrom, Word;
    WholeLayout(fdt, b);
    WholeLayout(fdto, c);
    var target, len := GetPropAt(fdto, fragment, TARGET, c, [k]);
    var phandle := if len < 0 then 0 else if len != 4 then NO_PHANDLE else Word(target, 0);
    if phandle == NO_PHANDLE {
      return ERR_BADPHANDLE;
    }
    if phandle != 0 {
      r := NodeOffsetByPhandle(fdt, phandle, b);
      return;
    }
    var path, pathLen := GetPropAt(fdto, fragment, TARGET_PATH, c, [k]);
    if pathLen < 0 {
      return ERR_BADOVERLAY;
    }
    var n := Terminator(path);
    ghost var to: Name := path[..n];
    ghost var d: nat :| PathEnds(Den(b, fdt.Strs()), to, d);
    r := PathOffset(fdt, path[..n], b, d);
  }

  /** A place after the base has been edited in focus there. */
  lemma BaseEdited(fdt: Fdt, tab: seq<byte>, b: Cst, p: Path, n2: Cst) returns (b2: Cst)
    requires HasPath(b, p) && Focused(fdt, PreAt(b, p), n2, Tail(b, p))
    requires Named(Toks(b), tab) && Grown(tab, fdt.Strs())
    ensures Whole(fdt, b2) && T.HasPath(Den(b, tab), p)
    ensures TreeOf(fdt, b2) == T.Put(Den(b, tab), p, Den(n2, fdt.Strs()))
  {
    hide Toks, PreAt, PostAt, Named, EncAll, PutAt, Grown, Den, T.Put, T.HasPath, HasPath, Fdt.Strs, Fdt.S, Fdt.Layout, Focused;
    b2 := PutAt(b, p, n2);
    WholePut(fdt, b, p, n2);
    WholeLayout(fdt, b2);
    FocusGrown(Toks(b), b, tab, fdt.Strs());
    PutDen(b, p, n2, fdt.Strs());
  }

  lemma WholeNamed(fdt: Fdt, c: Cst)
    requires Whole(fdt, c)
    ensures fdt.Layout() && Named(Toks(c), fdt.Strs())
  {
    hide Toks, Named, EncAll;
    FocusParts(fdt, [], c, [End]);
  }

  /** The blob after a merging step, `m` being what that comes to. */
  ghost predicate Merged(fdt: Fdt, b2: Cst, ret: int, m: Merging)
    reads fdt, fdt.buf
  {
    && Whole(fdt, b2) && ret == m.ret && TreeOf(fdt, b2) == m.tree && (ret == 0 ==> SpaceOf(fdt) == m.left)
  }

  /** Merging at the target: overlay_apply_node on the two nodes. */
  method ApplyAt(fdt: Fdt, target: nat, fdto: Fdt, overlay: nat, ghost b: Cst, ghost p: Path, ghost c: Cst, ghost q: Path)
    returns (ret: int, ghost b2: Cst)
    requires fdt != fdto && fdt.buf != fdto.buf && fdto.CheckHeader() == 0
    requires Whole(fdt, b) && HasPath(b, p) && target == NodeOff(b, p)
    requires Whole(fdto, c) && HasPath(c, q) && overlay == NodeOff(c, q)
    modifies fdt, fdt.buf
    ensures BaseFrame(fdt) && Whole(fdt, b2)
    ensures T.HasPath(old(TreeOf(fdt, b)), p) && T.HasPath(Den(c, fdto.Strs()), q)
    ensures var t := old(TreeOf(fdt, b));
      var m := MergeIn(old(SpaceOf(fdt)), T.At(t, p), T.At(Den(c, fdto.Strs()), q));
      Merged(fdt, b2, ret, m.(tree := T.Put(t, p, m.tree)))
  {
    hide SpaceOf, MergeIn, Toks, PreAt, PostAt, Named, EncAll, HasPath, T.HasPath, T.At, T.Put, T.Merge, Den, NodeAt, Fdt.Strs, Fdt.S, Fdt.Layout, Focused, Tail, Size, Grown, ReadTag;
    WholeLayout(fdt, b);
    ghost var tab := fdt.Strs();
    AtPlace(fdt, b, p);
    AtPlace(fdto, c, q);
    WholeNamed(fdt, b);
    WholeLayout(fdto, c);
    ghost var n2;
    ret, n2 := ApplyNode(fdt, target, fdto, overlay, PreAt(b, p), NodeAt(b, p), Tail(b, p), PreAt(c, q), NodeAt(c, q), Tail(c, q));
    b2 := BaseEdited(fdt, tab, b, p, n2);
  }

  /** What overlay_merge starts from: the base `b`, which denotes `t`, and the prepared overlay `c`,
      which denotes `o`. */
  ghost predicate Blobs(fdt: Fdt, fdto: Fdt, b: Cst, c: Cst, t: T.Tree, o: T.Tree)
    reads fdt, fdt.buf, fdto, fdto.buf
  {
    && fdt != fdto && fdt.buf != fdto.buf && fdt.CheckHeader() == 0 && fdto.CheckHeader() == 0
    && Whole(fdt, b) && t == TreeOf(fdt, b) && Whole(fdto, c) && o == TreeOf(fdto, c)
  }

  /** One pass of overlay_merge. */
  method MergeOne(fdt: Fdt, fdto: Fdt, fragment: nat, ghost b: Cst, ghost c: Cst, ghost t: T.Tree, ghost o: T.Tree, ghost k: nat)
    returns (ret: int, ghost b2: Cst)
    requires Blobs(fdt, fdto, b, c, t, o) && HasPath(c, [k]) && fragment == NodeOff(c, [k]) && k < |o.kids|
    requires T.FindKid(o.kids[k].kids, OVERLAY) < |o.kids[k].kids| ==> TargetSound(t, o.kids[k])
    modifies fdt, fdt.buf
    ensures BaseFrame(fdt) && Merged(fdt, b2, ret, MergeFragmentIn(old(SpaceOf(fdt)), t, o.kids[k]))
  {
    hide SpaceOf, MergeIn, Whole, HasPath, NodeOff, T.At, T.HasPath, T.Put, T.Merge, T.FindKid, Den, NodeAt, Fdt.Strs, Fdt.S, Fdt.Layout, Target, TargetSound, Fdt.Mem;
    b2 := b;
    WholeLayout(fdt, b);
    WholeLayout(fdto, c);
    FragmentAt(fdto, c, k);
    var overlay := SubnodeAt(fdto, fragment, OVERLAY, c, [k]);
    if overlay == ERR_NOTFOUND {
      return 0, b2;
    }
    ghost var i := T.FindKid(T.At(o, [k]).kids, OVERLAY);
    HasPathSnoc(o, [k], i);
    var target := GetTarget(fdt, fdto, fragment, b, c, k);
    if target < 0 {
      return target, b2;
    }
    ret, b2 := ApplyAt(fdt, target, fdto, overlay, b, Target(t, o.kids[k]).value, c, [k] + [i]);
  }

  lemma FragmentAt(fdto: Fdt, c: Cst, k: nat)
    requires Whole(fdto, c) && HasPath(c, [k])
    ensures fdto.Layout() && T.HasPath(Den(c, fdto.Strs()), [k])
    ensures k < |Den(c, fdto.Strs()).kids| && T.At(Den(c, fdto.Strs()), [k]) == Den(c, fdto.Strs()).kids[k]
  {
    hide Den;
    HasPathDen(c, [k], fdto.Strs());
    assert [k][1..] == [];
  }

  /** overlay_merge. */
  method MergeOverlay(fdt: Fdt, fdto: Fdt, ghost b: Cst, ghost c: Cst, ghost t: T.Tree, ghost o: T.Tree)
    returns (ret: int, ghost b2: Cst)
    requires Blobs(fdt, fdto, b, c, t, o) && TargetsSound(t, o.kids)
    modifies fdt, fdt.buf
    ensures BaseFrame(fdt) && Merged(fdt, b2, ret, MergeFragmentsIn(old(SpaceOf(fdt)), t, o.kids))
  {
    hide SpaceOf, Whole, HasPath, NodeOff, T.At, T.HasPath, MergeFragmentIn, MergeFragmentsIn, Den, NodeAt, Fdt.Strs, Fdt.S, Fdt.Layout, TargetsSound, Fdt.Mem, KidPlace;
    b2 := b;
    RootPlace(fdto, c);
    WholeLayout(fdt, b);
    ghost var k := 0;
    RootKids(fdto, c);
    FragmentsEnds(SpaceOf(fdt), t, o.kids);
    assert o.kids[0..] == o.kids;
    ghost var m := MergeFragmentsIn(SpaceOf(fdt), t, o.kids);
    KidPlaceEnd(c, [], 0);
    var fragment := FirstSubnodeAt(fdto, 0, c, []);
    ghost var t1 := t;
    while fragment >= 0
      invariant BaseFrame(fdt) && Blobs(fdt, fdto, b2, c, t1, o)
      invariant k <= |o.kids| == |NodeAt(c, []).kids| && fragment == KidPlace(c, [], k)
      invariant m == MergeFragmentsIn(SpaceOf(fdt), t1, o.kids[k..]) && TargetsSound(t1, o.kids[k..])
      decreases |o.kids| - k
    {
      KidPlaceEnd(c, [], k);
      KidPlaceIs(c, [], k);
      assert [] + [k] == [k];
      FragmentsStep(SpaceOf(fdt), t1, o.kids, k);
      TargetsStep(SpaceOf(fdt), t1, o.kids, k);
      ret, b2 := MergeOne(fdt, fdto, fragment, b2, c, t1, o, k);
      if ret != 0 {
        return;
      }
      t1 := TreeOf(fdt, b2);
      fragment := NextSubnodeAt(fdto, fragment, c, [], k);
      k := k + 1;
      KidPlaceEnd(c, [], k);
    }
    KidPlaceEnd(c, [], k);
    FragmentsEnds(SpaceOf(fdt), t1, o.kids);
    ret := 0;
  }

  lemma TargetsStep(sp: Space, t: T.Tree, fs: seq<T.Tree>, k: nat)
    requires k < |fs| && TargetsSound(t, fs[k..])
    ensures T.FindKid(fs[k].kids, OVERLAY) < |fs[k].kids| ==> TargetSound(t, fs[k])
    ensures var m := MergeFragmentIn(sp, t, fs[k]); m.ret == 0 ==> TargetsSound(m.tree, fs[k + 1..])
  {
    hide TargetSound, MergeFragment, MergeFragmentIn;
    FragmentExplained(sp, t, fs[k]);
    assert fs[k..][0] == fs[k] && fs[k..][1..] == fs[k + 1..];
  }

  lemma RootKids(fdto: Fdt, c: Cst)
    requires Whole(fdto, c)
    ensures fdto.Layout() && |Den(c, fdto.Strs()).kids| == |NodeAt(c, []).kids|
  {
    hide Den;
    DenDef(c, fdto.Strs());
  }

  // ---- fdt_overlay_apply -----------------------------------------------------------------------------------------

  const DAMAGED: u32 := 0xffff_ffff

  /** A header whose magic number has been erased. */
  method EraseMagic(fdt: Fdt)
    modifies fdt`magic
    ensures fdt.magic == DAMAGED
    ensures fdt.Layout() == old(fdt.Layout())
    ensures fdt.Layout() ==> fdt.S() == old(fdt.S()) && fdt.Strs() == old(fdt.Strs())
  {
    fdt.magic := DAMAGED;
  }

  lemma WholeErased(fdt: Fdt, c: Cst, s: seq<byte>, tab: seq<byte>)
    requires fdt.Layout() && fdt.S() == s && fdt.Strs() == tab
    requires EncAll([] + Toks(c) + [End]) <= s && Named([] + Toks(c) + [End], tab)
    ensures Whole(fdt, c) && TreeOf(fdt, c) == Den(c, tab)
  {
  }

  /** The steps that rewrite the overlay to fit the base. */
  method Prepare(fdt: Fdt, fdto: Fdt, ghost b: Cst, ghost c: Cst, ghost t: T.Tree, ghost o: T.Tree)
    returns (ret: int, ghost c2: Cst)
    requires Blobs(fdt, fdto, b, c, t, o) && Apart(fdto) && Sound(t, o)
    modifies fdto.buf
    ensures InPlace(fdto, c2) && fdto.Layout() && Step(fdto, c2, ret, Prepared(t, o))
    ensures ret == 0 ==> Blobs(fdt, fdto, b, c2, t, Prepared(t, o).value) && TargetsSound(t, Prepared(t, o).value.kids)
  {
    hide Whole, Den, Fdt.Layout, Fdt.Strs, Fdt.S, AdjustNode, UpdateLocal, FixupAll, LocalFixupsApart, FixupsSound, TargetsSound, MaxPhandle, Fdt.Mem;
    WholeLayout(fdt, b);
    WholeLayout(fdto, c);
    var delta := GetMaxPhandle(fdt, b);
    ret, c2 := AdjustLocalPhandles(fdto, delta, c);
    if ret != 0 {
      return;
    }
    ret, c2 := UpdateLocalReferences(fdto, delta, c2);
    if ret != 0 {
      return;
    }
    ret, c2 := FixupPhandles(fdt, fdto, b, c2);
  }

  /** fdt_overlay_apply. On success the base denotes what applying the overlay to it means. An error
      before the merge leaves the base as it was; one in the merge leaves what had been merged by
      then. After any error both magic numbers are gone. */
  method Apply(fdt: Fdt, fdto: Fdt, ghost b: Cst, ghost c: Cst) returns (ret: int, ghost b2: Cst)
    requires fdt != fdto && fdt.buf != fdto.buf && Whole(fdt, b) && Whole(fdto, c)
    requires Apart(fdto) && Sound(TreeOf(fdt, b), TreeOf(fdto, c))
    modifies fdt, fdt.buf, fdto`magic, fdto.buf
    ensures fdt.Layout() && Whole(fdt, b2)
    ensures old(fdt.CheckHeader()) != 0 ==> ret == old(fdt.CheckHeader()) && unchanged(fdt, fdt.buf, fdto, fdto.buf)
    ensures old(fdt.CheckHeader()) == 0 && old(fdto.CheckHeader()) != 0 ==>
              ret == old(fdto.CheckHeader()) && unchanged(fdt, fdt.buf, fdto, fdto.buf)
    ensures old(fdt.CheckHeader()) == 0 && old(fdto.CheckHeader()) == 0 ==>
      var t, o := old(TreeOf(fdt, b)), old(TreeOf(fdto, c));
      && fdto.magic == DAMAGED && (ret != 0 ==> fdt.magic == DAMAGED)
      && (match Prepared(t, o)
          case Err(e) => ret == e && b2 == b && unchanged(fdt.buf)
          case Ok(o3) =>
            var m := MergeFragmentsIn(old(SpaceOf(fdt)), t, o3.kids);
            ret == m.ret && TreeOf(fdt, b2) == m.tree)
      && (ret == 0 ==> Applied(t, o) == Ok(TreeOf(fdt, b2)) && BaseFrame(fdt))
  {
    hide Den, Fdt.Strs, Fdt.S, Fdt.Mem, Toks, Named, EncAll, Prepared, MergeFragments, MergeFragmentsIn, Sound, TargetsSound, Apart, Fdt.Layout, SpaceOf;
    b2 := b;
    WholeLayout(fdt, b);
    WholeLayout(fdto, c);
    if fdt.CheckHeader() != 0 {
      return fdt.CheckHeader(), b2;
    }
    if fdto.CheckHeader() != 0 {
      return fdto.CheckHeader(), b2;
    }
    ghost var t, o := TreeOf(fdt, b), TreeOf(fdto, c);
    ghost var c2;
    ret, c2 := Prepare(fdt, fdto, b, c, t, o);
    if ret == 0 {
      FragmentsExplained(SpaceOf(fdt), t, Prepared(t, o).value.kids);
      ret, b2 := MergeOverlay(fdt, fdto, b, c2, t, Prepared(t, o).value);
    }
    WholeParts(fdt, b2);
    ghost var s, tab := fdt.S(), fdt.Strs();
    EraseMagic(fdto);
    if ret != 0 {
      EraseMagic(fdt);
      WholeErased(fdt, b2, s, tab);
    }
  }

  lemma WholeParts(fdt: Fdt, c: Cst)
    requires Whole(fdt, c)
    ensures fdt.Layout() && EncAll([] + Toks(c) + [End]) <= fdt.S() && Named([] + Toks(c) + [End], fdt.Strs())
  {
  }
}
