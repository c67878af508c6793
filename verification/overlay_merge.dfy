/** libfdt/fdt_overlay.c, the last step: merging an overlay subtree into a node of the base. */
module OverlayMerge {
  import opened Bytes
  import opened StructBlock
  import opened Concrete
  import opened FdtBase
  import opened Focus
  import opened FdtRo
  import opened BlockEdit
  import opened NodeEdit
  import opened TokenEdit
  import opened FdtWip
  import opened FdtRw
  import opened EditRoom
  import T = Tree

  /** The header fields that the checks look at and the edits do not change. */
  predicate HeaderFit(fdt: Fdt)
    reads fdt
  {
    (fdt.magic == FDT_MAGIC && fdt.lastCompVersion <= LAST_SUPPORTED_VERSION) || fdt.magic == FDT_SW_MAGIC
  }

  lemma HeaderWasFit(fdt: Fdt)
    requires RwHeader(fdt) == 0
    ensures HeaderFit(fdt) && fdt.CheckHeader() == 0
  {
  }

  /** What a merging step came to: its answer, the tree, and the space where all went well. */
  ghost predicate Merges(fdt: Fdt, n: Cst, ret: int, m: Merging)
    requires fdt.Layout()
    reads fdt, fdt.buf
  {
    ret == m.ret && Den(n, fdt.Strs()) == m.tree && (ret == 0 ==> SpaceOf(fdt) == m.left)
  }

  /** The header still passes the checks after an edit. */
  lemma HeaderStays(fdt: Fdt, pre: seq<Token>, n: Cst, post: seq<Token>)
    requires Ready(fdt) && Focused(fdt, pre, n, post) && HeaderFit(fdt)
    ensures RwHeader(fdt) == 0 && fdt.CheckHeader() == 0
  {
    hide Toks, Named;
    assert Size(pre + Toks(n) + post) >= 4;
  }

  /** What merging keeps of the base: header, reserve map, the meaning of every string. */
  twostate predicate BaseFrame(fdt: Fdt)
    reads fdt, fdt.buf
  {
    && old(fdt.Layout()) && fdt.Layout() && HeadKept(fdt) && Grown(old(fdt.Strs()), fdt.Strs())
    && RwHeader(fdt) == old(RwHeader(fdt)) && fdt.CheckHeader() == old(fdt.CheckHeader())
  }

  /** What the merging methods demand of the two blobs. */
  ghost predicate Pair(fdt: Fdt, fdto: Fdt, target: int, node: int, pre: seq<Token>, n: Cst, post: seq<Token>,
                       opre: seq<Token>, on: Cst, opost: seq<Token>)
    reads fdt, fdt.buf, fdto, fdto.buf
  {
    && fdt != fdto && fdt.buf != fdto.buf && fdto.CheckHeader() == 0
    && Focused(fdt, pre, n, post) && target == Size(pre)
    && Focused(fdto, opre, on, opost) && node == Size(opre)
  }

  /** One pass of the first loop of overlay_apply_node: property `i` of the overlay node is set on the target. */
  method ApplyProp(fdt: Fdt, target: int, fdto: Fdt, node: int, property: int, ghost pre: seq<Token>, ghost n: Cst, ghost post: seq<Token>,
                   ghost opre: seq<Token>, ghost on: Cst, ghost opost: seq<Token>, ghost i: nat)
    returns (ret: int, ghost n2: Cst)
    requires Pair(fdt, fdto, target, node, pre, n, post, opre, on, opost)
    requires i < |on.props| && property == PropOff(opre, on, i)
    modifies fdt, fdt.buf
    ensures fdt.Layout() && BaseFrame(fdt) && Focused(fdt, pre, n2, post)
    ensures var t, p := Den(n, old(fdt.Strs())), DenProps(on.props, fdto.Strs())[i];
      var sp := PropRoom(old(SpaceOf(fdt)), t.props, p.name, |p.val|);
      if sp.Shut? then ret == sp.err && Den(n2, fdt.Strs()) == t
      else ret == 0 && SpaceOf(fdt) == sp && Den(n2, fdt.Strs()) == T.SetProp(t, p.name, p.val)
  {
    hide EncAll, Enc, Toks, Named, Den, DenProps, T.SetProp, RwHeader, Fdt.CheckHeader, PropRoom, PropOff, Fdt.Mem, Fdt.S, Fdt.Strs, Fdt.Layout, Align4, ReadTag, Size, Focused, PropCheck;
    PairParts(fdt, fdto, pre, n, post, opre, on, opost);
    if RwHeader(fdt) == 0 {
      HeaderWasFit(fdt);
    }
    PropCheckOk(fdto, opre, on, opost, i);
    var len, name, val := GetPropByOffset(fdto, property, opre, on, opost, i);
    NodeCheckOk(fdt, pre, n, post);
    ret, n2 := SetProp(fdt, target, name, val, pre, n, post);
    if old(RwHeader(fdt)) == 0 {
      HeaderStays(fdt, pre, n2, post);
    }
  }

  /** The first loop of overlay_apply_node: every property of the overlay node is set on the target. */
  method ApplyProps(fdt: Fdt, target: int, fdto: Fdt, node: int, ghost pre: seq<Token>, ghost n: Cst, ghost post: seq<Token>,
                    ghost opre: seq<Token>, ghost on: Cst, ghost opost: seq<Token>)
    returns (ret: int, ghost n2: Cst)
    requires Pair(fdt, fdto, target, node, pre, n, post, opre, on, opost)
    modifies fdt, fdt.buf
    ensures fdt.Layout() && BaseFrame(fdt) && Focused(fdt, pre, n2, post)
    ensures Merges(fdt, n2, ret, MergePropsIn(old(SpaceOf(fdt)), Den(n, old(fdt.Strs())), DenProps(on.props, fdto.Strs())))
  {
    hide EncAll, Enc, Toks, Named, Den, DenProps, T.SetProp, RwHeader, Fdt.CheckHeader, SpaceOf, MergePropsIn, PropRoom, PropOff, Fdt.Mem, Fdt.S, Fdt.Strs, Fdt.Layout, Align4, ReadTag, Size, Focused, PropCheck;
    n2 := n;
    PairParts(fdt, fdto, pre, n, post, opre, on, opost);
    ghost var t, os, i := Den(n, fdt.Strs()), DenProps(on.props, fdto.Strs()), 0;
    ghost var m := MergePropsIn(SpaceOf(fdt), t, os);
    MergeEnds(SpaceOf(fdt), t, os, []);
    NodeCheckOk(fdto, opre, on, opost);
    var property := FirstPropertyOffset(fdto, node, opre, on, opost);
    while property >= 0
      invariant i <= |on.props| && property == (if i < |on.props| then PropOff(opre, on, i) else ERR_NOTFOUND)
      invariant fdt.Layout() && BaseFrame(fdt) && Focused(fdt, pre, n2, post)
      invariant m == MergePropsIn(SpaceOf(fdt), Den(n2, fdt.Strs()), os[i..])
      invariant Focused(fdto, opre, on, opost) && fdto.Strs() == old(fdto.Strs()) && fdto.CheckHeader() == 0
      decreases |on.props| - i
    {
      PropsStep(SpaceOf(fdt), Den(n2, fdt.Strs()), os, i);
      ret, n2 := ApplyProp(fdt, target, fdto, node, property, pre, n2, post, opre, on, opost, i);
      if ret != 0 {
        return;
      }
      PropCheckOk(fdto, opre, on, opost, i);
      property := NextPropertyOffset(fdto, property, opre, on, opost, i);
      i := i + 1;
    }
    MergeEnds(SpaceOf(fdt), Den(n2, fdt.Strs()), os, []);
    ret := 0;
  }

  lemma PairParts(fdt: Fdt, fdto: Fdt, pre: seq<Token>, n: Cst, post: seq<Token>, opre: seq<Token>, on: Cst, opost: seq<Token>)
    requires Focused(fdt, pre, n, post) && Focused(fdto, opre, on, opost)
    ensures fdt.Layout() && fdto.Layout()
  {
  }

  /** The focus after its child `k` has been edited. */
  lemma KidEdited(fdt: Fdt, tab: seq<byte>, pre: seq<Token>, n: Cst, post: seq<Token>, k: nat, c: Cst) returns (n2: Cst)
    requires k < |n.kids| && Focused(fdt, pre + KidPre(n, k), c, KidPost(n, k) + post)
    requires Named(Toks(n), tab) && Grown(tab, fdt.Strs()) && Ended(post)
    ensures Focused(fdt, pre, n2, post)
    ensures Den(n2, fdt.Strs()) == Den(n, tab).(kids := Den(n, tab).kids[k := Den(c, fdt.Strs())])
  {
    hide EncAll, Toks, Named, Den, KidPre, KidPost, Fdt.S, Fdt.Strs, Fdt.Layout, WithKid, Grown;
    n2 := WithKid(n, k, c);
    WithKidToks(n, k, c);
    assert pre + Toks(n2) + post == (pre + KidPre(n, k)) + Toks(c) + (KidPost(n, k) + post);
    FocusGrown(Toks(n), n, tab, fdt.Strs());
    WithKidDen(n, k, c, fdt.Strs());
  }

  lemma NamedFocus(fdt: Fdt, pre: seq<Token>, n: Cst, post: seq<Token>)
    requires Focused(fdt, pre, n, post)
    ensures Named(Toks(n), fdt.Strs()) && Ended(post) && fdt.Layout()
  {
    FocusParts(fdt, pre, n, post);
  }

  /** The child that an overlay child is merged into: the one its name matches, or a new one. */
  method TargetChild(fdt: Fdt, target: int, name: Name, ghost pre: seq<Token>, ghost n: Cst, ghost post: seq<Token>)
    returns (nnode: int, ghost n1: Cst, ghost k: nat)
    requires Focused(fdt, pre, n, post) && target == Size(pre)
    modifies fdt, fdt.buf
    ensures fdt.Layout() && BaseFrame(fdt) && Focused(fdt, pre, n1, post)
    ensures var t := Den(n, old(fdt.Strs()));
      var i, sp := T.FindKid(t.kids, name), KidRoom(old(SpaceOf(fdt)), t.kids, name);
      if sp.Shut? then nnode == sp.err && Den(n1, fdt.Strs()) == t
      else
        && nnode >= 0 && k < |n1.kids| && nnode == KidOff(pre, n1, k) && SpaceOf(fdt) == sp
        && if i < |t.kids| then k == i && Den(n1, fdt.Strs()) == t
           else k == 0 && Den(n1, fdt.Strs()) == T.AddKid(t, name)
  {
    hide EncAll, Enc, Toks, Named, Den, DenKids, T.AddKid, KidPre, Fdt.Mem, Fdt.S, Fdt.Strs, Fdt.Layout, Align4, ReadTag, Size, Focused, T.FindKid, FindKid;
    k := 0;
    NamedFocus(fdt, pre, n, post);
    NodeCheckOk(fdt, pre, n, post);
    DenDef(n, fdt.Strs());
    FindKidDen(n.kids, fdt.Strs(), name);
    if RwHeader(fdt) == 0 {
      HeaderWasFit(fdt);
    }
    nnode, n1 := AddSubnode(fdt, target, name, pre, n, post);
    if old(RwHeader(fdt)) == 0 {
      HeaderStays(fdt, pre, n1, post);
    }
    if nnode == ERR_EXISTS {
      NodeCheckOk(fdt, pre, n1, post);
      k := FindKid(n.kids, name);
      nnode := SubnodeOffset(fdt, target, name, pre, n1, post);
    }
  }

  /** One pass of the second loop of overlay_apply_node: an overlay child into the target's children. */
  method ApplyChild(fdt: Fdt, target: int, fdto: Fdt, subnode: int, ghost pre: seq<Token>, ghost n: Cst, ghost post: seq<Token>,
                    ghost opre: seq<Token>, ghost on: Cst, ghost opost: seq<Token>)
    returns (ret: int, ghost n2: Cst)
    requires Pair(fdt, fdto, target, subnode, pre, n, post, opre, on, opost)
    modifies fdt, fdt.buf
    ensures fdt.Layout() && BaseFrame(fdt) && Focused(fdt, pre, n2, post)
    ensures Merges(fdt, n2, ret, MergeKidIn(old(SpaceOf(fdt)), Den(n, old(fdt.Strs())), Den(on, fdto.Strs())))
    decreases on, 2
  {
    hide EncAll, Enc, Toks, Named, Den, DenProps, DenKids, RwHeader, Fdt.CheckHeader, SpaceOf, T.AddKid, T.Merge, MergeIn, KidRoom, KidPre, KidPost, Fdt.Mem, Fdt.S, Fdt.Strs, Fdt.Layout, Align4, ReadTag, Size, Focused, T.FindKid;
    PairParts(fdt, fdto, pre, n, post, opre, on, opost);
    NodeCheckOk(fdto, opre, on, opost);
    DenDef(on, fdto.Strs());
    var name, len := GetName(fdto, subnode, opre, on, opost);
    ghost var sp := SpaceOf(fdt);
    var nnode;
    ghost var k;
    nnode, n2, k := TargetChild(fdt, target, name, pre, n, post);
    if nnode < 0 {
      return nnode, n2;
    }
    ghost var n1, tab := n2, fdt.Strs();
    NamedFocus(fdt, pre, n1, post);
    KidFocused(fdt, pre, n1, post, k);
    ghost var c;
    ret, c := ApplyNode(fdt, nnode, fdto, subnode, pre + KidPre(n1, k), n1.kids[k], KidPost(n1, k) + post, opre, on, opost);
    n2 := KidEdited(fdt, tab, pre, n1, post, k, c);
    DenDef(n1, tab);
    ChildMerged(sp, Den(n, old(fdt.Strs())), Den(n1, tab), k, Den(on, fdto.Strs()));
  }

  lemma ChildMerged(sp: Space, t: T.Tree, t1: T.Tree, k: nat, o: T.Tree)
    requires !KidRoom(sp, t.kids, o.name).Shut? && k < |t1.kids|
    requires var i := T.FindKid(t.kids, o.name);
      if i < |t.kids| then k == i && t1 == t else k == 0 && t1 == T.AddKid(t, o.name)
    ensures MergeKidIn(sp, t, o) == AtKid(t1, k, MergeIn(KidRoom(sp, t.kids, o.name), t1.kids[k], o))
  {
    hide MergeIn, T.FindKid, KidRoom;
  }

  /** The second loop of overlay_apply_node: every child of the overlay node is merged in turn. */
  method ApplyKids(fdt: Fdt, target: int, fdto: Fdt, node: int, ghost pre: seq<Token>, ghost n: Cst, ghost post: seq<Token>,
                   ghost opre: seq<Token>, ghost on: Cst, ghost opost: seq<Token>)
    returns (ret: int, ghost n2: Cst)
    requires Pair(fdt, fdto, target, node, pre, n, post, opre, on, opost)
    modifies fdt, fdt.buf
    ensures fdt.Layout() && BaseFrame(fdt) && Focused(fdt, pre, n2, post)
    ensures Merges(fdt, n2, ret, MergeKidsIn(old(SpaceOf(fdt)), Den(n, old(fdt.Strs())), DenKids(on.kids, fdto.Strs())))
    decreases on, 0
  {
    hide EncAll, Enc, Toks, Named, Den, DenProps, DenKids, RwHeader, Fdt.CheckHeader, MergeKidsIn, MergeKidIn, SpaceOf, KidPre, KidPost, Fdt.Mem, Fdt.S, Fdt.Strs, Fdt.Layout, ReadTag, Size, Focused;
    n2 := n;
    PairParts(fdt, fdto, pre, n, post, opre, on, opost);
    ghost var t, os, j := Den(n, fdt.Strs()), DenKids(on.kids, fdto.Strs()), 0;
    ghost var m := MergeKidsIn(SpaceOf(fdt), t, os);
    MergeEnds(SpaceOf(fdt), t, [], os);
    NodeCheckOk(fdto, opre, on, opost);
    var subnode := FirstSubnode(fdto, node, opre, on, opost);
    while subnode >= 0
      invariant j <= |on.kids| && subnode == SiblingAnswer(opre, on, j)
      invariant fdt.Layout() && BaseFrame(fdt) && Focused(fdt, pre, n2, post)
      invariant m == MergeKidsIn(SpaceOf(fdt), Den(n2, fdt.Strs()), os[j..])
      invariant Focused(fdto, opre, on, opost) && fdto.Strs() == old(fdto.Strs()) && fdto.CheckHeader() == 0
      decreases |on.kids| - j
    {
      KidFocused(fdto, opre, on, opost, j);
      KidsStep(SpaceOf(fdt), Den(n2, fdt.Strs()), os, j);
      ret, n2 := ApplyChild(fdt, target, fdto, subnode, pre, n2, post,
                            opre + KidPre(on, j), on.kids[j], KidPost(on, j) + opost);
      if ret != 0 {
        return;
      }
      KidCheckOk(fdto, opre, on, opost, j);
      subnode := NextSubnode(fdto, subnode, opre, on, opost, j);
      j := j + 1;
    }
    MergeEnds(SpaceOf(fdt), Den(n2, fdt.Strs()), [], os);
    ret := 0;
  }

  /** overlay_apply_node: the target becomes the deep merge of itself and the overlay node, as far
      as there is space. */
  method ApplyNode(fdt: Fdt, target: int, fdto: Fdt, node: int, ghost pre: seq<Token>, ghost n: Cst, ghost post: seq<Token>,
                   ghost opre: seq<Token>, ghost on: Cst, ghost opost: seq<Token>)
    returns (ret: int, ghost n2: Cst)
    requires Pair(fdt, fdto, target, node, pre, n, post, opre, on, opost)
    modifies fdt, fdt.buf
    ensures fdt.Layout() && BaseFrame(fdt) && Focused(fdt, pre, n2, post)
    ensures Merges(fdt, n2, ret, MergeIn(old(SpaceOf(fdt)), Den(n, old(fdt.Strs())), Den(on, fdto.Strs())))
    ensures ret == 0 ==> Den(n2, fdt.Strs()) == T.Merge(Den(n, old(fdt.Strs())), Den(on, fdto.Strs()))
    decreases on, 1
  {
    hide EncAll, Enc, Toks, Named, Den, DenProps, DenKids, MergeKidsIn, MergePropsIn, T.Merge, Fdt.Mem, Fdt.S, Fdt.Strs, Fdt.Layout, Size, Focused, RwHeader;
    PairParts(fdt, fdto, pre, n, post, opre, on, opost);
    DenDef(on, fdto.Strs());
    ghost var sp, t, o := SpaceOf(fdt), Den(n, fdt.Strs()), Den(on, fdto.Strs());
    ret, n2 := ApplyProps(fdt, target, fdto, node, pre, n, post, opre, on, opost);
    if ret == 0 {
      ret, n2 := ApplyKids(fdt, target, fdto, node, pre, n2, post, opre, on, opost);
    }
    if ret == 0 {
      MergedIn(sp, t, o);
    }
  }
}
