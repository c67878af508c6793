/** libfdt/fdt_overlay.c, the first steps: relocating the phandles of an overlay in place. */
module OverlayReloc {
  import opened Bytes
  import opened StructBlock
  import opened Results
  import opened Concrete
  import opened FdtBase
  import opened BlockEdit
  import opened Paths
  import opened Lookup
  import opened Shape
  import opened Naming
  import opened Overlay
  import T = Tree

  /** After an in-place step the tree is the old one with the node at `p` replaced by the value, and
      the blob has kept its shape. */
  ghost predicate Became(c: Cst, c2: Cst, tab: seq<byte>, p: Path, x: T.Tree) {
    SameShape(c, c2) && T.HasPath(Den(c, tab), p) && Den(c2, tab) == T.Put(Den(c, tab), p, x)
  }

  /** What an in-place method answers about the node at `p`, given the value it should come to. */
  ghost predicate Answered(c: Cst, c2: Cst, tab: seq<byte>, p: Path, ret: int, r: Result<T.Tree>) {
    SameShape(c, c2) &&
    match r
    case Ok(x) => ret == 0 && Became(c, c2, tab, p, x)
    case Err(e) => ret == e
  }

  /** What in-place edits of an overlay keep: everything but bytes of values. */
  twostate predicate InPlace(fdto: Fdt, c2: Cst)
    reads fdto, fdto.buf
  {
    old(fdto.Layout()) && Apart(fdto) && HeadKept(fdto) && fdto.Strs() == old(fdto.Strs()) && Whole(fdto, c2)
  }

  /** overlay_phandle_add_offset. */
  method PhandleAddOffset(fdto: Fdt, node: nat, name: Name, delta: u32, ghost c: Cst, ghost p: Path)
    returns (ret: int, ghost c2: Cst)
    requires Apart(fdto) && Whole(fdto, c) && HasPath(c, p) && node == NodeOff(c, p)
    modifies fdto.buf
    ensures InPlace(fdto, c2) && T.HasPath(Den(c, fdto.Strs()), p)
    ensures Answered(c, c2, fdto.Strs(), p, ret, AddOffset(T.At(Den(c, fdto.Strs()), p), name, delta))
    ensures ret != 0 ==> c2 == c
  {
    hide Whole, HasPath, NodeOff, T.At, T.HasPath, T.Put, T.PatchProp, T.FindProp, Den, Blank, Fdt.Layout, Fdt.Strs, Fdt.Mem, Word, BE32;
    WholeLayout(fdto, c);
    c2 := c;
    var val, len := GetPropAt(fdto, node, name, c, p);
    if len < 0 {
      return len, c2;
    }
    if len != 4 {
      return ERR_BADPHANDLE, c2;
    }
    var adjVal := Word(val, 0) as int;
    if adjVal + delta >= 0x1_0000_0000 {
      return ERR_NOPHANDLES, c2;
    }
    adjVal := adjVal + delta;
    if adjVal == NO_PHANDLE {
      return ERR_NOPHANDLES, c2;
    }
    ret, c2 := PatchAt(fdto, node, name, 0, BE32(adjVal), c, p);
  }

  lemma {:induction false} PutTwice(t: T.Tree, p: Path, x: T.Tree, y: T.Tree)
    requires T.HasPath(t, p)
    ensures T.Put(T.Put(t, p, x), p, y) == T.Put(t, p, y)
    ensures T.Put(t, p, T.At(t, p)) == t
    decreases |p|
  {
    if p != [] {
      PutTwice(t.kids[p[0]], p[1..], x, y);
      var k := T.Put(t.kids[p[0]], p[1..], x);
      assert t.kids[p[0] := k][p[0] := T.Put(k, p[1..], y)] == t.kids[p[0] := T.Put(k, p[1..], y)];
    }
  }

  /** One replacement after another at the same place. */
  lemma BecameAgain(c: Cst, c1: Cst, c2: Cst, tab: seq<byte>, p: Path, x: T.Tree, y: T.Tree)
    requires Became(c, c1, tab, p, x) && Became(c1, c2, tab, p, y)
    ensures Became(c, c2, tab, p, y)
  {
    hide Den, Blank, T.Put, T.HasPath;
    PutTwice(Den(c, tab), p, x, y);
  }

  lemma BecameNothing(c: Cst, tab: seq<byte>, p: Path)
    requires T.HasPath(Den(c, tab), p)
    ensures Became(c, c, tab, p, T.At(Den(c, tab), p))
  {
    hide Den, Blank, T.Put, T.HasPath;
    PutTwice(Den(c, tab), p, Den(c, tab), Den(c, tab));
  }

  /** A replacement of child `k` is a replacement of its parent. */
  lemma {:induction false} PutKid(t: T.Tree, p: Path, k: nat, x: T.Tree)
    requires T.HasPath(t, p) && k < |T.At(t, p).kids| && T.HasPath(t, p + [k])
    ensures T.Put(t, p + [k], x) == T.Put(t, p, T.At(t, p).(kids := T.At(t, p).kids[k := x]))
    decreases |p|
  {
    if p == [] {
      assert ([] + [k])[1..] == [];
    } else {
      assert (p + [k])[1..] == p[1..] + [k];
      PutKid(t.kids[p[0]], p[1..], k, x);
    }
  }

  lemma BecameKid(c: Cst, c2: Cst, tab: seq<byte>, p: Path, k: nat, x: T.Tree)
    requires T.HasPath(Den(c, tab), p) && k < |T.At(Den(c, tab), p).kids| && Became(c, c2, tab, p + [k], x)
    ensures var y := T.At(Den(c, tab), p); Became(c, c2, tab, p, y.(kids := y.kids[k := x]))
  {
    hide Den, Blank, T.Put, T.HasPath, T.At;
    PutKid(Den(c, tab), p, k, x);
  }

  /** The two calls at the start of overlay_adjust_node_phandles. */
  method AdjustNodeProps(fdto: Fdt, node: nat, delta: u32, ghost c: Cst, ghost p: Path) returns (ret: int, ghost c2: Cst)
    requires Apart(fdto) && Whole(fdto, c) && HasPath(c, p) && node == NodeOff(c, p)
    modifies fdto.buf
    ensures InPlace(fdto, c2) && T.HasPath(Den(c, fdto.Strs()), p)
    ensures Answered(c, c2, fdto.Strs(), p, ret, AdjustProps(T.At(Den(c, fdto.Strs()), p), delta))
  {
    hide Whole, HasPath, NodeOff, T.At, T.HasPath, T.Put, AddOffset, Den, Blank, Fdt.Layout, Fdt.Strs, Fdt.Mem;
    WholeLayout(fdto, c);
    ghost var tab := fdto.Strs();
    ret, c2 := PhandleAddOffset(fdto, node, PHANDLE, delta, c, p);
    if ret != 0 && ret != ERR_NOTFOUND {
      return;
    }
    ghost var c1 := c2;
    if ret != 0 {
      BecameNothing(c, tab, p);
    }
    SamePlace(c, c1, p);
    ret, c2 := PhandleAddOffset(fdto, node, LINUX_PHANDLE, delta, c1, p);
    if ret != 0 && ret != ERR_NOTFOUND {
      return;
    }
    if ret != 0 {
      BecameNothing(c1, tab, p);
    }
    ghost var x := AddOffsetIfAny(T.At(Den(c, tab), p), PHANDLE, delta).value;
    ghost var y := AddOffsetIfAny(x, LINUX_PHANDLE, delta).value;
    assert T.At(Den(c1, tab), p) == x;
    BecameAgain(c, c1, c2, tab, p, x, y);
    ret := 0;
  }

  /** The children from `k` on, after those before it have become `done`. */
  function AdjustRest(done: seq<T.Tree>, rest: seq<T.Tree>, delta: u32): Result<seq<T.Tree>> {
    match AdjustKids(rest, delta)
    case Err(e) => Err(e)
    case Ok(ks) => Ok(done + ks)
  }

  lemma AdjustStep(done: seq<T.Tree>, rest: seq<T.Tree>, delta: u32)
    requires rest != []
    ensures var r := AdjustNode(rest[0], delta);
      AdjustRest(done, rest, delta) ==
        if r.Err? then Err(r.code) else AdjustRest(done + [r.value], rest[1..], delta)
  {
    hide AdjustNode;
    if AdjustNode(rest[0], delta).Ok? && AdjustKids(rest[1..], delta).Ok? {
      var k, ks := AdjustNode(rest[0], delta).value, AdjustKids(rest[1..], delta).value;
      assert done + ([k] + ks) == done + [k] + ks;
    }
  }

  lemma AdjustDone(done: seq<T.Tree>, kids: seq<T.Tree>, delta: u32)
    ensures AdjustRest(done, [], delta) == Ok(done)
    ensures AdjustRest([], kids, delta) == AdjustKids(kids, delta)
  {
    hide AdjustNode;
    assert done + [] == done;
    if AdjustKids(kids, delta).Ok? {
      assert [] + AdjustKids(kids, delta).value == AdjustKids(kids, delta).value;
    }
  }

  lemma AdjustNodeDef(t: T.Tree, delta: u32)
    ensures var p, ks := AdjustProps(t, delta), AdjustKids(t.kids, delta);
      AdjustNode(t, delta) ==
        if p.Err? then p else if ks.Err? then Err(ks.code) else Ok(p.value.(kids := ks.value))
  {
    hide AdjustProps, AdjustKids;
  }

  /** Setting phandles leaves the children alone. */
  lemma AdjustPropsKids(t: T.Tree, delta: u32)
    ensures AdjustProps(t, delta).Ok? ==> AdjustProps(t, delta).value.kids == t.kids
  {
    hide Word, BE32, T.FindProp;
  }

  /** A node with its children adjusted. */
  function WithKidsAdjusted(t: T.Tree, delta: u32): Result<T.Tree> {
    match AdjustKids(t.kids, delta)
    case Err(e) => Err(e)
    case Ok(ks) => Ok(t.(kids := ks))
  }

  /** overlay_adjust_node_phandles: the node at `p` becomes AdjustNode of itself. */
  method AdjustNodePhandles(fdto: Fdt, node: nat, delta: u32, ghost c: Cst, ghost p: Path) returns (ret: int, ghost c2: Cst)
    requires Apart(fdto) && Whole(fdto, c) && HasPath(c, p) && node == NodeOff(c, p)
    modifies fdto.buf
    ensures InPlace(fdto, c2) && T.HasPath(Den(c, fdto.Strs()), p)
    ensures Answered(c, c2, fdto.Strs(), p, ret, AdjustNode(T.At(Den(c, fdto.Strs()), p), delta))
    decreases Blank(NodeAt(c, p)), 2
  {
    hide Whole, HasPath, NodeOff, T.At, T.HasPath, T.Put, AdjustProps, AdjustKids, AdjustNode, Den, Blank, Fdt.Layout, Fdt.Strs, Fdt.Mem, NodeAt;
    WholeLayout(fdto, c);
    PlaceSizes(fdto, c, p);
    ghost var tab := fdto.Strs();
    ghost var x := T.At(Den(c, tab), p);
    AdjustNodeDef(x, delta);
    AdjustPropsKids(x, delta);
    ret, c2 := AdjustNodeProps(fdto, node, delta, c, p);
    if ret != 0 {
      return;
    }
    ghost var c1 := c2;
    BlankSame(c, c1, p);
    SamePlace(c, c1, p);
    ret, c2 := AdjustSubnodes(fdto, node, delta, c1, p);
    if ret == 0 {
      ghost var y := AdjustProps(x, delta).value;
      BecameAgain(c, c1, c2, tab, p, y, y.(kids := AdjustKids(x.kids, delta).value));
    }
  }

  /** Going down to a child makes the shape smaller. */
  lemma BlankKid(c: Cst, c1: Cst, p: Path, k: nat)
    requires SameShape(c, c1) && HasPath(c, p) && HasPath(c1, p) && k < |NodeAt(c1, p).kids| && HasPath(c1, p + [k])
    ensures Blank(NodeAt(c1, p + [k])) < Blank(NodeAt(c, p))
  {
    hide HasPath, NodeAt, Blank;
    SamePlace(c, c1, p);
    KidPlaceIs(c1, p, k);
    BlankDef(NodeAt(c1, p));
  }

  /** The node with child `k` adjusted. */
  function WithKidAdjusted(x: T.Tree, k: nat, delta: u32): Result<T.Tree>
    requires k < |x.kids|
  {
    match AdjustNode(x.kids[k], delta)
    case Err(e) => Err(e)
    case Ok(y) => Ok(x.(kids := x.kids[k := y]))
  }

  /** One pass of the loop over the children, and the step to the next child. */
  method AdjustSubnode(fdto: Fdt, child: nat, delta: u32, ghost c: Cst, ghost p: Path, ghost k: nat)
    returns (ret: int, next: int, ghost c2: Cst)
    requires Apart(fdto) && Whole(fdto, c) && HasPath(c, p) && k < |NodeAt(c, p).kids| && child == KidPlace(c, p, k)
    modifies fdto.buf
    ensures InPlace(fdto, c2) && T.HasPath(Den(c, fdto.Strs()), p) && k < |T.At(Den(c, fdto.Strs()), p).kids|
    ensures Answered(c, c2, fdto.Strs(), p, ret, WithKidAdjusted(T.At(Den(c, fdto.Strs()), p), k, delta))
    ensures ret == 0 ==> next == KidPlace(c, p, k + 1)
    decreases Blank(NodeAt(c, p)), 0
  {
    hide Whole, HasPath, NodeOff, T.At, T.HasPath, T.Put, AdjustNode, Den, Blank, Fdt.Layout, Fdt.Strs, Fdt.Mem, NodeAt, KidPlace;
    WholeLayout(fdto, c);
    PlaceSizes(fdto, c, p);
    KidPlaceIs(c, p, k);
    BlankKid(c, c, p, k);
    ghost var tab := fdto.Strs();
    ghost var x := T.At(Den(c, tab), p);
    HasPathSnoc(Den(c, tab), p, k);
    ret, c2 := AdjustNodePhandles(fdto, child, delta, c, p + [k]);
    next := child;
    if ret == 0 {
      BecameKid(c, c2, tab, p, k, AdjustNode(x.kids[k], delta).value);
      SameKids(c, c2, p, k);
      SameKids(c, c2, p, k + 1);
      next := NextSubnodeAt(fdto, child, c2, p, k);
    }
  }

  /** Half way through the loop: the first `k` children have been adjusted, and the node has become `x`. */
  ghost predicate Adjusting(c: Cst, c2: Cst, tab: seq<byte>, p: Path, x: T.Tree, k: nat, delta: u32) {
    && SameShape(c, c2) && HasPath(c, p) && HasPath(c2, p) && Became(c, c2, tab, p, x)
    && var y := T.At(Den(c, tab), p);
       && k <= |y.kids| == |x.kids| && |y.kids| == |NodeAt(c, p).kids|
       && x.kids[k..] == y.kids[k..] && x == y.(kids := x.kids)
       && WithKidsAdjusted(y, delta) == KidsAdjustedFrom(x, k, delta)
  }

  /** A node with its children from `k` on adjusted. */
  function KidsAdjustedFrom(x: T.Tree, k: nat, delta: u32): Result<T.Tree>
    requires k <= |x.kids|
  {
    match AdjustRest(x.kids[..k], x.kids[k..], delta)
    case Err(e) => Err(e)
    case Ok(ks) => Ok(x.(kids := ks))
  }

  lemma AdjustingStarts(c: Cst, tab: seq<byte>, p: Path, delta: u32)
    requires HasPath(c, p) && T.HasPath(Den(c, tab), p) && |T.At(Den(c, tab), p).kids| == |NodeAt(c, p).kids|
    ensures Adjusting(c, c, tab, p, T.At(Den(c, tab), p), 0, delta)
  {
    hide HasPath, T.HasPath, T.At, Den, Blank, AdjustKids, Became, NodeAt, AdjustRest;
    var x := T.At(Den(c, tab), p);
    BecameNothing(c, tab, p);
    assert x.kids[..0] == [] && x.kids[0..] == x.kids;
    AdjustDone([], x.kids, delta);
  }

  /** What the next pass starts from. */
  lemma AdjustingAt(c: Cst, c1: Cst, tab: seq<byte>, p: Path, x: T.Tree, k: nat, delta: u32)
    requires Adjusting(c, c1, tab, p, x, k, delta)
    ensures T.HasPath(Den(c, tab), p) && T.HasPath(Den(c1, tab), p) && T.At(Den(c1, tab), p) == x
    ensures HasPath(c1, p) && Blank(NodeAt(c1, p)) == Blank(NodeAt(c, p)) && |NodeAt(c1, p).kids| == |x.kids|
    ensures KidPlace(c1, p, k) == KidPlace(c, p, k) && KidPlace(c1, p, k + 1) == KidPlace(c, p, k + 1)
  {
    hide HasPath, T.HasPath, T.At, Den, Blank, AdjustKids, Became, NodeAt, KidPlace, KidsAdjustedFrom, WithKidsAdjusted;
    SameKids(c, c1, p, k);
    SameKids(c, c1, p, k + 1);
    BecameAt(c, c1, tab, p, x);
    BlankSame(c, c1, p);
  }

  /** One more child. */
  lemma AdjustingGoesOn(c: Cst, c1: Cst, c2: Cst, tab: seq<byte>, p: Path, x: T.Tree, k: nat, delta: u32)
    requires Adjusting(c, c1, tab, p, x, k, delta) && k < |x.kids| && AdjustNode(x.kids[k], delta).Ok?
    requires SameShape(c1, c2) && Became(c1, c2, tab, p, WithKidAdjusted(x, k, delta).value)
    ensures Adjusting(c, c2, tab, p, WithKidAdjusted(x, k, delta).value, k + 1, delta)
  {
    hide HasPath, T.HasPath, T.At, Den, Blank, AdjustNode, AdjustRest, AdjustKids, Became, NodeAt;
    var y := WithKidAdjusted(x, k, delta).value;
    BecameAt(c, c1, tab, p, x);
    BecameAgain(c, c1, c2, tab, p, x, y);
    SamePlace(c, c2, p);
    OneMore(x.kids, T.At(Den(c, tab), p).kids, k, AdjustNode(x.kids[k], delta).value);
    AdjustStep(x.kids[..k], x.kids[k..], delta);
  }

  /** A child that cannot be adjusted ends it. */
  lemma AdjustingFails(c: Cst, c1: Cst, tab: seq<byte>, p: Path, x: T.Tree, k: nat, delta: u32)
    requires Adjusting(c, c1, tab, p, x, k, delta) && k < |x.kids| && AdjustNode(x.kids[k], delta).Err?
    ensures WithKidsAdjusted(T.At(Den(c, tab), p), delta) == Err(AdjustNode(x.kids[k], delta).code)
  {
    hide HasPath, T.HasPath, T.At, Den, Blank, AdjustNode, AdjustRest, AdjustKids, Became, NodeAt, WithKidsAdjusted;
    AdjustStep(x.kids[..k], x.kids[k..], delta);
  }

  lemma AdjustingEnds(c: Cst, c1: Cst, tab: seq<byte>, p: Path, x: T.Tree, delta: u32)
    requires Adjusting(c, c1, tab, p, x, |x.kids|, delta)
    ensures WithKidsAdjusted(T.At(Den(c, tab), p), delta) == Ok(x) && Became(c, c1, tab, p, x)
  {
    hide HasPath, T.HasPath, T.At, Den, Blank, AdjustRest, AdjustKids, Became, NodeAt, WithKidsAdjusted;
    assert x.kids[|x.kids|..] == [] && x.kids[..|x.kids|] == x.kids;
    AdjustDone(x.kids, [], delta);
  }

  /** The loop over the children. */
  method AdjustSubnodes(fdto: Fdt, node: nat, delta: u32, ghost c: Cst, ghost p: Path) returns (ret: int, ghost c2: Cst)
    requires Apart(fdto) && Whole(fdto, c) && HasPath(c, p) && node == NodeOff(c, p)
    modifies fdto.buf
    ensures InPlace(fdto, c2) && T.HasPath(Den(c, fdto.Strs()), p)
    ensures Answered(c, c2, fdto.Strs(), p, ret, WithKidsAdjusted(T.At(Den(c, fdto.Strs()), p), delta))
    decreases Blank(NodeAt(c, p)), 1
  {
    hide Whole, HasPath, NodeOff, T.At, T.HasPath, T.Put, AdjustNode, Den, Blank, Fdt.Layout, Fdt.Strs, Fdt.Mem, NodeAt, Became, Adjusting, WithKidsAdjusted, KidPlace;
    c2 := c;
    WholeLayout(fdto, c);
    PlaceSizes(fdto, c, p);
    ghost var tab := fdto.Strs();
    ghost var x, k := T.At(Den(c, tab), p), 0;
    AdjustingStarts(c, tab, p, delta);
    KidPlaceEnd(c, p, 0);
    var child := FirstSubnodeAt(fdto, node, c, p);
    while child >= 0
      invariant InPlace(fdto, c2) && Adjusting(c, c2, tab, p, x, k, delta) && SameShape(c, c2)
      invariant k <= |x.kids| == |NodeAt(c, p).kids| && child == KidPlace(c, p, k)
      decreases |x.kids| - k
    {
      ghost var c1 := c2;
      KidPlaceEnd(c, p, k);
      AdjustingAt(c, c1, tab, p, x, k, delta);
      ret, child, c2 := AdjustSubnode(fdto, child, delta, c1, p, k);
      if ret != 0 {
        AdjustingFails(c, c1, tab, p, x, k, delta);
        return;
      }
      AdjustingGoesOn(c, c1, c2, tab, p, x, k, delta);
      x := WithKidAdjusted(x, k, delta).value;
      k := k + 1;
    }
    KidPlaceEnd(c, p, k);
    AdjustingEnds(c, c2, tab, p, x, delta);
    ret := 0;
  }

  lemma KidPlaceEnd(c: Cst, p: Path, k: nat)
    requires HasPath(c, p)
    ensures KidPlace(c, p, k) >= 0 <==> k < |NodeAt(c, p).kids|
  {
    hide EncAll, HasPath, NodeAt;
  }

  lemma OneMore(cur: seq<T.Tree>, was: seq<T.Tree>, k: nat, y: T.Tree)
    requires k < |cur| == |was| && cur[k..] == was[k..]
    ensures cur[k] == was[k] == was[k..][0] && was[k..][1..] == was[k + 1..]
    ensures cur[k := y][k + 1..] == was[k + 1..] && cur[k := y][..k + 1] == cur[..k] + [y]
  {
    assert cur[k..][0] == was[k..][0];
    assert cur[k..][1..] == was[k..][1..];
  }

  lemma BecameAt(c: Cst, c2: Cst, tab: seq<byte>, p: Path, x: T.Tree)
    requires Became(c, c2, tab, p, x)
    ensures T.HasPath(Den(c, tab), p) && T.HasPath(Den(c2, tab), p) && T.At(Den(c2, tab), p) == x
  {
    hide Den, Blank, T.HasPath, T.At;
  }

  lemma BlankSame(c: Cst, c2: Cst, p: Path)
    requires SameShape(c, c2) && HasPath(c, p)
    ensures HasPath(c2, p) && Blank(NodeAt(c2, p)) == Blank(NodeAt(c, p))
  {
    hide HasPath, NodeAt, Blank;
    SamePlace(c, c2, p);
  }
}
