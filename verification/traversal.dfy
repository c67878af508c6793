/** libfdt/fdt.c and fdt_ro.c: going through all nodes of a whole blob. */
module Traversal {
  import opened Bytes
  import opened StructBlock
  import opened Concrete
  import opened Walking
  import opened FdtBase
  import opened Focus
  import opened FdtRo
  import opened NodeEdit
  import opened Paths
  import T = Tree

  /** Where fdt_next_node ends: with a depth pointer it stops after the root node. */
  function EndOf(c: Cst, counted: bool): Step {
    if counted then Left(Size(Toks(c))) else Over
  }

  /** The visits of repeated calls that start at offset -1 and depth -1. */
  function AllVisits(c: Cst): seq<Visit> {
    Preorder(c, [End], 0, 0)
  }

  lemma WalkWhole(c: Cst, counted: bool)
    ensures Walk(Toks(c) + [End], 0, -1, counted) == Trail(AllVisits(c), EndOf(c, counted))
  {
    hide EncAll, Enc, Toks, PToks, KToks, Nops, Body, Walk, Preorder, PreorderKids, Scan;
    if counted {
      var b := Begin(c.name, c.pad);
      ToksDef(c);
      SizeToks(c);
      assert Toks(c) + [End] == [b] + (Body(c) + [End]);
      WalkDown(c, Body(c) + [End], 0, -1, true);
      WalkBody(c, [End], |Enc(b)|);
      PreorderDef(c, [End], 0, 0);
    } else {
      WalkNode(c, [End], 0, -1, false);
      WalkEnd(Size(Toks(c)));
      assert AllVisits(c) + [] == AllVisits(c);
    }
  }

  lemma PreorderDef(c: Cst, post: seq<Token>, off: nat, depth: int)
    ensures Preorder(c, post, off, depth) ==
      [Visit(off, depth, Toks(c) + post)] +
      PreorderKids(c.kids, Nops(c.tail) + [EndNode] + post, off + |Enc(Begin(c.name, c.pad))| + Size(PToks(c.props)), depth + 1)
  {
    hide EncAll, Enc, Toks, PToks, Nops, PreorderKids;
  }

  lemma WalkEnd(off: nat)
    ensures Walk([End], off, -1, false) == Trail([], Over)
  {
  }

  /** At visit `i` the rest of the walk is the visits after it. */
  lemma {:induction false} CursorAt(c: Cst, counted: bool, i: nat) returns (a: seq<Token>)
    requires i < |AllVisits(c)|
    ensures var vs := AllVisits(c);
      && a + vs[i].rest == Toks(c) + [End] && Size(a) == vs[i].off
      && Cursor(a, vs[i].rest, vs[i].depth, counted, Trail(vs[i + 1..], EndOf(c, counted)))
  {
    hide EncAll, Enc, Toks, Walk, Preorder, Scan, EndOf;
    var vs := AllVisits(c);
    PreorderHead(c, [End], 0, 0);
    if i == 0 {
      a := [];
      SizeNil();
      WalkWhole(c, counted);
      WalkOne(Toks(c) + [End], 0, -1, counted);
      ScanBegin(c, counted);
      assert a + vs[0].rest == Toks(c) + [End];
    } else {
      var a1 := CursorAt(c, counted, i - 1);
      var w := Trail(vs[i..], EndOf(c, counted));
      a := NextVisit(a1, vs[i - 1].rest, vs[i - 1].depth, counted, w);
      assert w.visits != [] && w.visits[0] == vs[i] && w.visits[1..] == vs[i + 1..];
      assert vs[i - 1 + 1..] == vs[i..];
    }
  }

  lemma ScanBegin(c: Cst, counted: bool)
    ensures Scan(Toks(c) + [End], 0, -1, counted) == Found(Visit(0, 0, Toks(c) + [End]))
  {
    ToksDef(c);
    hide Toks, Enc, Body;
    assert (Toks(c) + [End])[0] == Begin(c.name, c.pad);
  }

  /** Offset of the node visited last: -1 before the first. */
  function PlaceOff(c: Cst, ps: seq<Path>, i: int): int
    requires forall j :: 0 <= j < |ps| ==> HasPath(c, ps[j])
  {
    if 0 <= i < |ps| then NodeOff(c, ps[i]) else -1
  }

  function PlaceDepth(ps: seq<Path>, i: int): int {
    if 0 <= i < |ps| then |ps[i]| else -1
  }

  /** The places of the nodes of a tree are places of its concrete node. */
  lemma PlacesHere(c: Cst, tab: seq<byte>)
    ensures forall i :: 0 <= i < |T.Places(Den(c, tab))| ==> HasPath(c, T.Places(Den(c, tab))[i])
    ensures |AllVisits(c)| == |T.Places(Den(c, tab))|
    ensures forall i :: 0 <= i < |AllVisits(c)| ==> VisitAt(AllVisits(c)[i], c, [End], 0, 0, T.Places(Den(c, tab))[i])
  {
    hide Preorder, Den, T.Places;
    PreorderPlaces(c, [End], 0, 0, tab);
  }

  /** fdt_next_node started at -1: it goes through every node once, a node before its children,
      with its true depth, and then stops. */
  method NextNodeAt(fdt: Fdt, offset: int, depth: int, counted: bool, ghost c: Cst, ghost ps: seq<Path>, ghost i: int)
    returns (r: int, d: int)
    requires Whole(fdt, c) && ps == T.Places(TreeOf(fdt, c)) && -1 <= i < |ps|
    requires forall j :: 0 <= j < |ps| ==> HasPath(c, ps[j])
    requires offset == PlaceOff(c, ps, i) && depth == PlaceDepth(ps, i)
    ensures i + 1 < |ps| ==> r == PlaceOff(c, ps, i + 1) && d == PlaceDepth(ps, i + 1)
    ensures i + 1 == |ps| ==> if counted then r == Size(Toks(c)) && d < 0 else r == ERR_NOTFOUND
  {
    hide EncAll, Enc, Toks, PreAt, PostAt, NodeAt, Den, T.Places, Named, Fdt.S, Fdt.Strs, Fdt.Mem, Walk, Preorder, Scan, ReadTag, Size, Cursor;
    PlacesHere(c, fdt.Strs());
    ghost var vs := AllVisits(c);
    if i + 1 < |ps| {
      assert VisitAt(vs[i + 1], c, [End], 0, 0, ps[i + 1]);
    }
    assert [] + Toks(c) + [End] == Toks(c) + [End];
    if offset < 0 {
      SizeNil();
      assert i == -1;
      assert [] + (Toks(c) + [End]) == Toks(c) + [End];
      r, d := NextNode(fdt, offset, depth, counted, [], Toks(c) + [End]);
      ScanBegin(c, counted);
      PreorderHead(c, [End], 0, 0);
    } else {
      assert VisitAt(vs[i], c, [End], 0, 0, ps[i]);
      ghost var a := CursorAt(c, counted, i);
      ghost var a2, b2;
      EndedSuffix(a, vs[i].rest, Toks(c), [End]);
      r, d, a2, b2 := NextNodeOfWalk(fdt, offset, depth, counted, a, vs[i].rest, Trail(vs[i + 1..], EndOf(c, counted)));
    }
  }
}
