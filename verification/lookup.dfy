/** libfdt/fdt_ro.c: finding nodes of a whole blob by phandle and by path. */
module Lookup {
  import opened Bytes
  import opened StructBlock
  import opened Results
  import opened Concrete
  import opened FdtBase
  import opened Focus
  import opened FdtRo
  import opened NodeEdit
  import opened TokenEdit
  import opened Paths
  import opened Traversal
  import opened Naming
  import T = Tree

  /** The place of the node in question, and the facts about the blob that follow from it. */
  lemma AtPlace(fdt: Fdt, c: Cst, p: Path)
    requires Whole(fdt, c) && HasPath(c, p)
    ensures Focused(fdt, PreAt(c, p), NodeAt(c, p), Tail(c, p))
    ensures NodeCheck(fdt.S(), NodeOff(c, p)) >= 0
    ensures T.HasPath(TreeOf(fdt, c), p) && T.At(TreeOf(fdt, c), p) == Den(NodeAt(c, p), fdt.Strs())
    ensures Den(NodeAt(c, p), fdt.Strs()).props == DenProps(NodeAt(c, p).props, fdt.Strs())
    ensures Den(NodeAt(c, p), fdt.Strs()).kids == DenKids(NodeAt(c, p).kids, fdt.Strs())
  {
    hide EncAll, Toks, Named, PreAt, PostAt, NodeAt, Den;
    WholeFocus(fdt, c, p);
    NodeCheckOk(fdt, PreAt(c, p), NodeAt(c, p), Tail(c, p));
    HasPathDen(c, p, fdt.Strs());
    DenDef(NodeAt(c, p), fdt.Strs());
  }

  // ---- fdt_getprop ---------------------------------------------------------------------------

  /** What fdt_getprop answers on a node: the value and its length, or nothing and the error. */
  predicate ValueAnswer(t: T.Tree, name: seq<byte>, val: seq<byte>, len: int) {
    var i := T.FindProp(t.props, name);
    if i < |t.props| then val == t.props[i].val && len == |val| else val == [] && len == ERR_NOTFOUND
  }

  /** fdt_getprop_namelen on the node in focus. */
  method GetProp(fdt: Fdt, nodeOffset: nat, name: seq<byte>, ghost pre: seq<Token>, ghost n: Cst, ghost post: seq<Token>)
    returns (val: Data, len: int)
    requires Focused(fdt, pre, n, post) && nodeOffset == Size(pre)
    ensures ValueAnswer(Den(n, fdt.Strs()), name, val, len)
  {
    hide EncAll, Enc, Toks, Named, StringAt, PropOff, T.FindProp, ReadTag, Fdt.Mem, Fdt.S, Fdt.Strs, PropName, Word;
    NodeCheckOk(fdt, pre, n, post);
    var prop;
    prop, len := GetProperty(fdt, nodeOffset, name, pre, n, post);
    if prop < 0 {
      return [], len;
    }
    PropFields(fdt, pre, n, post, T.FindProp(DenProps(n.props, fdt.Strs()), name));
    StructSlice(fdt, prop + 12, prop + 12 + len);
    val := fdt.buf[fdt.offDtStruct + prop + 12..fdt.offDtStruct + prop + 12 + len];
  }

  /** fdt_getprop_namelen on the node at a place of a whole blob. */
  method GetPropAt(fdt: Fdt, nodeOffset: nat, name: seq<byte>, ghost c: Cst, ghost p: Path) returns (val: Data, len: int)
    requires Whole(fdt, c) && HasPath(c, p) && nodeOffset == NodeOff(c, p)
    ensures T.HasPath(TreeOf(fdt, c), p)
    ensures ValueAnswer(T.At(TreeOf(fdt, c), p), name, val, len)
  {
    hide EncAll, Toks, Named, PreAt, PostAt, NodeAt, Den, Size, ValueAnswer, T.At, T.HasPath, HasPath, Focused;
    AtPlace(fdt, c, p);
    val, len := GetProp(fdt, nodeOffset, name, PreAt(c, p), NodeAt(c, p), Tail(c, p));
  }

  // ---- phandles ------------------------------------------------------------------------------

  /** fdt_get_phandle. */
  method GetPhandle(fdt: Fdt, nodeOffset: nat, ghost c: Cst, ghost p: Path) returns (h: u32)
    requires Whole(fdt, c) && HasPath(c, p) && nodeOffset == NodeOff(c, p)
    ensures T.HasPath(TreeOf(fdt, c), p)
    ensures h == PhandleOf(T.At(TreeOf(fdt, c), p))
  {
    hide Whole, TreeOf, HasPath, NodeOff, T.FindProp, T.At, T.HasPath, Word, Fdt.Layout;
    WholeLayout(fdt, c);
    var val, len := GetPropAt(fdt, nodeOffset, PHANDLE, c, p);
    if len != 4 {
      val, len := GetPropAt(fdt, nodeOffset, LINUX_PHANDLE, c, p);
      if len != 4 {
        return 0;
      }
    }
    h := Word(val, 0);
  }

  lemma WholeLayout(fdt: Fdt, c: Cst)
    requires Whole(fdt, c)
    ensures fdt.Layout()
  {
  }

  /** fdt_get_max_phandle. */
  method GetMaxPhandle(fdt: Fdt, ghost c: Cst) returns (h: u32)
    requires Whole(fdt, c)
    ensures fdt.Layout() && h == MaxPhandle(TreeOf(fdt, c))
  {
    hide Whole, TreeOf, HasPath, NodeOff, T.At, T.HasPath, T.Places, PhandleOf, Fdt.Layout;
    WholeLayout(fdt, c);
    ghost var t := TreeOf(fdt, c);
    ghost var ps, i := T.Places(t), 0;
    PlacesIn(fdt, c);
    PlacesValid(t);
    h := 0;
    var offset, depth := NextNodeAt(fdt, -1, -1, false, c, ps, -1);
    while offset >= 0
      invariant i <= |ps| && offset == (if i < |ps| then PlaceOff(c, ps, i) else ERR_NOTFOUND)
      invariant i < |ps| ==> depth == PlaceDepth(ps, i)
      invariant h == MaxOver(t, ps, i)
      decreases |ps| - i
    {
      var phandle := GetPhandle(fdt, offset, c, ps[i]);
      if phandle != NO_PHANDLE && phandle > h {
        h := phandle;
      }
      offset, depth := NextNodeAt(fdt, offset, depth, false, c, ps, i);
      i := i + 1;
    }
  }

  lemma PlacesIn(fdt: Fdt, c: Cst)
    requires Whole(fdt, c)
    ensures fdt.Layout()
    ensures forall j :: 0 <= j < |T.Places(TreeOf(fdt, c))| ==> HasPath(c, T.Places(TreeOf(fdt, c))[j])
  {
    hide T.Places, Den, HasPath;
    PlacesHere(c, fdt.Strs());
  }

  /** An offset that stands for a place, or an error. */
  ghost predicate IsPlace(c: Cst, r: int, place: Result<Path>) {
    match place
    case Ok(p) => HasPath(c, p) && r == NodeOff(c, p)
    case Err(e) => r == e < 0
  }

  /** fdt_node_offset_by_phandle. */
  method NodeOffsetByPhandle(fdt: Fdt, phandle: u32, ghost c: Cst) returns (r: int)
    requires Whole(fdt, c)
    ensures fdt.Layout()
    ensures IsPlace(c, r, if phandle != 0 && phandle != NO_PHANDLE && fdt.CheckHeader() != 0 then Err(fdt.CheckHeader())
                          else NodeByPhandle(TreeOf(fdt, c), phandle))
  {
    hide Whole, TreeOf, HasPath, NodeOff, T.At, T.HasPath, T.Places, PhandleOf, Fdt.Layout;
    WholeLayout(fdt, c);
    if phandle == 0 || phandle == NO_PHANDLE {
      return ERR_BADPHANDLE;
    }
    if fdt.CheckHeader() != 0 {
      return fdt.CheckHeader();
    }
    ghost var t := TreeOf(fdt, c);
    ghost var ps, i := T.Places(t), 0;
    PlacesIn(fdt, c);
    PlacesValid(t);
    var depth;
    r, depth := NextNodeAt(fdt, -1, -1, false, c, ps, -1);
    while r >= 0
      invariant i <= |ps| && r == (if i < |ps| then PlaceOff(c, ps, i) else ERR_NOTFOUND)
      invariant i < |ps| ==> depth == PlaceDepth(ps, i)
      invariant PlaceWith(t, ps, phandle, 0) == PlaceWith(t, ps, phandle, i)
      decreases |ps| - i
    {
      var h := GetPhandle(fdt, r, c, ps[i]);
      if h == phandle {
        return;
      }
      r, depth := NextNodeAt(fdt, r, depth, false, c, ps, i);
      i := i + 1;
    }
  }

  // ---- paths -----------------------------------------------------------------------------------

  /** fdt_subnode_offset_namelen on the node at a place. */
  method SubnodeAt(fdt: Fdt, offset: nat, name: Name, ghost c: Cst, ghost p: Path) returns (r: int)
    requires Whole(fdt, c) && HasPath(c, p) && offset == NodeOff(c, p) && fdt.CheckHeader() == 0
    ensures T.HasPath(TreeOf(fdt, c), p)
    ensures var kids := T.At(TreeOf(fdt, c), p).kids;
      var i := T.FindKid(kids, name);
      if i == |kids| then r == ERR_NOTFOUND else HasPath(c, p + [i]) && r == NodeOff(c, p + [i])
  {
    hide EncAll, Toks, Named, PreAt, PostAt, NodeAt, Den, Size, T.At, T.HasPath, HasPath, Focused, T.FindKid, FindKid, KidPre, DenKids;
    WholeLayout(fdt, c);
    AtPlace(fdt, c, p);
    r := SubnodeOffset(fdt, offset, name, PreAt(c, p), NodeAt(c, p), Tail(c, p));
    FindKidDen(NodeAt(c, p).kids, fdt.Strs(), name);
    if FindKid(NodeAt(c, p).kids, name) < |NodeAt(c, p).kids| {
      PathSnoc(c, p, FindKid(NodeAt(c, p).kids, name));
    }
  }

  /** The main loop of fdt_path_offset_namelen, from the node at `at` on. */
  method DescendFrom(fdt: Fdt, offset: nat, path: Name, ghost c: Cst, ghost at: Path) returns (r: int)
    requires Whole(fdt, c) && HasPath(c, at) && offset == NodeOff(c, at) && fdt.CheckHeader() == 0
    ensures T.HasPath(TreeOf(fdt, c), at)
    ensures IsPlace(c, r, Descend(TreeOf(fdt, c), at, Components(path)))
  {
    hide Whole, HasPath, NodeOff, T.At, T.HasPath, T.FindKid, Den, Fdt.Layout, Fdt.Strs, Components, Descend;
    WholeLayout(fdt, c);
    HasPathDen(c, at, fdt.Strs());
    r := offset;
    var i := 0;
    ghost var p, t := at, TreeOf(fdt, c);
    NoDescent(t, at);
    assert path[0..] == path;
    while i < |path|
      invariant i <= |path| && HasPath(c, p) && r == NodeOff(c, p) && T.HasPath(t, p)
      invariant Descend(t, p, Components(path[i..])) == Descend(t, at, Components(path))
      decreases |path| - i
    {
      while path[i] == SLASH
        invariant i < |path|
        invariant Descend(t, p, Components(path[i..])) == Descend(t, at, Components(path))
        decreases |path| - i
      {
        assert path[i..][1..] == path[i + 1..];
        SlashStep(path[i..]);
        i := i + 1;
        if i == |path| {
          assert path[i..] == [];
          NoDescent(t, p);
          return;
        }
      }
      var n := IndexOf(path[i..], SLASH);
      assert path[i..][n..] == path[i + n..];
      DescendStep(t, p, path[i..]);
      var k := SubnodeAt(fdt, r, path[i..][..n], c, p);
      if k < 0 {
        return k;
      }
      r := k;
      p := p + [T.FindKid(T.At(t, p).kids, path[i..][..n])];
      i := i + n;
    }
    assert path[i..] == [];
    NoDescent(t, p);
  }

  lemma NoDescent(t: T.Tree, p: Path)
    requires T.HasPath(t, p)
    ensures Descend(t, p, Components([])) == Ok(p)
  {
  }

  lemma SlashStep(path: Name)
    requires path != [] && path[0] == SLASH
    ensures Components(path) == Components(path[1..])
  {
  }

  /** The first component of what is left of a path. */
  lemma DescendStep(t: T.Tree, p: Path, path: Name)
    requires path != [] && path[0] != SLASH && T.HasPath(t, p)
    ensures var n := IndexOf(path, SLASH);
      var k := T.FindKid(T.At(t, p).kids, path[..n]);
      && n > 0
      && if k == |T.At(t, p).kids| then Descend(t, p, Components(path)) == Err(ERR_NOTFOUND)
         else T.HasPath(t, p + [k]) && Descend(t, p, Components(path)) == Descend(t, p + [k], Components(path[n..]))
  {
    hide T.FindKid, T.At, T.HasPath;
    var n := IndexOf(path, SLASH);
    var cs := Components(path);
    assert cs[0] == path[..n] && cs[1..] == Components(path[n..]);
    var k := T.FindKid(T.At(t, p).kids, path[..n]);
    if k < |T.At(t, p).kids| {
      HasPathSnoc(t, p, k);
    }
  }

  /** strlen of a property value. */
  method Terminator(val: seq<byte>) returns (len: nat)
    requires StringAt(val, 0)
    ensures len == NulFrom(val, 0)
  {
    len := 0;
    while val[len] != 0
      invariant len <= NulFrom(val, 0)
      decreases NulFrom(val, 0) - len
    {
      len := len + 1;
    }
  }

  const ALIASES_PATH: Name := [SLASH] + ALIASES

  lemma AliasesComponents()
    ensures Components(ALIASES_PATH) == [ALIASES]
  {
    assert SLASH !in ALIASES;
    TopLevel(ALIASES);
  }

  /** The path of a child of the root. */
  lemma TopLevel(name: Name)
    requires name != [] && SLASH !in name
    ensures Components([SLASH] + name) == [name]
  {
    FullPathOne(name);
    ComponentsOfFullPath([name]);
  }

  lemma FullPathOne(n: Name)
    ensures FullPath([n]) == [SLASH] + n
  {
    assert [n][1..] == [];
    assert FullPath([]) == [];
  }

  /** fdt_get_alias_namelen. */
  method GetAlias(fdt: Fdt, name: Name, ghost c: Cst) returns (ok: bool, val: Data)
    requires Whole(fdt, c) && fdt.CheckHeader() == 0
    ensures fdt.Layout()
    ensures AliasValue(TreeOf(fdt, c), name) == if ok then Ok(val) else Err(ERR_BADPATH)
  {
    hide Whole, HasPath, NodeOff, T.At, T.HasPath, T.FindProp, Den, Fdt.Layout, Fdt.Strs, Descend, Components;
    WholeLayout(fdt, c);
    AliasesComponents();
    RootPlace(fdt, c);
    var aliases := DescendFrom(fdt, 0, ALIASES_PATH, c, []);
    if aliases < 0 {
      return false, [];
    }
    var len;
    val, len := GetPropAt(fdt, aliases, name, c, Descend(TreeOf(fdt, c), [], [ALIASES]).value);
    ok := len >= 0;
  }

  lemma RootPlace(fdt: Fdt, c: Cst)
    requires Whole(fdt, c)
    ensures fdt.Layout() && HasPath(c, []) && NodeOff(c, []) == 0 && T.HasPath(TreeOf(fdt, c), [])
  {
    SizeNil();
  }

  /** fdt_path_offset_namelen. */
  method PathOffset(fdt: Fdt, path: Name, ghost c: Cst, ghost d: nat) returns (r: int)
    requires Whole(fdt, c) && PathEnds(Den(c, fdt.Strs()), path, d)
    ensures fdt.Layout()
    ensures IsPlace(c, r, if fdt.CheckHeader() != 0 then Err(fdt.CheckHeader()) else NodeByPath(TreeOf(fdt, c), path))
    decreases d
  {
    hide Whole, HasPath, NodeOff, T.At, T.HasPath, T.FindKid, Den, Fdt.Layout, Fdt.Strs, Descend, Components, AliasValue, NodeByPath, Ends, NulFrom;
    RootPlace(fdt, c);
    ghost var t := TreeOf(fdt, c);
    NodeByPathIs(t, path, d);
    if fdt.CheckHeader() != 0 {
      return fdt.CheckHeader();
    }
    if IsAbsolute(path) {
      r := DescendFrom(fdt, 0, path, c, []);
    } else {
      var n := IndexOf(path, SLASH);
      var ok, val := GetAlias(fdt, path[..n], c);
      if !ok {
        return ERR_BADPATH;
      }
      var len := Terminator(val);
      NodeByPathIs(t, val[..len], d - 1);
      r := PathOffset(fdt, val[..len], c, d - 1);
      if r < 0 {
        return;
      }
      r := DescendFrom(fdt, r, path[n..], c, NodeByPath(t, val[..len]).value);
    }
  }

  // ---- properties and children of the node at a place ----------------------------------------------

  /** Offset of property `i` of the node at `p`, or the end of the properties. */
  function PropPlace(c: Cst, p: Path, i: nat): int
    requires HasPath(c, p)
  {
    if i < |NodeAt(c, p).props| then PropOff(PreAt(c, p), NodeAt(c, p), i) else ERR_NOTFOUND
  }

  /** Offset of child `k` of the node at `p`, or the end of the children. */
  function KidPlace(c: Cst, p: Path, k: nat): int
    requires HasPath(c, p)
  {
    if k < |NodeAt(c, p).kids| then KidOff(PreAt(c, p), NodeAt(c, p), k) else ERR_NOTFOUND
  }

  lemma KidPlaceIs(c: Cst, p: Path, k: nat)
    requires HasPath(c, p) && k < |NodeAt(c, p).kids|
    ensures HasPath(c, p + [k]) && KidPlace(c, p, k) == NodeOff(c, p + [k]) && NodeAt(c, p + [k]) == NodeAt(c, p).kids[k]
  {
    hide EncAll, HasPath, NodeAt, PreAt, KidPre;
    PathSnoc(c, p, k);
  }

  /** As many properties and children in the tree as in the blob. */
  lemma PlaceSizes(fdt: Fdt, c: Cst, p: Path)
    requires Whole(fdt, c) && HasPath(c, p)
    ensures fdt.Layout() && T.HasPath(TreeOf(fdt, c), p)
    ensures |T.At(TreeOf(fdt, c), p).props| == |NodeAt(c, p).props|
    ensures |T.At(TreeOf(fdt, c), p).kids| == |NodeAt(c, p).kids|
  {
    hide HasPath, NodeAt, Den, T.At, T.HasPath;
    HasPathDen(c, p, fdt.Strs());
    DenDef(NodeAt(c, p), fdt.Strs());
  }

  method FirstPropAt(fdt: Fdt, nodeOffset: nat, ghost c: Cst, ghost p: Path) returns (r: int)
    requires Whole(fdt, c) && HasPath(c, p) && nodeOffset == NodeOff(c, p)
    ensures r == PropPlace(c, p, 0)
  {
    hide EncAll, Toks, Named, PreAt, PostAt, NodeAt, Den, Size, T.At, T.HasPath, HasPath, Focused, PropPre, ReadTag, Fdt.S;
    AtPlace(fdt, c, p);
    r := FirstPropertyOffset(fdt, nodeOffset, PreAt(c, p), NodeAt(c, p), Tail(c, p));
  }

  method NextPropAt(fdt: Fdt, offset: nat, ghost c: Cst, ghost p: Path, ghost i: nat) returns (r: int)
    requires Whole(fdt, c) && HasPath(c, p) && i < |NodeAt(c, p).props| && offset == PropPlace(c, p, i)
    ensures r == PropPlace(c, p, i + 1)
  {
    hide EncAll, Toks, Named, PreAt, PostAt, NodeAt, Den, Size, T.At, T.HasPath, HasPath, Focused, PropPre;
    AtPlace(fdt, c, p);
    PropCheckOk(fdt, PreAt(c, p), NodeAt(c, p), Tail(c, p), i);
    r := NextPropertyOffset(fdt, offset, PreAt(c, p), NodeAt(c, p), Tail(c, p), i);
  }

  /** fdt_getprop_by_offset. */
  method PropertyAtPlace(fdt: Fdt, offset: nat, ghost c: Cst, ghost p: Path, ghost i: nat) returns (name: Name, val: Data)
    requires Whole(fdt, c) && HasPath(c, p) && i < |NodeAt(c, p).props| && offset == PropPlace(c, p, i)
    ensures T.HasPath(TreeOf(fdt, c), p) && i < |T.At(TreeOf(fdt, c), p).props|
    ensures T.At(TreeOf(fdt, c), p).props[i] == T.Property(name, val)
  {
    hide EncAll, Toks, Named, PreAt, PostAt, NodeAt, Den, Size, T.At, T.HasPath, HasPath, Focused, PropPre, PropName;
    AtPlace(fdt, c, p);
    PropCheckOk(fdt, PreAt(c, p), NodeAt(c, p), Tail(c, p), i);
    var len;
    len, name, val := GetPropByOffset(fdt, offset, PreAt(c, p), NodeAt(c, p), Tail(c, p), i);
  }

  method FirstSubnodeAt(fdt: Fdt, offset: nat, ghost c: Cst, ghost p: Path) returns (r: int)
    requires Whole(fdt, c) && HasPath(c, p) && offset == NodeOff(c, p)
    ensures r == KidPlace(c, p, 0)
  {
    hide EncAll, Toks, Named, PreAt, PostAt, NodeAt, Den, Size, T.At, T.HasPath, HasPath, Focused, KidPre;
    AtPlace(fdt, c, p);
    NodeCheckOk(fdt, PreAt(c, p), NodeAt(c, p), Tail(c, p));
    r := FirstSubnode(fdt, offset, PreAt(c, p), NodeAt(c, p), Tail(c, p));
  }

  method NextSubnodeAt(fdt: Fdt, offset: nat, ghost c: Cst, ghost p: Path, ghost k: nat) returns (r: int)
    requires Whole(fdt, c) && HasPath(c, p) && k < |NodeAt(c, p).kids| && offset == KidPlace(c, p, k)
    ensures r == KidPlace(c, p, k + 1)
  {
    hide EncAll, Toks, Named, PreAt, PostAt, NodeAt, Den, Size, T.At, T.HasPath, HasPath, Focused, KidPre;
    AtPlace(fdt, c, p);
    KidCheckOk(fdt, PreAt(c, p), NodeAt(c, p), Tail(c, p), k);
    r := NextSubnode(fdt, offset, PreAt(c, p), NodeAt(c, p), Tail(c, p), k);
  }

  /** fdt_get_name. */
  method NameAt(fdt: Fdt, offset: nat, ghost c: Cst, ghost p: Path) returns (name: Name)
    requires Whole(fdt, c) && HasPath(c, p) && offset == NodeOff(c, p) && fdt.CheckHeader() == 0
    ensures T.HasPath(TreeOf(fdt, c), p) && name == T.At(TreeOf(fdt, c), p).name
  {
    hide EncAll, Toks, Named, PreAt, PostAt, NodeAt, DenProps, DenKids, Size, T.At, T.HasPath, HasPath, Focused, ReadTag, Fdt.S;
    AtPlace(fdt, c, p);
    var s, len := GetName(fdt, offset, PreAt(c, p), NodeAt(c, p), Tail(c, p));
    name := s;
  }
}
