/** libfdt/fdt_overlay.c: resolving the references of an overlay to nodes of the base, in place. */
module OverlayFixups {
  import opened Bytes
  import opened StructBlock
  import opened Results
  import opened Concrete
  import opened FdtBase
  import opened BlockEdit
  import opened Paths
  import opened Lookup
  import opened Shape
  import opened Naming
  import opened Overlay
  import opened OverlayReloc
  import opened OverlayRefs
  import T = Tree

  // ---- what the tables of a base and an overlay must look like -------------------------------------

  /** The label stands for a path. */
  ghost predicate LabelSound(b: T.Tree, symbols: Result<Path>, symbol: Name)
    requires symbols.Ok? ==> T.HasPath(b, symbols.value)
  {
    symbols.Ok? ==>
      var ps := T.At(b, symbols.value).props;
      var i := T.FindProp(ps, symbol);
      i < |ps| ==> PathValue(b, ps[i].val)
  }

  /** The lookup of the path comes to an end, not at the fixups node, and the offset does not wrap around. */
  ghost predicate EntrySound(o: T.Tree, f: nat, e: Fixup) {
    Ends(o, e.path) && NodeByPath(o, e.path) != Ok([f]) && e.poffset + 4 < 0x1_0000_0000
  }

  /** One fixups property, whose entries are looked up one after the other in what the ones before
      have made of the overlay. */
  ghost predicate ListSound(b: T.Tree, o: T.Tree, symbols: Result<Path>, f: nat, val: seq<byte>, symbol: Name)
    requires symbols.Ok? ==> T.HasPath(b, symbols.value)
    decreases |val|
  {
    var z := NulFrom(val, 0);
    z < |val| ==>
      var e := ParseFixup(val[..z]);
      e.Ok? ==>
        && LabelSound(b, symbols, symbol)
        && (LabelPhandle(b, symbols, symbol).Ok? ==> EntrySound(o, f, e.value))
        && var r := FixupOne(b, o, symbols, e.value, symbol);
           r.Ok? ==> ListSound(b, r.value, symbols, f, val[z + 1..], symbol)
  }

  ghost predicate ListsSound(b: T.Tree, o: T.Tree, symbols: Result<Path>, f: nat, ps: seq<T.Property>)
    requires symbols.Ok? ==> T.HasPath(b, symbols.value)
    decreases |ps|
  {
    ps == [] ||
    (ListSound(b, o, symbols, f, ps[0].val, ps[0].name) &&
     var r := FixupList(b, o, symbols, ps[0].val, ps[0].name);
     r.Ok? ==> ListsSound(b, r.value, symbols, f, ps[1..]))
  }

  ghost predicate FixupsSound(b: T.Tree, o: T.Tree) {
    var f := T.FindKid(o.kids, FIXUPS);
    f < |o.kids| ==> ListsSound(b, o, Descend(b, [], [SYMBOLS]), f, o.kids[f].props)
  }

  /** New values of properties at one place leave the properties of every other node alone. */
  lemma {:induction false} PropsElsewhere(t: T.Tree, p: Path, x: T.Tree, q: Path)
    requires T.HasPath(t, p) && T.HasPath(t, q) && p != q && x.kids == T.At(t, p).kids
    ensures T.HasPath(T.Put(t, p, x), q) && T.At(T.Put(t, p, x), q).props == T.At(t, q).props
    decreases |p|
  {
    if p != [] && q != [] && p[0] == q[0] {
      PropsElsewhere(t.kids[p[0]], p[1..], x, q[1..]);
    }
  }

  /** After some fixups: the shape is the same, and so is the fixups node. */
  ghost predicate Fixing(c: Cst, c2: Cst, tab: seq<byte>, fp: Path) {
    && SameShape(c, c2) && T.HasPath(Den(c, tab), fp) && T.HasPath(Den(c2, tab), fp)
    && T.At(Den(c2, tab), fp).props == T.At(Den(c, tab), fp).props
  }

  lemma FixingAgain(c: Cst, c1: Cst, c2: Cst, tab: seq<byte>, fp: Path)
    requires Fixing(c, c1, tab, fp) && Fixing(c1, c2, tab, fp)
    ensures Fixing(c, c2, tab, fp)
  {
    hide Den, Blank, T.At, T.HasPath;
  }

  /** What the methods below start from: the base `b` with the place of its symbols, and the overlay `c`. */
  ghost predicate Resolving(fdt: Fdt, fdto: Fdt, symbolsOff: int, b: Cst, c: Cst, symbols: Result<Path>)
    reads fdt, fdt.buf, fdto, fdto.buf
  {
    && fdt != fdto && fdt.buf != fdto.buf
    && Whole(fdt, b) && fdt.CheckHeader() == 0 && IsPlace(b, symbolsOff, symbols)
    && (symbols.Ok? ==> T.HasPath(Den(b, fdt.Strs()), symbols.value))
    && Apart(fdto) && Whole(fdto, c) && fdto.CheckHeader() == 0
  }

  // ---- overlay_fixup_one_phandle -------------------------------------------------------------------------

  /** The first half: the phandle that a label stands for, read from the base. */
  method GetLabelPhandle(fdt: Fdt, symbolsOff: int, symbol: Name, ghost b: Cst, ghost symbols: Result<Path>)
    returns (err: int, h: u32)
    requires Whole(fdt, b) && fdt.CheckHeader() == 0 && IsPlace(b, symbolsOff, symbols)
    requires (symbols.Ok? ==> T.HasPath(Den(b, fdt.Strs()), symbols.value)) && LabelSound(Den(b, fdt.Strs()), symbols, symbol)
    ensures fdt.Layout()
    ensures LabelPhandle(TreeOf(fdt, b), symbols, symbol) == if err < 0 then Err(err) else Ok(h)
    ensures err <= 0
  {
    hide Whole, HasPath, NodeOff, T.At, T.HasPath, T.FindProp, Den, Fdt.Layout, Fdt.Strs, NodeByPath, PathEnds, PhandleOf, NulFrom;
    WholeLayout(fdt, b);
    h := 0;
    if symbolsOff < 0 {
      return symbolsOff, h;
    }
    var val, len := GetPropAt(fdt, symbolsOff, symbol, b, symbols.value);
    if len < 0 {
      return len, h;
    }
    var n := Terminator(val);
    ghost var d: nat :| PathEnds(TreeOf(fdt, b), val[..n], d);
    var symbolOff := PathOffset(fdt, val[..n], b, d);
    if symbolOff < 0 {
      return symbolOff, h;
    }
    h := GetPhandle(fdt, symbolOff, b, NodeByPath(TreeOf(fdt, b), val[..n]).value);
    err := if h == 0 then ERR_NOTFOUND else 0;
  }

  /** The second half: the cell in the overlay. */
  method PutCell(fdto: Fdt, path: Name, name: Name, poffset: u32, h: u32, ghost c: Cst, ghost f: nat)
    returns (ret: int, ghost c2: Cst)
    requires Apart(fdto) && Whole(fdto, c) && fdto.CheckHeader() == 0 && T.HasPath(Den(c, fdto.Strs()), [f])
    requires EntrySound(Den(c, fdto.Strs()), f, Fixup(path, name, poffset))
    modifies fdto.buf
    ensures InPlace(fdto, c2) && Fixing(c, c2, fdto.Strs(), [f])
    ensures var r := SetCell(Den(c, fdto.Strs()), Fixup(path, name, poffset), h);
      if r.Err? then ret == r.code else ret == 0 && Den(c2, fdto.Strs()) == r.value
  {
    hide Whole, HasPath, NodeOff, T.At, T.HasPath, T.FindProp, T.PatchProp, T.Put, Den, Fdt.Layout, Fdt.Strs, NodeByPath, PathEnds, Blank;
    c2 := c;
    WholeLayout(fdto, c);
    ghost var d: nat :| PathEnds(Den(c, fdto.Strs()), path, d);
    var fixupOff := PathOffset(fdto, path, c, d);
    if fixupOff == ERR_NOTFOUND {
      return ERR_BADOVERLAY, c2;
    }
    if fixupOff < 0 {
      return fixupOff, c2;
    }
    ghost var t := Den(c, fdto.Strs());
    ghost var p := NodeByPath(t, path).value;
    ret, c2 := PatchAt(fdto, fixupOff, name, poffset, BE32(h), c, p);
    if ret == 0 {
      ghost var x := T.At(t, p);
      PatchFound(x, name, T.FindProp(x.props, name), poffset, BE32(h));
      PropsElsewhere(t, p, T.PatchProp(x, T.FindProp(x.props, name), poffset, BE32(h)), [f]);
    }
  }

  /** overlay_fixup_one_phandle. */
  method FixupOnePhandle(fdt: Fdt, fdto: Fdt, symbolsOff: int, path: Name, name: Name, poffset: u32, symbol: Name,
                         ghost b: Cst, ghost c: Cst, ghost symbols: Result<Path>, ghost f: nat)
    returns (ret: int, ghost c2: Cst)
    requires Resolving(fdt, fdto, symbolsOff, b, c, symbols) && T.HasPath(Den(c, fdto.Strs()), [f])
    requires LabelSound(Den(b, fdt.Strs()), symbols, symbol)
    requires LabelPhandle(Den(b, fdt.Strs()), symbols, symbol).Ok? ==>
               EntrySound(Den(c, fdto.Strs()), f, Fixup(path, name, poffset))
    modifies fdto.buf
    ensures fdt.Layout() && InPlace(fdto, c2) && Fixing(c, c2, fdto.Strs(), [f])
    ensures var r := FixupOne(TreeOf(fdt, b), Den(c, fdto.Strs()), symbols, Fixup(path, name, poffset), symbol);
      if r.Err? then ret == r.code else ret == 0 && Den(c2, fdto.Strs()) == r.value
  {
    hide Whole, HasPath, NodeOff, T.At, T.HasPath, Den, Fdt.Layout, Fdt.Strs, Blank, LabelPhandle, SetCell, IsPlace, LabelSound, EntrySound;
    c2 := c;
    WholeLayout(fdto, c);
    var phandle;
    ret, phandle := GetLabelPhandle(fdt, symbolsOff, symbol, b, symbols);
    if ret < 0 {
      return;
    }
    ret, c2 := PutCell(fdto, path, name, poffset, phandle, c, f);
  }

  // ---- overlay_fixup_phandle ---------------------------------------------------------------------------------

  /** One step of the loop over the entries. */
  lemma FixupListStep(b: T.Tree, o: T.Tree, symbols: Result<Path>, val: seq<byte>, symbol: Name)
    requires symbols.Ok? ==> T.HasPath(b, symbols.value)
    ensures var z := NulFrom(val, 0);
      FixupList(b, o, symbols, val, symbol) ==
        if z == |val| then Err(ERR_BADOVERLAY) else
        var e := ParseFixup(val[..z]);
        if e.Err? then Err(e.code) else
        var r := FixupOne(b, o, symbols, e.value, symbol);
        if r.Err? || z + 1 == |val| then r else FixupList(b, r.value, symbols, val[z + 1..], symbol)
  {
    hide FixupOne, ParseFixup, NulFrom;
  }

  lemma ListSoundStep(b: T.Tree, o: T.Tree, symbols: Result<Path>, f: nat, val: seq<byte>, symbol: Name)
    requires (symbols.Ok? ==> T.HasPath(b, symbols.value)) && ListSound(b, o, symbols, f, val, symbol)
    ensures var z := NulFrom(val, 0);
      z < |val| && ParseFixup(val[..z]).Ok? ==>
        var e := ParseFixup(val[..z]).value;
        && LabelSound(b, symbols, symbol)
        && (LabelPhandle(b, symbols, symbol).Ok? ==> EntrySound(o, f, e))
        && var r := FixupOne(b, o, symbols, e, symbol);
           r.Ok? ==> ListSound(b, r.value, symbols, f, val[z + 1..], symbol)
  {
    hide FixupOne, ParseFixup, NulFrom, LabelSound, LabelPhandle, EntrySound;
  }

  /** The loop of overlay_fixup_phandle over the entries of one property. */
  method FixupEntries(fdt: Fdt, fdto: Fdt, symbolsOff: int, symbol: Name, val: seq<byte>,
                      ghost b: Cst, ghost c: Cst, ghost symbols: Result<Path>, ghost f: nat)
    returns (ret: int, ghost c2: Cst)
    requires Resolving(fdt, fdto, symbolsOff, b, c, symbols)
    requires T.HasPath(Den(c, fdto.Strs()), [f]) && ListSound(Den(b, fdt.Strs()), Den(c, fdto.Strs()), symbols, f, val, symbol)
    modifies fdto.buf
    ensures fdt.Layout() && InPlace(fdto, c2) && Fixing(c, c2, fdto.Strs(), [f])
    ensures var r := FixupList(TreeOf(fdt, b), Den(c, fdto.Strs()), symbols, val, symbol);
      if r.Err? then ret == r.code else ret == 0 && Den(c2, fdto.Strs()) == r.value
  {
    hide Whole, HasPath, NodeOff, T.At, T.HasPath, Den, Fdt.Layout, Fdt.Strs, LabelPhandle, LabelSound, EntrySound, ListSound, Blank, FixupOne, FixupList, ParseFixup, IsPlace, Fixing, NulFrom;
    c2 := c;
    WholeLayout(fdto, c);
    WholeLayout(fdt, b);
    FixingNothing(c, fdto.Strs(), [f]);
    ghost var tab, t := fdto.Strs(), TreeOf(fdt, b);
    var value := val;
    while true
      invariant InPlace(fdto, c2) && Fixing(c, c2, tab, [f]) && SameShape(c, c2) && T.HasPath(Den(c2, tab), [f])
      invariant ListSound(t, Den(c2, tab), symbols, f, value, symbol)
      invariant FixupList(t, Den(c2, tab), symbols, value, symbol) == FixupList(t, Den(c, tab), symbols, val, symbol)
      decreases |value|
    {
      ghost var c1 := c2;
      FixupListStep(t, Den(c1, tab), symbols, value, symbol);
      ListSoundStep(t, Den(c1, tab), symbols, f, value, symbol);
      var end := NulFrom(value, 0);
      if end == |value| {
        return ERR_BADOVERLAY, c2;
      }
      var entry := ParseFixup(value[..end]);
      if entry.Err? {
        return entry.code, c2;
      }
      ret, c2 := FixupOnePhandle(fdt, fdto, symbolsOff, entry.value.path, entry.value.name, entry.value.poffset, symbol, b, c1, symbols, f);
      FixingAgain(c, c1, c2, tab, [f]);
      FixingShape(c1, c2, tab, [f]);
      if ret != 0 {
        return;
      }
      value := value[end + 1..];
      if value == [] {
        return;
      }
    }
  }

  lemma FixingNothing(c: Cst, tab: seq<byte>, fp: Path)
    requires T.HasPath(Den(c, tab), fp)
    ensures Fixing(c, c, tab, fp)
  {
  }

  lemma FixingShape(c: Cst, c2: Cst, tab: seq<byte>, fp: Path)
    requires Fixing(c, c2, tab, fp)
    ensures SameShape(c, c2) && T.HasPath(Den(c2, tab), fp) && T.HasPath(Den(c, tab), fp)
    ensures T.At(Den(c2, tab), fp).props == T.At(Den(c, tab), fp).props
  {
  }

  // ---- overlay_fixup_phandles ----------------------------------------------------------------------------------

  /** Half way through the properties of the fixups node. */
  ghost predicate FixingProps(b: T.Tree, c: Cst, c2: Cst, tab: seq<byte>, f: nat, symbols: Result<Path>, i: nat)
    requires symbols.Ok? ==> T.HasPath(b, symbols.value)
  {
    && Fixing(c, c2, tab, [f])
    && var ps := T.At(Den(c, tab), [f]).props;
       && i <= |ps| && ListsSound(b, Den(c2, tab), symbols, f, ps[i..])
       && FixupProps(b, Den(c, tab), symbols, ps) == FixupProps(b, Den(c2, tab), symbols, ps[i..])
  }

  lemma FixingPropsGoesOn(b: T.Tree, c: Cst, c1: Cst, c2: Cst, tab: seq<byte>, f: nat, symbols: Result<Path>, i: nat)
    requires symbols.Ok? ==> T.HasPath(b, symbols.value)
    requires FixingProps(b, c, c1, tab, f, symbols, i) && T.HasPath(Den(c, tab), [f]) && i < |T.At(Den(c, tab), [f]).props|
    requires Fixing(c1, c2, tab, [f])
    ensures var ps := T.At(Den(c, tab), [f]).props;
      var r := FixupList(b, Den(c1, tab), symbols, ps[i].val, ps[i].name);
      if r.Err? then FixupProps(b, Den(c, tab), symbols, ps) == Err(r.code)
      else Den(c2, tab) == r.value ==> FixingProps(b, c, c2, tab, f, symbols, i + 1)
  {
    hide Den, T.At, T.HasPath, FixupList, ListSound, Fixing;
    var ps := T.At(Den(c, tab), [f]).props;
    assert ps[i..][0] == ps[i] && ps[i..][1..] == ps[i + 1..];
    FixingAgain(c, c1, c2, tab, [f]);
  }

  lemma FixingPropsAt(b: T.Tree, c: Cst, c1: Cst, tab: seq<byte>, f: nat, symbols: Result<Path>, i: nat)
    requires symbols.Ok? ==> T.HasPath(b, symbols.value)
    requires FixingProps(b, c, c1, tab, f, symbols, i) && HasPath(c, [f])
    ensures SameShape(c, c1) && HasPath(c1, [f]) && T.HasPath(Den(c, tab), [f]) && T.HasPath(Den(c1, tab), [f])
    ensures T.At(Den(c1, tab), [f]).props == T.At(Den(c, tab), [f]).props
    ensures var ps := T.At(Den(c, tab), [f]).props; i < |ps| ==> ListSound(b, Den(c1, tab), symbols, f, ps[i].val, ps[i].name)
    ensures |NodeAt(c1, [f]).props| == |NodeAt(c, [f]).props|
    ensures PropPlace(c1, [f], i) == PropPlace(c, [f], i) && PropPlace(c1, [f], i + 1) == PropPlace(c, [f], i + 1)
  {
    hide Den, T.At, T.HasPath, FixupProps, FixupList, ListSound, HasPath, NodeAt, PropPlace, Blank;
    var ps := T.At(Den(c, tab), [f]).props;
    assert i < |ps| ==> ps[i..][0] == ps[i];
    SamePropPlace(c, c1, [f], i);
  }

  lemma FixingPropsEnds(b: T.Tree, c: Cst, c2: Cst, tab: seq<byte>, f: nat, symbols: Result<Path>)
    requires symbols.Ok? ==> T.HasPath(b, symbols.value)
    requires T.HasPath(Den(c, tab), [f]) && FixingProps(b, c, c2, tab, f, symbols, |T.At(Den(c, tab), [f]).props|)
    ensures FixupProps(b, Den(c, tab), symbols, T.At(Den(c, tab), [f]).props) == Ok(Den(c2, tab))
  {
    hide Den, T.At, T.HasPath, FixupList, ListSound, ListsSound, Fixing;
    var ps := T.At(Den(c, tab), [f]).props;
    assert ps[|ps|..] == [];
  }

  /** The loop over the properties of `__fixups__`. */
  method FixupProperties(fdt: Fdt, fdto: Fdt, symbolsOff: int, fixupsOff: nat,
                         ghost b: Cst, ghost c: Cst, ghost symbols: Result<Path>, ghost f: nat)
    returns (ret: int, ghost c2: Cst)
    requires Resolving(fdt, fdto, symbolsOff, b, c, symbols)
    requires HasPath(c, [f]) && fixupsOff == NodeOff(c, [f]) && T.HasPath(Den(c, fdto.Strs()), [f])
    requires ListsSound(Den(b, fdt.Strs()), Den(c, fdto.Strs()), symbols, f, T.At(Den(c, fdto.Strs()), [f]).props)
    modifies fdto.buf
    ensures fdt.Layout() && InPlace(fdto, c2) && SameShape(c, c2)
    ensures var r := FixupProps(TreeOf(fdt, b), Den(c, fdto.Strs()), symbols, T.At(Den(c, fdto.Strs()), [f]).props);
      if r.Err? then ret == r.code else ret == 0 && Den(c2, fdto.Strs()) == r.value
  {
    hide Whole, HasPath, NodeOff, T.At, T.HasPath, Den, Fdt.Layout, Fdt.Strs, NodeAt, Blank, FixupList, FixupProps, IsPlace, Fixing, FixingProps, ListSound, PropPlace, ListsSound;
    c2 := c;
    WholeLayout(fdto, c);
    WholeLayout(fdt, b);
    PlaceSizes(fdto, c, [f]);
    ghost var tab, t := fdto.Strs(), TreeOf(fdt, b);
    ghost var ps, i := T.At(Den(c, tab), [f]).props, 0;
    FixingNothing(c, tab, [f]);
    assert ps[0..] == ps;
    assert FixingProps(t, c, c, tab, f, symbols, 0) by {
      FixingPropsStarts(t, c, tab, f, symbols);
    }
    PropPlaceEnd(c, [f], 0);
    var property := FirstPropAt(fdto, fixupsOff, c, [f]);
    while property >= 0
      invariant InPlace(fdto, c2) && FixingProps(t, c, c2, tab, f, symbols, i) && SameShape(c, c2)
      invariant i <= |ps| == |NodeAt(c, [f]).props| && property == PropPlace(c, [f], i)
      decreases |ps| - i
    {
      ghost var c1 := c2;
      PropPlaceEnd(c, [f], i);
      FixingPropsAt(t, c, c1, tab, f, symbols, i);
      var symbol, value := PropertyAtPlace(fdto, property, c1, [f], i);
      ret, c2 := FixupEntries(fdt, fdto, symbolsOff, symbol, value, b, c1, symbols, f);
      FixingPropsGoesOn(t, c, c1, c2, tab, f, symbols, i);
      FixingShape(c1, c2, tab, [f]);
      if ret != 0 {
        return;
      }
      FixingPropsAt(t, c, c2, tab, f, symbols, i + 1);
      SamePropPlace(c1, c2, [f], i);
      property := NextPropAt(fdto, property, c2, [f], i);
      i := i + 1;
    }
    PropPlaceEnd(c, [f], i);
    FixingPropsEnds(t, c, c2, tab, f, symbols);
    ret := 0;
  }

  lemma FixingPropsStarts(b: T.Tree, c: Cst, tab: seq<byte>, f: nat, symbols: Result<Path>)
    requires symbols.Ok? ==> T.HasPath(b, symbols.value)
    requires T.HasPath(Den(c, tab), [f]) && ListsSound(b, Den(c, tab), symbols, f, T.At(Den(c, tab), [f]).props)
    ensures FixingProps(b, c, c, tab, f, symbols, 0)
  {
    hide FixupProps, ListsSound, Den;
    var ps := T.At(Den(c, tab), [f]).props;
    assert ps[0..] == ps;
  }
}
