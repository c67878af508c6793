/** libfdt/fdt_overlay.c as a function of two trees: what applying an overlay to a base means. */
module Overlay {
  import opened Bytes
  import opened StructBlock
  import opened Results
  import opened FdtBase
  import opened Naming
  import T = Tree

  const OVERLAY: Name := Ascii("__overlay__")
  const FIXUPS: Name := Ascii("__fixups__")
  const LOCAL_FIXUPS: Name := Ascii("__local_fixups__")
  const SYMBOLS: Name := Ascii("__symbols__")
  const TARGET: Name := Ascii("target")
  const TARGET_PATH: Name := Ascii("target-path")
  const COLON: byte := 58

  // ---- relocating phandles -----------------------------------------------------------------

  /** overlay_phandle_add_offset. */
  function AddOffset(t: T.Tree, name: Name, delta: u32): Result<T.Tree> {
    var i := T.FindProp(t.props, name);
    if i == |t.props| then Err(ERR_NOTFOUND) else
    if |t.props[i].val| != 4 then Err(ERR_BADPHANDLE) else
    var v := Word(t.props[i].val, 0) + delta;
    if v >= NO_PHANDLE then Err(ERR_NOPHANDLES) else Ok(T.PatchProp(t, i, 0, BE32(v)))
  }

  function AddOffsetIfAny(t: T.Tree, name: Name, delta: u32): Result<T.Tree> {
    var r := AddOffset(t, name, delta);
    if r == Err(ERR_NOTFOUND) then Ok(t) else r
  }

  /** The two properties of one node. */
  function AdjustProps(t: T.Tree, delta: u32): Result<T.Tree> {
    var r := AddOffsetIfAny(t, PHANDLE, delta);
    if r.Err? then r else AddOffsetIfAny(r.value, LINUX_PHANDLE, delta)
  }

  /** overlay_adjust_node_phandles. */
  function AdjustNode(t: T.Tree, delta: u32): Result<T.Tree>
    decreases t, 0
  {
    match AdjustProps(t, delta)
    case Err(e) => Err(e)
    case Ok(p) =>
      match AdjustKids(t.kids, delta)
      case Err(e) => Err(e)
      case Ok(ks) => Ok(p.(kids := ks))
  }

  function AdjustKids(kids: seq<T.Tree>, delta: u32): (r: Result<seq<T.Tree>>)
    ensures r.Ok? ==> |r.value| == |kids|
    decreases kids
  {
    if kids == [] then Ok([]) else
    match AdjustNode(kids[0], delta)
    case Err(e) => Err(e)
    case Ok(k) =>
      match AdjustKids(kids[1..], delta)
      case Err(e) => Err(e)
      case Ok(ks) => Ok([k] + ks)
  }

  // ---- references inside the overlay -----------------------------------------------------------

  /** A cell of a value increased, with the wrap-around of 32-bit arithmetic. */
  function Bumped(val: seq<byte>, off: nat, delta: u32): (r: seq<byte>)
    requires off + 4 <= |val|
    ensures |r| == 4
  {
    BE32((Word(val, off) + delta) % 0x1_0000_0000)
  }

  /** The cells of property `i` at the offsets that the cells of `fix`, from `k` on, list. */
  function UpdateCells(t: T.Tree, i: nat, fix: seq<byte>, k: nat, delta: u32): Result<T.Tree>
    requires i < |t.props| && 4 * k <= |fix| && |fix| % 4 == 0
    decreases |fix| - 4 * k
  {
    if 4 * k == |fix| then Ok(t) else
    var off := Word(fix, 4 * k);
    if off + 4 > |t.props[i].val| then Err(ERR_BADOVERLAY) else
    UpdateCells(T.PatchProp(t, i, off, Bumped(t.props[i].val, off, delta)), i, fix, k + 1, delta)
  }

  /** One property of a local fixups node. */
  function UpdateProp(t: T.Tree, fix: T.Property, delta: u32): Result<T.Tree> {
    if |fix.val| % 4 != 0 then Err(ERR_BADOVERLAY) else
    var i := T.FindProp(t.props, fix.name);
    if i == |t.props| then Err(ERR_BADOVERLAY) else UpdateCells(t, i, fix.val, 0, delta)
  }

  function UpdateProps(t: T.Tree, fixes: seq<T.Property>, delta: u32): Result<T.Tree>
    decreases |fixes|
  {
    if fixes == [] then Ok(t) else
    match UpdateProp(t, fixes[0], delta)
    case Err(e) => Err(e)
    case Ok(t1) => UpdateProps(t1, fixes[1..], delta)
  }

  function UpdateKid(t: T.Tree, fix: T.Tree, delta: u32): Result<T.Tree>
    decreases fix, 1
  {
    var i := T.FindKid(t.kids, fix.name);
    if i == |t.kids| then Err(ERR_BADOVERLAY) else
    match UpdateNode(t.kids[i], fix, delta)
    case Err(e) => Err(e)
    case Ok(k) => Ok(t.(kids := t.kids[i := k]))
  }

  function UpdateKids(t: T.Tree, fixes: seq<T.Tree>, delta: u32): Result<T.Tree>
    decreases fixes
  {
    if fixes == [] then Ok(t) else
    match UpdateKid(t, fixes[0], delta)
    case Err(e) => Err(e)
    case Ok(t1) => UpdateKids(t1, fixes[1..], delta)
  }

  /** overlay_update_local_node_references: `fix` says which cells of `t` are references. */
  function UpdateNode(t: T.Tree, fix: T.Tree, delta: u32): Result<T.Tree>
    decreases fix, 0
  {
    match UpdateProps(t, fix.props, delta)
    case Err(e) => Err(e)
    case Ok(t1) => UpdateKids(t1, fix.kids, delta)
  }

  /** overlay_update_local_references. */
  function UpdateLocal(o: T.Tree, delta: u32): Result<T.Tree> {
    var f := T.FindKid(o.kids, LOCAL_FIXUPS);
    if f == |o.kids| then Ok(o) else UpdateNode(o, o.kids[f], delta)
  }

  /** Offsets of cells that end below 2^32, where the source's sum of offset and length would wrap around. */
  predicate CellsFit(fix: seq<byte>) {
    forall o :: 0 <= o <= |fix| - 4 && o % 4 == 0 ==> Word(fix, o) + 4 < 0x1_0000_0000
  }

  predicate OffsetsFit(fix: T.Tree)
    decreases fix
  {
    (forall i :: 0 <= i < |fix.props| ==> CellsFit(fix.props[i].val)) && forall j :: 0 <= j < |fix.kids| ==> OffsetsFit(fix.kids[j])
  }

  /** The local fixups do not describe the node that holds them, and their offsets do not wrap around. */
  predicate LocalFixupsApart(o: T.Tree) {
    var f := T.FindKid(o.kids, LOCAL_FIXUPS);
    f < |o.kids| ==> OffsetsFit(o.kids[f]) && forall j :: 0 <= j < |o.kids[f].kids| ==> T.FindKid(o.kids, o.kids[f].kids[j].name) != f
  }

  // ---- references to the base --------------------------------------------------------------------

  datatype Fixup = Fixup(path: Name, name: Name, poffset: u32)

  predicate IsDigit(b: byte) { 48 <= b <= 57 }

  /** Blanks that strtoul skips. */
  predicate IsSpace(b: byte) { b == 32 || 9 <= b <= 13 }

  function SkipSpace(s: seq<byte>): seq<byte> {
    if s != [] && IsSpace(s[0]) then SkipSpace(s[1..]) else s
  }

  function Decimal(s: seq<byte>): nat
    requires forall i :: 0 <= i < |s| ==> IsDigit(s[i])
  {
    if s == [] then 0 else
      assert IsDigit(s[|s| - 1]);
      10 * Decimal(s[..|s| - 1]) + (s[|s| - 1] as int - 48)
  }

  const ULONG_MAX: nat := 0xffff_ffff_ffff_ffff

  /** strtoul on a whole string, base 10, with a 64-bit long; its result stored in an int and used
      as a 32-bit offset. It fails when nothing is converted or something is left over. */
  function ParseOffset(text: Name): Result<u32> {
    var s := SkipSpace(text);
    var neg := s != [] && s[0] == 45;
    var d := if s != [] && (s[0] == 45 || s[0] == 43) then s[1..] else s;
    if d == [] || exists i :: 0 <= i < |d| && !IsDigit(d[i]) then Err(ERR_BADOVERLAY) else
    // out of range, strtoul answers its largest number whatever the sign
    var v := if Decimal(d) > ULONG_MAX then ULONG_MAX else if neg then ULONG_MAX + 1 - Decimal(d) else Decimal(d);
    Ok(v % 0x1_0000_0000)
  }

  /** One entry of a `__fixups__` property: path, property name and offset, between colons. */
  function ParseFixup(s: Name): Result<Fixup> {
    var n := IndexOf(s, COLON);
    if n == |s| || n == |s| - 1 then Err(ERR_BADOVERLAY) else
    var rest := s[n + 1..];
    var m := IndexOf(rest, COLON);
    if m == |rest| || m == 0 then Err(ERR_BADOVERLAY) else
    match ParseOffset(rest[m + 1..])
    case Err(e) => Err(e)
    case Ok(v) => Ok(Fixup(s[..n], rest[..m], v))
  }

  /** The phandle of the node in the base that a label stands for. */
  ghost function LabelPhandle(b: T.Tree, symbols: Result<Path>, symbol: Name): Result<u32>
    requires symbols.Ok? ==> T.HasPath(b, symbols.value)
  {
    if symbols.Err? then Err(symbols.code) else
    var ps := T.At(b, symbols.value).props;
    var i := T.FindProp(ps, symbol);
    if i == |ps| then Err(ERR_NOTFOUND) else
    if !StringAt(ps[i].val, 0) then Err(ERR_BADOVERLAY) else
    match NodeByPath(b, CStr(ps[i].val, 0))
    case Err(e) => Err(e)
    case Ok(p) =>
      var h := PhandleOf(T.At(b, p));
      if h == 0 then Err(ERR_NOTFOUND) else Ok(h)
  }

  /** The cell that a fixup names is set. */
  ghost function SetCell(o: T.Tree, f: Fixup, h: u32): Result<T.Tree> {
    match NodeByPath(o, f.path)
    case Err(e) => Err(if e == ERR_NOTFOUND then ERR_BADOVERLAY else e)
    case Ok(p) =>
      var x := T.At(o, p);
      var i := T.FindProp(x.props, f.name);
      if i == |x.props| then Err(ERR_NOTFOUND) else
      if f.poffset + 4 > |x.props[i].val| then Err(ERR_NOSPACE) else
      Ok(T.Put(o, p, T.PatchProp(x, i, f.poffset, BE32(h))))
  }

  /** overlay_fixup_one_phandle. */
  ghost function FixupOne(b: T.Tree, o: T.Tree, symbols: Result<Path>, f: Fixup, symbol: Name): Result<T.Tree>
    requires symbols.Ok? ==> T.HasPath(b, symbols.value)
  {
    match LabelPhandle(b, symbols, symbol)
    case Err(e) => Err(e)
    case Ok(h) => SetCell(o, f, h)
  }

  /** overlay_fixup_phandle: every entry of one `__fixups__` property. */
  ghost function FixupList(b: T.Tree, o: T.Tree, symbols: Result<Path>, val: seq<byte>, symbol: Name): Result<T.Tree>
    requires symbols.Ok? ==> T.HasPath(b, symbols.value)
    decreases |val|
  {
    var z := NulFrom(val, 0);
    if z == |val| then Err(ERR_BADOVERLAY) else
    match ParseFixup(val[..z])
    case Err(e) => Err(e)
    case Ok(f) =>
      match FixupOne(b, o, symbols, f, symbol)
      case Err(e) => Err(e)
      case Ok(o1) => if z + 1 == |val| then Ok(o1) else FixupList(b, o1, symbols, val[z + 1..], symbol)
  }

  ghost function FixupProps(b: T.Tree, o: T.Tree, symbols: Result<Path>, ps: seq<T.Property>): Result<T.Tree>
    requires symbols.Ok? ==> T.HasPath(b, symbols.value)
    decreases |ps|
  {
    if ps == [] then Ok(o) else
    match FixupList(b, o, symbols, ps[0].val, ps[0].name)
    case Err(e) => Err(e)
    case Ok(o1) => FixupProps(b, o1, symbols, ps[1..])
  }

  /** overlay_fixup_phandles. */
  ghost function FixupAll(b: T.Tree, o: T.Tree): Result<T.Tree> {
    var f := T.FindKid(o.kids, FIXUPS);
    if f == |o.kids| then Ok(o) else FixupProps(b, o, Descend(b, [], [SYMBOLS]), o.kids[f].props)
  }

  // ---- merging -------------------------------------------------------------------------------------

  /** overlay_get_target. */
  ghost function Target(b: T.Tree, fragment: T.Tree): (r: Result<Path>)
    ensures r.Ok? ==> T.HasPath(b, r.value)
  {
    var i := T.FindProp(fragment.props, TARGET);
    var h := if i == |fragment.props| then 0
             else if |fragment.props[i].val| != 4 then NO_PHANDLE
             else Word(fragment.props[i].val, 0);
    if h == NO_PHANDLE then Err(ERR_BADPHANDLE) else
    if h != 0 then NodeByPhandle(b, h) else
    var j := T.FindProp(fragment.props, TARGET_PATH);
    if j == |fragment.props| || !StringAt(fragment.props[j].val, 0) then Err(ERR_BADOVERLAY)
    else NodeByPath(b, CStr(fragment.props[j].val, 0))
  }

  /** One fragment: the deep merge of its `__overlay__` node into its target; a child of the overlay
      that has no such node is no fragment. */
  ghost function MergeFragment(b: T.Tree, fragment: T.Tree): Result<T.Tree> {
    var i := T.FindKid(fragment.kids, OVERLAY);
    if i == |fragment.kids| then Ok(b) else
    match Target(b, fragment)
    case Err(e) => Err(e)
    case Ok(p) => Ok(T.Put(b, p, T.Merge(T.At(b, p), fragment.kids[i])))
  }

  /** overlay_merge: the fragments in order, each into what the ones before it made of the base. */
  ghost function MergeFragments(b: T.Tree, fragments: seq<T.Tree>): Result<T.Tree>
    decreases |fragments|
  {
    if fragments == [] then Ok(b) else
    match MergeFragment(b, fragments[0])
    case Err(e) => Err(e)
    case Ok(b1) => MergeFragments(b1, fragments[1..])
  }

  /** The overlay after its phandles and references have been made to fit the base. */
  function Relocated(b: T.Tree, o: T.Tree): Result<T.Tree> {
    match AdjustNode(o, MaxPhandle(b))
    case Err(e) => Err(e)
    case Ok(o1) => UpdateLocal(o1, MaxPhandle(b))
  }

  ghost function Prepared(b: T.Tree, o: T.Tree): Result<T.Tree> {
    match Relocated(b, o)
    case Err(e) => Err(e)
    case Ok(o2) => FixupAll(b, o2)
  }

  /** fdt_overlay_apply. */
  ghost function Applied(b: T.Tree, o: T.Tree): Result<T.Tree> {
    match Prepared(b, o)
    case Err(e) => Err(e)
    case Ok(o3) => MergeFragments(b, o3.kids)
  }
}
