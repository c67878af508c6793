/** What an overlay may look like for its application to follow the trees: said of the base and
    the overlay as they are handed in, not of what the steps make of them. */
module OverlaySound {
  import opened Bytes
  import opened StructBlock
  import opened Results
  import opened FdtBase
  import opened Naming
  import opened Overlay
  import opened OverlayFixups
  import opened OverlayApply
  import opened RelocLaws
  import T = Tree

  // ---- plain overlays --------------------------------------------------------------------------

  /** An absolute path and its terminator. */
  predicate AbsolutePath(val: seq<byte>) {
    IsAbsolute(val) && StringAt(val, 0)
  }

  predicate NoPhandles(t: T.Tree)
    decreases t
  {
    !HasPhandle(t) && forall k :: 0 <= k < |t.kids| ==> NoPhandles(t.kids[k])
  }

  /** The entries are at absolute paths, none of the fixups node, and of no target-path. */
  predicate EntriesPlain(o: T.Tree, f: nat, val: seq<byte>)
    decreases |val|
  {
    var z := NulFrom(val, 0);
    z < |val| ==>
      var e := ParseFixup(val[..z]);
      e.Ok? ==>
        && IsAbsolute(e.value.path) && NodeAtPath(o, e.value.path) != Ok([f])
        && e.value.poffset + 4 < 0x1_0000_0000 && e.value.name != TARGET_PATH
        && EntriesPlain(o, f, val[z + 1..])
  }

  predicate LabelPlain(b: T.Tree, symbols: Result<Path>, symbol: Name)
    requires symbols.Ok? ==> T.HasPath(b, symbols.value)
  {
    symbols.Ok? ==>
      var ps := T.At(b, symbols.value).props;
      var i := T.FindProp(ps, symbol);
      i < |ps| ==> AbsolutePath(ps[i].val)
  }

  predicate TargetPlain(fragment: T.Tree) {
    T.FindProp(fragment.props, TARGET_PATH) < |fragment.props| ==> AbsolutePath(T.ValueOf(fragment, TARGET_PATH))
  }

  /** One child of the local fixups node: not of either table, and of no target-path. */
  predicate LocalPlain(o: T.Tree, x: T.Tree, l: nat, f: nat) {
    var i := T.FindKid(o.kids, x.name);
    && (i < |o.kids| ==> i != l && i != f)
    && T.FindProp(x.props, TARGET_PATH) == |x.props|
  }

  /** The local fixups. */
  predicate LocalsPlain(o: T.Tree) {
    var l, f := T.FindKid(o.kids, LOCAL_FIXUPS), T.FindKid(o.kids, FIXUPS);
    l < |o.kids| ==>
      && NoPhandles(o.kids[l]) && OffsetsFit(o.kids[l])
      && forall j :: 0 <= j < |o.kids[l].kids| ==> LocalPlain(o, o.kids[l].kids[j], l, f)
  }

  /** The fixups. */
  predicate FixupsPlain(b: T.Tree, o: T.Tree) {
    var f := T.FindKid(o.kids, FIXUPS);
    f < |o.kids| ==>
      && !HasPhandle(o.kids[f])
      && forall i :: 0 <= i < |o.kids[f].props| ==>
           EntriesPlain(o, f, o.kids[f].props[i].val) && LabelPlain(b, Descend(b, [], [SYMBOLS]), o.kids[f].props[i].name)
  }

  /** Every path in the tables and the fragments is absolute; the tables hold no phandles; and they
      describe neither themselves nor a target-path. */
  predicate Plain(b: T.Tree, o: T.Tree) {
    && LocalsPlain(o) && FixupsPlain(b, o)
    && forall k :: 0 <= k < |o.kids| ==> TargetPlain(o.kids[k])
  }

  // ---- what the steps keep -----------------------------------------------------------------------

  predicate KidKept(x: T.Tree, y: T.Tree, all: bool) {
    && T.ValueOf(x, TARGET_PATH) == T.ValueOf(y, TARGET_PATH)
    && (all ==> x.props == y.props)
  }

  /** The names, the target-paths, and all of the fixups node. */
  predicate Kept(a: T.Tree, b: T.Tree, f: nat) {
    Skel(a) == Skel(b) && |a.kids| == |b.kids| && forall k :: 0 <= k < |a.kids| ==> KidKept(a.kids[k], b.kids[k], k == f)
  }

  lemma KeptAgain(a: T.Tree, b: T.Tree, c: T.Tree, f: nat)
    requires Kept(a, b, f) && Kept(b, c, f)
    ensures Kept(a, c, f)
  {
    hide Skel, KidKept;
    forall k | 0 <= k < |a.kids|
      ensures KidKept(a.kids[k], c.kids[k], k == f)
    {
      assert KidKept(a.kids[k], b.kids[k], k == f) && KidKept(b.kids[k], c.kids[k], k == f);
      KidKeptAgain(a.kids[k], b.kids[k], c.kids[k], k == f);
    }
  }

  lemma KidKeptAgain(x: T.Tree, y: T.Tree, z: T.Tree, all: bool)
    requires KidKept(x, y, all) && KidKept(y, z, all)
    ensures KidKept(x, z, all)
  {
  }

  /** One child replaced. */
  lemma KidPut(t: T.Tree, i: nat, x: T.Tree, f: nat)
    requires i < |t.kids| && Skel(x) == Skel(t.kids[i]) && KidKept(t.kids[i], x, i == f)
    ensures Kept(t, t.(kids := t.kids[i := x]), f)
  {
    hide Skel;
    SkelKid(t, i, x);
  }

  // ---- phandles -------------------------------------------------------------------------------------

  lemma OffsetKeeps(t: T.Tree, name: Name, delta: u32)
    requires AddOffsetIfAny(t, name, delta).Ok? && name != TARGET_PATH
    ensures var x := AddOffsetIfAny(t, name, delta).value;
      && Skel(x) == Skel(t) && x.kids == t.kids && T.ValueOf(x, TARGET_PATH) == T.ValueOf(t, TARGET_PATH)
      && (T.FindProp(t.props, name) == |t.props| ==> x == t)
  {
    hide Skel, Word, BE32;
    if AddOffset(t, name, delta).Ok? {
      AddOffsetEffect(t, name, delta);
      PatchSkel(t, T.FindProp(t.props, name), 0, BE32(Word(t.props[T.FindProp(t.props, name)].val, 0) + delta));
    }
  }

  lemma PropsAdjusted(t: T.Tree, delta: u32)
    requires AdjustProps(t, delta).Ok?
    ensures var x := AdjustProps(t, delta).value;
      && Skel(x) == Skel(t) && x.kids == t.kids && KidKept(t, x, !HasPhandle(t)) && (!HasPhandle(t) ==> x == t)
  {
    hide Skel, AddOffsetIfAny;
    assert PHANDLE[0] == 112 && LINUX_PHANDLE[0] == 108 && TARGET_PATH[0] == 116;
    OffsetKeeps(t, PHANDLE, delta);
    OffsetKeeps(AddOffsetIfAny(t, PHANDLE, delta).value, LINUX_PHANDLE, delta);
  }

  lemma {:induction false} NodeAdjusted(t: T.Tree, delta: u32)
    requires AdjustNode(t, delta).Ok?
    ensures var x := AdjustNode(t, delta).value;
      && Skel(x) == Skel(t) && KidKept(t, x, !HasPhandle(t)) && (NoPhandles(t) ==> x == t)
    decreases t, 1
  {
    hide Skel, AdjustProps, HasPhandle, AdjustKids;
    var x, p := AdjustNode(t, delta).value, AdjustProps(t, delta).value;
    PropsAdjusted(t, delta);
    KidsAdjusted(t.kids, delta);
    SkelParts(p, t.kids, x.kids);
  }

  lemma SkelParts(p: T.Tree, kids: seq<T.Tree>, ks: seq<T.Tree>)
    requires p.kids == kids && SkelKids(ks) == SkelKids(kids)
    ensures Skel(p.(kids := ks)) == Skel(p)
  {
  }

  lemma {:induction false} KidsAdjusted(kids: seq<T.Tree>, delta: u32)
    requires AdjustKids(kids, delta).Ok?
    ensures var ks := AdjustKids(kids, delta).value;
      && SkelKids(ks) == SkelKids(kids)
      && ((forall k :: 0 <= k < |kids| ==> NoPhandles(kids[k])) ==> ks == kids)
    decreases kids
  {
    hide Skel, AdjustNode, NoPhandles;
    if kids != [] {
      var ks := AdjustKids(kids, delta).value;
      NodeAdjusted(kids[0], delta);
      KidsAdjusted(kids[1..], delta);
      assert ks[1..] == AdjustKids(kids[1..], delta).value;
      if forall k :: 0 <= k < |kids| ==> NoPhandles(kids[k]) {
        assert forall k :: 0 <= k < |kids[1..]| ==> kids[1..][k] == kids[k + 1];
      }
    }
  }

  /** Relocating the phandles keeps the tables. */
  lemma Adjusted(o: T.Tree, delta: u32, f: nat)
    requires AdjustNode(o, delta).Ok? && (f < |o.kids| ==> !HasPhandle(o.kids[f]))
    ensures var o1 := AdjustNode(o, delta).value;
      Kept(o, o1, f) && forall k :: 0 <= k < |o.kids| && NoPhandles(o.kids[k]) ==> o1.kids[k] == o.kids[k]
  {
    hide Skel, KidKept, NoPhandles, HasPhandle;
    var o1 := AdjustNode(o, delta).value;
    NodeAdjusted(o, delta);
    forall k | 0 <= k < |o.kids|
      ensures KidKept(o.kids[k], o1.kids[k], k == f) && (NoPhandles(o.kids[k]) ==> o1.kids[k] == o.kids[k])
    {
      AdjustedKid(o.kids, delta, k);
      NodeAdjusted(o.kids[k], delta);
      KidKeptLess(o.kids[k], o1.kids[k], !HasPhandle(o.kids[k]), k == f);
    }
  }

  lemma KidKeptLess(x: T.Tree, y: T.Tree, all: bool, less: bool)
    requires KidKept(x, y, all) && (less ==> all)
    ensures KidKept(x, y, less)
  {
  }

  // ---- local references -------------------------------------------------------------------------------

  lemma PatchKeeps(t: T.Tree, i: nat, idx: nat, val: seq<byte>)
    requires i < |t.props| && idx + |val| <= |t.props[i].val| && t.props[i].name != TARGET_PATH
    ensures var x := T.PatchProp(t, i, idx, val); Skel(x) == Skel(t) && x.kids == t.kids && KidKept(t, x, false)
  {
    hide Skel, T.Patched;
    PatchSkel(t, i, idx, val);
    SameSkelFind(t, T.PatchProp(t, i, idx, val), TARGET_PATH);
  }

  lemma {:induction false} CellsKeep(t: T.Tree, i: nat, fix: seq<byte>, k: nat, delta: u32)
    requires i < |t.props| && 4 * k <= |fix| && |fix| % 4 == 0 && t.props[i].name != TARGET_PATH
    requires UpdateCells(t, i, fix, k, delta).Ok?
    ensures var x := UpdateCells(t, i, fix, k, delta).value; Skel(x) == Skel(t) && x.kids == t.kids && KidKept(t, x, false)
    decreases |fix| - 4 * k
  {
    hide Skel, KidKept, Word, BE32, T.Patched;
    if 4 * k < |fix| {
      var off := Word(fix, 4 * k);
      var t1 := T.PatchProp(t, i, off, Bumped(t.props[i].val, off, delta));
      PatchKeeps(t, i, off, Bumped(t.props[i].val, off, delta));
      CellsKeep(t1, i, fix, k + 1, delta);
      KidKeptAgain(t, t1, UpdateCells(t, i, fix, k, delta).value, false);
    } else {
      KidKeptSelf(t);
    }
  }

  lemma KidKeptSelf(t: T.Tree)
    ensures KidKept(t, t, false)
  {
  }

  lemma {:induction false} PropsKeep(t: T.Tree, fixes: seq<T.Property>, delta: u32)
    requires UpdateProps(t, fixes, delta).Ok? && T.FindProp(fixes, TARGET_PATH) == |fixes|
    ensures var x := UpdateProps(t, fixes, delta).value; Skel(x) == Skel(t) && x.kids == t.kids && KidKept(t, x, false)
    decreases |fixes|
  {
    hide Skel, KidKept, UpdateCells;
    if fixes == [] {
      KidKeptSelf(t);
    } else {
      var t1 := UpdateProp(t, fixes[0], delta).value;
      CellsKeep(t, T.FindProp(t.props, fixes[0].name), fixes[0].val, 0, delta);
      PropsKeep(t1, fixes[1..], delta);
      KidKeptAgain(t, t1, UpdateProps(t1, fixes[1..], delta).value, false);
    }
  }

  lemma NodeKeeps(t: T.Tree, fix: T.Tree, delta: u32)
    requires UpdateNode(t, fix, delta).Ok? && T.FindProp(fix.props, TARGET_PATH) == |fix.props|
    ensures var x := UpdateNode(t, fix, delta).value; Skel(x) == Skel(t) && KidKept(t, x, false)
  {
    hide Skel, UpdateProps, UpdateKids, T.FindProp;
    UpdateShifts(t, fix, delta, [], 0, 0);
    PropsKeep(t, fix.props, delta);
    KidsKeepProps(UpdateProps(t, fix.props, delta).value, fix.kids, delta);
  }

  lemma {:induction false} KidsKeepProps(t: T.Tree, fixes: seq<T.Tree>, delta: u32)
    requires UpdateKids(t, fixes, delta).Ok?
    ensures UpdateKids(t, fixes, delta).value.props == t.props
    decreases |fixes|
  {
    hide UpdateNode, T.FindKid;
    if fixes != [] {
      KidsKeepProps(UpdateKid(t, fixes[0], delta).value, fixes[1..], delta);
    }
  }

  predicate KidPlain(t: T.Tree, x: T.Tree, f: nat) {
    var i := T.FindKid(t.kids, x.name);
    (i < |t.kids| ==> i != f) && T.FindProp(x.props, TARGET_PATH) == |x.props|
  }

  lemma {:induction false} KidsKeep(t: T.Tree, fixes: seq<T.Tree>, delta: u32, f: nat)
    requires UpdateKids(t, fixes, delta).Ok?
    requires forall j :: 0 <= j < |fixes| ==> KidPlain(t, fixes[j], f)
    ensures Kept(t, UpdateKids(t, fixes, delta).value, f)
    decreases |fixes|
  {
    hide Skel, KidKept, UpdateNode, T.FindKid, T.FindProp;
    if fixes == [] {
      KeptSelf(t, f);
    } else {
      var i, t1 := T.FindKid(t.kids, fixes[0].name), UpdateKid(t, fixes[0], delta).value;
      assert KidPlain(t, fixes[0], f);
      NodeKeeps(t.kids[i], fixes[0], delta);
      KidPut(t, i, UpdateNode(t.kids[i], fixes[0], delta).value, f);
      forall j | 0 <= j < |fixes[1..]|
        ensures KidPlain(t1, fixes[1..][j], f)
      {
        assert fixes[1..][j] == fixes[j + 1] && KidPlain(t, fixes[j + 1], f);
        SameSkelFind(t, t1, fixes[j + 1].name);
      }
      KidsKeep(t1, fixes[1..], delta, f);
      KeptAgain(t, t1, UpdateKids(t1, fixes[1..], delta).value, f);
    }
  }

  lemma KeptSelf(t: T.Tree, f: nat)
    ensures Kept(t, t, f)
  {
  }

  /** Moving the local references keeps the fixups and the target-paths. */
  lemma Updated(o: T.Tree, o1: T.Tree, delta: u32, f: nat)
    requires Kept(o, o1, f) && UpdateLocal(o1, delta).Ok?
    requires var l := T.FindKid(o.kids, LOCAL_FIXUPS);
      l < |o.kids| ==> o1.kids[l] == o.kids[l] && forall j :: 0 <= j < |o.kids[l].kids| ==> LocalPlain(o, o.kids[l].kids[j], l, f)
    ensures Kept(o1, UpdateLocal(o1, delta).value, f)
  {
    hide Skel, KidKept, UpdateProps, UpdateKids, T.FindKid, T.FindProp;
    SameSkelFind(o, o1, LOCAL_FIXUPS);
    var l := T.FindKid(o.kids, LOCAL_FIXUPS);
    if l == |o.kids| {
      KeptSelf(o1, f);
    } else {
      var fix := o1.kids[l];
      var t1 := UpdateProps(o1, fix.props, delta).value;
      RootKeeps(o1, fix.props, delta, f);
      forall j | 0 <= j < |fix.kids|
        ensures KidPlain(t1, fix.kids[j], f)
      {
        assert LocalPlain(o, o.kids[l].kids[j], l, f);
        SameSkelFind(o, o1, fix.kids[j].name);
      }
      KidsKeep(t1, fix.kids, delta, f);
      KeptAgain(o1, t1, UpdateKids(t1, fix.kids, delta).value, f);
    }
  }

  /** The properties of the root are neither. */
  lemma RootKeeps(t: T.Tree, fixes: seq<T.Property>, delta: u32, f: nat)
    requires UpdateProps(t, fixes, delta).Ok?
    ensures var x := UpdateProps(t, fixes, delta).value; Kept(t, x, f) && x.kids == t.kids
  {
    hide Skel, UpdateProps;
    PropsShiftSkel(t, fixes, delta);
  }

  lemma PropsShiftSkel(t: T.Tree, fixes: seq<T.Property>, delta: u32)
    requires UpdateProps(t, fixes, delta).Ok?
    ensures var x := UpdateProps(t, fixes, delta).value; Skel(x) == Skel(t) && x.kids == t.kids
  {
    PropsShift(t, fixes, delta, 0, 0);
  }

  // ---- references to the base -------------------------------------------------------------------------

  /** Lookups give the same answer in trees of the same skeleton. */
  lemma {:induction false} DescendSkel(a: T.Tree, b: T.Tree, at: Path, names: seq<Name>)
    requires Skel(a) == Skel(b) && T.HasPath(a, at)
    ensures T.HasPath(b, at) && Descend(a, at, names) == Descend(b, at, names)
    decreases |names|
  {
    hide Skel, T.FindKid, T.At, T.HasPath;
    SkelAt(a, b, at);
    if names != [] {
      SameSkelFind(T.At(a, at), T.At(b, at), names[0]);
      var i := T.FindKid(T.At(a, at).kids, names[0]);
      if i < |T.At(a, at).kids| {
        HasPathSnoc(a, at, i);
        DescendSkel(a, b, at + [i], names[1..]);
      }
    }
  }

  lemma PathSkel(a: T.Tree, b: T.Tree, path: Name)
    requires Skel(a) == Skel(b)
    ensures NodeAtPath(a, path) == NodeAtPath(b, path)
  {
    hide Skel, Descend, Components;
    DescendSkel(a, b, [], Components(path));
  }

  lemma {:induction false} EntriesSkel(a: T.Tree, b: T.Tree, f: nat, val: seq<byte>)
    requires Skel(a) == Skel(b) && EntriesPlain(a, f, val)
    ensures EntriesPlain(b, f, val)
    decreases |val|
  {
    hide Skel, NodeAtPath, ParseFixup;
    var z := NulFrom(val, 0);
    if z < |val| && ParseFixup(val[..z]).Ok? {
      PathSkel(a, b, ParseFixup(val[..z]).value.path);
      EntriesSkel(a, b, f, val[z + 1..]);
    }
  }

  lemma {:induction false} PutSkel(t: T.Tree, p: Path, x: T.Tree)
    requires T.HasPath(t, p) && Skel(x) == Skel(T.At(t, p))
    ensures Skel(T.Put(t, p, x)) == Skel(t)
    decreases |p|
  {
    hide Skel;
    if p != [] {
      PutSkel(t.kids[p[0]], p[1..], x);
      SkelKid(t, p[0], T.Put(t.kids[p[0]], p[1..], x));
    }
  }

  /** A cell set in a node other than the fixups node. */
  lemma PutKeeps(o: T.Tree, p: Path, x: T.Tree, f: nat)
    requires T.HasPath(o, p) && p != [f] && Skel(x) == Skel(T.At(o, p)) && x.kids == T.At(o, p).kids && KidKept(T.At(o, p), x, false)
    ensures Kept(o, T.Put(o, p, x), f)
  {
    hide Skel;
    if p == [] {
      assert Kept(o, x, f);
    } else {
      var k := o.kids[p[0]];
      PutSkel(k, p[1..], x);
      if |p| == 1 {
        assert p == [p[0]];
      }
      KidPut(o, p[0], T.Put(k, p[1..], x), f);
    }
  }

  lemma CellKeeps(o: T.Tree, e: Fixup, h: u32, f: nat)
    requires IsAbsolute(e.path) && NodeAtPath(o, e.path) != Ok([f]) && e.name != TARGET_PATH && SetCell(o, e, h).Ok?
    ensures Kept(o, SetCell(o, e, h).value, f)
  {
    hide Skel, NodeByPath, NodeAtPath, T.At, T.HasPath, T.Put, Kept, KidKept, BE32, T.PatchProp;
    AbsoluteEnds(o, e.path);
    var p := NodeByPath(o, e.path).value;
    var x := T.At(o, p);
    var i := T.FindProp(x.props, e.name);
    PatchKeeps(x, i, e.poffset, BE32(h));
    PutKeeps(o, p, T.PatchProp(x, i, e.poffset, BE32(h)), f);
  }

  lemma {:induction false} ListIsSound(b: T.Tree, o: T.Tree, symbols: Result<Path>, f: nat, val: seq<byte>, symbol: Name)
    requires (symbols.Ok? ==> T.HasPath(b, symbols.value)) && LabelPlain(b, symbols, symbol) && EntriesPlain(o, f, val)
    ensures ListSound(b, o, symbols, f, val, symbol)
    ensures var r := FixupList(b, o, symbols, val, symbol); r.Ok? ==> Kept(o, r.value, f)
    decreases |val|
  {
    hide Skel, Kept, NodeAtPath, NodeByPath, Ends, PathEnds, ParseFixup, LabelPhandle, SetCell, LabelPlain, LabelSound;
    var z := NulFrom(val, 0);
    if z < |val| && ParseFixup(val[..z]).Ok? {
      var e := ParseFixup(val[..z]).value;
      LabelIsSound(b, symbols, symbol);
      AbsoluteEnds(o, e.path);
      var r := FixupOne(b, o, symbols, e, symbol);
      if r.Ok? {
        CellKeeps(o, e, LabelPhandle(b, symbols, symbol).value, f);
        KeptSkel(o, r.value, f);
        EntriesSkel(o, r.value, f, val[z + 1..]);
        ListIsSound(b, r.value, symbols, f, val[z + 1..], symbol);
        var r2 := FixupList(b, r.value, symbols, val[z + 1..], symbol);
        if r2.Ok? {
          KeptAgain(o, r.value, r2.value, f);
        }
      }
    }
  }

  lemma KeptSkel(a: T.Tree, b: T.Tree, f: nat)
    requires Kept(a, b, f)
    ensures Skel(a) == Skel(b)
  {
  }

  lemma LabelIsSound(b: T.Tree, symbols: Result<Path>, symbol: Name)
    requires (symbols.Ok? ==> T.HasPath(b, symbols.value)) && LabelPlain(b, symbols, symbol)
    ensures LabelSound(b, symbols, symbol)
  {
    if symbols.Ok? {
      var ps := T.At(b, symbols.value).props;
      var i := T.FindProp(ps, symbol);
      if i < |ps| {
        PathIsSound(b, ps[i].val);
      }
    }
  }

  lemma PathIsSound(b: T.Tree, val: seq<byte>)
    requires AbsolutePath(val)
    ensures PathValue(b, val)
  {
    AbsoluteEnds(b, CStr(val, 0));
  }

  lemma {:induction false} ListsAreSound(b: T.Tree, o: T.Tree, symbols: Result<Path>, f: nat, ps: seq<T.Property>)
    requires symbols.Ok? ==> T.HasPath(b, symbols.value)
    requires forall i :: 0 <= i < |ps| ==> EntriesPlain(o, f, ps[i].val) && LabelPlain(b, symbols, ps[i].name)
    ensures ListsSound(b, o, symbols, f, ps)
    ensures var r := FixupProps(b, o, symbols, ps); r.Ok? ==> Kept(o, r.value, f)
    decreases |ps|
  {
    hide Skel, Kept, EntriesPlain, LabelPlain, ListSound, FixupList;
    if ps == [] {
      KeptSelf(o, f);
    } else {
      ListIsSound(b, o, symbols, f, ps[0].val, ps[0].name);
      var r := FixupList(b, o, symbols, ps[0].val, ps[0].name);
      if r.Ok? {
        KeptSkel(o, r.value, f);
        forall i | 0 <= i < |ps[1..]|
          ensures EntriesPlain(r.value, f, ps[1..][i].val) && LabelPlain(b, symbols, ps[1..][i].name)
        {
          assert ps[1..][i] == ps[i + 1];
          EntriesSkel(o, r.value, f, ps[i + 1].val);
        }
        ListsAreSound(b, r.value, symbols, f, ps[1..]);
        var r2 := FixupProps(b, r.value, symbols, ps[1..]);
        if r2.Ok? {
          KeptAgain(o, r.value, r2.value, f);
        }
      }
    }
  }

  // ---- the fragments, and the whole -----------------------------------------------------------------------

  lemma {:induction false} TargetsAreSound(b: T.Tree, fs: seq<T.Tree>)
    requires forall k :: 0 <= k < |fs| ==> TargetPlain(fs[k])
    ensures TargetsSound(b, fs)
    decreases |fs|
  {
    hide TargetPlain, TargetSound, MergeFragment, T.FindKid;
    if fs != [] {
      assert TargetPlain(fs[0]);
      TargetIsSound(b, fs[0]);
      var r := MergeFragment(b, fs[0]);
      if r.Ok? {
        assert forall k :: 0 <= k < |fs[1..]| ==> fs[1..][k] == fs[k + 1];
        TargetsAreSound(r.value, fs[1..]);
      }
    }
  }

  lemma TargetIsSound(b: T.Tree, fragment: T.Tree)
    requires TargetPlain(fragment)
    ensures TargetSound(b, fragment)
  {
    hide PathValue, AbsolutePath;
    if T.FindProp(fragment.props, TARGET_PATH) < |fragment.props| {
      PathIsSound(b, T.ValueOf(fragment, TARGET_PATH));
    }
  }

  lemma TargetsKept(a: T.Tree, b: T.Tree, f: nat)
    requires Kept(a, b, f) && forall k :: 0 <= k < |a.kids| ==> TargetPlain(a.kids[k])
    ensures forall k :: 0 <= k < |b.kids| ==> TargetPlain(b.kids[k])
  {
    hide Skel, AbsolutePath, T.FindProp, T.ValueOf;
    forall k | 0 <= k < |b.kids|
      ensures TargetPlain(b.kids[k])
    {
      assert TargetPlain(a.kids[k]) && KidKept(a.kids[k], b.kids[k], k == f);
      SameSkelFind(a, b, []);
      SameSkelFind(a.kids[k], b.kids[k], TARGET_PATH);
    }
  }

  lemma FixupsAreSound(b: T.Tree, o: T.Tree, o2: T.Tree, f: nat)
    requires f == T.FindKid(o.kids, FIXUPS) && Kept(o, o2, f) && FixupsPlain(b, o)
    ensures FixupsSound(b, o2)
    ensures var r := FixupAll(b, o2); r.Ok? ==> Kept(o2, r.value, f)
  {
    hide Skel, HasPhandle, EntriesPlain, LabelPlain, ListsSound, FixupProps, Descend, T.FindKid;
    SameSkelFind(o, o2, FIXUPS);
    if f < |o.kids| {
      assert KidKept(o.kids[f], o2.kids[f], f == f);
      var ps := o2.kids[f].props;
      forall i | 0 <= i < |ps|
        ensures EntriesPlain(o2, f, ps[i].val)
      {
        EntriesSkel(o, o2, f, ps[i].val);
      }
      ListsAreSound(b, o2, Descend(b, [], [SYMBOLS]), f, ps);
    }
  }

  /** The local fixups of the relocated overlay. */
  lemma LocalsAreApart(o: T.Tree, o1: T.Tree, f: nat)
    requires Kept(o, o1, f) && LocalsPlain(o)
    requires var l := T.FindKid(o.kids, LOCAL_FIXUPS); l < |o.kids| ==> o1.kids[l] == o.kids[l]
    ensures LocalFixupsApart(o1)
  {
    hide Skel, NoPhandles, OffsetsFit, T.FindKid, T.FindProp;
    SameSkelFind(o, o1, LOCAL_FIXUPS);
    var l := T.FindKid(o.kids, LOCAL_FIXUPS);
    if l < |o.kids| {
      forall j | 0 <= j < |o1.kids[l].kids|
        ensures T.FindKid(o1.kids, o1.kids[l].kids[j].name) != l
      {
        SameSkelFind(o, o1, o1.kids[l].kids[j].name);
      }
    }
  }

  /** Relocating such an overlay keeps its names, its fixups and its target-paths. */
  lemma PlainRelocated(b: T.Tree, o: T.Tree)
    requires Plain(b, o) && Relocated(b, o).Ok?
    ensures Kept(o, Relocated(b, o).value, T.FindKid(o.kids, FIXUPS))
  {
    hide Skel, Kept, AdjustNode, UpdateLocal, NoPhandles, HasPhandle, OffsetsFit, LocalPlain, EntriesPlain, LabelPlain, MaxPhandle, TargetPlain, T.FindKid;
    var f, delta := T.FindKid(o.kids, FIXUPS), MaxPhandle(b);
    var o1 := AdjustNode(o, delta).value;
    Adjusted(o, delta, f);
    Updated(o, o1, delta, f);
    KeptAgain(o, o1, UpdateLocal(o1, delta).value, f);
  }

  /** For such a base and overlay no step meets a path that it cannot follow or a table that
      describes itself. */
  lemma PlainIsSound(b: T.Tree, o: T.Tree)
    requires Plain(b, o)
    ensures Sound(b, o)
  {
    hide Skel, Kept, AdjustNode, UpdateLocal, FixupAll, LocalFixupsApart, FixupsSound, TargetsSound, NoPhandles, HasPhandle, OffsetsFit, LocalPlain, EntriesPlain, LabelPlain, MaxPhandle, TargetPlain, T.FindKid;
    var f, l, delta := T.FindKid(o.kids, FIXUPS), T.FindKid(o.kids, LOCAL_FIXUPS), MaxPhandle(b);
    var r1 := AdjustNode(o, delta);
    if r1.Ok? {
      Adjusted(o, delta, f);
      LocalsAreApart(o, r1.value, f);
      var r2 := UpdateLocal(r1.value, delta);
      if r2.Ok? {
        Updated(o, r1.value, delta, f);
        KeptAgain(o, r1.value, r2.value, f);
        FixupsAreSound(b, o, r2.value, f);
        var r3 := FixupAll(b, r2.value);
        if r3.Ok? {
          KeptAgain(o, r2.value, r3.value, f);
          TargetsKept(o, r3.value, f);
          TargetsAreSound(b, r3.value.kids);
        }
      }
    }
  }
}
