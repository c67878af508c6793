/** What relocating an overlay is for: its phandles are new to the base, and the references inside
    it still lead to the same nodes. */
module RelocLaws {
  import opened Bytes
  import opened StructBlock
  import opened Results
  import opened FdtBase
  import opened Naming
  import opened Overlay
  import opened PropEdit
  import T = Tree

  // ---- phandles ----------------------------------------------------------------------------

  /** The node has a phandle property, whatever it holds. */
  predicate HasPhandle(t: T.Tree) {
    T.FindProp(t.props, PHANDLE) < |t.props| || T.FindProp(t.props, LINUX_PHANDLE) < |t.props|
  }

  lemma PhandleNames()
    ensures PHANDLE != LINUX_PHANDLE
  {
    assert PHANDLE[0] == 112 && LINUX_PHANDLE[0] == 108;
  }

  /** One property increased: every other name finds what it found. */
  lemma AddOffsetEffect(t: T.Tree, name: Name, delta: u32)
    requires AddOffset(t, name, delta).Ok?
    ensures var x := AddOffset(t, name, delta).value;
      && HasCell(t, name) && HasCell(x, name)
      && Word(T.ValueOf(x, name), 0) == Word(T.ValueOf(t, name), 0) + delta < NO_PHANDLE
      && x.name == t.name && x.kids == t.kids && |x.props| == |t.props|
      && forall other: Name :: other != name ==>
           (T.FindProp(x.props, other) == T.FindProp(t.props, other) && T.ValueOf(x, other) == T.ValueOf(t, other))
  {
    hide BE32;
    var i := T.FindProp(t.props, name);
    var v := Word(t.props[i].val, 0) + delta;
    var x := T.PatchProp(t, i, 0, BE32(v));
    T.FindPropIs(x.props, name, i);
    assert T.Patched(t.props[i].val, 0, BE32(v)) == BE32(v);
    WordOfBE32(v);
    forall other: Name | other != name
      ensures T.FindProp(x.props, other) == T.FindProp(t.props, other) && T.ValueOf(x, other) == T.ValueOf(t, other)
    {
      T.FindPropIs(x.props, other, T.FindProp(t.props, other));
    }
  }

  /** A node's phandle after relocation. */
  lemma AdjustedPhandle(t: T.Tree, delta: u32)
    requires AdjustProps(t, delta).Ok?
    ensures var x := AdjustProps(t, delta).value;
      && x.name == t.name && |x.props| == |t.props|
      && PhandleOf(x) == (if HasPhandle(t) then PhandleOf(t) + delta else 0) < NO_PHANDLE
  {
    hide AddOffset, T.FindProp, Word;
    PhandleNames();
    var r := AddOffset(t, PHANDLE, delta);
    NotFoundIs(t, PHANDLE, delta);
    if r.Ok? {
      AddOffsetEffect(t, PHANDLE, delta);
    }
    var t1 := AddOffsetIfAny(t, PHANDLE, delta).value;
    NotFoundIs(t1, LINUX_PHANDLE, delta);
    if AddOffset(t1, LINUX_PHANDLE, delta).Ok? {
      AddOffsetEffect(t1, LINUX_PHANDLE, delta);
    }
  }

  lemma NotFoundIs(t: T.Tree, name: Name, delta: u32)
    ensures AddOffset(t, name, delta) == Err(ERR_NOTFOUND) <==> T.FindProp(t.props, name) == |t.props|
  {
  }

  /** Every node of the overlay is relocated, and no node moves. */
  lemma {:induction false} AdjustedAt(o: T.Tree, delta: u32, p: Path)
    requires AdjustNode(o, delta).Ok?
    ensures T.HasPath(AdjustNode(o, delta).value, p) <==> T.HasPath(o, p)
    ensures T.HasPath(o, p) ==>
      var r := AdjustProps(T.At(o, p), delta);
      r.Ok? && T.At(AdjustNode(o, delta).value, p).props == r.value.props
    decreases |p|
  {
    hide AdjustProps;
    var ks := AdjustKids(o.kids, delta).value;
    if p != [] && p[0] < |o.kids| {
      AdjustedKid(o.kids, delta, p[0]);
      AdjustedAt(o.kids[p[0]], delta, p[1..]);
    }
  }

  lemma {:induction false} AdjustedKid(kids: seq<T.Tree>, delta: u32, k: nat)
    requires AdjustKids(kids, delta).Ok? && k < |kids|
    ensures AdjustNode(kids[k], delta) == Ok(AdjustKids(kids, delta).value[k])
    decreases kids
  {
    hide AdjustNode;
    if k > 0 {
      AdjustedKid(kids[1..], delta, k - 1);
    }
  }

  lemma PhandleOfProps(a: T.Tree, b: T.Tree)
    requires a.props == b.props
    ensures PhandleOf(a) == PhandleOf(b)
  {
  }

  lemma RelocatedPhandle(o: T.Tree, delta: u32, p: Path)
    requires AdjustNode(o, delta).Ok? && T.HasPath(o, p)
    ensures T.HasPath(AdjustNode(o, delta).value, p)
    ensures PhandleOf(T.At(AdjustNode(o, delta).value, p)) ==
              (if HasPhandle(T.At(o, p)) then PhandleOf(T.At(o, p)) + delta else 0) < NO_PHANDLE
  {
    hide AdjustProps, AdjustNode, T.At, T.HasPath;
    AdjustedAt(o, delta, p);
    AdjustedPhandle(T.At(o, p), delta);
    PhandleOfProps(T.At(AdjustNode(o, delta).value, p), AdjustProps(T.At(o, p), delta).value);
  }

  /** Some node of the base has the phandle. */
  ghost predicate Taken(b: T.Tree, h: u32) {
    exists q :: T.HasPath(b, q) && PhandleOf(T.At(b, q)) == h
  }

  /** Shifting by the base's maximum gives a node of the overlay a phandle that is new to the base
      (and not all-ones) exactly when it had one other than 0. */
  lemma PhandlesAreFresh(b: T.Tree, o: T.Tree, p: Path)
    requires AdjustNode(o, MaxPhandle(b)).Ok? && T.HasPath(o, p) && HasPhandle(T.At(o, p))
    ensures T.HasPath(AdjustNode(o, MaxPhandle(b)).value, p)
    ensures var h := PhandleOf(T.At(AdjustNode(o, MaxPhandle(b)).value, p));
      h != NO_PHANDLE && (h != 0 && !Taken(b, h) <==> PhandleOf(T.At(o, p)) != 0)
  {
    hide AdjustNode, MaxPhandle, PhandleOf, T.At, T.HasPath, HasPhandle;
    RelocatedPhandle(o, MaxPhandle(b), p);
    MaxPhandleBounds(b);
  }

  // ---- references ------------------------------------------------------------------------------

  /** A tree with every byte of its values zeroed: what lookups by name depend on. */
  function Skel(t: T.Tree): T.Tree
    decreases t
  {
    T.Tree(t.name, SkelProps(t.props), SkelKids(t.kids))
  }

  function SkelProps(ps: seq<T.Property>): (r: seq<T.Property>)
    ensures |r| == |ps| && forall i :: 0 <= i < |ps| ==> r[i] == T.Property(ps[i].name, Zeros(|ps[i].val|))
  {
    seq(|ps|, i requires 0 <= i < |ps| => T.Property(ps[i].name, Zeros(|ps[i].val|)))
  }

  function SkelKids(ks: seq<T.Tree>): (r: seq<T.Tree>)
    ensures |r| == |ks| && forall i :: 0 <= i < |ks| ==> r[i] == Skel(ks[i])
    decreases ks
  {
    if ks == [] then [] else
      var r := [Skel(ks[0])] + SkelKids(ks[1..]);
      assert forall i :: 1 <= i < |ks| ==> r[i] == SkelKids(ks[1..])[i - 1];
      r
  }

  lemma SkelFind(t: T.Tree, name: seq<byte>)
    ensures T.FindProp(Skel(t).props, name) == T.FindProp(t.props, name)
    ensures T.FindKid(Skel(t).kids, name) == T.FindKid(t.kids, name)
  {
    T.FindPropIs(Skel(t).props, name, T.FindProp(t.props, name));
    T.FindKidIs(Skel(t).kids, name, T.FindKid(t.kids, name));
  }

  lemma SameSkelFind(a: T.Tree, b: T.Tree, name: seq<byte>)
    requires Skel(a) == Skel(b)
    ensures T.FindProp(a.props, name) == T.FindProp(b.props, name) && |a.props| == |b.props|
    ensures T.FindKid(a.kids, name) == T.FindKid(b.kids, name) && |a.kids| == |b.kids|
    ensures forall k :: 0 <= k < |a.kids| ==> Skel(a.kids[k]) == Skel(b.kids[k])
  {
    SkelFind(a, name);
    SkelFind(b, name);
    forall k | 0 <= k < |a.kids|
      ensures Skel(a.kids[k]) == Skel(b.kids[k])
    {
      assert Skel(a).kids[k] == Skel(b).kids[k];
    }
  }

  /** How often the cells of `fix`, from `k` on, list the offset. */
  function CellHits(fix: seq<byte>, k: nat, off: nat): nat
    requires 4 * k <= |fix| && |fix| % 4 == 0
    decreases |fix| - 4 * k
  {
    if 4 * k == |fix| then 0 else (if Word(fix, 4 * k) == off then 1 else 0) + CellHits(fix, k + 1, off)
  }

  /** They list no other cell that shares a byte with the one at `off`. */
  predicate CellClear(fix: seq<byte>, k: nat, off: nat)
    requires 4 * k <= |fix| && |fix| % 4 == 0
    decreases |fix| - 4 * k
  {
    4 * k == |fix| ||
    ((Word(fix, 4 * k) == off || Word(fix, 4 * k) + 4 <= off || off + 4 <= Word(fix, 4 * k)) && CellClear(fix, k + 1, off))
  }

  function PropHits(t: T.Tree, fixes: seq<T.Property>, i: nat, off: nat): nat
    decreases |fixes|
  {
    if fixes == [] then 0 else
    (if T.FindProp(t.props, fixes[0].name) == i && |fixes[0].val| % 4 == 0 then CellHits(fixes[0].val, 0, off) else 0)
    + PropHits(t, fixes[1..], i, off)
  }

  predicate PropClear(t: T.Tree, fixes: seq<T.Property>, i: nat, off: nat)
    decreases |fixes|
  {
    fixes == [] ||
    ((T.FindProp(t.props, fixes[0].name) == i && |fixes[0].val| % 4 == 0 ==> CellClear(fixes[0].val, 0, off))
     && PropClear(t, fixes[1..], i, off))
  }

  /** How often the local fixups `fix` of `t` list the cell at `off` of property `i` of the node at `p`. */
  function Hits(t: T.Tree, fix: T.Tree, p: Path, i: nat, off: nat): nat
    decreases fix, 0
  {
    if p == [] then PropHits(t, fix.props, i, off) else KidHits(t, fix.kids, p, i, off)
  }

  function KidHits(t: T.Tree, fixes: seq<T.Tree>, p: Path, i: nat, off: nat): nat
    requires p != []
    decreases fixes
  {
    if fixes == [] then 0 else
    (if T.FindKid(t.kids, fixes[0].name) == p[0] < |t.kids| then Hits(t.kids[p[0]], fixes[0], p[1..], i, off) else 0)
    + KidHits(t, fixes[1..], p, i, off)
  }

  /** They list no other cell that overlaps it. */
  predicate Clear(t: T.Tree, fix: T.Tree, p: Path, i: nat, off: nat)
    decreases fix, 0
  {
    if p == [] then PropClear(t, fix.props, i, off) else KidClear(t, fix.kids, p, i, off)
  }

  predicate KidClear(t: T.Tree, fixes: seq<T.Tree>, p: Path, i: nat, off: nat)
    requires p != []
    decreases fixes
  {
    fixes == [] ||
    ((T.FindKid(t.kids, fixes[0].name) == p[0] < |t.kids| ==> Clear(t.kids[p[0]], fixes[0], p[1..], i, off))
     && KidClear(t, fixes[1..], p, i, off))
  }

  /** Both depend on names only. */
  lemma {:induction false} SameSkelHits(a: T.Tree, b: T.Tree, fix: T.Tree, p: Path, i: nat, off: nat)
    requires Skel(a) == Skel(b)
    ensures Hits(a, fix, p, i, off) == Hits(b, fix, p, i, off) && Clear(a, fix, p, i, off) == Clear(b, fix, p, i, off)
    decreases fix, 0
  {
    if p == [] {
      SameSkelPropHits(a, b, fix.props, i, off);
    } else {
      SameSkelKidHits(a, b, fix.kids, p, i, off);
    }
  }

  lemma {:induction false} SameSkelPropHits(a: T.Tree, b: T.Tree, fixes: seq<T.Property>, i: nat, off: nat)
    requires Skel(a) == Skel(b)
    ensures PropHits(a, fixes, i, off) == PropHits(b, fixes, i, off) && PropClear(a, fixes, i, off) == PropClear(b, fixes, i, off)
    decreases |fixes|
  {
    if fixes != [] {
      SameSkelFind(a, b, fixes[0].name);
      SameSkelPropHits(a, b, fixes[1..], i, off);
    }
  }

  lemma {:induction false} SameSkelKidHits(a: T.Tree, b: T.Tree, fixes: seq<T.Tree>, p: Path, i: nat, off: nat)
    requires Skel(a) == Skel(b) && p != []
    ensures KidHits(a, fixes, p, i, off) == KidHits(b, fixes, p, i, off)
    ensures KidClear(a, fixes, p, i, off) == KidClear(b, fixes, p, i, off)
    decreases fixes
  {
    hide Skel;
    if fixes != [] {
      SameSkelFind(a, b, fixes[0].name);
      if p[0] < |a.kids| {
        SameSkelHits(a.kids[p[0]], b.kids[p[0]], fixes[0], p[1..], i, off);
      }
      SameSkelKidHits(a, b, fixes[1..], p, i, off);
    }
  }

  /** A cell of a property of a tree. */
  predicate HasCellAt(t: T.Tree, p: Path, i: nat, off: nat) {
    T.HasPath(t, p) && i < |T.At(t, p).props| && off + 4 <= |T.At(t, p).props[i].val|
  }

  function CellAt(t: T.Tree, p: Path, i: nat, off: nat): u32
    requires HasCellAt(t, p, i, off)
  {
    Word(T.At(t, p).props[i].val, off)
  }

  /** `t2` is `t` with the cell increased `hits` times, as 32-bit numbers are. */
  predicate Shifted(t: T.Tree, t2: T.Tree, p: Path, i: nat, off: nat, hits: nat, delta: u32)
    requires HasCellAt(t, p, i, off)
  {
    HasCellAt(t2, p, i, off) && CellAt(t2, p, i, off) == (CellAt(t, p, i, off) + hits * delta) % 0x1_0000_0000
  }

  lemma ShiftedAgain(t: T.Tree, t1: T.Tree, t2: T.Tree, p: Path, i: nat, off: nat, m: nat, n: nat, delta: u32)
    requires HasCellAt(t, p, i, off) && Shifted(t, t1, p, i, off, m, delta) && Shifted(t1, t2, p, i, off, n, delta)
    ensures Shifted(t, t2, p, i, off, m + n, delta)
  {
    hide HasCellAt, CellAt;
    var v, M := CellAt(t, p, i, off), 0x1_0000_0000;
    var x, y := v + m * delta, n * delta;
    assert (m + n) * delta == m * delta + n * delta;
    assert (x % M + y) % M == (x + y) % M by {
      ModAdd(x, y);
    }
  }

  lemma ModAdd(x: nat, y: nat)
    ensures (x % 0x1_0000_0000 + y) % 0x1_0000_0000 == (x + y) % 0x1_0000_0000
  {
  }

  lemma ShiftedNot(t: T.Tree, p: Path, i: nat, off: nat, delta: u32)
    requires HasCellAt(t, p, i, off)
    ensures Shifted(t, t, p, i, off, 0, delta)
  {
  }

  /** A cell overwritten, read back; and a cell beside it. */
  lemma PatchedWord(val: seq<byte>, at: nat, n: u32, off: nat)
    requires at + 4 <= |val| && off + 4 <= |val|
    ensures at == off ==> Word(T.Patched(val, at, BE32(n)), off) == n
    ensures at + 4 <= off || off + 4 <= at ==> Word(T.Patched(val, at, BE32(n)), off) == Word(val, off)
  {
    hide BE32;
    var w := T.Patched(val, at, BE32(n));
    if at == off {
      assert w[off..off + 4] == BE32(n);
      WordAt(w, off, n);
    }
  }

  lemma PatchSkel(t: T.Tree, i: nat, idx: nat, val: seq<byte>)
    requires i < |t.props| && idx + |val| <= |t.props[i].val|
    ensures Skel(T.PatchProp(t, i, idx, val)) == Skel(t)
  {
    hide T.Patched;
    assert SkelProps(T.PatchProp(t, i, idx, val).props) == SkelProps(t.props);
  }

  lemma {:induction false} CellsShift(t: T.Tree, j: nat, fix: seq<byte>, k: nat, delta: u32, i: nat, off: nat)
    requires j < |t.props| && 4 * k <= |fix| && |fix| % 4 == 0 && UpdateCells(t, j, fix, k, delta).Ok?
    ensures var t2 := UpdateCells(t, j, fix, k, delta).value;
      Skel(t2) == Skel(t) && t2.kids == t.kids && t2.name == t.name
    ensures var t2 := UpdateCells(t, j, fix, k, delta).value;
      HasCellAt(t, [], i, off) && (j == i ==> CellClear(fix, k, off)) ==>
        Shifted(t, t2, [], i, off, if j == i then CellHits(fix, k, off) else 0, delta)
    decreases |fix| - 4 * k
  {
    hide Skel, Word, T.Patched, BE32;
    if 4 * k == |fix| {
      if HasCellAt(t, [], i, off) {
        ShiftedNot(t, [], i, off, delta);
      }
    } else {
      var at := Word(fix, 4 * k);
      var t1 := T.PatchProp(t, j, at, Bumped(t.props[j].val, at, delta));
      PatchSkel(t, j, at, Bumped(t.props[j].val, at, delta));
      CellsShift(t1, j, fix, k + 1, delta, i, off);
      if HasCellAt(t, [], i, off) && (j == i ==> CellClear(fix, k, off)) {
        if j == i {
          PatchedWord(t.props[j].val, at, (Word(t.props[j].val, at) + delta) % 0x1_0000_0000, off);
        }
        var h := if j == i && at == off then 1 else 0;
        assert Shifted(t, t1, [], i, off, h, delta);
        ShiftedAgain(t, t1, UpdateCells(t1, j, fix, k + 1, delta).value, [], i, off, h, if j == i then CellHits(fix, k + 1, off) else 0, delta);
      }
    }
  }

  lemma {:induction false} PropsShift(t: T.Tree, fixes: seq<T.Property>, delta: u32, i: nat, off: nat)
    requires UpdateProps(t, fixes, delta).Ok?
    ensures var t2 := UpdateProps(t, fixes, delta).value;
      Skel(t2) == Skel(t) && t2.kids == t.kids && t2.name == t.name
    ensures var t2 := UpdateProps(t, fixes, delta).value;
      HasCellAt(t, [], i, off) && PropClear(t, fixes, i, off) ==> Shifted(t, t2, [], i, off, PropHits(t, fixes, i, off), delta)
    decreases |fixes|
  {
    hide Skel, UpdateCells, CellHits, CellClear, Shifted;
    if fixes == [] {
      if HasCellAt(t, [], i, off) {
        ShiftedNot(t, [], i, off, delta);
      }
    } else {
      var j := T.FindProp(t.props, fixes[0].name);
      var t1 := UpdateProp(t, fixes[0], delta).value;
      CellsShift(t, j, fixes[0].val, 0, delta, i, off);
      PropsShift(t1, fixes[1..], delta, i, off);
      SameSkelPropHits(t, t1, fixes[1..], i, off);
      if HasCellAt(t, [], i, off) && PropClear(t, fixes, i, off) {
        var h := if j == i then CellHits(fixes[0].val, 0, off) else 0;
        ShiftedHas(t, t1, [], i, off, h, delta);
        ShiftedAgain(t, t1, UpdateProps(t1, fixes[1..], delta).value, [], i, off, h, PropHits(t1, fixes[1..], i, off), delta);
      }
    }
  }

  lemma ShiftedHas(t: T.Tree, t2: T.Tree, p: Path, i: nat, off: nat, n: nat, delta: u32)
    requires HasCellAt(t, p, i, off) && Shifted(t, t2, p, i, off, n, delta)
    ensures HasCellAt(t2, p, i, off)
  {
  }

  lemma SkelKid(t: T.Tree, k: nat, x: T.Tree)
    requires k < |t.kids| && Skel(x) == Skel(t.kids[k])
    ensures Skel(t.(kids := t.kids[k := x])) == Skel(t)
  {
    assert SkelKids(t.kids[k := x]) == SkelKids(t.kids);
  }

  /** UpdateNode shifts every cell as often as the fixups list it, and changes no name. */
  lemma {:induction false} UpdateShifts(t: T.Tree, fix: T.Tree, delta: u32, p: Path, i: nat, off: nat)
    requires UpdateNode(t, fix, delta).Ok?
    ensures var t2 := UpdateNode(t, fix, delta).value;
      Skel(t2) == Skel(t)
    ensures var t2 := UpdateNode(t, fix, delta).value;
      HasCellAt(t, p, i, off) && Clear(t, fix, p, i, off) ==> Shifted(t, t2, p, i, off, Hits(t, fix, p, i, off), delta)
    decreases fix, 0
  {
    hide Skel, UpdateProps, UpdateKids, PropHits, PropClear, KidHits, KidClear, CellAt, T.HasPath, T.At;
    var t1 := UpdateProps(t, fix.props, delta).value;
    PropsShift(t, fix.props, delta, i, off);
    KidsShift(t1, fix.kids, delta, p, i, off);
    if p != [] {
      SameSkelKidHits(t, t1, fix.kids, p, i, off);
      if HasCellAt(t, p, i, off) {
        KidsCell(t, t1, p, i, off);
      }
    } else if HasCellAt(t, p, i, off) && Clear(t, fix, p, i, off) {
      ShiftedHas(t, t1, p, i, off, PropHits(t, fix.props, i, off), delta);
      ShiftedAgain(t, t1, UpdateKids(t1, fix.kids, delta).value, p, i, off, PropHits(t, fix.props, i, off), 0, delta);
    }
  }

  /** A cell further down does not depend on the properties of the node. */
  lemma KidsCell(a: T.Tree, b: T.Tree, p: Path, i: nat, off: nat)
    requires a.kids == b.kids && p != [] && HasCellAt(a, p, i, off)
    ensures HasCellAt(b, p, i, off) && CellAt(b, p, i, off) == CellAt(a, p, i, off)
  {
  }

  lemma {:induction false} KidsShift(t: T.Tree, fixes: seq<T.Tree>, delta: u32, p: Path, i: nat, off: nat)
    requires UpdateKids(t, fixes, delta).Ok?
    ensures var t2 := UpdateKids(t, fixes, delta).value;
      Skel(t2) == Skel(t)
    ensures var t2 := UpdateKids(t, fixes, delta).value;
      HasCellAt(t, p, i, off) && (p != [] ==> KidClear(t, fixes, p, i, off)) ==>
        Shifted(t, t2, p, i, off, if p == [] then 0 else KidHits(t, fixes, p, i, off), delta)
    decreases fixes
  {
    hide Skel, UpdateNode, Hits, Clear, Shifted, T.HasPath, T.At;
    if fixes == [] {
      if HasCellAt(t, p, i, off) {
        ShiftedNot(t, p, i, off, delta);
      }
    } else {
      var k := T.FindKid(t.kids, fixes[0].name);
      var t1 := UpdateKid(t, fixes[0], delta).value;
      var t2 := UpdateKids(t1, fixes[1..], delta).value;
      UpdateShifts(t.kids[k], fixes[0], delta, if p == [] then [] else p[1..], i, off);
      SkelKid(t, k, UpdateNode(t.kids[k], fixes[0], delta).value);
      KidsShift(t1, fixes[1..], delta, p, i, off);
      if p != [] {
        SameSkelKidHits(t, t1, fixes[1..], p, i, off);
      }
      if HasCellAt(t, p, i, off) && (p != [] ==> KidClear(t, fixes, p, i, off)) {
        if p != [] {
          KidHasCell(t, p, i, off);
        }
        var h := if p != [] && p[0] == k then Hits(t.kids[k], fixes[0], p[1..], i, off) else 0;
        KidShift(t, k, UpdateNode(t.kids[k], fixes[0], delta).value, p, i, off, h, delta);
        ShiftedHas(t, t1, p, i, off, h, delta);
        ShiftedAgain(t, t1, t2, p, i, off, h, if p == [] then 0 else KidHits(t1, fixes[1..], p, i, off), delta);
      }
    }
  }

  lemma KidHasCell(t: T.Tree, p: Path, i: nat, off: nat)
    requires p != [] && HasCellAt(t, p, i, off)
    ensures p[0] < |t.kids| && HasCellAt(t.kids[p[0]], p[1..], i, off)
  {
  }

  /** Shifting inside one child. */
  lemma KidShift(t: T.Tree, k: nat, x: T.Tree, p: Path, i: nat, off: nat, h: nat, delta: u32)
    requires k < |t.kids| && HasCellAt(t, p, i, off)
    requires if p != [] && p[0] == k then HasCellAt(t.kids[k], p[1..], i, off) && Shifted(t.kids[k], x, p[1..], i, off, h, delta) else h == 0
    ensures Shifted(t, t.(kids := t.kids[k := x]), p, i, off, h, delta)
  {
    if !(p != [] && p[0] == k) {
      ShiftedNot(t, p, i, off, delta);
    }
  }

  /** Relocating phandles leaves every other property alone. */
  lemma OtherProps(o: T.Tree, delta: u32, p: Path, i: nat)
    requires AdjustNode(o, delta).Ok? && T.HasPath(o, p) && i < |T.At(o, p).props|
    requires T.At(o, p).props[i].name != PHANDLE && T.At(o, p).props[i].name != LINUX_PHANDLE
    ensures var o1 := AdjustNode(o, delta).value;
      T.HasPath(o1, p) && i < |T.At(o1, p).props| && T.At(o1, p).props[i] == T.At(o, p).props[i]
  {
    hide AdjustNode, Word, BE32, T.HasPath, T.At, T.Patched;
    AdjustedAt(o, delta, p);
  }

  /** The references inside an overlay survive its relocation: a cell that holds the phandle of an
      overlay node, and that the local fixups list once, holds that node's phandle afterwards. The
      sum is exact: where the definition did not overflow, no reference to it does. */
  lemma ReferencesFollow(o: T.Tree, delta: u32, p: Path, i: nat, off: nat, q: Path)
    requires AdjustNode(o, delta).Ok? && UpdateLocal(AdjustNode(o, delta).value, delta).Ok?
    requires T.HasPath(o, q) && HasPhandle(T.At(o, q))
    requires HasCellAt(o, p, i, off) && CellAt(o, p, i, off) == PhandleOf(T.At(o, q))
    requires T.At(o, p).props[i].name != PHANDLE && T.At(o, p).props[i].name != LINUX_PHANDLE
    requires var o1 := AdjustNode(o, delta).value;
      var f := T.FindKid(o1.kids, LOCAL_FIXUPS);
      && f < |o1.kids| && Hits(o1, o1.kids[f], p, i, off) == 1 && Clear(o1, o1.kids[f], p, i, off)
      && PhandleUnlisted(o1, o1.kids[f], q)
    ensures var o2 := UpdateLocal(AdjustNode(o, delta).value, delta).value;
      && HasCellAt(o2, p, i, off) && T.HasPath(o2, q)
      && CellAt(o2, p, i, off) == PhandleOf(T.At(o2, q)) == PhandleOf(T.At(o, q)) + delta < NO_PHANDLE
  {
    hide Skel, AdjustNode, UpdateNode, Hits, Clear, T.HasPath, T.At, PhandleOf, HasPhandle, PhandleUnlisted, Word;
    var o1 := AdjustNode(o, delta).value;
    var fix := o1.kids[T.FindKid(o1.kids, LOCAL_FIXUPS)];
    OtherProps(o, delta, p, i);
    UpdateShifts(o1, fix, delta, p, i, off);
    RelocatedPhandle(o, delta, q);
    PhandleKept(o1, fix, delta, q);
  }

  /** The local fixups do not list the phandle properties of the node at `q`. */
  predicate PhandleUnlisted(t: T.Tree, fix: T.Tree, q: Path) {
    T.HasPath(t, q) ==>
      var ps := T.At(t, q).props;
      forall i :: 0 <= i < |ps| && (ps[i].name == PHANDLE || ps[i].name == LINUX_PHANDLE) ==>
        Hits(t, fix, q, i, 0) == 0 && Clear(t, fix, q, i, 0)
  }

  lemma {:induction false} SkelAt(a: T.Tree, b: T.Tree, p: Path)
    requires Skel(a) == Skel(b)
    ensures T.HasPath(a, p) <==> T.HasPath(b, p)
    ensures T.HasPath(a, p) ==> Skel(T.At(a, p)) == Skel(T.At(b, p))
    decreases |p|
  {
    if p != [] && p[0] < |a.kids| {
      SameSkelFind(a, b, []);
      SkelAt(a.kids[p[0]], b.kids[p[0]], p[1..]);
    }
  }

  /** Two nodes of the same skeleton: the same properties, with values of the same lengths. */
  lemma SkelValues(a: T.Tree, b: T.Tree, name: seq<byte>)
    requires Skel(a) == Skel(b)
    ensures T.FindProp(a.props, name) == T.FindProp(b.props, name) && |a.props| == |b.props|
    ensures forall i :: 0 <= i < |a.props| ==> |a.props[i].val| == |b.props[i].val| && a.props[i].name == b.props[i].name
  {
    hide T.FindProp;
    SameSkelFind(a, b, name);
    forall i | 0 <= i < |a.props|
      ensures |a.props[i].val| == |b.props[i].val| && a.props[i].name == b.props[i].name
    {
      assert Skel(a).props[i] == Skel(b).props[i];
    }
  }

  /** The property of that name, where it is one cell, reads the same. */
  predicate SameCell(a: T.Tree, b: T.Tree, name: seq<byte>) {
    HasCell(a, name) == HasCell(b, name) && (HasCell(a, name) ==> Word(T.ValueOf(a, name), 0) == Word(T.ValueOf(b, name), 0))
  }

  lemma CellKept(t: T.Tree, fix: T.Tree, delta: u32, q: Path, name: Name)
    requires UpdateNode(t, fix, delta).Ok? && T.HasPath(t, q) && PhandleUnlisted(t, fix, q)
    requires name == PHANDLE || name == LINUX_PHANDLE
    ensures var t2 := UpdateNode(t, fix, delta).value;
      T.HasPath(t2, q) && SameCell(T.At(t, q), T.At(t2, q), name)
  {
    hide Skel, UpdateNode, Hits, Clear, Word, T.HasPath, T.At, T.FindProp;
    var t2 := UpdateNode(t, fix, delta).value;
    UpdateShifts(t, fix, delta, q, 0, 0);
    SkelAt(t, t2, q);
    SkelValues(T.At(t, q), T.At(t2, q), name);
    var i := T.FindProp(T.At(t, q).props, name);
    if HasCell(T.At(t, q), name) {
      UpdateShifts(t, fix, delta, q, i, 0);
    }
  }

  lemma PhandleKept(t: T.Tree, fix: T.Tree, delta: u32, q: Path)
    requires UpdateNode(t, fix, delta).Ok? && T.HasPath(t, q) && PhandleUnlisted(t, fix, q)
    ensures var t2 := UpdateNode(t, fix, delta).value;
      T.HasPath(t2, q) && PhandleOf(T.At(t2, q)) == PhandleOf(T.At(t, q))
  {
    hide UpdateNode, Word, T.HasPath, T.At, HasCell, T.ValueOf, PhandleUnlisted;
    CellKept(t, fix, delta, q, PHANDLE);
    CellKept(t, fix, delta, q, LINUX_PHANDLE);
  }

  // ---- when relocation fails ---------------------------------------------------------------------------

  /** The four outcomes for one phandle property. */
  lemma OffsetOutcomes(t: T.Tree, name: Name, delta: u32)
    ensures var r, i := AddOffset(t, name, delta), T.FindProp(t.props, name);
      if i == |t.props| then r == Err(ERR_NOTFOUND)
      else if |t.props[i].val| != 4 then r == Err(ERR_BADPHANDLE)
      else if Word(t.props[i].val, 0) + delta >= 0xffff_ffff then r == Err(ERR_NOPHANDLES)
      else r.Ok?
  {
    hide Word;
  }

  /** Every cell listed lies inside a value of that length. */
  predicate CellsInside(fix: seq<byte>, len: nat) {
    |fix| % 4 == 0 && forall o :: 0 <= o <= |fix| - 4 && o % 4 == 0 ==> Word(fix, o) + 4 <= len
  }

  predicate DescribesProp(t: T.Tree, p: T.Property) {
    var i := T.FindProp(t.props, p.name);
    i < |t.props| && CellsInside(p.val, |t.props[i].val|)
  }

  /** What the fixups speak of is there. */
  predicate Describes(t: T.Tree, fix: T.Tree)
    decreases fix, 0
  {
    && (forall i :: 0 <= i < |fix.props| ==> DescribesProp(t, fix.props[i]))
    && forall j :: 0 <= j < |fix.kids| ==> DescribesKid(t, fix.kids[j])
  }

  predicate DescribesKid(t: T.Tree, x: T.Tree)
    decreases x, 1
  {
    var k := T.FindKid(t.kids, x.name);
    k < |t.kids| && Describes(t.kids[k], x)
  }

  lemma SameSkelProp(a: T.Tree, b: T.Tree, p: T.Property)
    requires Skel(a) == Skel(b)
    ensures DescribesProp(a, p) == DescribesProp(b, p)
  {
    hide Skel, CellsInside;
    SkelValues(a, b, p.name);
  }

  lemma {:induction false} SameSkelDescribes(a: T.Tree, b: T.Tree, fix: T.Tree)
    requires Skel(a) == Skel(b)
    ensures Describes(a, fix) == Describes(b, fix)
    decreases fix, 0
  {
    hide Skel, DescribesProp, DescribesKid;
    forall i | 0 <= i < |fix.props|
      ensures DescribesProp(a, fix.props[i]) == DescribesProp(b, fix.props[i])
    {
      SameSkelProp(a, b, fix.props[i]);
    }
    forall j | 0 <= j < |fix.kids|
      ensures DescribesKid(a, fix.kids[j]) == DescribesKid(b, fix.kids[j])
    {
      SameSkelKid(a, b, fix.kids[j]);
    }
  }

  lemma {:induction false} SameSkelKid(a: T.Tree, b: T.Tree, x: T.Tree)
    requires Skel(a) == Skel(b)
    ensures DescribesKid(a, x) == DescribesKid(b, x)
    decreases x, 1
  {
    hide Skel, Describes;
    SameSkelFind(a, b, x.name);
    var k := T.FindKid(a.kids, x.name);
    if k < |a.kids| {
      SameSkelDescribes(a.kids[k], b.kids[k], x);
    }
  }

  lemma {:induction false} CellsUpdate(t: T.Tree, i: nat, fix: seq<byte>, k: nat, delta: u32)
    requires i < |t.props| && 4 * k <= |fix| && |fix| % 4 == 0
    ensures var r := UpdateCells(t, i, fix, k, delta);
      && (r.Ok? <==> forall o :: 4 * k <= o <= |fix| - 4 && o % 4 == 0 ==> Word(fix, o) + 4 <= |t.props[i].val|)
      && (r.Err? ==> r.code == ERR_BADOVERLAY)
    decreases |fix| - 4 * k
  {
    hide Word, BE32, T.Patched;
    if 4 * k < |fix| {
      var off := Word(fix, 4 * k);
      assert 4 * k % 4 == 0;
      if off + 4 <= |t.props[i].val| {
        var t1 := T.PatchProp(t, i, off, Bumped(t.props[i].val, off, delta));
        CellsUpdate(t1, i, fix, k + 1, delta);
        assert |t1.props[i].val| == |t.props[i].val|;
      }
    }
  }

  lemma PropUpdates(t: T.Tree, p: T.Property, delta: u32)
    ensures var r := UpdateProp(t, p, delta);
      (r.Ok? <==> DescribesProp(t, p)) && (r.Err? ==> r.code == ERR_BADOVERLAY) && (r.Ok? ==> Skel(r.value) == Skel(t))
  {
    hide Word, UpdateCells, Skel, T.FindProp;
    var i := T.FindProp(t.props, p.name);
    if |p.val| % 4 == 0 && i < |t.props| {
      CellsUpdate(t, i, p.val, 0, delta);
      if UpdateProp(t, p, delta).Ok? {
        PropsShift(t, [p], delta, 0, 0);
        OneProp(t, p, delta);
      }
    }
  }

  lemma OneProp(t: T.Tree, p: T.Property, delta: u32)
    ensures UpdateProps(t, [p], delta) == UpdateProp(t, p, delta)
  {
    hide UpdateProp;
    assert [p][1..] == [];
  }

  lemma {:induction false} PropsUpdate(t: T.Tree, ps: seq<T.Property>, delta: u32)
    ensures var r := UpdateProps(t, ps, delta);
      && (r.Ok? <==> forall i :: 0 <= i < |ps| ==> DescribesProp(t, ps[i]))
      && (r.Err? ==> r.code == ERR_BADOVERLAY) && (r.Ok? ==> Skel(r.value) == Skel(t))
    decreases |ps|
  {
    hide Skel, UpdateProp, DescribesProp;
    if ps != [] {
      PropUpdates(t, ps[0], delta);
      var r := UpdateProp(t, ps[0], delta);
      if r.Ok? {
        PropsUpdate(r.value, ps[1..], delta);
        forall i | 1 <= i < |ps|
          ensures DescribesProp(t, ps[i]) == DescribesProp(r.value, ps[1..][i - 1])
        {
          SameSkelProp(t, r.value, ps[i]);
        }
        if forall i :: 0 <= i < |ps[1..]| ==> DescribesProp(r.value, ps[1..][i]) {
          forall i | 0 <= i < |ps|
            ensures DescribesProp(t, ps[i])
          {
            if i > 0 {
              assert DescribesProp(r.value, ps[1..][i - 1]);
            }
          }
        }
      }
    }
  }

  lemma {:induction false} KidUpdates(t: T.Tree, x: T.Tree, delta: u32)
    ensures var r := UpdateKid(t, x, delta);
      (r.Ok? <==> DescribesKid(t, x)) && (r.Err? ==> r.code == ERR_BADOVERLAY) && (r.Ok? ==> Skel(r.value) == Skel(t))
    decreases x, 1
  {
    hide Skel, UpdateNode, Describes;
    var k := T.FindKid(t.kids, x.name);
    if k < |t.kids| {
      UpdateExactly(t.kids[k], x, delta);
      var r := UpdateNode(t.kids[k], x, delta);
      if r.Ok? {
        SkelKid(t, k, r.value);
      }
    }
  }

  lemma {:induction false} KidsUpdate(t: T.Tree, xs: seq<T.Tree>, delta: u32)
    ensures var r := UpdateKids(t, xs, delta);
      && (r.Ok? <==> forall j :: 0 <= j < |xs| ==> DescribesKid(t, xs[j]))
      && (r.Err? ==> r.code == ERR_BADOVERLAY) && (r.Ok? ==> Skel(r.value) == Skel(t))
    decreases xs
  {
    hide Skel, UpdateKid, DescribesKid;
    if xs != [] {
      KidUpdates(t, xs[0], delta);
      var r := UpdateKid(t, xs[0], delta);
      if r.Ok? {
        KidsUpdate(r.value, xs[1..], delta);
        forall j | 1 <= j < |xs|
          ensures DescribesKid(t, xs[j]) == DescribesKid(r.value, xs[1..][j - 1])
        {
          SameSkelKid(t, r.value, xs[j]);
        }
        if forall j :: 0 <= j < |xs[1..]| ==> DescribesKid(r.value, xs[1..][j]) {
          forall j | 0 <= j < |xs|
            ensures DescribesKid(t, xs[j])
          {
            if j > 0 {
              assert DescribesKid(r.value, xs[1..][j - 1]);
            }
          }
        }
      }
    }
  }

  /** The references of a node can be moved exactly when all that its fixups speak of is there; else it is a bad overlay. */
  lemma {:induction false} UpdateExactly(t: T.Tree, fix: T.Tree, delta: u32)
    ensures var r := UpdateNode(t, fix, delta);
      (r.Ok? <==> Describes(t, fix)) && (r.Err? ==> r.code == ERR_BADOVERLAY) && (r.Ok? ==> Skel(r.value) == Skel(t))
    decreases fix, 0
  {
    hide Skel, UpdateProps, UpdateKids, DescribesProp, DescribesKid;
    PropsUpdate(t, fix.props, delta);
    var r := UpdateProps(t, fix.props, delta);
    if r.Ok? {
      KidsUpdate(r.value, fix.kids, delta);
      forall j | 0 <= j < |fix.kids|
        ensures DescribesKid(t, fix.kids[j]) == DescribesKid(r.value, fix.kids[j])
      {
        SameSkelKid(t, r.value, fix.kids[j]);
      }
    }
  }
}
