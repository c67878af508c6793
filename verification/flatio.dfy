/** dtc's flattree.c and data.c as they work: buffers that grow and a reader that advances. */
module FlatIo {
  import opened Bytes
  import opened StructBlock
  import opened PropEdit
  import opened Flattree
  import L = Livetree
  import T = Tree

  /** struct data, without its markers: a buffer that is appended to. */
  class Buffer {
    var bytes: seq<byte>

    constructor ()
      ensures bytes == []
    {
      bytes := [];
    }

    /** data_append_data */
    method Append(d: seq<byte>)
      modifies this
      ensures bytes == old(bytes) + d
    {
      bytes := bytes + d;
    }

    /** data_append_cell */
    method AppendCell(n: nat)
      modifies this
      ensures bytes == old(bytes) + Cell(n)
    {
      bytes := bytes + Cell(n);
    }

    /** data_append_zeroes */
    method AppendZeroes(n: nat)
      modifies this
      ensures bytes == old(bytes) + Zeros(n)
    {
      var i := 0;
      assert bytes == bytes + Zeros(0);
      while i < n
        invariant i <= n && bytes == old(bytes) + Zeros(i)
      {
        assert Zeros(i + 1) == Zeros(i) + [0];
        bytes := bytes + [0];
        i := i + 1;
      }
    }

    /** data_append_align */
    method AppendAlign(a: nat)
      requires a == 4 || a == 8
      modifies this
      ensures bytes == Aligned(old(bytes), a)
    {
      AppendZeroes(Align(|bytes|, a) - |bytes|);
    }
  }

  // ---- the live part of a tree -------------------------------------------------------------------

  function LiveProps(ps: seq<L.LProp>): seq<T.Property> {
    if ps == [] then [] else
    (if ps[0].deleted then [] else [T.Property(ps[0].name, ps[0].val)]) + LiveProps(ps[1..])
  }

  function LiveKids(ks: seq<L.LTree>): seq<T.Tree>
    decreases ks
  {
    if ks == [] then [] else
    (if ks[0].deleted then [] else [Live(ks[0])]) + LiveKids(ks[1..])
  }

  /** A tree without its tombstones, in the order it has. */
  function Live(t: L.LTree): T.Tree
    decreases t
  {
    T.Tree(t.name, LiveProps(t.props), LiveKids(t.kids))
  }

  // ---- writing --------------------------------------------------------------------------------------

  /** strcmp of a string with the one that stands at `i` of the table. */
  method StringIs(str: Buffer, i: nat, s: Name) returns (r: bool)
    requires i < |str.bytes|
    ensures r <==> StringAt(str.bytes, i) && CStr(str.bytes, i) == s
  {
    var z := NulFrom(str.bytes, i);
    r := z < |str.bytes| && str.bytes[i..z] == s;
  }

  /** stringtable_insert */
  method StringtableInsert(str: Buffer, s: Name) returns (off: nat)
    modifies str
    ensures off == Offset(old(str.bytes), s) && str.bytes == Inserted(old(str.bytes), s)
  {
    hide StringAt, CStr;
    var i := 0;
    while i < |str.bytes|
      invariant i <= |str.bytes| && str.bytes == old(str.bytes)
      invariant FindString(str.bytes, s, 0) == FindString(str.bytes, s, i)
    {
      var eq := StringIs(str, i, s);
      if eq {
        return i;
      }
      i := i + 1;
    }
    str.Append(s + [0]);
    assert old(str.bytes) + (s + [0]) == old(str.bytes) + s + [0];
    off := i;
  }

  /** What two buffers hold. */
  ghost function Both(dt: Buffer, str: Buffer): Out
    reads dt, str
  {
    Out(dt.bytes, str.bytes)
  }

  /** The property part of flatten_tree. */
  method EmitProperty(dt: Buffer, str: Buffer, name: Name, len: nat, text: seq<byte>, v1: bool)
    requires dt != str
    modifies dt, str
    ensures Both(dt, str) == EmitValue(old(Both(dt, str)), name, len, text, v1)
  {
    hide BE32, FindString, Inserted, Aligned, Cell;
    var nameoff := StringtableInsert(str, name);
    dt.Append(BE32(FDT_PROP));
    dt.AppendCell(len);
    dt.AppendCell(nameoff);
    if v1 && len >= 8 {
      dt.AppendAlign(8);
    }
    dt.Append(text);
    dt.AppendAlign(4);
  }

  /** The loop of flatten_tree over the properties. */
  method EmitProperties(dt: Buffer, str: Buffer, ps: seq<L.LProp>, v1: bool) returns (seenName: bool)
    requires dt != str && |dt.bytes| % 4 == 0
    modifies dt, str
    ensures Both(dt, str) == EmitProps(old(Both(dt, str)), LiveProps(ps), v1)
    ensures |dt.bytes| % 4 == 0
    ensures seenName <==> T.FindProp(LiveProps(ps), NAME) < |LiveProps(ps)|
  {
    hide EmitValue, T.FindProp, Within;
    seenName := false;
    ghost var o := Both(dt, str);
    assert ps[0..] == ps;
    var i := 0;
    while i < |ps|
      invariant i <= |ps| && |dt.bytes| % 4 == 0
      invariant EmitProps(Both(dt, str), LiveProps(ps[i..]), v1) == EmitProps(o, LiveProps(ps), v1)
      invariant (seenName || HasName(LiveProps(ps[i..]))) == HasName(LiveProps(ps))
    {
      ghost var cur := Both(dt, str);
      LivePropsStep(ps, i);
      HasNameStep(LiveProps(ps[i..]));
      if !ps[i].deleted {
        EmitPropsStep(cur, LiveProps(ps[i..]), v1);
        if ps[i].name == NAME {
          seenName := true;
        }
        EmitProperty(dt, str, ps[i].name, |ps[i].val|, ps[i].val, v1);
      }
      i := i + 1;
    }
    assert ps[i..] == [];
    NoProps(Both(dt, str), v1);
    HasNameIs(LiveProps(ps));
  }

  predicate HasName(ps: seq<T.Property>) {
    exists i :: 0 <= i < |ps| && ps[i].name == NAME
  }

  lemma HasNameIs(ps: seq<T.Property>)
    ensures HasName(ps) <==> T.FindProp(ps, NAME) < |ps|
  {
  }

  lemma HasNameStep(ps: seq<T.Property>)
    ensures HasName(ps) <==> ps != [] && (ps[0].name == NAME || HasName(ps[1..]))
  {
    if HasName(ps) {
      var i :| 0 <= i < |ps| && ps[i].name == NAME;
      if i > 0 {
        assert ps[1..][i - 1].name == NAME;
      }
    }
    if ps != [] && HasName(ps[1..]) {
      var i :| 0 <= i < |ps[1..]| && ps[1..][i].name == NAME;
      assert ps[i + 1].name == NAME;
    }
  }

  lemma LivePropsStep(ps: seq<L.LProp>, i: nat)
    requires i < |ps|
    ensures var r, rest := LiveProps(ps[i..]), LiveProps(ps[i + 1..]);
      if ps[i].deleted then r == rest else r != [] && r[0] == T.Property(ps[i].name, ps[i].val) && r[1..] == rest
  {
    assert ps[i..][0] == ps[i] && ps[i..][1..] == ps[i + 1..];
  }

  lemma EmitPropsStep(o: Out, ps: seq<T.Property>, v1: bool)
    requires |o.dt| % 4 == 0 && ps != []
    ensures EmitProps(o, ps, v1) == EmitProps(EmitValue(o, ps[0].name, |ps[0].val|, ps[0].val, v1), ps[1..], v1)
  {
  }

  lemma NoProps(o: Out, v1: bool)
    requires |o.dt| % 4 == 0
    ensures EmitProps(o, LiveProps([]), v1) == o && !HasName(LiveProps([]))
  {
  }

  /** flatten_tree up to the children. */
  method OpenNode(tree: L.LTree, path: Name, dt: Buffer, str: Buffer, v1: bool)
    requires dt != str && |dt.bytes| % 4 == 0
    modifies dt, str
    ensures Both(dt, str) == EmitOpen(old(Both(dt, str)), Live(tree), path, v1) && |dt.bytes| % 4 == 0
  {
    hide EmitProps, EmitName, EmitKids, Within, BE32, Aligned, LiveProps, LiveKids;
    ghost var o := Both(dt, str);
    dt.Append(BE32(FDT_BEGIN_NODE));
    dt.Append((if v1 then path else tree.name) + [0]);
    JoinTail(o.dt, BE32(FDT_BEGIN_NODE), if v1 then path else tree.name);
    dt.AppendAlign(4);
    var seenNameProp := EmitProperties(dt, str, tree.props, v1);
    if v1 && !seenNameProp {
      EmitImpliedName(dt, str, tree.name);
    }
  }

  /** flatten_tree. The full path of a child is built from that of its parent (fill_fullpaths). */
  method FlattenTree(tree: L.LTree, path: Name, dt: Buffer, str: Buffer, v1: bool)
    requires dt != str && |dt.bytes| % 4 == 0
    modifies dt, str
    ensures |dt.bytes| % 4 == 0
    ensures Both(dt, str) ==
            if tree.deleted then old(Both(dt, str)) else EmitNode(old(Both(dt, str)), Live(tree), path, v1)
    decreases tree, 1
  {
    hide EmitOpen, EmitKids, Within, BE32, LiveProps, LiveKids;
    if tree.deleted {
      return;
    }
    OpenNode(tree, path, dt, str, v1);
    FlattenChildren(tree.kids, path, dt, str, v1);
    dt.Append(BE32(FDT_END_NODE));
  }

  lemma JoinTail(a: seq<byte>, b: seq<byte>, c: seq<byte>)
    ensures a + b + (c + [0]) == a + b + c + [0]
  {
  }

  /** The implied name property. */
  method EmitImpliedName(dt: Buffer, str: Buffer, name: Name)
    requires dt != str && |dt.bytes| % 4 == 0
    modifies dt, str
    ensures Both(dt, str) == EmitName(old(Both(dt, str)), name) && |dt.bytes| % 4 == 0
  {
    hide EmitValue, Within, BaseName;
    BaseNameFits(name);
    var n := |BaseName(name)|;
    EmitProperty(dt, str, NAME, n + 1, StringText(name, n), true);
  }

  lemma LiveKidsStep(ks: seq<L.LTree>, i: nat)
    requires i < |ks|
    ensures var r, rest := LiveKids(ks[i..]), LiveKids(ks[i + 1..]);
      if ks[i].deleted then r == rest else r != [] && r[0] == Live(ks[i]) && r[1..] == rest
  {
    hide Live;
    assert ks[i..][0] == ks[i] && ks[i..][1..] == ks[i + 1..];
  }

  lemma EmitKidsStep(o: Out, ks: seq<T.Tree>, path: Name, v1: bool)
    requires |o.dt| % 4 == 0
    ensures EmitKids(o, ks, path, v1) ==
            if ks == [] then o else EmitKids(EmitNode(o, ks[0], JoinPath(path, ks[0].name), v1), ks[1..], path, v1)
  {
    hide EmitNode;
  }

  /** The loop of flatten_tree over the children. */
  method FlattenChildren(ks: seq<L.LTree>, path: Name, dt: Buffer, str: Buffer, v1: bool)
    requires dt != str && |dt.bytes| % 4 == 0
    modifies dt, str
    ensures |dt.bytes| % 4 == 0
    ensures Both(dt, str) == EmitKids(old(Both(dt, str)), LiveKids(ks), path, v1)
    decreases ks, 0
  {
    hide EmitNode, EmitKids, Live, LiveKids, Within, JoinPath;
    ghost var o := Both(dt, str);
    assert ks[0..] == ks;
    var i := 0;
    while i < |ks|
      invariant i <= |ks| && |dt.bytes| % 4 == 0
      invariant EmitKids(Both(dt, str), LiveKids(ks[i..]), path, v1) == EmitKids(o, LiveKids(ks), path, v1)
    {
      LiveKidsStep(ks, i);
      LiveName(ks[i]);
      EmitKidsStep(Both(dt, str), LiveKids(ks[i..]), path, v1);
      FlattenTree(ks[i], JoinPath(path, ks[i].name), dt, str, v1);
      i := i + 1;
    }
    assert ks[i..] == [];
    NoKids();
    EmitKidsStep(Both(dt, str), [], path, v1);
  }

  lemma NoKids()
    ensures LiveKids([]) == []
  {
  }

  lemma LiveName(t: L.LTree)
    ensures Live(t).name == t.name
  {
  }
}
