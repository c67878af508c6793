/** What dtc writes in version 17 is a blob that libfdt reads as the same tree. */
module FlatLink {
  import opened Bytes
  import opened StructBlock
  import opened Concrete
  import opened PropEdit
  import opened FdtBase
  import opened Paths
  import F = Flattree
  import T = Tree

  const NOPAD: Pad := [0, 0, 0]

  lemma ZeroPad(k: nat)
    requires k <= 3
    ensures NOPAD[..k] == Zeros(k)
  {
  }

  /** The tokens appended between two states of the buffers. */
  ghost predicate Appended(o: F.Out, r: F.Out, ts: seq<Token>) {
    r.dt == o.dt + EncAll(ts)
  }

  lemma AppendedAgain(a: F.Out, b: F.Out, c: F.Out, ts: seq<Token>, us: seq<Token>)
    requires Appended(a, b, ts) && Appended(b, c, us)
    ensures Appended(a, c, ts + us)
  {
    hide EncAll;
    EncAllConcat(ts, us);
  }

  lemma PadIs(dt: seq<byte>, body: seq<byte>, data: seq<byte>)
    requires |dt| % 4 == 0 && |body| % 4 == 0
    ensures F.Aligned(dt + body + data, 4) == dt + (body + Padded(data, NOPAD))
  {
    var k := Align4(|data|) - |data|;
    ZeroPad(k);
    assert F.Align(|dt + body + data|, 4) - |dt + body + data| == k;
  }

  /** A property. */
  lemma PropToken(o: F.Out, p: T.Property, s: seq<byte>) returns (c: CProp)
    requires |o.dt| % 4 == 0 && |s| < 0x1_0000_0000
    requires F.EmitValue(o, p.name, |p.val|, p.val, false).str <= s
    ensures c.nops == 0 && StringAt(s, c.nameoff) && DenProp(c, s) == p
    ensures Appended(o, F.EmitValue(o, p.name, |p.val|, p.val, false), [PTok(c)])
  {
    hide BE32, StringAt, CStr, F.FindString, F.Offset, F.EmitValue, F.Inserted, EncAll;
    EmitValueIs(o, p);
    F.InsertedReads(o.str, p.name, s);
    F.OffsetFits(o.str, s);
    c := CProp(0, F.Offset(o.str, p.name), p.val, NOPAD);
    EmittedProp(o.dt, c);
  }

  lemma EmitValueIs(o: F.Out, p: T.Property)
    requires |o.dt| % 4 == 0
    ensures var r := F.EmitValue(o, p.name, |p.val|, p.val, false);
      && r.str == F.Inserted(o.str, p.name)
      && r.dt == F.Aligned(o.dt + BE32(FDT_PROP) + F.Cell(|p.val|) + F.Cell(F.Offset(o.str, p.name)) + p.val, 4)
  {
    hide F.Aligned, F.Cell, BE32, F.Offset, F.Inserted;
  }

  lemma EmittedProp(dt: seq<byte>, c: CProp)
    requires |dt| % 4 == 0 && c.pad == NOPAD
    ensures F.Aligned(dt + BE32(FDT_PROP) + BE32(|c.data|) + BE32(c.nameoff) + c.data, 4) == dt + EncAll([PTok(c)])
  {
    hide BE32;
    var h := BE32(FDT_PROP) + BE32(|c.data|) + BE32(c.nameoff);
    assert dt + BE32(FDT_PROP) + BE32(|c.data|) + BE32(c.nameoff) == dt + h;
    PadIs(dt, h, c.data);
    EncOne(PTok(c));
    assert Enc(PTok(c)) == h + Padded(c.data, NOPAD);
  }

  lemma {:induction false} PropsTokens(o: F.Out, ps: seq<T.Property>, s: seq<byte>) returns (cs: seq<CProp>)
    requires |o.dt| % 4 == 0 && |s| < 0x1_0000_0000 && F.EmitProps(o, ps, false).str <= s
    ensures Appended(o, F.EmitProps(o, ps, false), PToks(cs)) && Named(PToks(cs), s) && DenProps(cs, s) == ps
    decreases |ps|
  {
    hide F.EmitValue, EncAll, PTok, Appended, StringAt, PropName;
    if ps == [] {
      cs := [];
      AppendedNone(o);
      NamedProps([], s);
    } else {
      var o1 := F.EmitValue(o, ps[0].name, |ps[0].val|, ps[0].val, false);
      StrDown(o1, F.EmitProps(o1, ps[1..], false), s);
      var c := PropToken(o, ps[0], s);
      var rest := PropsTokens(o1, ps[1..], s);
      cs := [c] + rest;
      AppendedAgain(o, o1, F.EmitProps(o1, ps[1..], false), [PTok(c)], PToks(rest));
      assert cs[1..] == rest;
      assert PToks(cs) == Nops(0) + [PTok(c)] + PToks(rest);
      assert Nops(0) + [PTok(c)] + PToks(rest) == [PTok(c)] + PToks(rest);
      NamedOneProp(c, s);
      NamedConcat([PTok(c)], PToks(rest), s);
      assert DenProps(cs, s) == [DenProp(c, s)] + DenProps(rest, s);
    }
  }

  lemma NamedOneProp(c: CProp, s: seq<byte>)
    requires StringAt(s, c.nameoff)
    ensures Named([PTok(c)], s)
  {
  }

  lemma AppendedNone(o: F.Out)
    ensures Appended(o, o, [])
  {
    assert o.dt + [] == o.dt;
  }

  lemma StrDown(o: F.Out, r: F.Out, s: seq<byte>)
    requires F.Within(o, r) && r.str <= s
    ensures o.str <= s
  {
  }

  lemma HeadToken(o: F.Out, name: Name)
    requires |o.dt| % 4 == 0
    ensures Appended(o, F.EmitHead(o, name), [Begin(name, NOPAD)])
  {
    hide BE32;
    var b := Begin(name, NOPAD);
    EncOne(b);
    assert o.dt + BE32(FDT_BEGIN_NODE) + name + [0] == o.dt + BE32(FDT_BEGIN_NODE) + (name + [0]);
    PadIs(o.dt, BE32(FDT_BEGIN_NODE), name + [0]);
  }

  lemma EndToken(o: F.Out)
    requires |o.dt| % 4 == 0
    ensures Appended(o, F.EmitEnd(o), [EndNode])
  {
    EncOne(EndNode);
    BareTag(EndNode);
  }

  /** A node, as the tokens of a concrete node that denotes it. */
  lemma {:induction false} NodeTokens(o: F.Out, t: T.Tree, path: Name, s: seq<byte>) returns (c: Cst)
    requires |o.dt| % 4 == 0 && |s| < 0x1_0000_0000 && F.EmitNode(o, t, path, false).str <= s
    ensures c.lead == 0 && Appended(o, F.EmitNode(o, t, path, false), Toks(c)) && Named(Toks(c), s) && Den(c, s) == t
    decreases t, 1
  {
    hide F.EmitHead, F.EmitProps, F.EmitKids, F.EmitEnd, F.Within, EncAll, PToks, KToks, Toks, Named, Appended, DenProps, DenKids;
    var head := F.EmitHead(o, t.name);
    var props := F.EmitProps(head, t.props, false);
    var kids := F.EmitKids(props, t.kids, path, false);
    var r := F.EmitNode(o, t, path, false);
    StrDown(kids, r, s);
    StrDown(props, kids, s);
    HeadToken(o, t.name);
    var cs := PropsTokens(head, t.props, s);
    var ks := KidsTokens(props, t.kids, path, s);
    EndToken(kids);
    var b := [Begin(t.name, NOPAD)];
    AppendedAgain(o, head, props, b, PToks(cs));
    AppendedAgain(o, props, kids, b + PToks(cs), KToks(ks));
    AppendedAgain(o, kids, r, b + PToks(cs) + KToks(ks), [EndNode]);
    c := Cst(0, t.name, NOPAD, cs, ks, 0);
    ToksDef(c);
    assert b + PToks(cs) + KToks(ks) + Nops(0) + [EndNode] == b + PToks(cs) + KToks(ks) + [EndNode];
    NamedNode(c, s);
  }

  lemma {:induction false} KidsTokens(o: F.Out, ks: seq<T.Tree>, path: Name, s: seq<byte>) returns (cs: seq<Cst>)
    requires |o.dt| % 4 == 0 && |s| < 0x1_0000_0000 && F.EmitKids(o, ks, path, false).str <= s
    ensures Appended(o, F.EmitKids(o, ks, path, false), KToks(cs)) && Named(KToks(cs), s) && DenKids(cs, s) == ks
    decreases ks, 0
  {
    hide F.EmitNode, F.JoinPath, F.Within, EncAll, Toks, Named, Appended, Den;
    if ks == [] {
      cs := [];
      AppendedNone(o);
      NamedNothing(s);
    } else {
      var p := F.JoinPath(path, ks[0].name);
      var o1 := F.EmitNode(o, ks[0], p, false);
      var r := F.EmitKids(o1, ks[1..], path, false);
      StrDown(o1, r, s);
      var c := NodeTokens(o, ks[0], p, s);
      var rest := KidsTokens(o1, ks[1..], path, s);
      cs := [c] + rest;
      AppendedAgain(o, o1, r, Toks(c), KToks(rest));
      assert cs[0] == c && cs[1..] == rest;
      assert Nops(0) + Toks(c) + KToks(rest) == Toks(c) + KToks(rest);
      NamedKids(cs, s);
      DenKidsTail(cs, s);
      assert DenKids(cs, s) == [Den(c, s)] + DenKids(rest, s);
    }
  }

  lemma NamedNothing(s: seq<byte>)
    ensures Named(KToks([]), s)
  {
  }

  /** A blob made of what dtc writes for a tree is one that libfdt reads as that tree. */
  lemma DtcWritesWhatLibfdtReads(fdt: Fdt, t: T.Tree) returns (c: Cst)
    requires fdt.Layout() && F.Flatten(t, false).dt <= fdt.S() && fdt.Strs() == F.Flatten(t, false).str
    ensures Whole(fdt, c) && TreeOf(fdt, c) == t
  {
    hide F.EmitNode, EncAll, Toks, Named, Den, Fdt.S, Fdt.Strs;
    StrsBound(fdt);
    var o := F.Out([], []);
    var r := F.EmitNode(o, t, F.ROOT, false);
    c := NodeTokens(o, t, F.ROOT, fdt.Strs());
    EncAllConcat(Toks(c), [End]);
    EncOne(End);
    BareTag(End);
    assert [] + Toks(c) + [End] == Toks(c) + [End];
    assert r.dt == EncAll(Toks(c));
    NamedConcat(Toks(c), [End], fdt.Strs());
    NamedEnd(fdt.Strs());
  }

  lemma NamedEnd(s: seq<byte>)
    ensures Named([End], s)
  {
  }

  lemma StrsBound(fdt: Fdt)
    requires fdt.Layout()
    ensures |fdt.Strs()| < 0x8000_0000
  {
  }
}
