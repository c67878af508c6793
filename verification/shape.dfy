/** What an in-place edit cannot change: where every node and property of a blob stands. */
module Shape {
  import opened Bytes
  import opened StructBlock
  import opened Concrete
  import opened Walking
  import opened FdtBase
  import opened Focus
  import opened FdtRo
  import opened BlockEdit
  import opened NodeEdit
  import opened PropEdit
  import opened TokenEdit
  import opened FdtWip
  import opened Paths
  import opened Lookup
  import T = Tree

  /** A property with every byte of its value zeroed. */
  function BlankProp(p: CProp): CProp {
    p.(data := Zeros(|p.data|))
  }

  function BlankProps(ps: seq<CProp>): (r: seq<CProp>)
    ensures |r| == |ps| && forall i :: 0 <= i < |ps| ==> r[i] == BlankProp(ps[i])
  {
    seq(|ps|, i requires 0 <= i < |ps| => BlankProp(ps[i]))
  }

  function BlankKids(ks: seq<Cst>): (r: seq<Cst>)
    ensures |r| == |ks| && forall i :: 0 <= i < |ks| ==> r[i] == Blank(ks[i])
    decreases ks
  {
    if ks == [] then [] else
      var r := [Blank(ks[0])] + BlankKids(ks[1..]);
      assert forall i :: 1 <= i < |ks| ==> r[i] == BlankKids(ks[1..])[i - 1];
      r
  }

  /** A node with every byte of every value zeroed. */
  function Blank(c: Cst): Cst
    decreases c
  {
    c.(props := BlankProps(c.props), kids := BlankKids(c.kids))
  }

  /** Two nodes that differ only in the bytes of values. */
  predicate SameShape(a: Cst, b: Cst) {
    Blank(a) == Blank(b)
  }

  lemma BlankDef(c: Cst)
    ensures Blank(c).props == BlankProps(c.props) && Blank(c).kids == BlankKids(c.kids)
    ensures Blank(c).name == c.name && Blank(c).pad == c.pad && Blank(c).lead == c.lead && Blank(c).tail == c.tail
  {
  }

  lemma BlankPropSize(p: CProp)
    ensures |Enc(PTok(BlankProp(p)))| == |Enc(PTok(p))|
  {
    EncParts(p);
    EncParts(BlankProp(p));
  }

  lemma SizePToks(ps: seq<CProp>)
    requires ps != []
    ensures Size(PToks(ps)) == 4 * ps[0].nops + |Enc(PTok(ps[0]))| + Size(PToks(ps[1..]))
  {
    EncAll3(Nops(ps[0].nops), [PTok(ps[0])], PToks(ps[1..]));
    NopsSize(ps[0].nops);
    EncOne(PTok(ps[0]));
  }

  lemma {:induction false} BlankPropsSize(ps: seq<CProp>)
    ensures Size(PToks(BlankProps(ps))) == Size(PToks(ps))
  {
    hide EncAll, Enc, Nops, PTok;
    if ps != [] {
      var b := BlankProps(ps);
      SizePToks(ps);
      SizePToks(b);
      BlankPropSize(ps[0]);
      assert b[1..] == BlankProps(ps[1..]);
      BlankPropsSize(ps[1..]);
    }
  }

  lemma {:induction false} BlankSize(c: Cst)
    ensures Size(Toks(Blank(c))) == Size(Toks(c))
    decreases c
  {
    hide EncAll, Enc, Toks, PToks, KToks, Blank;
    BlankDef(c);
    SizeToks(c);
    SizeToks(Blank(c));
    BlankPropsSize(c.props);
    BlankKidsSize(c.kids);
  }

  lemma {:induction false} BlankKidsSize(ks: seq<Cst>)
    ensures Size(KToks(BlankKids(ks))) == Size(KToks(ks))
    decreases ks
  {
    hide EncAll, Enc, Toks, Blank;
    if ks != [] {
      var b := BlankKids(ks);
      BlankDef(ks[0]);
      assert b[0] == Blank(ks[0]) && b[1..] == BlankKids(ks[1..]);
      SizeKToks(ks);
      SizeKToks(b);
      BlankSize(ks[0]);
      BlankKidsSize(ks[1..]);
    }
  }

  lemma BlankKidPre(c: Cst, k: nat)
    requires k < |c.kids|
    ensures k < |Blank(c).kids|
    ensures Size(KidPre(Blank(c), k)) == Size(KidPre(c, k))
  {
    hide EncAll, Enc, Toks, PToks, KToks, Blank;
    BlankDef(c);
    BlankDef(c.kids[k]);
    SizeKidPre(c, k);
    SizeKidPre(Blank(c), k);
    BlankPropsSize(c.props);
    BlankKidsSize(c.kids[..k]);
    assert BlankKids(c.kids)[..k] == BlankKids(c.kids[..k]);
  }

  lemma SizeKidPre(c: Cst, k: nat)
    requires k < |c.kids|
    ensures Size(KidPre(c, k)) == |Enc(Begin(c.name, c.pad))| + Size(PToks(c.props)) + Size(KToks(c.kids[..k])) + 4 * c.kids[k].lead
  {
    hide EncAll, Enc, PToks, KToks, Nops;
    var b, p, k0, l := [Begin(c.name, c.pad)], PToks(c.props), KToks(c.kids[..k]), Nops(c.kids[k].lead);
    EncAllConcat(b + p + k0, l);
    EncAll3(b, p, k0);
    EncOne(b[0]);
    NopsSize(c.kids[k].lead);
  }

  /** Blanking changes no place and no offset. */
  lemma {:induction false} BlankPlace(c: Cst, p: Path)
    ensures HasPath(Blank(c), p) <==> HasPath(c, p)
    ensures HasPath(c, p) ==> NodeAt(Blank(c), p) == Blank(NodeAt(c, p)) && NodeOff(Blank(c), p) == NodeOff(c, p)
    decreases |p|
  {
    hide EncAll, Blank, KidPre;
    BlankDef(c);
    if p != [] && p[0] < |c.kids| {
      var k := c.kids[p[0]];
      BlankPlace(k, p[1..]);
      BlankKidPre(c, p[0]);
      if HasPath(c, p) {
        EncAllConcat(KidPre(c, p[0]), PreAt(k, p[1..]));
        EncAllConcat(KidPre(Blank(c), p[0]), PreAt(Blank(k), p[1..]));
      }
    }
  }

  /** Nodes of blobs of the same shape stand at the same offsets. */
  lemma SamePlace(a: Cst, b: Cst, p: Path)
    requires SameShape(a, b) && HasPath(a, p)
    ensures HasPath(b, p) && NodeOff(b, p) == NodeOff(a, p) && SameShape(NodeAt(a, p), NodeAt(b, p))
  {
    hide Blank, HasPath, NodeAt, PreAt, Size;
    BlankPlace(a, p);
    BlankPlace(b, p);
  }

  /** So do their properties. */
  lemma SameProps(a: Cst, b: Cst, p: Path, i: nat)
    requires SameShape(a, b) && HasPath(a, p) && i < |NodeAt(a, p).props|
    ensures HasPath(b, p) && i < |NodeAt(b, p).props|
    ensures PropOff(PreAt(b, p), NodeAt(b, p), i) == PropOff(PreAt(a, p), NodeAt(a, p), i)
  {
    hide EncAll, Enc, HasPath, NodeAt, PreAt, Blank, PropPre;
    SamePlace(a, b, p);
    var m, n := NodeAt(a, p), NodeAt(b, p);
    BlankDef(m);
    BlankDef(n);
    BlankPropPre(m, i);
    BlankPropPre(n, i);
    EncAllConcat(PreAt(a, p), PropPre(m, i));
    EncAllConcat(PreAt(b, p), PropPre(n, i));
  }

  /** And their children. */
  lemma SameKids(a: Cst, b: Cst, p: Path, k: nat)
    requires SameShape(a, b) && HasPath(a, p)
    ensures HasPath(b, p) && |NodeAt(b, p).kids| == |NodeAt(a, p).kids| && KidPlace(b, p, k) == KidPlace(a, p, k)
  {
    hide EncAll, HasPath, NodeAt, PreAt, Blank, KidPre;
    SamePlace(a, b, p);
    var m, n := NodeAt(a, p), NodeAt(b, p);
    BlankDef(m);
    BlankDef(n);
    if k < |m.kids| {
      KidPlaceIs(a, p, k);
      KidPlaceIs(b, p, k);
      SamePlace(a, b, p + [k]);
    }
  }

  lemma BlankPropPre(n: Cst, i: nat)
    requires i < |n.props|
    ensures i < |Blank(n).props| && Size(PropPre(Blank(n), i)) == Size(PropPre(n, i))
  {
    hide EncAll, Enc, PToks, Blank;
    BlankDef(n);
    SizePropPre(n, i);
    SizePropPre(Blank(n), i);
    BlankPropsSize(n.props[..i]);
    assert BlankProps(n.props)[..i] == BlankProps(n.props[..i]);
  }

  lemma SizePropPre(n: Cst, i: nat)
    requires i < |n.props|
    ensures Size(PropPre(n, i)) == |Enc(Begin(n.name, n.pad))| + Size(PToks(n.props[..i])) + 4 * n.props[i].nops
  {
    hide EncAll, Enc, PToks, Nops;
    var b, p, k := [Begin(n.name, n.pad)], PToks(n.props[..i]), Nops(n.props[i].nops);
    EncAllConcat(b + p, k);
    EncAllConcat(b, p);
    EncOne(b[0]);
    NopsSize(n.props[i].nops);
  }

  /** Overwriting bytes of a value does not change the shape of the node, nor of the whole. */
  lemma PatchedShape(n: Cst, i: nat, idx: nat, val: seq<byte>)
    requires i < |n.props| && idx + |val| <= |n.props[i].data|
    ensures SameShape(WithPatched(n, i, idx, val), n)
  {
    var n2 := WithPatched(n, i, idx, val);
    BlankDef(n);
    BlankDef(n2);
    assert BlankProps(n2.props) == BlankProps(n.props);
  }

  lemma {:induction false} PutShape(c: Cst, p: Path, n: Cst)
    requires HasPath(c, p) && SameShape(NodeAt(c, p), n)
    ensures SameShape(c, PutAt(c, p, n))
    decreases |p|
  {
    hide Blank;
    BlankDef(c);
    if p == [] {
      BlankDef(n);
      assert n.(lead := c.lead) == n;
    } else {
      var k := p[0];
      PutShape(c.kids[k], p[1..], n);
      var n2 := PutAt(c.kids[k], p[1..], n);
      BlankDef(n2);
      BlankDef(c.kids[k]);
      assert n2.lead == c.kids[k].lead;
      assert n2.(lead := c.kids[k].lead) == n2;
      var c2 := WithKid(c, k, n2);
      BlankDef(c2);
      assert BlankKids(c2.kids) == BlankKids(c.kids);
      assert Blank(c2) == Blank(c);
    }
  }

  // ---- the in-place edit of a whole blob -----------------------------------------------------------

  /** fdt_setprop_inplace_namelen_partial on the node at a place: the tree changes there, and no
      node or property moves. */
  method PatchAt(fdt: Fdt, nodeOffset: nat, name: seq<byte>, idx: nat, val: seq<byte>, ghost c: Cst, ghost p: Path)
    returns (err: int, ghost c2: Cst)
    requires Apart(fdt) && Whole(fdt, c) && HasPath(c, p) && nodeOffset == NodeOff(c, p) && idx + |val| < 0x1_0000_0000
    modifies fdt.buf
    ensures fdt.Layout() && HeadKept(fdt) && fdt.Strs() == old(fdt.Strs())
    ensures Whole(fdt, c2) && SameShape(c, c2) && T.HasPath(Den(c, fdt.Strs()), p)
    ensures var t := Den(c, fdt.Strs());
      var x := T.At(t, p);
      var i := T.FindProp(x.props, name);
      if i == |x.props| then err == ERR_NOTFOUND && c2 == c
      else if idx + |val| > |x.props[i].val| then err == ERR_NOSPACE && c2 == c
      else err == 0 && Den(c2, fdt.Strs()) == T.Put(t, p, T.PatchProp(x, i, idx, val))
  {
    hide EncAll, Toks, Named, PreAt, PostAt, NodeAt, PutAt, Den, Size, T.At, T.Put, T.HasPath, HasPath, Focused, T.FindProp, T.PatchProp, Blank, SameSize, WithPatched, DenProps, Fdt.S, Fdt.Strs, Fdt.Mem, ReadTag;
    WholeLayout(fdt, c);
    AtPlace(fdt, c, p);
    ghost var n, tab := NodeAt(c, p), fdt.Strs();
    ghost var n2;
    err, n2 := SetPropInplacePartial(fdt, nodeOffset, name, idx, val, PreAt(c, p), n, Tail(c, p));
    c2 := c;
    if err == 0 {
      c2 := PutAt(c, p, n2);
      WholePut(fdt, c, p, n2);
      PutDen(c, p, n2, tab);
      PatchedShape(n, T.FindProp(DenProps(n.props, tab), name), idx, val);
      PutShape(c, p, n2);
    } else {
      WholeFocus(fdt, c, p);
    }
  }
}
