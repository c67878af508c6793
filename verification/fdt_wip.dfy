/** libfdt/fdt_wip.c: edits that overwrite bytes and move nothing. */
module FdtWip {
  import opened Bytes
  import opened StructBlock
  import opened Concrete
  import opened Walking
  import opened FdtBase
  import opened Focus
  import opened FdtRo
  import opened BlockEdit
  import opened PropEdit
  import opened NodeEdit
  import opened TokenEdit
  import T = Tree

  // ---- fdt_setprop_inplace_namelen_partial ---------------------------------------------------

  /** Property `i` of a node with part of its value overwritten. */
  function WithPatched(n: Cst, i: nat, idx: nat, val: seq<byte>): Cst
    requires i < |n.props| && idx + |val| <= |n.props[i].data|
  {
    n.(props := n.props[i := n.props[i].(data := T.Patched(n.props[i].data, idx, val))])
  }

  lemma PatchedToken(s: seq<byte>, s2: seq<byte>, o: nat, p: CProp, idx: nat, val: seq<byte>)
    requires idx + |val| <= |p.data| && TokenAt(s, o, PTok(p))
    requires o + 12 + idx + |val| <= |s| && Overwritten(s, s2, o + 12 + idx, val)
    ensures s2 == s[..o] + Enc(PTok(p.(data := T.Patched(p.data, idx, val)))) + s[o + |Enc(PTok(p))|..]
    ensures |Enc(PTok(p.(data := T.Patched(p.data, idx, val))))| == |Enc(PTok(p))|
  {
    hide Enc, PTok, T.Patched;
    var q, n := p.(data := T.Patched(p.data, idx, val)), |Enc(PTok(p))|;
    var h, g := EncShape(p, q.data);
    var a, z := s[..o], s[o + n..];
    assert s == a + s[o..o + n] + z;
    Regroup(a, h, p.data, g, z);
    Regroup(a, h, q.data, g, z);
    PatchMiddle(a + h, p.data, g + z, idx, val);
  }

  lemma Regroup(a: seq<byte>, h: seq<byte>, d: seq<byte>, g: seq<byte>, z: seq<byte>)
    ensures a + (h + d + g) + z == (a + h) + d + (g + z)
  {
  }

  /** A property token as header, value and gap; only the value's length matters to the others. */
  lemma EncShape(p: CProp, d: Data) returns (h: seq<byte>, g: seq<byte>)
    requires |d| == |p.data|
    ensures |h| == 12 && Enc(PTok(p)) == h + p.data + g && Enc(PTok(p.(data := d))) == h + d + g
  {
    EncParts(p);
    EncParts(p.(data := d));
    h := BE32(FDT_PROP) + BE32(|p.data|) + BE32(p.nameoff);
    g := p.pad[..Align4(|p.data|) - |p.data|];
  }

  lemma PatchMiddle(a: seq<byte>, d: seq<byte>, z: seq<byte>, idx: nat, val: seq<byte>)
    requires idx + |val| <= |d|
    ensures var s, o := a + d + z, |a| + idx;
      s[..o] + val + s[o + |val|..] == a + T.Patched(d, idx, val) + z
  {
    var s, o := a + d + z, |a| + idx;
    assert s[..o] == a + d[..idx];
    assert s[o + |val|..] == d[idx + |val|..] + z;
  }

  /** A property token as header, value and gap; the header depends only on the value's length. */
  lemma EncParts(p: CProp)
    ensures var e := Enc(PTok(p));
      && |e| == 12 + Align4(|p.data|)
      && e == (BE32(FDT_PROP) + BE32(|p.data|) + BE32(p.nameoff)) + p.data + p.pad[..Align4(|p.data|) - |p.data|]
  {
    var a, b, c, d := BE32(FDT_PROP), BE32(|p.data|), BE32(p.nameoff), Padded(p.data, p.pad);
    assert Enc(PTok(p)) == a + (b + c + d);
  }

  lemma PatchedDen(n: Cst, i: nat, idx: nat, val: seq<byte>, tab: seq<byte>)
    requires i < |n.props| && idx + |val| <= |n.props[i].data|
    ensures Den(WithPatched(n, i, idx, val), tab) == T.PatchProp(Den(n, tab), i, idx, val)
  {
    hide PropName, T.Patched;
    var n2 := WithPatched(n, i, idx, val);
    assert DenProps(n2.props, tab) == T.PatchProp(Den(n, tab), i, idx, val).props;
  }

  /** Two runs of tokens of the same length: whatever stands after them stands where it stood. */
  predicate SameSize(a: seq<Token>, b: seq<Token>) {
    Size(a) == Size(b)
  }

  lemma PatchedSize(n: Cst, i: nat, idx: nat, val: seq<byte>)
    requires i < |n.props| && idx + |val| <= |n.props[i].data|
    ensures SameSize(Toks(WithPatched(n, i, idx, val)), Toks(n))
  {
    var p := n.props[i];
    var q := p.(data := T.Patched(p.data, idx, val));
    EncParts(p);
    EncParts(q);
    hide Toks, EncAll, Enc, PropPre, TailFrom;
    PropSplit(n, i);
    ReplaceProp(n, i, q);
    EncOne(PTok(p));
    EncOne(PTok(q));
    EncAll3(PropPre(n, i), [PTok(p)], PropPost(n, i));
    EncAll3(PropPre(n, i), [PTok(q)], PropPost(n, i));
  }

  /** fdt_setprop_inplace_namelen_partial. */
  method SetPropInplacePartial(fdt: Fdt, nodeOffset: int, name: seq<byte>, idx: nat, val: seq<byte>,
                               ghost pre: seq<Token>, ghost n: Cst, ghost post: seq<Token>)
    returns (err: int, ghost n2: Cst)
    requires Apart(fdt) && Focused(fdt, pre, n, post) && AtNode(fdt, nodeOffset, pre) && idx + |val| < 0x1_0000_0000
    modifies fdt.buf
    ensures fdt.Layout() && HeadKept(fdt) && fdt.Strs() == old(fdt.Strs())
    ensures Focused(fdt, pre, n2, post) && SameSize(Toks(n2), Toks(n))
    ensures err != 0 ==> n2 == n && fdt.S() == old(fdt.S())
    ensures NodeCheck(old(fdt.S()), nodeOffset) < 0 ==> err == ERR_BADOFFSET
    ensures NodeCheck(old(fdt.S()), nodeOffset) >= 0 ==>
      var t := Den(n, fdt.Strs());
      var i := T.FindProp(t.props, name);
      if i == |t.props| then err == ERR_NOTFOUND
      else if |t.props[i].val| < |val| + idx then err == ERR_NOSPACE
      else err == 0 && Den(n2, fdt.Strs()) == T.PatchProp(t, i, idx, val) && n2 == WithPatched(n, i, idx, val)
  {
    hide EncAll, Enc, Toks, Named, T.FindProp, T.PatchProp, PropOff, Overwritten, StringAt, Fdt.Mem, Fdt.S, Fdt.Strs, TokenAt, ReadTag, WithPatched, SameSize;
    n2 := n;
    SameSizeRefl(Toks(n));
    var prop, len;
    prop, len := GetProperty(fdt, nodeOffset, name, pre, n, post);
    if prop < 0 {
      return len, n2;
    }
    if len < |val| + idx {
      return ERR_NOSPACE, n2;
    }
    ghost var s, i := fdt.S(), T.FindProp(DenProps(n.props, fdt.Strs()), name);
    InplaceRoom(fdt, pre, n, post, i, prop, idx, val);
    PutStruct(fdt, prop + 12 + idx, val);
    n2 := PatchedFocus(fdt, s, pre, n, post, i, idx, val);
    err := 0;
  }

  lemma SameSizeRefl(a: seq<Token>)
    ensures SameSize(a, a)
  {
  }

  lemma InplaceRoom(fdt: Fdt, pre: seq<Token>, n: Cst, post: seq<Token>, i: nat, prop: nat, idx: nat, val: seq<byte>)
    requires Apart(fdt) && Focused(fdt, pre, n, post)
    requires i < |n.props| && prop == PropOff(pre, n, i) && idx + |val| <= |n.props[i].data|
    ensures TokenAt(fdt.S(), prop, PTok(n.props[i])) && StringAt(fdt.Strs(), n.props[i].nameoff)
    ensures prop + 12 + idx + |val| <= fdt.sizeDtStruct && |fdt.S()| == fdt.sizeDtStruct
    ensures EncAll(pre + Toks(n) + post) <= fdt.S() && Named(pre + Toks(n) + post, fdt.Strs()) && Ended(post)
  {
    hide EncAll, Enc, Toks, Named, PropOff, StringAt, TokenAt;
    PropHere(fdt, pre, n, post, i);
    PropFields(fdt, pre, n, post, i);
    TokenAtSize(fdt.S(), prop, n.props[i]);
  }

  lemma PatchedFocus(fdt: Fdt, s: seq<byte>, pre: seq<Token>, n: Cst, post: seq<Token>, i: nat, idx: nat, val: seq<byte>)
    returns (n2: Cst)
    requires fdt.Layout() && Ended(post)
    requires EncAll(pre + Toks(n) + post) <= s && Named(pre + Toks(n) + post, fdt.Strs())
    requires i < |n.props| && idx + |val| <= |n.props[i].data|
    requires TokenAt(s, PropOff(pre, n, i), PTok(n.props[i])) && StringAt(fdt.Strs(), n.props[i].nameoff)
    requires PropOff(pre, n, i) + 12 + idx + |val| <= |s|
    requires Overwritten(s, fdt.S(), PropOff(pre, n, i) + 12 + idx, val)
    ensures n2 == WithPatched(n, i, idx, val)
    ensures Focused(fdt, pre, n2, post) && SameSize(Toks(n2), Toks(n))
    ensures Den(n2, fdt.Strs()) == T.PatchProp(Den(n, fdt.Strs()), i, idx, val)
  {
    hide EncAll, Enc, Toks, Named, PropOff, StringAt, Overwritten, Fdt.S, Fdt.Strs, Fdt.Mem, T.PatchProp, Den, SameSize;
    var p, o := n.props[i], PropOff(pre, n, i);
    var q := p.(data := T.Patched(p.data, idx, val));
    n2 := WithPatched(n, i, idx, val);
    PatchedToken(s, fdt.S(), o, p, idx, val);
    ReplacedInBlock(s, fdt.S(), pre, n, post, i, q);
    NamedReplaced(pre, n, post, i, q, fdt.Strs());
    PatchedDen(n, i, idx, val, fdt.Strs());
    PatchedSize(n, i, idx, val);
  }

  // ---- fdt_nop_property, fdt_nop_node ----------------------------------------------------------

  lemma NopWords(k: nat)
    ensures EncAll(Nops(k + 1)) == EncAll(Nops(k)) + BE32(FDT_NOP)
    ensures Size(Nops(k)) == 4 * k
  {
    NopsSize(k);
    BareTag(Nop);
    hide Enc;
    assert Nops(k + 1) == Nops(k) + [Nop];
    EncAllConcat(Nops(k), [Nop]);
    EncOne(Nop);
  }

  /** _fdt_nop_region: NOP words over `len` bytes of the structure block. */
  method NopRegion(fdt: Fdt, start: nat, len: nat, ghost k: nat)
    requires Apart(fdt) && start + 4 * k <= fdt.sizeDtStruct && 4 * k == Align4(len)
    modifies fdt.buf
    ensures fdt.Layout() && HeadKept(fdt) && fdt.Strs() == old(fdt.Strs())
    ensures Overwritten(old(fdt.S()), fdt.S(), start, EncAll(Nops(k)))
  {
    hide EncAll, Enc, Nops, Overwritten, Fdt.S, Fdt.Strs, Fdt.Mem, BE32;
    ghost var s, i := fdt.S(), 0;
    NoNops();
    ApartSize(fdt);
    OverNone(s, start);
    var p := start;
    while p < start + len
      invariant i <= k && p == start + 4 * i
      invariant fdt.Layout() && HeadKept(fdt) && fdt.Strs() == old(fdt.Strs())
      invariant Overwritten(s, fdt.S(), start, EncAll(Nops(i)))
      decreases start + len - p
    {
      ghost var s1 := fdt.S();
      NopWords(i);
      PutStruct(fdt, p, BE32(FDT_NOP));
      OverTwice(s, s1, fdt.S(), start, EncAll(Nops(i)), BE32(FDT_NOP));
      i := i + 1;
      p := p + TAGSIZE;
    }
  }

  lemma NoNops()
    ensures Nops(0) == [] && EncAll(Nops(0)) == []
  {
  }

  lemma OverNone(s: seq<byte>, o: nat)
    requires o <= |s|
    ensures Overwritten(s, s, o, [])
  {
  }

  lemma ApartSize(fdt: Fdt)
    requires Apart(fdt)
    ensures |fdt.S()| == fdt.sizeDtStruct
  {
  }

  /** A run of tokens overwritten by NOP tags of the same total size. */
  lemma NoppedInBlock(s: seq<byte>, s2: seq<byte>, a: seq<Token>, mid: seq<Token>, b: seq<Token>, k: nat)
    requires EncAll(a + mid + b) <= s && Size(mid) == 4 * k
    requires Overwritten(s, s2, Size(a), EncAll(Nops(k)))
    ensures EncAll(a + Nops(k) + b) <= s2
  {
    hide EncAll, Nops;
    NopWords(k);
    SwapTokens(s, s2, a, mid, b, Nops(k));
  }

  lemma NamedNops(k: nat, tab: seq<byte>)
    ensures Named(Nops(k), tab)
  {
  }

  /** fdt_nop_property: the property disappears, nothing moves. */
  method NopProperty(fdt: Fdt, nodeOffset: int, name: seq<byte>, ghost pre: seq<Token>, ghost n: Cst, ghost post: seq<Token>)
    returns (err: int, ghost n2: Cst)
    requires Apart(fdt) && Focused(fdt, pre, n, post) && AtNode(fdt, nodeOffset, pre)
    modifies fdt.buf
    ensures fdt.Layout() && HeadKept(fdt) && fdt.Strs() == old(fdt.Strs())
    ensures Focused(fdt, pre, n2, post) && SameSize(Toks(n2), Toks(n))
    ensures err != 0 ==> n2 == n && fdt.S() == old(fdt.S())
    ensures NodeCheck(old(fdt.S()), nodeOffset) < 0 ==> err == ERR_BADOFFSET
    ensures NodeCheck(old(fdt.S()), nodeOffset) >= 0 ==>
      var t := Den(n, fdt.Strs());
      var i := T.FindProp(t.props, name);
      if i == |t.props| then err == ERR_NOTFOUND
      else err == 0 && Den(n2, fdt.Strs()) == T.DelProp(t, i)
  {
    hide EncAll, Enc, Toks, Named, T.FindProp, T.DelProp, PropOff, Overwritten, StringAt, Fdt.Mem, Fdt.S, Fdt.Strs, TokenAt, ReadTag, SameSize, WithoutProp, Align4;
    n2 := n;
    SameSizeRefl(Toks(n));
    var prop, len;
    prop, len := GetProperty(fdt, nodeOffset, name, pre, n, post);
    if prop < 0 {
      return len, n2;
    }
    ghost var s, i := fdt.S(), T.FindProp(DenProps(n.props, fdt.Strs()), name);
    ghost var k := NopRoom(fdt, pre, n, post, i, prop);
    NopRegion(fdt, prop, len + 12, k);
    n2 := NoppedPropFocus(fdt, s, pre, n, post, i, k);
    err := 0;
  }

  lemma NopRoom(fdt: Fdt, pre: seq<Token>, n: Cst, post: seq<Token>, i: nat, prop: nat) returns (k: nat)
    requires Apart(fdt) && Focused(fdt, pre, n, post) && i < |n.props| && prop == PropOff(pre, n, i)
    ensures 4 * k == Align4(|n.props[i].data| + 12) == |Enc(PTok(n.props[i]))|
    ensures prop + 4 * k <= fdt.sizeDtStruct && |fdt.S()| == fdt.sizeDtStruct
    ensures EncAll(pre + Toks(n) + post) <= fdt.S() && Named(pre + Toks(n) + post, fdt.Strs()) && Ended(post)
  {
    PropHere(fdt, pre, n, post, i);
    hide EncAll, Toks, Named, PropOff;
    var p := n.props[i];
    EncProp(p.nameoff, p.data, p.pad);
    Align4Shift(12, |p.data|);
    k := |Enc(PTok(p))| / 4;
  }

  lemma NoppedPropFocus(fdt: Fdt, s: seq<byte>, pre: seq<Token>, n: Cst, post: seq<Token>, i: nat, k: nat) returns (n2: Cst)
    requires fdt.Layout() && Ended(post) && i < |n.props| && 4 * k == |Enc(PTok(n.props[i]))|
    requires EncAll(pre + Toks(n) + post) <= s && Named(pre + Toks(n) + post, fdt.Strs())
    requires Overwritten(s, fdt.S(), PropOff(pre, n, i), EncAll(Nops(k)))
    ensures Focused(fdt, pre, n2, post) && SameSize(Toks(n2), Toks(n))
    ensures Den(n2, fdt.Strs()) == T.DelProp(Den(n, fdt.Strs()), i)
  {
    hide EncAll, Enc, Toks, Named, PropPre, TailFrom, Overwritten, Fdt.S, Fdt.Strs, Fdt.Mem, T.DelProp, Den, Nops, WithoutProp, PTok;
    var a, b, t := pre + PropPre(n, i), PropPost(n, i) + post, PTok(n.props[i]);
    n2 := WithoutProp(n, i, k);
    FocusProp(pre, n, post, i);
    WithoutPropToks(n, i, k);
    assert pre + Toks(n2) + post == a + Nops(k) + b;
    EncOne(t);
    NoppedInBlock(s, fdt.S(), a, [t], b, k);
    NamedNops(k, fdt.Strs());
    NamedSwap(a, [t], b, Nops(k), fdt.Strs());
    WithoutPropDen(n, i, k, fdt.Strs());
    PropSplit(n, i);
    NopWords(k);
    EncAll3(PropPre(n, i), [t], PropPost(n, i));
    EncAll3(PropPre(n, i), Nops(k), PropPost(n, i));
  }

  /** _fdt_node_end_offset: the offset just after the node in focus. */
  method NodeEndOffset(fdt: Fdt, nodeOffset: int, ghost pre: seq<Token>, ghost n: Cst, ghost post: seq<Token>)
    returns (r: int)
    requires Focused(fdt, pre, n, post) && AtNode(fdt, nodeOffset, pre)
    ensures nodeOffset < 0 ==> r == nodeOffset
    ensures nodeOffset >= 0 && NodeCheck(fdt.S(), nodeOffset) < 0 ==> r == ERR_BADOFFSET
    ensures NodeCheck(fdt.S(), nodeOffset) >= 0 ==> r == Size(pre + Toks(n))
  {
    if nodeOffset < 0 {
      return nodeOffset;
    }
    var err := CheckNodeOffset(fdt, nodeOffset);
    if err < 0 {
      return err;
    }
    r := EndScan(fdt, nodeOffset, pre, n, post);
  }

  method EndScan(fdt: Fdt, nodeOffset: nat, ghost pre: seq<Token>, ghost n: Cst, ghost post: seq<Token>)
    returns (r: int)
    requires Focused(fdt, pre, n, post) && nodeOffset == Size(pre)
    ensures r == Size(pre + Toks(n))
  {
    hide EncAll, Enc, Toks, Walk, Size, KidsOff, KidsPost, Cursor, PreorderKids, Fdt.Holds, Fdt.Layout, Fdt.S;
    ghost var w := WalkFocus(pre, n, post);
    var depth := 0;
    r := nodeOffset;
    ghost var a, b := pre, Toks(n) + post;
    while true
      invariant a + b == pre + Toks(n) + post && Ended(b) && r == Size(a)
      invariant depth >= 0 && Cursor(a, b, depth, true, w) && w.end == Left(Size(pre + Toks(n)))
      decreases |b|
    {
      r, depth, a, b := NextNodeOfWalk(fdt, r, depth, true, a, b, w);
      if r < 0 || depth < 0 {
        return r;
      }
      w := After(w);
    }
  }

  /** fdt_nop_node on child `i` of the node in focus: the child disappears, nothing moves. */
  method NopNode(fdt: Fdt, nodeOffset: int, ghost pre: seq<Token>, ghost n: Cst, ghost post: seq<Token>, ghost i: nat)
    returns (err: int, ghost n2: Cst)
    requires Apart(fdt) && Focused(fdt, pre, n, post) && i < |n.kids|
    requires NodeCheck(fdt.S(), nodeOffset) < 0 || nodeOffset == KidOff(pre, n, i)
    modifies fdt.buf
    ensures fdt.Layout() && HeadKept(fdt) && fdt.Strs() == old(fdt.Strs())
    ensures Focused(fdt, pre, n2, post) && SameSize(Toks(n2), Toks(n))
    ensures NodeCheck(old(fdt.S()), nodeOffset) < 0 ==>
              err == (if nodeOffset < 0 then nodeOffset else ERR_BADOFFSET) && n2 == n && fdt.S() == old(fdt.S())
    ensures NodeCheck(old(fdt.S()), nodeOffset) >= 0 ==>
              err == 0 && Den(n2, fdt.Strs()) == T.DelKid(Den(n, fdt.Strs()), i)
  {
    hide EncAll, Enc, Toks, Named, T.DelKid, KidPre, KidPost, Overwritten, Fdt.Mem, Fdt.S, Fdt.Strs, ReadTag, SameSize, WithoutKid, Den;
    n2 := n;
    SameSizeRefl(Toks(n));
    KidFocused(fdt, pre, n, post, i);
    var end := NodeEndOffset(fdt, nodeOffset, pre + KidPre(n, i), n.kids[i], KidPost(n, i) + post);
    if end < 0 {
      return end, n2;
    }
    ghost var s := fdt.S();
    ghost var k := NodeRoom(fdt, pre, n, post, i);
    NopRegion(fdt, nodeOffset, end - nodeOffset, k);
    n2 := NoppedKidFocus(fdt, s, pre, n, post, i, k);
    err := 0;
  }

  lemma KidFocused(fdt: Fdt, pre: seq<Token>, n: Cst, post: seq<Token>, i: nat)
    requires Focused(fdt, pre, n, post) && i < |n.kids|
    ensures Focused(fdt, pre + KidPre(n, i), n.kids[i], KidPost(n, i) + post)
  {
    hide EncAll, Toks, Named, KidPre, KidPost;
    FocusKid(pre, n, post, i);
    EndedConcat(KidPost(n, i), post);
  }

  lemma NodeRoom(fdt: Fdt, pre: seq<Token>, n: Cst, post: seq<Token>, i: nat) returns (k: nat)
    requires Apart(fdt) && Focused(fdt, pre, n, post) && i < |n.kids|
    ensures var a := pre + KidPre(n, i);
      && 4 * k == Size(Toks(n.kids[i])) == Size(a + Toks(n.kids[i])) - Size(a) == Align4(Size(a + Toks(n.kids[i])) - Size(a))
      && Size(a) + 4 * k <= fdt.sizeDtStruct
    ensures EncAll(pre + Toks(n) + post) <= fdt.S() && Named(pre + Toks(n) + post, fdt.Strs()) && Ended(post)
  {
    hide EncAll, Toks, Named, KidPre, KidPost;
    var a, t := pre + KidPre(n, i), Toks(n.kids[i]);
    FocusKid(pre, n, post, i);
    EncAllConcat(a, t);
    EncAllConcat(a + t, KidPost(n, i) + post);
    k := Size(t) / 4;
  }

  lemma NoppedKidFocus(fdt: Fdt, s: seq<byte>, pre: seq<Token>, n: Cst, post: seq<Token>, i: nat, k: nat) returns (n2: Cst)
    requires fdt.Layout() && Ended(post) && i < |n.kids| && 4 * k == Size(Toks(n.kids[i]))
    requires EncAll(pre + Toks(n) + post) <= s && Named(pre + Toks(n) + post, fdt.Strs())
    requires Overwritten(s, fdt.S(), KidOff(pre, n, i), EncAll(Nops(k)))
    ensures Focused(fdt, pre, n2, post) && SameSize(Toks(n2), Toks(n))
    ensures Den(n2, fdt.Strs()) == T.DelKid(Den(n, fdt.Strs()), i)
  {
    hide EncAll, Toks, Named, KidPre, KidPost, Overwritten, Fdt.S, Fdt.Strs, Fdt.Mem, T.DelKid, Den, Nops, WithoutKid;
    var a, b, t := pre + KidPre(n, i), KidPost(n, i) + post, Toks(n.kids[i]);
    n2 := WithoutKid(n, i, k);
    FocusKid(pre, n, post, i);
    WithoutKidToks(n, i, k);
    assert pre + Toks(n2) + post == a + Nops(k) + b;
    NoppedInBlock(s, fdt.S(), a, t, b, k);
    NamedNops(k, fdt.Strs());
    NamedSwap(a, t, b, Nops(k), fdt.Strs());
    WithoutKidDen(n, i, k, fdt.Strs());
    KidSplit(n, i);
    NopWords(k);
    EncAll3(KidPre(n, i), t, KidPost(n, i));
    EncAll3(KidPre(n, i), Nops(k), KidPost(n, i));
  }
}
