/** libfdt/fdt_ro.c: looking up properties and nodes of a blob that is only read. */
module FdtRo {
  import opened Bytes
  import opened StructBlock
  import opened Concrete
  import opened Walking
  import opened FdtBase
  import opened Focus
  import T = Tree

  // ---- properties ------------------------------------------------------------------------

  /** _nextprop on tokens. */
  function ScanProp(rest: seq<Token>, off: nat): int {
    if rest == [] then ERR_NOTFOUND else
    match rest[0]
    case Prop(_, _, _) => off
    case Nop => ScanProp(rest[1..], off + 4)
    case End => ERR_BADSTRUCTURE
    case _ => ERR_NOTFOUND
  }

  lemma {:induction false} ScanPropNops(k: nat, rest: seq<Token>, off: nat)
    ensures ScanProp(Nops(k) + rest, off) == ScanProp(rest, off + 4 * k)
  {
    if k == 0 {
      assert Nops(k) + rest == rest;
    } else {
      assert (Nops(k) + rest)[1..] == Nops(k - 1) + rest;
      ScanPropNops(k - 1, rest, off + 4);
    }
  }

  /** Scanning on from the end of property i - 1 finds property i, or the end of the properties. */
  lemma ScanPropAt(n: Cst, i: nat, post: seq<Token>, off: nat)
    requires i <= |n.props|
    ensures ScanProp(TailFrom(n, i) + post, off) ==
            if i < |n.props| then off + 4 * n.props[i].nops else ERR_NOTFOUND
  {
    if i < |n.props| {
      PropStep(n, i);
      hide TailFrom, Nops;
      var r := [PTok(n.props[i])] + PropPost(n, i) + post;
      assert TailFrom(n, i) + post == Nops(n.props[i].nops) + r;
      ScanPropNops(n.props[i].nops, r, off);
    } else {
      assert PToks(n.props[i..]) == [];
      ScanPropNoMore(n, post, off);
      assert TailFrom(n, i) + post == KToks(n.kids) + (Nops(n.tail) + ([EndNode] + post)) by {
        hide KToks, Nops;
      }
    }
  }

  lemma ScanPropNoMore(n: Cst, post: seq<Token>, off: nat)
    ensures ScanProp(KToks(n.kids) + (Nops(n.tail) + ([EndNode] + post)), off) == ERR_NOTFOUND
  {
    var e := Nops(n.tail) + ([EndNode] + post);
    if n.kids == [] {
      assert KToks(n.kids) + e == e;
      ScanPropNops(n.tail, [EndNode] + post, off);
    } else {
      var k := n.kids[0];
      KToksCons(n.kids, 0);
      assert n.kids[0..] == n.kids;
      assert Toks(k)[0] == Begin(k.name, k.pad);
      hide KToks, Toks, Nops;
      var r := Toks(k) + KToks(n.kids[1..]) + e;
      assert KToks(n.kids) + e == Nops(k.lead) + r;
      ScanPropNops(k.lead, r, off);
    }
  }

  /** Where property `i` stands after what precedes it. */
  lemma PropOffset(pre: seq<Token>, n: Cst, i: nat)
    requires i < |n.props|
    ensures PropOff(pre, n, i) == Size(pre + HeadTo(n, i)) + 4 * n.props[i].nops
    ensures Size(pre + HeadTo(n, i + 1)) == PropOff(pre, n, i) + |Enc(PTok(n.props[i]))|
  {
    hide EncAll, Enc, PToks, HeadTo, PTok, Nops;
    var h, k := HeadTo(n, i), Nops(n.props[i].nops);
    assert pre + PropPre(n, i) == (pre + h) + k;
    EncAllConcat(pre + h, k);
    NopsSize(n.props[i].nops);
    PropStep(n, i);
    assert pre + HeadTo(n, i + 1) == (pre + PropPre(n, i)) + [PTok(n.props[i])];
    EncAllConcat(pre + PropPre(n, i), [PTok(n.props[i])]);
    EncOne(PTok(n.props[i]));
  }

  method NextProp(fdt: Fdt, start: nat, ghost done: seq<Token>, ghost rest: seq<Token>) returns (r: int)
    requires fdt.Holds(done + rest) && Ended(rest) && start == Size(done)
    ensures r == ScanProp(rest, start)
  {
    hide EncAll, ReadTag, Named;
    var offset: int := start;
    ghost var a, b := done, rest;
    while true
      invariant a + b == done + rest && Ended(b) && offset == Size(a)
      invariant ScanProp(b, offset) == ScanProp(rest, start)
      decreases |b|
    {
      TagHere(fdt, a, b);
      var tag, next := NextTag(fdt, offset);
      if tag == FDT_END {
        return if next >= 0 then ERR_BADSTRUCTURE else next;
      } else if tag == FDT_PROP {
        return offset;
      } else if tag != FDT_NOP {
        return ERR_NOTFOUND;
      }
      offset := next;
      a, b := a + [b[0]], b[1..];
    }
  }

  /** The block from just before property `i` on. */
  lemma AfterHead(pre: seq<Token>, n: Cst, post: seq<Token>, i: nat)
    requires i <= |n.props|
    ensures pre + Toks(n) + post == (pre + HeadTo(n, i)) + (TailFrom(n, i) + post)
  {
    hide Toks, HeadTo, TailFrom;
    HeadTail(n, i);
  }

  lemma AtBegin(fdt: Fdt, pre: seq<Token>, n: Cst, post: seq<Token>)
    requires Focused(fdt, pre, n, post)
    ensures ReadTag(fdt.S(), Size(pre)) == TagResult(FDT_BEGIN_NODE, Size(pre + HeadTo(n, 0)))
    ensures Size(pre + HeadTo(n, 0)) == Size(pre) + |Enc(Begin(n.name, n.pad))|
    ensures Size(pre) % 4 == 0
  {
    hide EncAll, Enc, ReadTag, Named, Toks, TailFrom, HeadTo;
    HeadTail(n, 0);
    AfterHead(pre, n, post, 0);
    var b := Begin(n.name, n.pad);
    assert (pre + [b]) + (TailFrom(n, 0) + post) == pre + ([b] + (TailFrom(n, 0) + post));
    TagHere(fdt, pre, [b] + (TailFrom(n, 0) + post));
  }

  lemma AtProp(fdt: Fdt, pre: seq<Token>, n: Cst, post: seq<Token>, i: nat)
    requires Focused(fdt, pre, n, post) && i < |n.props|
    ensures ReadTag(fdt.S(), PropOff(pre, n, i)) == TagResult(FDT_PROP, Size(pre + HeadTo(n, i + 1)))
    ensures PropOff(pre, n, i) % 4 == 0
  {
    hide EncAll, Enc, ReadTag, Named, Toks, PropPre, TailFrom, HeadTo;
    FocusProp(pre, n, post, i);
    PropStep(n, i);
    var p, a, c := PTok(n.props[i]), pre + PropPre(n, i), PropPost(n, i) + post;
    assert a + [p] + c == a + ([p] + c);
    assert a + [p] == pre + HeadTo(n, i + 1);
    TagHere(fdt, a, [p] + c);
  }

  /** fdt_first_property_offset on the node in focus. */
  method FirstPropertyOffset(fdt: Fdt, nodeOffset: int, ghost pre: seq<Token>, ghost n: Cst, ghost post: seq<Token>)
    returns (r: int)
    requires Focused(fdt, pre, n, post) && AtNode(fdt, nodeOffset, pre)
    ensures NodeCheck(fdt.S(), nodeOffset) < 0 ==> r == ERR_BADOFFSET
    ensures NodeCheck(fdt.S(), nodeOffset) >= 0 ==>
              r == if |n.props| > 0 then PropOff(pre, n, 0) else ERR_NOTFOUND
  {
    hide EncAll, Enc, ReadTag, Named, Toks, PropPre, TailFrom, HeadTo;
    r := CheckNodeOffset(fdt, nodeOffset);
    if r >= 0 {
      AtBegin(fdt, pre, n, post);
      r := PropertyFrom(fdt, r, pre, n, post, 0);
    }
  }

  /** _nextprop from the end of property i - 1 of the node in focus. */
  method PropertyFrom(fdt: Fdt, offset: nat, ghost pre: seq<Token>, ghost n: Cst, ghost post: seq<Token>, ghost i: nat)
    returns (r: int)
    requires Focused(fdt, pre, n, post)
    requires i <= |n.props| && offset == Size(pre + HeadTo(n, i))
    ensures r == if i < |n.props| then PropOff(pre, n, i) else ERR_NOTFOUND
  {
    AfterHead(pre, n, post, i);
    hide EncAll, Enc, ReadTag, Named, Toks, PropPre, TailFrom, HeadTo;
    r := NextProp(fdt, offset, pre + HeadTo(n, i), TailFrom(n, i) + post);
    ScanPropAt(n, i, post, offset);
    if i < |n.props| {
      PropOffset(pre, n, i);
    }
  }

  /** An offset that fails the check fails it with one error. */
  lemma CheckFails(s: seq<byte>, offset: int)
    ensures PropCheck(s, offset) < 0 ==> PropCheck(s, offset) == ERR_BADOFFSET
  {
    hide ReadTag;
  }

  /** `offset` is that of property `i` of the node in focus, or one that libfdt rejects. */
  ghost predicate AtProperty(fdt: Fdt, offset: int, pre: seq<Token>, n: Cst, i: nat)
    requires fdt.Layout()
    reads fdt, fdt.buf
  {
    PropCheck(fdt.S(), offset) < 0 || (i < |n.props| && offset == PropOff(pre, n, i))
  }

  lemma FocusLayout(fdt: Fdt, pre: seq<Token>, n: Cst, post: seq<Token>)
    requires Focused(fdt, pre, n, post)
    ensures fdt.Layout()
  {
  }

  lemma PropCheckOk(fdt: Fdt, pre: seq<Token>, n: Cst, post: seq<Token>, i: nat)
    requires Focused(fdt, pre, n, post) && i < |n.props|
    ensures PropCheck(fdt.S(), PropOff(pre, n, i)) >= 0
  {
    AtProp(fdt, pre, n, post, i);
    hide EncAll, Enc, ReadTag, Named, Toks, PropPre, HeadTo;
  }

  /** fdt_next_property_offset from property `i` of the node in focus. */
  method NextPropertyOffset(fdt: Fdt, offset: int, ghost pre: seq<Token>, ghost n: Cst, ghost post: seq<Token>, ghost i: nat)
    returns (r: int)
    requires Focused(fdt, pre, n, post) && AtProperty(fdt, offset, pre, n, i)
    ensures PropCheck(fdt.S(), offset) < 0 ==> r == ERR_BADOFFSET
    ensures PropCheck(fdt.S(), offset) >= 0 ==> r == if i + 1 < |n.props| then PropOff(pre, n, i + 1) else ERR_NOTFOUND
  {
    hide EncAll, Enc, ReadTag, Named, Toks, PropPre, TailFrom, HeadTo, PropOff, Fdt.S, Fdt.Layout;
    r := CheckPropOffset(fdt, offset);
    if r < 0 {
      CheckFails(fdt.S(), offset);
      return;
    }
    AtProp(fdt, pre, n, post, i);
    r := PropertyFrom(fdt, r, pre, n, post, i + 1);
  }

  /** struct fdt_property at offset `o` of a block. */
  predicate PropertyAt(s: seq<byte>, o: nat, nameoff: u32, data: seq<byte>) {
    && InBlock(s, o, 12 + |data|)
    && Word(s, o + 4) == |data| && Word(s, o + 8) == nameoff
    && s[o + 12..o + 12 + |data|] == data
  }

  lemma NamedAt(a: seq<Token>, t: Token, c: seq<Token>, tab: seq<byte>)
    requires Named(a + [t] + c, tab) && t.Prop?
    ensures StringAt(tab, t.nameoff)
  {
    assert (a + [t] + c)[|a|] == t;
  }

  /** The fields of property `i`, read from its bytes. */
  lemma PropFields(fdt: Fdt, pre: seq<Token>, n: Cst, post: seq<Token>, i: nat)
    requires Focused(fdt, pre, n, post) && i < |n.props|
    ensures PropertyAt(fdt.S(), PropOff(pre, n, i), n.props[i].nameoff, n.props[i].data)
    ensures StringAt(fdt.Strs(), n.props[i].nameoff)
  {
    hide EncAll, Enc, ReadTag, Toks, PropPre, TailFrom, HeadTo, Word, Named, StringAt;
    var o, p := PropOff(pre, n, i), n.props[i];
    var a, c := pre + PropPre(n, i), PropPost(n, i) + post;
    FocusProp(pre, n, post, i);
    NamedAt(a, PTok(p), c, fdt.Strs());
    TokenInBlock(fdt.S(), a, PTok(p), c);
    PropInBlock(fdt.S(), o, p.nameoff, p.data, p.pad);
  }

  /** _fdt_string_eq: the string at `stroffset` is `s`. */
  method StringEq(fdt: Fdt, stroffset: nat, s: seq<byte>) returns (r: bool)
    requires fdt.Layout() && StringAt(fdt.Strs(), stroffset)
    ensures r <==> CStr(fdt.Strs(), stroffset) == s
  {
    var p := fdt.offDtStrings + stroffset;
    ghost var tab := fdt.Strs();
    ghost var z := NulFrom(tab, stroffset);
    var len := 0;
    while fdt.buf[p + len] != 0
      invariant stroffset + len <= z
      decreases z - len
    {
      assert tab[stroffset + len] == fdt.buf[p + len];
      len := len + 1;
    }
    assert tab[stroffset + len] == fdt.buf[p + len];
    SubArray(fdt.buf, fdt.offDtStrings, fdt.offDtStrings + fdt.sizeDtStrings, stroffset, stroffset + len);
    assert fdt.buf[p..p + len] == CStr(tab, stroffset);
    r := len == |s| && fdt.buf[p..p + len] == s;
  }

  /** The answer of fdt_get_property: offset and length of the first property of that name, or a
      negative offset (the source's NULL) and the error. */
  ghost predicate PropertyAnswer(pre: seq<Token>, n: Cst, i: nat, prop: int, len: int) {
    if i < |n.props| then prop == PropOff(pre, n, i) && len == |n.props[i].data|
    else prop < 0 && len == ERR_NOTFOUND
  }

  method GetProperty(fdt: Fdt, nodeOffset: int, name: seq<byte>, ghost pre: seq<Token>, ghost n: Cst, ghost post: seq<Token>)
    returns (prop: int, len: int)
    requires Focused(fdt, pre, n, post) && AtNode(fdt, nodeOffset, pre)
    ensures NodeCheck(fdt.S(), nodeOffset) < 0 ==> prop < 0 && len == ERR_BADOFFSET
    ensures NodeCheck(fdt.S(), nodeOffset) >= 0 ==>
              PropertyAnswer(pre, n, T.FindProp(DenProps(n.props, fdt.Strs()), name), prop, len)
  {
    prop := FirstPropertyOffset(fdt, nodeOffset, pre, n, post);
    if prop == ERR_BADOFFSET {
      return prop, prop;
    }
    prop, len := PropertyNamed(fdt, prop, name, pre, n, post);
  }

  /** The loop of fdt_get_property_namelen, from the first property offset. */
  method PropertyNamed(fdt: Fdt, first: int, name: seq<byte>, ghost pre: seq<Token>, ghost n: Cst, ghost post: seq<Token>)
    returns (prop: int, len: int)
    requires Focused(fdt, pre, n, post)
    requires first == if |n.props| > 0 then PropOff(pre, n, 0) else ERR_NOTFOUND
    ensures PropertyAnswer(pre, n, T.FindProp(DenProps(n.props, fdt.Strs()), name), prop, len)
  {
    hide EncAll, Enc, ReadTag, Toks, PropPre, PropOff, TailFrom, HeadTo, Named, T.FindProp, Word, StringAt, CStr, PropName, DenProps, PropCheck, Fdt.S, Fdt.Mem;
    ghost var i, ps := 0, DenProps(n.props, fdt.Strs());
    prop := first;
    while prop >= 0
      invariant i <= |n.props|
      invariant prop == if i < |n.props| then PropOff(pre, n, i) else ERR_NOTFOUND
      invariant forall j :: 0 <= j < i ==> ps[j].name != name
      decreases |n.props| - i
    {
      PropFields(fdt, pre, n, post, i);
      len := fdt.U32At(prop + 4);
      var nameoff := fdt.U32At(prop + 8);
      var eq := StringEq(fdt, nameoff, name);
      PropNameIs(fdt.Strs(), nameoff);
      if eq {
        T.FindPropIs(ps, name, i);
        return;
      }
      PropCheckOk(fdt, pre, n, post, i);
      prop := NextPropertyOffset(fdt, prop, pre, n, post, i);
      i := i + 1;
    }
    len := prop;
    T.FindPropIs(ps, name, i);
  }

  lemma PropNameIs(tab: seq<byte>, off: u32)
    requires StringAt(tab, off)
    ensures PropName(tab, off) == CStr(tab, off)
  {
  }

  // ---- subnodes --------------------------------------------------------------------------

  predicate IsKid(v: Visit, name: seq<byte>) {
    v.depth == 1 && v.rest != [] && v.rest[0].Begin? && T.NameMatches(v.rest[0].name, name)
  }

  /** Offset of the first child of that name among the nodes visited, or -1. */
  function PickKid(vs: seq<Visit>, name: seq<byte>): int {
    if vs == [] then -1 else if IsKid(vs[0], name) then vs[0].off else PickKid(vs[1..], name)
  }

  lemma {:induction false} PickKidSkip(a: seq<Visit>, b: seq<Visit>, name: seq<byte>)
    requires forall i :: 0 <= i < |a| ==> !IsKid(a[i], name)
    ensures PickKid(a + b, name) == PickKid(b, name)
  {
    if a == [] {
      assert a + b == b;
    } else {
      assert (a + b)[0] == a[0] && (a + b)[1..] == a[1..] + b;
      PickKidSkip(a[1..], b, name);
    }
  }

  lemma PreorderHead(c: Cst, post: seq<Token>, off: nat, depth: int)
    ensures var vs := Preorder(c, post, off, depth);
      vs != [] && vs[0] == Visit(off, depth, Toks(c) + post) && vs[0].rest[0] == Begin(c.name, c.pad)
  {
  }

  lemma {:induction false} PreorderDepth(c: Cst, post: seq<Token>, off: nat, depth: int)
    ensures forall v :: v in Preorder(c, post, off, depth)[1..] ==> v.depth > depth
    decreases c, 1
  {
    hide EncAll, Enc, Toks, PToks, KToks, Nops, PreorderKids;
    PreorderKidsDepth(c.kids, Nops(c.tail) + [EndNode] + post,
                      off + |Enc(Begin(c.name, c.pad))| + Size(PToks(c.props)), depth + 1);
  }

  lemma {:induction false} PreorderKidsDepth(ks: seq<Cst>, post: seq<Token>, off: nat, depth: int)
    ensures forall v :: v in PreorderKids(ks, post, off, depth) ==> v.depth >= depth
    decreases ks
  {
    hide EncAll, Enc, Toks, PToks, KToks, Nops, Preorder;
    if ks != [] {
      PreorderHead(ks[0], KToks(ks[1..]) + post, off + 4 * ks[0].lead, depth);
      PreorderDepth(ks[0], KToks(ks[1..]) + post, off + 4 * ks[0].lead, depth);
      PreorderKidsDepth(ks[1..], post, off + 4 * ks[0].lead + Size(Toks(ks[0])), depth);
    }
  }

  /** First child that the name matches, or |ks|. */
  function FindKid(ks: seq<Cst>, name: seq<byte>): (i: nat)
    ensures i <= |ks|
    ensures i < |ks| ==> T.NameMatches(ks[i].name, name)
    ensures forall j :: 0 <= j < i ==> !T.NameMatches(ks[j].name, name)
  {
    if ks == [] || T.NameMatches(ks[0].name, name) then 0 else
      var i := FindKid(ks[1..], name);
      assert forall j :: 1 <= j < i + 1 ==> ks[j] == ks[1..][j - 1];
      i + 1
  }

  lemma FindKidDen(ks: seq<Cst>, tab: seq<byte>, name: seq<byte>)
    ensures T.FindKid(DenKids(ks, tab), name) == FindKid(ks, name)
  {
    T.FindKidIs(DenKids(ks, tab), name, FindKid(ks, name));
  }

  /** Offset of child `i` of a run of children that starts at `off`. */
  function KidAt(ks: seq<Cst>, off: nat, i: nat): nat
    requires i < |ks|
  {
    off + Size(KToks(ks[..i])) + 4 * ks[i].lead
  }

  lemma KidAtTail(ks: seq<Cst>, off: nat, i: nat)
    requires 0 < i < |ks|
    ensures KidAt(ks, off, i) == KidAt(ks[1..], off + 4 * ks[0].lead + Size(Toks(ks[0])), i - 1)
  {
    var a := ks[..i];
    assert a[0] == ks[0] && a[1..] == ks[1..][..i - 1];
    SizeKToks(a);
  }

  /** Only the first node of a child's preorder can be the child looked for. */
  lemma PickKidStep(ks: seq<Cst>, post: seq<Token>, off: nat, name: seq<byte>)
    requires ks != []
    ensures PickKid(PreorderKids(ks, post, off, 1), name) ==
            if T.NameMatches(ks[0].name, name) then KidAt(ks, off, 0)
            else PickKid(PreorderKids(ks[1..], post, off + 4 * ks[0].lead + Size(Toks(ks[0])), 1), name)
  {
    hide Preorder, EncAll, Toks, T.NameMatches;
    var o, r := off + 4 * ks[0].lead, KToks(ks[1..]) + post;
    assert ks[..0] == [] && KToks([]) == [];
    hide KToks;
    SizeNil();
    var a, b := Preorder(ks[0], r, o, 1), PreorderKids(ks[1..], post, o + Size(Toks(ks[0])), 1);
    assert PreorderKids(ks, post, off, 1) == a + b;
    PreorderHead(ks[0], r, o, 1);
    assert (a + b)[0] == a[0];
    if !T.NameMatches(ks[0].name, name) {
      PreorderDepth(ks[0], r, o, 1);
      forall i | 0 <= i < |a|
        ensures !IsKid(a[i], name)
      {
        if i > 0 {
          assert a[i] == a[1..][i - 1];
        }
      }
      PickKidSkip(a, b, name);
    }
  }

  /** Offset of the first child that the name matches, or -1, in a run that starts at `off`. */
  function NamedKidAt(ks: seq<Cst>, off: nat, name: seq<byte>): int {
    var i := FindKid(ks, name);
    if i < |ks| then KidAt(ks, off, i) else -1
  }

  lemma NamedKidAtStep(ks: seq<Cst>, off: nat, name: seq<byte>)
    requires ks != []
    ensures NamedKidAt(ks, off, name) ==
            if T.NameMatches(ks[0].name, name) then KidAt(ks, off, 0)
            else NamedKidAt(ks[1..], off + 4 * ks[0].lead + Size(Toks(ks[0])), name)
  {
    hide EncAll, Toks, KToks, T.NameMatches, KidAt;
    var i := FindKid(ks[1..], name);
    if !T.NameMatches(ks[0].name, name) && i < |ks[1..]| {
      KidAtTail(ks, off, i + 1);
    }
  }

  /** The child that fdt_subnode_offset settles on is the first that the name matches. */
  lemma {:induction false} PickKidIs(ks: seq<Cst>, post: seq<Token>, off: nat, name: seq<byte>)
    ensures PickKid(PreorderKids(ks, post, off, 1), name) == NamedKidAt(ks, off, name)
    decreases ks
  {
    if ks == [] {
      assert PreorderKids(ks, post, off, 1) == [];
    } else {
      NamedKidAtStep(ks, off, name);
      PickKidStep(ks, post, off, name);
      hide *;
      if !T.NameMatches(ks[0].name, name) {
        PickKidIs(ks[1..], post, off + 4 * ks[0].lead + Size(Toks(ks[0])), name);
      }
    }
  }

  lemma NameBytes(s: seq<byte>, o: nat, name: Name, pad: Pad)
    requires InBlock(s, o, |Enc(Begin(name, pad))|)
    requires s[o..o + |Enc(Begin(name, pad))|] == Enc(Begin(name, pad))
    ensures InBlock(s, o + 4, |name| + 1)
    ensures s[o + 4..o + 4 + |name|] == name && s[o + 4 + |name|] == 0
  {
    var e := Enc(Begin(name, pad));
    assert e[4..] == Padded(name + [0], pad);
    assert e[4..][..|name| + 1] == name + [0];
    assert |e| == 4 + Align4(|name| + 1);
    hide Enc, Padded;
    Slice(e, 4, |e|, 0, |name| + 1);
    Slice(s, o, o + |e|, 4, 4 + |name| + 1);
    var z := s[o + 4..o + 4 + |name| + 1];
    assert z == name + [0];
    assert z[|name|] == s[o + 4 + |name|];
    assert z[..|name|] == s[o + 4..o + 4 + |name|];
  }

  /** memcmp against a NUL-terminated name that stands in a block. */
  lemma NameCompare(s: seq<byte>, o: nat, name: Name, x: Name)
    requires InBlock(s, o, |name| + 1) && s[o..o + |name|] == name && s[o + |name|] == 0
    ensures x <= name ==> InBlock(s, o, |x| + 1) && s[o..o + |x|] == x
    ensures InBlock(s, o, |x| + 1) && s[o..o + |x|] == x ==> x <= name
    ensures x <= name && |x| < |name| ==> s[o + |x|] == name[|x|] != 0
  {
    var f := s[o..o + |name|];
    assert forall j :: 0 <= j < |name| ==> name[j] == f[j] == s[o + j];
    if x <= name {
      Slice(s, o, o + |name|, 0, |x|);
    }
    if InBlock(s, o, |x| + 1) && s[o..o + |x|] == x {
      var g := s[o..o + |x|];
      assert forall j :: 0 <= j < |x| ==> x[j] == g[j] == s[o + j];
      assert |x| <= |name|;
    }
  }

  /** The three tests of _fdt_nodename_eq, on the bytes at `o`. */
  predicate NameTest(s: seq<byte>, o: nat, x: Name) {
    && InBlock(s, o, |x| + 1)
    && s[o..o + |x|] == x
    && (s[o + |x|] == 0 || (T.AT !in x && s[o + |x|] == T.AT))
  }

  lemma NameVerdict(s: seq<byte>, o: nat, name: Name, x: Name)
    requires InBlock(s, o, |name| + 1) && s[o..o + |name|] == name && s[o + |name|] == 0
    ensures T.NameMatches(name, x) <==> NameTest(s, o, x)
  {
    NameCompare(s, o, name, x);
  }

  lemma NameHere(fdt: Fdt, done: seq<Token>, rest: seq<Token>, x: Name)
    requires fdt.Holds(done + rest) && rest != [] && rest[0].Begin?
    ensures T.NameMatches(rest[0].name, x) <==> NameTest(fdt.S(), Size(done) + 4, x)
  {
    hide EncAll, Enc, Named, T.NameMatches, NameTest;
    assert done + rest == done + [rest[0]] + rest[1..];
    TokenInBlock(fdt.S(), done, rest[0], rest[1..]);
    NameBytes(fdt.S(), Size(done), rest[0].name, rest[0].pad);
    NameVerdict(fdt.S(), Size(done) + 4, rest[0].name, x);
  }

  /** _fdt_nodename_eq: memcmp, then the character after the match. */
  method NodenameEq(fdt: Fdt, offset: nat, s: Name) returns (r: bool)
    requires fdt.Layout()
    ensures r <==> NameTest(fdt.S(), offset + 4, s)
  {
    var len := |s|;
    if !fdt.Ptr(offset + TAGSIZE, len + 1) {
      return false;
    }
    var p := fdt.offDtStruct + offset + TAGSIZE;
    SubArray(fdt.buf, fdt.offDtStruct, fdt.offDtStruct + fdt.Limit(), offset + 4, offset + 4 + len);
    if fdt.buf[p..p + len] != s {
      return false;
    }
    assert fdt.buf[p + len] == fdt.S()[offset + 4 + len];
    if fdt.buf[p + len] == 0 {
      return true;
    }
    return T.AT !in s && fdt.buf[p + len] == T.AT;
  }

  // ---- fdt_subnode_offset ------------------------------------------------------------------

  lemma KidOffset(pre: seq<Token>, n: Cst, i: nat)
    requires i < |n.kids|
    ensures KidOff(pre, n, i) == KidAt(n.kids, Size(pre) + |Enc(Begin(n.name, n.pad))| + Size(PToks(n.props)), i)
  {
    hide EncAll, Enc, PToks, KToks, Nops;
    var b, p, k, l := [Begin(n.name, n.pad)], PToks(n.props), KToks(n.kids[..i]), Nops(n.kids[i].lead);
    EncAllConcat(pre, b + p + k + l);
    EncAllConcat(b + p + k, l);
    EncAll3(b, p, k);
    EncOne(b[0]);
    NopsSize(n.kids[i].lead);
  }

  /** Where the children of a node start, and what follows them. */
  function KidsOff(pre: seq<Token>, n: Cst): nat {
    Size(pre) + |Enc(Begin(n.name, n.pad))| + Size(PToks(n.props))
  }

  function KidsPost(n: Cst, post: seq<Token>): seq<Token> {
    Nops(n.tail) + [EndNode] + post
  }

  /** The counted walk from the node in focus: its descendants, then the end of the node. */
  lemma WalkFocus(pre: seq<Token>, n: Cst, post: seq<Token>) returns (w: Trail)
    requires Ended(post)
    ensures pre + (Toks(n) + post) == pre + Toks(n) + post && Ended(Toks(n) + post)
    ensures Cursor(pre, Toks(n) + post, 0, true, w)
    ensures w == Trail(PreorderKids(n.kids, KidsPost(n, post), KidsOff(pre, n), 1), Left(Size(pre + Toks(n))))
  {
    ToksDef(n);
    SizeToks(n);
    EncAllConcat(pre, Toks(n));
    hide Toks, Body, EncAll, Enc, Walk, PreorderKids, PToks, KToks;
    var b := Begin(n.name, n.pad);
    var o, rest := Size(pre) + |Enc(b)|, Toks(n) + post;
    assert rest == [b] + (Body(n) + post);
    assert rest[0] == b && rest[1..] == Body(n) + post;
    w := Walk(rest[1..], o, 0, true);
    WalkBody(n, post, o);
  }

  lemma PickFocus(pre: seq<Token>, n: Cst, post: seq<Token>, name: seq<byte>)
    ensures PickKid(PreorderKids(n.kids, KidsPost(n, post), KidsOff(pre, n), 1), name) ==
      var i := FindKid(n.kids, name); if i < |n.kids| then KidOff(pre, n, i) else -1
  {
    hide EncAll, Enc, PToks, KToks, PickKid, PreorderKids, KidAt, FindKid, KidOff;
    PickKidIs(n.kids, KidsPost(n, post), KidsOff(pre, n), name);
    if FindKid(n.kids, name) < |n.kids| {
      KidOffset(pre, n, FindKid(n.kids, name));
    }
  }

  /** fdt_subnode_offset_namelen. */
  method SubnodeOffset(fdt: Fdt, parentOffset: int, name: Name, ghost pre: seq<Token>, ghost n: Cst, ghost post: seq<Token>)
    returns (r: int)
    requires Focused(fdt, pre, n, post) && AtNode(fdt, parentOffset, pre)
    ensures fdt.CheckHeader() != 0 ==> r == fdt.CheckHeader()
    ensures fdt.CheckHeader() == 0 && parentOffset < 0 ==> r == parentOffset
    ensures fdt.CheckHeader() == 0 && parentOffset >= 0 && NodeCheck(fdt.S(), parentOffset) < 0 ==> r == ERR_BADOFFSET
    ensures fdt.CheckHeader() == 0 && NodeCheck(fdt.S(), parentOffset) >= 0 ==>
              r == SubnodeAnswer(pre, n, FindKid(n.kids, name))
  {
    if fdt.CheckHeader() != 0 {
      return fdt.CheckHeader();
    }
    if parentOffset < 0 {
      return parentOffset;
    }
    var err := CheckNodeOffset(fdt, parentOffset);
    if err < 0 {
      return err;
    }
    r := SubnodeScan(fdt, parentOffset, name, pre, n, post);
  }

  function SubnodeAnswer(pre: seq<Token>, n: Cst, i: nat): int {
    if i < |n.kids| then KidOff(pre, n, i) else ERR_NOTFOUND
  }

  /** The loop of fdt_subnode_offset_namelen: every descendant is visited, children are compared. */
  method SubnodeScan(fdt: Fdt, parentOffset: nat, name: Name, ghost pre: seq<Token>, ghost n: Cst, ghost post: seq<Token>)
    returns (r: int)
    requires Focused(fdt, pre, n, post) && parentOffset == Size(pre)
    ensures r == SubnodeAnswer(pre, n, FindKid(n.kids, name))
  {
    hide EncAll, Enc, Toks, Walk, FindKid, T.NameMatches, NameTest, Size, KidOff, KidsOff, KidsPost, Cursor, PickKid, PreorderKids, Fdt.Holds, Fdt.Layout, Fdt.S;
    HoldsLayout(fdt, pre + Toks(n) + post);
    ghost var w := WalkFocus(pre, n, post);
    PickFocus(pre, n, post, name);
    var offset, depth := parentOffset, 0;
    ghost var a, b := pre, Toks(n) + post;
    ghost var answer := PickKid(w.visits, name);
    while true
      invariant a + b == pre + Toks(n) + post && Ended(b) && offset == Size(a)
      invariant depth >= 0 && Cursor(a, b, depth, true, w) && w.end.Left?
      invariant PickKid(w.visits, name) == answer
      decreases |b|
    {
      var next;
      next, depth, a, b := NextNodeOfWalk(fdt, offset, depth, true, a, b, w);
      PickKidOne(w.visits, name);
      if next < 0 || depth < 0 {
        return ERR_NOTFOUND;
      }
      w := After(w);
      offset := next;
      CursorBegin(a, b, depth, true, w);
      if depth == 1 {
        var eq := NodenameEq(fdt, offset, name);
        NameHere(fdt, a, b, name);
        if eq {
          return offset;
        }
      }
    }
  }

  lemma PickKidOne(vs: seq<Visit>, name: seq<byte>)
    ensures vs == [] ==> PickKid(vs, name) == -1
    ensures vs != [] ==> PickKid(vs, name) == if IsKid(vs[0], name) then vs[0].off else PickKid(vs[1..], name)
  {
  }

  // ---- fdt_first_subnode, fdt_next_subnode (fdt.c) -----------------------------------------

  /** Offset of the first visit at depth 1, or -1. */
  function FirstShallow(vs: seq<Visit>): int {
    if vs == [] then -1 else if vs[0].depth == 1 then vs[0].off else FirstShallow(vs[1..])
  }

  lemma {:induction false} FirstShallowSkip(a: seq<Visit>, b: seq<Visit>)
    requires forall v :: v in a ==> v.depth > 1
    ensures FirstShallow(a + b) == FirstShallow(b)
  {
    if a == [] {
      assert a + b == b;
    } else {
      assert (a + b)[0] == a[0] && (a + b)[1..] == a[1..] + b;
      FirstShallowSkip(a[1..], b);
    }
  }

  lemma FirstShallowKids(ks: seq<Cst>, post: seq<Token>, off: nat)
    ensures FirstShallow(PreorderKids(ks, post, off, 1)) == if ks == [] then -1 else off + 4 * ks[0].lead
  {
    if ks != [] {
      PreorderHead(ks[0], KToks(ks[1..]) + post, off + 4 * ks[0].lead, 1);
      hide Preorder, Toks, KToks, EncAll;
    }
  }

  /** Offset of the child after child i - 1, if there is one. */
  function SiblingAnswer(pre: seq<Token>, n: Cst, i: nat): int {
    if i < |n.kids| then KidOff(pre, n, i) else ERR_NOTFOUND
  }

  /** The first visit below the node in focus is its first child. */
  lemma FirstVisit(pre: seq<Token>, n: Cst, post: seq<Token>)
    ensures var vs := PreorderKids(n.kids, KidsPost(n, post), KidsOff(pre, n), 1);
      if n.kids == [] then vs == [] else vs != [] && vs[0].depth == 1 && vs[0].off == KidOff(pre, n, 0)
  {
    hide Preorder, PreorderKids, Toks, EncAll, Enc, KToks, PToks, KidsPost, KidAt, Size;
    KidsHead(n.kids, KidsPost(n, post), KidsOff(pre, n), 1);
    if n.kids != [] {
      KidOffset(pre, n, 0);
      KidAtFirst(n.kids, KidsOff(pre, n));
    }
  }

  lemma KidsHead(ks: seq<Cst>, post: seq<Token>, off: nat, depth: int)
    ensures var vs := PreorderKids(ks, post, off, depth);
      if ks == [] then vs == [] else vs != [] && vs[0].depth == depth && vs[0].off == off + 4 * ks[0].lead
  {
    hide Preorder, Toks, EncAll, Enc, KToks, Size;
    if ks != [] {
      PreorderHead(ks[0], KToks(ks[1..]) + post, off + 4 * ks[0].lead, depth);
    }
  }

  method FirstSubnode(fdt: Fdt, offset: int, ghost pre: seq<Token>, ghost n: Cst, ghost post: seq<Token>)
    returns (r: int)
    requires Focused(fdt, pre, n, post) && offset >= 0 && AtNode(fdt, offset, pre)
    ensures r == if NodeCheck(fdt.S(), offset) < 0 then ERR_NOTFOUND else SiblingAnswer(pre, n, 0)
  {
    hide EncAll, Enc, Toks, Walk, Size, KidOff, KidsOff, KidsPost, Cursor, PreorderKids, Fdt.Holds, Fdt.Layout, Fdt.S, NodeCheck;
    FocusLayout(fdt, pre, n, post);
    // fdt_next_node begins with this check; its error is not passed on
    var check := CheckNodeOffset(fdt, offset);
    if check < 0 {
      return ERR_NOTFOUND;
    }
    ghost var w := WalkFocus(pre, n, post);
    FirstVisit(pre, n, post);
    var depth;
    ghost var a, b;
    r, depth, a, b := NextNodeOfWalk(fdt, offset, 0, true, pre, Toks(n) + post, w);
    if r < 0 || depth != 1 {
      return ERR_NOTFOUND;
    }
  }

  lemma KidAtFirst(ks: seq<Cst>, off: nat)
    requires ks != []
    ensures KidAt(ks, off, 0) == off + 4 * ks[0].lead
  {
    assert ks[..0] == [];
    assert KToks([]) == [];
    SizeNil();
  }

  /** The walk from a node at depth 1 that is followed by `p`. */
  lemma WalkTail(a: seq<Token>, k: Cst, p: seq<Token>)
    ensures var o := Size(a) + |Enc(Begin(k.name, k.pad))|;
      Cursor(a, Toks(k) + p, 1, true,
             Before(PreorderKids(k.kids, KidsPost(k, p), o + Size(PToks(k.props)), 2),
                    Walk(p, Size(a) + Size(Toks(k)), 0, true)))
  {
    hide EncAll, Enc, Toks, PToks, Body, Walk, PreorderKids;
    ToksDef(k);
    SizeToks(k);
    var b := Begin(k.name, k.pad);
    assert Toks(k) + p == [b] + (Body(k) + p);
    assert (Toks(k) + p)[1..] == Body(k) + p;
    WalkBodyUp(k, p, Size(a) + |Enc(b)|, 1, true);
  }

  lemma KidOffNext(pre: seq<Token>, n: Cst, i: nat)
    requires i + 1 < |n.kids|
    ensures KidOff(pre, n, i + 1) == KidOff(pre, n, i) + Size(Toks(n.kids[i])) + 4 * n.kids[i + 1].lead
  {
    hide EncAll, Enc, Toks, KToks, PToks;
    var ks, o := n.kids, KidsOff(pre, n);
    KidOffset(pre, n, i);
    KidOffset(pre, n, i + 1);
    assert ks[..i + 1] == ks[..i] + [ks[i]];
    KToksConcat(ks[..i], [ks[i]]);
    EncAllConcat(KToks(ks[..i]), KToks([ks[i]]));
    SizeKToks([ks[i]]);
    assert [ks[i]][1..] == [];
    KToksNil([]);
  }

  /** The walk after child `i`. */
  lemma AfterKid(pre: seq<Token>, n: Cst, post: seq<Token>, i: nat)
    requires i < |n.kids|
    ensures var w := Walk(KidPost(n, i) + post, KidOff(pre, n, i) + Size(Toks(n.kids[i])), 0, true);
      && w.end.Left?
      && FirstShallow(w.visits) == if i + 1 < |n.kids| then KidOff(pre, n, i + 1) else -1
  {
    hide EncAll, Enc, Toks, KToks, Nops, Walk, PreorderKids, FirstShallow, KidOff;
    var ks, o := n.kids[i + 1..], KidOff(pre, n, i) + Size(Toks(n.kids[i]));
    assert KidPost(n, i) + post == KToks(ks) + KidsPost(n, post);
    WalkSiblings(ks, n.tail, post, o);
    FirstShallowKids(ks, KidsPost(n, post), o);
    if i + 1 < |n.kids| {
      KidOffNext(pre, n, i);
    }
  }

  /** From a child on: what is below it lies deeper, then come its later siblings. */
  lemma WalkFromKid(pre: seq<Token>, n: Cst, post: seq<Token>, i: nat) returns (w: Trail)
    requires Ended(post) && i < |n.kids|
    ensures var a, b := pre + KidPre(n, i), Toks(n.kids[i]) + (KidPost(n, i) + post);
      a + b == pre + Toks(n) + post && Ended(b) && Cursor(a, b, 1, true, w)
    ensures w.end.Left?
    ensures FirstShallow(w.visits) == if i + 1 < |n.kids| then KidOff(pre, n, i + 1) else -1
  {
    hide EncAll, Enc, Toks, KToks, PToks, Walk, PreorderKids, KidPre, KidPost, KidsPost, FirstShallow, Cursor;
    var k, p := n.kids[i], KidPost(n, i) + post;
    var a := pre + KidPre(n, i);
    var o := Size(a) + |Enc(Begin(k.name, k.pad))| + Size(PToks(k.props));
    FocusKid(pre, n, post, i);
    assert a + (Toks(k) + p) == a + Toks(k) + p;
    WalkTail(a, k, p);
    AfterKid(pre, n, post, i);
    var deep, rest := PreorderKids(k.kids, KidsPost(k, p), o, 2), Walk(p, Size(a) + Size(Toks(k)), 0, true);
    w := Before(deep, rest);
    PreorderKidsDepth(k.kids, KidsPost(k, p), o, 2);
    FirstShallowSkip(deep, rest.visits);
  }

  /** fdt_next_subnode from child `i` of the node in focus. */
  method NextSubnode(fdt: Fdt, from: int, ghost pre: seq<Token>, ghost n: Cst, ghost post: seq<Token>, ghost i: nat)
    returns (r: int)
    requires Focused(fdt, pre, n, post) && from >= 0
    requires NodeCheck(fdt.S(), from) < 0 || (i < |n.kids| && from == KidOff(pre, n, i))
    ensures r == if NodeCheck(fdt.S(), from) < 0 then ERR_NOTFOUND else SiblingAnswer(pre, n, i + 1)
  {
    hide EncAll, Enc, Toks, Walk, Size, KidPre, KidPost, Cursor, FirstShallow, Fdt.Holds, Fdt.Layout, Fdt.S, NodeCheck;
    FocusLayout(fdt, pre, n, post);
    // fdt_next_node begins with this check; its error is not passed on
    var check := CheckNodeOffset(fdt, from);
    if check < 0 {
      return ERR_NOTFOUND;
    }
    var offset, depth := from, 1;
    ghost var a, b := pre + KidPre(n, i), Toks(n.kids[i]) + (KidPost(n, i) + post);
    ghost var w := WalkFromKid(pre, n, post, i);
    ghost var answer := FirstShallow(w.visits);
    while true
      invariant a + b == pre + Toks(n) + post && Ended(b) && offset == Size(a)
      invariant depth >= 1 && Cursor(a, b, depth, true, w) && w.end.Left?
      invariant FirstShallow(w.visits) == answer
      decreases |b|
    {
      ShallowOne(w.visits);
      offset, depth, a, b := NextNodeOfWalk(fdt, offset, depth, true, a, b, w);
      if offset < 0 || depth < 1 {
        return ERR_NOTFOUND;
      }
      if depth <= 1 {
        return offset;
      }
      w := After(w);
    }
  }

  lemma ShallowOne(vs: seq<Visit>)
    ensures vs == [] ==> FirstShallow(vs) == -1
    ensures vs != [] ==> FirstShallow(vs) == if vs[0].depth == 1 then vs[0].off else FirstShallow(vs[1..])
  {
  }

  // ---- fdt_get_name ------------------------------------------------------------------------

  /** The name of the node in focus, and its length or the error. */
  method GetName(fdt: Fdt, nodeOffset: int, ghost pre: seq<Token>, ghost n: Cst, ghost post: seq<Token>)
    returns (name: seq<byte>, len: int)
    requires Focused(fdt, pre, n, post) && AtNode(fdt, nodeOffset, pre)
    ensures fdt.CheckHeader() != 0 ==> len == fdt.CheckHeader()
    ensures fdt.CheckHeader() == 0 && NodeCheck(fdt.S(), nodeOffset) < 0 ==> len == ERR_BADOFFSET
    ensures fdt.CheckHeader() == 0 && NodeCheck(fdt.S(), nodeOffset) >= 0 ==> name == n.name && len == |n.name|
    ensures fdt.CheckHeader() == 0 && NodeCheck(fdt.S(), nodeOffset) >= 0 ==>
              nodeOffset + 4 + Align4(len + 1) <= |fdt.S()|
  {
    hide EncAll, Enc, Toks, Named, ReadTag, Fdt.S, Fdt.Strs, Fdt.Mem, Align4;
    if fdt.CheckHeader() != 0 {
      return [], fdt.CheckHeader();
    }
    var err := CheckNodeOffset(fdt, nodeOffset);
    if err < 0 {
      return [], err;
    }
    NameStands(fdt, pre, n, post);
    StructBytes(fdt);
    var p := fdt.offDtStruct + nodeOffset + TAGSIZE;
    len := 0;
    while fdt.buf[p + len] != 0
      invariant 0 <= len <= |n.name|
      decreases |n.name| - len
    {
      StructByte(fdt, nodeOffset + 4 + len);
      len := len + 1;
    }
    StructByte(fdt, nodeOffset + 4 + len);
    StructSlice(fdt, nodeOffset + 4, nodeOffset + 4 + len);
    name := fdt.buf[p..p + len];
  }

  /** A terminated name at `o`, with its gap. */
  predicate NameInBlock(s: seq<byte>, o: nat, name: seq<byte>) {
    && o + |name| < o + Align4(|name| + 1) <= |s|
    && s[o..o + |name|] == name && s[o + |name|] == 0
    && forall j :: o <= j < o + |name| ==> s[j] != 0
  }

  lemma BeginInBlock(s: seq<byte>, o: nat, name: Name, pad: Pad)
    requires InBlock(s, o, |Enc(Begin(name, pad))|)
    requires s[o..o + |Enc(Begin(name, pad))|] == Enc(Begin(name, pad))
    ensures NameInBlock(s, o + 4, name)
  {
    NameBytes(s, o, name, pad);
    assert |Enc(Begin(name, pad))| == 4 + Align4(|name| + 1);
    hide Enc, Align4;
    var f := s[o + 4..o + 4 + |name|];
    assert forall j :: o + 4 <= j < o + 4 + |name| ==> s[j] == f[j - (o + 4)];
  }

  lemma NameStands(fdt: Fdt, pre: seq<Token>, n: Cst, post: seq<Token>)
    requires Focused(fdt, pre, n, post)
    ensures NameInBlock(fdt.S(), Size(pre) + 4, n.name)
  {
    hide EncAll, Enc, Toks, Named, Body, NameInBlock;
    ToksDef(n);
    var b := Begin(n.name, n.pad);
    assert pre + Toks(n) + post == pre + [b] + (Body(n) + post);
    TokenInBlock(fdt.S(), pre, b, Body(n) + post);
    BeginInBlock(fdt.S(), Size(pre), n.name, n.pad);
  }

  lemma StructBytes(fdt: Fdt)
    requires fdt.Layout()
    ensures fdt.offDtStruct + |fdt.S()| <= fdt.buf.Length
  {
  }

  lemma StructByte(fdt: Fdt, i: nat)
    requires fdt.Layout() && i < |fdt.S()|
    ensures fdt.offDtStruct + i < fdt.buf.Length && fdt.buf[fdt.offDtStruct + i] == fdt.S()[i]
  {
  }

  lemma StructSlice(fdt: Fdt, a: nat, b: nat)
    requires fdt.Layout() && a <= b <= |fdt.S()|
    ensures fdt.offDtStruct + b <= fdt.buf.Length
    ensures fdt.buf[fdt.offDtStruct + a..fdt.offDtStruct + b] == fdt.S()[a..b]
  {
    Slice(fdt.Mem(), fdt.offDtStruct, fdt.offDtStruct + fdt.Limit(), a, b);
  }

  // ---- fdt_getprop_by_offset ---------------------------------------------------------------

  /** fdt_string: the string at an offset of the strings block. */
  method GetString(fdt: Fdt, stroffset: nat) returns (r: Name)
    requires fdt.Layout() && StringAt(fdt.Strs(), stroffset)
    ensures r == CStr(fdt.Strs(), stroffset)
  {
    hide Fdt.Mem, CStr;
    var p := fdt.offDtStrings + stroffset;
    ghost var z := NulFrom(fdt.Strs(), stroffset);
    var len := 0;
    while fdt.buf[p + len] != 0
      invariant stroffset + len <= z
      decreases z - len
    {
      StringByte(fdt, stroffset + len);
      len := len + 1;
    }
    StringByte(fdt, stroffset + len);
    StringSlice(fdt, stroffset, stroffset + len);
    CStrIs(fdt.Strs(), stroffset, len);
    r := fdt.buf[p..p + len];
  }

  lemma CStrIs(tab: seq<byte>, off: nat, len: nat)
    requires StringAt(tab, off) && off + len == NulFrom(tab, off)
    ensures CStr(tab, off) == tab[off..off + len]
  {
  }

  lemma StringByte(fdt: Fdt, i: nat)
    requires fdt.Layout() && i < |fdt.Strs()|
    ensures fdt.buf[fdt.offDtStrings + i] == fdt.Strs()[i]
  {
  }

  lemma StringSlice(fdt: Fdt, a: nat, b: nat)
    requires fdt.Layout() && a <= b <= |fdt.Strs()|
    ensures fdt.buf[fdt.offDtStrings + a..fdt.offDtStrings + b] == fdt.Strs()[a..b]
  {
    Slice(fdt.Mem(), fdt.offDtStrings, fdt.offDtStrings + fdt.sizeDtStrings, a, b);
  }

  /** fdt_getprop_by_offset: the length, or an error; name and value of property `i` of the node in focus. */
  method GetPropByOffset(fdt: Fdt, offset: int, ghost pre: seq<Token>, ghost n: Cst, ghost post: seq<Token>, ghost i: nat)
    returns (lenp: int, name: Name, val: Data)
    requires Focused(fdt, pre, n, post) && AtProperty(fdt, offset, pre, n, i)
    ensures PropCheck(fdt.S(), offset) < 0 ==> lenp == ERR_BADOFFSET
    ensures PropCheck(fdt.S(), offset) >= 0 ==> lenp == |val| && T.Property(name, val) == DenProp(n.props[i], fdt.Strs())
  {
    hide EncAll, Enc, Toks, Named, PropOff, StringAt, CStr, Fdt.Mem, Fdt.S, Fdt.Strs, PropName, Word, PropCheck;
    name, val := [], [];
    lenp := CheckPropOffset(fdt, offset);
    if lenp < 0 {
      CheckFails(fdt.S(), offset);
      return;
    }
    PropFields(fdt, pre, n, post, i);
    var len := fdt.U32At(offset + 4);
    var nameoff := fdt.U32At(offset + 8);
    name := GetString(fdt, nameoff);
    PropNameIs(fdt.Strs(), nameoff);
    StructSlice(fdt, offset + 12, offset + 12 + len);
    val := fdt.buf[fdt.offDtStruct + offset + 12..fdt.offDtStruct + offset + 12 + len];
    lenp := len;
  }

  lemma KidCheckOk(fdt: Fdt, pre: seq<Token>, n: Cst, post: seq<Token>, i: nat)
    requires Focused(fdt, pre, n, post) && i < |n.kids|
    ensures NodeCheck(fdt.S(), KidOff(pre, n, i)) >= 0 && KidOff(pre, n, i) == Size(pre + KidPre(n, i))
  {
    FocusKid(pre, n, post, i);
    hide EncAll, Toks, Named, ReadTag, HeadTo, KidPre, KidPost;
    NodeCheckOk(fdt, pre + KidPre(n, i), n.kids[i], KidPost(n, i) + post);
  }

  lemma NodeCheckOk(fdt: Fdt, pre: seq<Token>, n: Cst, post: seq<Token>)
    requires Focused(fdt, pre, n, post)
    ensures NodeCheck(fdt.S(), Size(pre)) >= 0
  {
    hide EncAll, Toks, Named, ReadTag, HeadTo;
    AtBegin(fdt, pre, n, post);
  }
}
