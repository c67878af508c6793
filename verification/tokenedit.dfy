/** Edits of the node in focus, as replacements of tokens: what they do to the bytes, to the names
    and to the meaning of the block. */
module TokenEdit {
  import opened Bytes
  import opened StructBlock
  import opened Concrete
  import opened FdtBase
  import opened Focus
  import opened FdtRo
  import T = Tree

  // ---- edits as replacements of tokens -------------------------------------------------------

  /** Replacing the bytes of a run of tokens by those of another. */
  lemma SwapTokens(s: seq<byte>, s2: seq<byte>, pre: seq<Token>, mid: seq<Token>, post: seq<Token>, mid2: seq<Token>)
    requires EncAll(pre + mid + post) <= s
    ensures Size(pre) + Size(mid) <= |s|
    ensures s2 == s[..Size(pre)] + EncAll(mid2) + s[Size(pre) + Size(mid)..] ==> EncAll(pre + mid2 + post) <= s2
  {
    hide EncAll;
    EncAll3(pre, mid, post);
    EncAll3(pre, mid2, post);
    var a, b, c := EncAll(pre), EncAll(mid), EncAll(post);
    var tail := s[|a + b + c|..];
    assert s == a + b + c + tail;
    assert s[..|a|] == a && s[|a| + |b|..] == c + tail;
    if s2 == s[..Size(pre)] + EncAll(mid2) + s[Size(pre) + Size(mid)..] {
      assert s2 == (a + EncAll(mid2) + c) + tail;
    }
  }

  /** A property replaced where it stands. */
  lemma ReplaceProp(n: Cst, i: nat, p: CProp)
    requires i < |n.props| && p.nops == n.props[i].nops
    ensures Toks(n.(props := n.props[i := p])) == PropPre(n, i) + [PTok(p)] + PropPost(n, i)
  {
    hide Toks, PToks, KToks, Nops;
    var n2 := n.(props := n.props[i := p]);
    PropSplit(n2, i);
    assert n2.props[..i] == n.props[..i] && n2.props[i + 1..] == n.props[i + 1..];
  }

  /** A property put in front of the others. */
  lemma PrependProp(n: Cst, p: CProp)
    requires p.nops == 0
    ensures Toks(n.(props := [p] + n.props)) == HeadTo(n, 0) + [PTok(p)] + TailFrom(n, 0)
  {
    hide Toks, PToks, KToks;
    var n2 := n.(props := [p] + n.props);
    PropSplit(n2, 0);
    assert n2.props[..0] == n.props[..0] && n2.props[1..] == n.props[0..];
    assert Nops(0) == [];
  }

  lemma DenReplaceProp(n: Cst, i: nat, p: CProp, tab: seq<byte>, name: Name)
    requires i < |n.props| && i == T.FindProp(DenProps(n.props, tab), name)
    requires p.nameoff == n.props[i].nameoff
    ensures Den(n.(props := n.props[i := p]), tab) == T.SetProp(Den(n, tab), name, p.data)
  {
    hide T.FindProp, PropName;
    var n2 := n.(props := n.props[i := p]);
    assert DenProps(n.props, tab)[i].name == name;
    assert DenProps(n2.props, tab) == DenProps(n.props, tab)[i := T.Property(name, p.data)];
  }

  lemma DenPrependProp(n: Cst, p: CProp, tab: seq<byte>, name: Name)
    requires StringAt(tab, p.nameoff) && CStr(tab, p.nameoff) == name
    requires T.FindProp(DenProps(n.props, tab), name) == |n.props|
    ensures Den(n.(props := [p] + n.props), tab) == T.SetProp(Den(n, tab), name, p.data)
  {
    hide T.FindProp, CStr, StringAt;
    PropNameIs(tab, p.nameoff);
    var n2 := n.(props := [p] + n.props);
    assert DenProps(n2.props, tab) == [T.Property(name, p.data)] + DenProps(n.props, tab);
  }

  /** Strings were at most added at the end of the table. */
  predicate Grown(tab: seq<byte>, tab2: seq<byte>) {
    tab <= tab2
  }

  /** A larger string table changes neither the tokens nor what they mean. */
  lemma FocusGrown(ts: seq<Token>, n: Cst, tab: seq<byte>, tab2: seq<byte>)
    requires Named(ts, tab) && Named(Toks(n), tab) && Grown(tab, tab2)
    ensures Named(ts, tab2) && Den(n, tab2) == Den(n, tab)
  {
    hide Named, Toks, Den;
    var more := tab2[|tab|..];
    assert tab2 == tab + more;
    NamedAppend(ts, tab, more);
    DenAppend(n, tab, more);
  }

  lemma NamedSwap(pre: seq<Token>, mid: seq<Token>, post: seq<Token>, mid2: seq<Token>, tab: seq<byte>)
    ensures Named(pre + mid + post, tab) ==> Named(pre, tab) && Named(mid, tab) && Named(post, tab)
    ensures Named(pre, tab) && Named(mid2, tab) && Named(post, tab) ==> Named(pre + mid2 + post, tab)
  {
    hide Named;
    NamedConcat(pre + mid, post, tab);
    NamedConcat(pre, mid, tab);
    NamedConcat(pre + mid2, post, tab);
    NamedConcat(pre, mid2, tab);
  }

  /** The token `t` stands at `o` of the block. */
  predicate TokenAt(s: seq<byte>, o: nat, t: Token) {
    o + |Enc(t)| <= |s| && s[o..o + |Enc(t)|] == Enc(t)
  }

  lemma PropHere(fdt: Fdt, pre: seq<Token>, n: Cst, post: seq<Token>, i: nat)
    requires Focused(fdt, pre, n, post) && i < |n.props|
    ensures TokenAt(fdt.S(), PropOff(pre, n, i), PTok(n.props[i]))
  {
    hide EncAll, Enc, Toks, PropPre, PropPost, Named, PTok;
    FocusProp(pre, n, post, i);
    TokenInBlock(fdt.S(), pre + PropPre(n, i), PTok(n.props[i]), PropPost(n, i) + post);
  }

  lemma TokenAtSize(s: seq<byte>, o: nat, p: CProp)
    requires TokenAt(s, o, PTok(p))
    ensures o + 12 + Align4(|p.data|) <= |s|
  {
    EncProp(p.nameoff, p.data, p.pad);
  }

  lemma FocusParts(fdt: Fdt, pre: seq<Token>, n: Cst, post: seq<Token>)
    requires Focused(fdt, pre, n, post)
    ensures fdt.Layout() && Ended(post)
    ensures EncAll(pre + Toks(n) + post) <= fdt.S()
    ensures Named(pre + Toks(n) + post, fdt.Strs()) && Named(Toks(n), fdt.Strs())
  {
    hide EncAll, Toks, Named;
    NamedSwap(pre, Toks(n), post, [], fdt.Strs());
  }

  /** The block after property `i` of the node in focus has become `p`. */
  lemma ReplacedInBlock(s: seq<byte>, s2: seq<byte>, pre: seq<Token>, n: Cst, post: seq<Token>, i: nat, p: CProp)
    requires i < |n.props| && p.nops == n.props[i].nops
    requires EncAll(pre + Toks(n) + post) <= s
    requires var o, e := PropOff(pre, n, i), |Enc(PTok(n.props[i]))|;
      o + e <= |s| && s2 == s[..o] + Enc(PTok(p)) + s[o + e..]
    ensures EncAll(pre + Toks(n.(props := n.props[i := p])) + post) <= s2
  {
    hide EncAll, Enc, Toks, PropPre, TailFrom, PTok;
    var n2 := n.(props := n.props[i := p]);
    var a, b, t, u := pre + PropPre(n, i), PropPost(n, i) + post, PTok(n.props[i]), PTok(p);
    FocusProp(pre, n, post, i);
    ReplaceProp(n, i, p);
    assert pre + Toks(n2) + post == a + [u] + b;
    EncOne(t);
    EncOne(u);
    SwapTokens(s, s2, a, [t], b, [u]);
  }

  /** The block after a property has been put in front of those of the node in focus. */
  lemma PrependedInBlock(s: seq<byte>, s2: seq<byte>, pre: seq<Token>, n: Cst, post: seq<Token>, p: CProp)
    requires p.nops == 0
    requires EncAll(pre + Toks(n) + post) <= s
    requires var o := Size(pre + HeadTo(n, 0));
      o <= |s| && s2 == s[..o] + Enc(PTok(p)) + s[o..]
    ensures EncAll(pre + Toks(n.(props := [p] + n.props)) + post) <= s2
  {
    hide EncAll, Enc, Toks, HeadTo, TailFrom, PTok;
    var n2 := n.(props := [p] + n.props);
    var a, b, u := pre + HeadTo(n, 0), TailFrom(n, 0) + post, PTok(p);
    AfterHead(pre, n, post, 0);
    PrependProp(n, p);
    assert pre + Toks(n) + post == a + [] + b;
    assert pre + Toks(n2) + post == a + [u] + b;
    EncOne(u);
    SizeNil();
    SwapTokens(s, s2, a, [], b, [u]);
  }

  lemma NamedReplaced(pre: seq<Token>, n: Cst, post: seq<Token>, i: nat, p: CProp, tab: seq<byte>)
    requires i < |n.props| && p.nops == n.props[i].nops && StringAt(tab, p.nameoff)
    requires Named(pre + Toks(n) + post, tab)
    ensures Named(pre + Toks(n.(props := n.props[i := p])) + post, tab)
  {
    hide Toks, PropPre, TailFrom, Named, StringAt;
    var n2 := n.(props := n.props[i := p]);
    var a, b := pre + PropPre(n, i), PropPost(n, i) + post;
    FocusProp(pre, n, post, i);
    ReplaceProp(n, i, p);
    assert pre + Toks(n2) + post == a + [PTok(p)] + b;
    NamedOne(p, tab);
    NamedSwap(a, [PTok(n.props[i])], b, [PTok(p)], tab);
  }

  lemma NamedOne(p: CProp, tab: seq<byte>)
    requires StringAt(tab, p.nameoff)
    ensures Named([PTok(p)], tab)
  {
  }

  lemma NamedPrepended(pre: seq<Token>, n: Cst, post: seq<Token>, p: CProp, tab: seq<byte>)
    requires p.nops == 0 && StringAt(tab, p.nameoff)
    requires Named(pre + Toks(n) + post, tab)
    ensures Named(pre + Toks(n.(props := [p] + n.props)) + post, tab)
  {
    hide Toks, HeadTo, TailFrom, Named, StringAt;
    var n2 := n.(props := [p] + n.props);
    var a, b := pre + HeadTo(n, 0), TailFrom(n, 0) + post;
    AfterHead(pre, n, post, 0);
    PrependProp(n, p);
    assert pre + Toks(n) + post == a + [] + b;
    assert pre + Toks(n2) + post == a + [PTok(p)] + b;
    NamedOne(p, tab);
    NamedSwap(a, [], b, [PTok(p)], tab);
  }

  /** The block after the BEGIN_NODE of the node in focus has been rewritten. */
  lemma RenamedInBlock(s: seq<byte>, s2: seq<byte>, pre: seq<Token>, n: Cst, post: seq<Token>, name: Name, pad: Pad)
    requires EncAll(pre + Toks(n) + post) <= s
    requires var o, e := Size(pre), |Enc(Begin(n.name, n.pad))|;
      o + e <= |s| && s2 == s[..o] + Enc(Begin(name, pad)) + s[o + e..]
    ensures EncAll(pre + Toks(n.(name := name, pad := pad)) + post) <= s2
  {
    hide EncAll, Enc, Toks, Body;
    var n2 := n.(name := name, pad := pad);
    var t, u := Begin(n.name, n.pad), Begin(name, pad);
    ToksDef(n);
    ToksDef(n2);
    BodyRenamed(n, name, pad);
    assert pre + Toks(n) + post == pre + [t] + (Body(n) + post);
    assert pre + Toks(n2) + post == pre + [u] + (Body(n) + post);
    EncOne(t);
    EncOne(u);
    SwapTokens(s, s2, pre, [t], Body(n) + post, [u]);
  }

  lemma BodyRenamed(n: Cst, name: Name, pad: Pad)
    ensures Body(n.(name := name, pad := pad)) == Body(n)
  {
  }

  lemma NamedRenamed(pre: seq<Token>, n: Cst, post: seq<Token>, name: Name, pad: Pad, tab: seq<byte>)
    requires Named(pre + Toks(n) + post, tab)
    ensures Named(pre + Toks(n.(name := name, pad := pad)) + post, tab)
  {
    hide Named, Toks, Body;
    var n2 := n.(name := name, pad := pad);
    ToksDef(n);
    ToksDef(n2);
    BodyRenamed(n, name, pad);
    assert pre + Toks(n) + post == pre + [Begin(n.name, n.pad)] + (Body(n) + post);
    assert pre + Toks(n2) + post == pre + [Begin(name, pad)] + (Body(n) + post);
    NamedBegin(name, pad, tab);
    NamedSwap(pre, [Begin(n.name, n.pad)], Body(n) + post, [Begin(name, pad)], tab);
  }

  lemma NamedBegin(name: Name, pad: Pad, tab: seq<byte>)
    ensures Named([Begin(name, pad)], tab)
  {
  }

  lemma BeginHere(fdt: Fdt, pre: seq<Token>, n: Cst, post: seq<Token>)
    requires Focused(fdt, pre, n, post)
    ensures TokenAt(fdt.S(), Size(pre), Begin(n.name, n.pad))
  {
    hide EncAll, Enc, Toks, Named, Body;
    ToksDef(n);
    assert pre + Toks(n) + post == pre + [Begin(n.name, n.pad)] + (Body(n) + post);
    TokenInBlock(fdt.S(), pre, Begin(n.name, n.pad), Body(n) + post);
  }

  lemma BeginShape(s: seq<byte>, o: nat, name: Name, pad: Pad)
    requires TokenAt(s, o, Begin(name, pad))
    ensures |Enc(Begin(name, pad))| == 4 + Align4(|name| + 1)
    ensures o + 4 + Align4(|name| + 1) <= |s| && s[o..o + 4] == BE32(FDT_BEGIN_NODE)
  {
    var n := |Enc(Begin(name, pad))|;
    Slice(s, o, o + n, 0, 4);
  }
}
