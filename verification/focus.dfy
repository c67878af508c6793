/** Looking at one node of a blob: the tokens before it, the node, and the tokens after it. */
module Focus {
  import opened Bytes
  import opened StructBlock
  import opened Concrete
  import opened Walking
  import opened FdtBase

  /** The blob holds `pre`, then the node `n`, then `post`. */
  ghost predicate Focused(fdt: Fdt, pre: seq<Token>, n: Cst, post: seq<Token>)
    reads fdt, fdt.buf
  {
    fdt.Holds(pre + Toks(n) + post) && Ended(post)
  }

  /** `offset` is that of the node in focus, or one that libfdt rejects. */
  ghost predicate AtNode(fdt: Fdt, offset: int, pre: seq<Token>)
    requires fdt.Layout()
    reads fdt, fdt.buf
  {
    NodeCheck(fdt.S(), offset) < 0 || offset == Size(pre)
  }

  lemma EndedConcat(a: seq<Token>, b: seq<Token>)
    requires Ended(b)
    ensures Ended(a + b)
  {
  }

  // ---- properties of the node in focus -----------------------------------------------------

  /** A node up to (not including) the NOPs before its property `i`. */
  function HeadTo(n: Cst, i: nat): seq<Token>
    requires i <= |n.props|
  {
    [Begin(n.name, n.pad)] + PToks(n.props[..i])
  }

  /** The rest of a node from there. */
  function TailFrom(n: Cst, i: nat): seq<Token>
    requires i <= |n.props|
  {
    PToks(n.props[i..]) + KToks(n.kids) + Nops(n.tail) + [EndNode]
  }

  /** The tokens of a node before its property `i`. */
  function PropPre(n: Cst, i: nat): seq<Token>
    requires i < |n.props|
  {
    HeadTo(n, i) + Nops(n.props[i].nops)
  }

  /** The tokens of a node after its property `i`. */
  function PropPost(n: Cst, i: nat): seq<Token>
    requires i < |n.props|
  {
    TailFrom(n, i + 1)
  }

  lemma HeadTail(n: Cst, i: nat)
    requires i <= |n.props|
    ensures Toks(n) == HeadTo(n, i) + TailFrom(n, i)
    ensures HeadTo(n, 0) == [Begin(n.name, n.pad)] && TailFrom(n, 0) == Body(n)
  {
    hide Toks, KToks, Nops, PTok;
    ToksDef(n);
    assert n.props[0..] == n.props && n.props[..0] == [];
    assert PToks([]) == [];
    hide PToks;
    assert n.props == n.props[..i] + n.props[i..];
    PToksConcat(n.props[..i], n.props[i..]);
  }

  lemma PropStep(n: Cst, i: nat)
    requires i < |n.props|
    ensures TailFrom(n, i) == Nops(n.props[i].nops) + ([PTok(n.props[i])] + PropPost(n, i))
    ensures HeadTo(n, i + 1) == PropPre(n, i) + [PTok(n.props[i])]
  {
    hide Toks, KToks, Nops, PTok;
    PToksCons(n.props, i);
    assert n.props[..i + 1] == n.props[..i] + [n.props[i]];
    PToksConcat(n.props[..i], [n.props[i]]);
    PToksCons([n.props[i]], 0);
    assert [n.props[i]][0..] == [n.props[i]] && [n.props[i]][1..] == [];
    assert PToks([]) == [];
    hide PToks;
  }

  lemma PropSplit(n: Cst, i: nat)
    requires i < |n.props|
    ensures Toks(n) == PropPre(n, i) + [PTok(n.props[i])] + PropPost(n, i)
  {
    hide Toks, PTok, TailFrom, HeadTo;
    HeadTail(n, i);
    PropStep(n, i);
  }

  // ---- children of the node in focus -------------------------------------------------------

  /** The tokens of a node before its child `i`. */
  function KidPre(n: Cst, i: nat): seq<Token>
    requires i < |n.kids|
  {
    [Begin(n.name, n.pad)] + PToks(n.props) + KToks(n.kids[..i]) + Nops(n.kids[i].lead)
  }

  /** The tokens of a node after its child `i`. */
  function KidPost(n: Cst, i: nat): seq<Token>
    requires i < |n.kids|
  {
    KToks(n.kids[i + 1..]) + Nops(n.tail) + [EndNode]
  }

  lemma KidSplit(n: Cst, i: nat)
    requires i < |n.kids|
    ensures Toks(n) == KidPre(n, i) + Toks(n.kids[i]) + KidPost(n, i)
  {
    hide Toks, PToks, KToks, Nops;
    KToksAt(n.kids, i);
    ToksDef(n);
  }

  /** Stepping the focus down to a child. */
  lemma FocusKid(pre: seq<Token>, n: Cst, post: seq<Token>, i: nat)
    requires i < |n.kids|
    ensures pre + Toks(n) + post == (pre + KidPre(n, i)) + Toks(n.kids[i]) + (KidPost(n, i) + post)
  {
    KidSplit(n, i);
    hide Toks, KidPre, KidPost;
  }

  lemma FocusProp(pre: seq<Token>, n: Cst, post: seq<Token>, i: nat)
    requires i < |n.props|
    ensures pre + Toks(n) + post == (pre + PropPre(n, i)) + [PTok(n.props[i])] + (PropPost(n, i) + post)
  {
    PropSplit(n, i);
    hide Toks, PropPre, PropPost;
  }

  /** Offset of child `i`. */
  function KidOff(pre: seq<Token>, n: Cst, i: nat): nat
    requires i < |n.kids|
  {
    Size(pre + KidPre(n, i))
  }

  /** Offset of property `i`. */
  function PropOff(pre: seq<Token>, n: Cst, i: nat): nat
    requires i < |n.props|
  {
    Size(pre + PropPre(n, i))
  }
}
