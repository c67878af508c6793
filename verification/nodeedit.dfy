/** Properties and children taken out of a concrete node or put into it; NOP tags that stay behind
    are counted where the next token is. */
module NodeEdit {
  import opened Bytes
  import opened StructBlock
  import opened Concrete
  import opened Walking
  import opened Focus
  import T = Tree

  lemma NopsSum(a: nat, b: nat)
    ensures Nops(a) + Nops(b) == Nops(a + b)
  {
  }

  // ---- properties ------------------------------------------------------------------------

  /** `k` more NOP tags in front of the children of a node that has no property after them. */
  function MoreNops(kids: seq<Cst>, tail: nat, k: nat): (seq<Cst>, nat) {
    if kids == [] then ([], tail + k) else (kids[0 := kids[0].(lead := k + kids[0].lead)], tail)
  }

  /** Property `i` replaced by `extra` NOP tags. */
  function WithoutProp(n: Cst, i: nat, extra: nat): Cst
    requires i < |n.props|
  {
    var k := n.props[i].nops + extra;
    if i + 1 < |n.props| then
      var q := n.props[i + 1];
      n.(props := n.props[..i] + [q.(nops := k + q.nops)] + n.props[i + 2..])
    else
      var (kids, tail) := MoreNops(n.kids, n.tail, k);
      n.(props := n.props[..i], kids := kids, tail := tail)
  }

  lemma MoreNopsToks(kids: seq<Cst>, tail: nat, k: nat)
    ensures var (kids2, tail2) := MoreNops(kids, tail, k);
      KToks(kids2) + Nops(tail2) == Nops(k) + (KToks(kids) + Nops(tail))
  {
    hide Toks, Nops;
    if kids == [] {
      NopsSum(k, tail);
      assert KToks([]) == [];
    } else {
      var (kids2, tail2) := MoreNops(kids, tail, k);
      NopsSum(k, kids[0].lead);
      assert Toks(kids2[0]) == Toks(kids[0]) by {
        ToksDef(kids[0]);
        ToksDef(kids2[0]);
      }
      assert kids2[1..] == kids[1..];
    }
  }

  lemma WithoutPropToks(n: Cst, i: nat, extra: nat)
    requires i < |n.props|
    ensures Toks(WithoutProp(n, i, extra)) == PropPre(n, i) + Nops(extra) + PropPost(n, i)
  {
    hide Toks, PToks, KToks, Nops, MoreNops;
    var n2, k := WithoutProp(n, i, extra), n.props[i].nops + extra;
    NopsSum(n.props[i].nops, extra);
    HeadTail(n2, i);
    assert n2.props[..i] == n.props[..i];
    if i + 1 < |n.props| {
      var q := n.props[i + 1];
      PropStep(n2, i);
      PropStep(n, i + 1);
      NopsSum(k, q.nops);
      assert n2.props[i + 1..] == n.props[i + 2..];
      assert n2.props[i] == q.(nops := k + q.nops);
      assert TailFrom(n2, i + 1) == TailFrom(n, i + 2);
    } else {
      MoreNopsToks(n.kids, n.tail, k);
      assert n2.props[i..] == [] && n.props[i + 1..] == [];
      PToksNil();
      var b := KToks(n.kids) + Nops(n.tail);
      calc {
        TailFrom(n2, i);
        (KToks(n2.kids) + Nops(n2.tail)) + [EndNode];
        (Nops(k) + b) + [EndNode];
        Nops(n.props[i].nops) + Nops(extra) + (b + [EndNode]);
        Nops(n.props[i].nops) + Nops(extra) + TailFrom(n, i + 1);
      }
    }
  }

  lemma PToksNil()
    ensures PToks([]) == []
  {
  }

  lemma DenRelead(c: Cst, lead: nat, tab: seq<byte>)
    ensures Den(c.(lead := lead), tab) == Den(c, tab)
  {
  }

  lemma WithoutPropDen(n: Cst, i: nat, extra: nat, tab: seq<byte>)
    requires i < |n.props|
    ensures Den(WithoutProp(n, i, extra), tab) == T.DelProp(Den(n, tab), i)
  {
    hide PropName;
    var n2 := WithoutProp(n, i, extra);
    var a, b := DenProps(n2.props, tab), DenProps(n.props, tab);
    assert a == b[..i] + b[i + 1..];
    if i + 1 == |n.props| && n.kids != [] {
      DenRelead(n.kids[0], n.props[i].nops + extra + n.kids[0].lead, tab);
    }
    assert DenKids(n2.kids, tab) == DenKids(n.kids, tab);
  }

  // ---- children ----------------------------------------------------------------------------

  /** Child `i` replaced by `extra` NOP tags. */
  function WithoutKid(n: Cst, i: nat, extra: nat): Cst
    requires i < |n.kids|
  {
    var (rest, tail) := MoreNops(n.kids[i + 1..], n.tail, n.kids[i].lead + extra);
    n.(kids := n.kids[..i] + rest, tail := tail)
  }

  lemma WithoutKidToks(n: Cst, i: nat, extra: nat)
    requires i < |n.kids|
    ensures Toks(WithoutKid(n, i, extra)) == KidPre(n, i) + Nops(extra) + KidPost(n, i)
  {
    hide Toks, PToks, KToks, Nops, MoreNops;
    var n2, k := WithoutKid(n, i, extra), n.kids[i].lead + extra;
    var (rest, tail) := MoreNops(n.kids[i + 1..], n.tail, k);
    NopsSum(n.kids[i].lead, extra);
    ToksDef(n2);
    KToksConcat(n.kids[..i], rest);
    MoreNopsToks(n.kids[i + 1..], n.tail, k);
    var a := [Begin(n.name, n.pad)] + PToks(n.props) + KToks(n.kids[..i]);
    var b := KToks(n.kids[i + 1..]) + Nops(n.tail);
    calc {
      Toks(n2);
      a + (KToks(rest) + Nops(tail)) + [EndNode];
      a + (Nops(k) + b) + [EndNode];
      a + (Nops(n.kids[i].lead) + Nops(extra) + b) + [EndNode];
      KidPre(n, i) + Nops(extra) + KidPost(n, i);
    }
  }

  lemma WithoutKidDen(n: Cst, i: nat, extra: nat, tab: seq<byte>)
    requires i < |n.kids|
    ensures Den(WithoutKid(n, i, extra), tab) == T.DelKid(Den(n, tab), i)
  {
    var n2 := WithoutKid(n, i, extra);
    if i + 1 < |n.kids| {
      DenRelead(n.kids[i + 1], n.kids[i].lead + extra + n.kids[i + 1].lead, tab);
    }
    hide Den;
    var a, b := DenKids(n2.kids, tab), DenKids(n.kids, tab);
    assert a == b[..i] + b[i + 1..];
    DenDef(n, tab);
    DenDef(n2, tab);
  }

  lemma DenDef(c: Cst, tab: seq<byte>)
    ensures Den(c, tab) == T.Tree(c.name, DenProps(c.props, tab), DenKids(c.kids, tab))
  {
  }

  /** A new, empty child in front of the others, after the NOP tags that follow the properties. */
  function WithNewKid(n: Cst, name: Name, pad: Pad): Cst {
    if n.kids == [] then n.(kids := [Cst(n.tail, name, pad, [], [], 0)], tail := 0)
    else n.(kids := [Cst(n.kids[0].lead, name, pad, [], [], 0), n.kids[0].(lead := 0)] + n.kids[1..])
  }

  /** The tokens of a node up to its first child or, when it has none, its END_NODE. */
  function BeforeKids(n: Cst): seq<Token> {
    [Begin(n.name, n.pad)] + PToks(n.props) + Nops(if n.kids == [] then n.tail else n.kids[0].lead)
  }

  function FromKids(n: Cst): seq<Token> {
    (if n.kids == [] then [] else Toks(n.kids[0]) + KToks(n.kids[1..]) + Nops(n.tail)) + [EndNode]
  }

  lemma KidsSplit(n: Cst)
    ensures Toks(n) == BeforeKids(n) + FromKids(n)
  {
    hide Toks, PToks, KToks, Nops;
    ToksDef(n);
    if n.kids == [] {
      KToksNil([]);
    } else {
      KToksCons(n.kids, 0);
      assert n.kids[0..] == n.kids;
    }
  }

  lemma NewKidToks(n: Cst, name: Name, pad: Pad)
    ensures Toks(WithNewKid(n, name, pad)) == BeforeKids(n) + [Begin(name, pad), EndNode] + FromKids(n)
    ensures WithNewKid(n, name, pad).kids != []
    ensures KidPre(WithNewKid(n, name, pad), 0) == BeforeKids(n)
  {
    hide Toks, PToks, KToks;
    var n2 := WithNewKid(n, name, pad);
    var c := n2.kids[0];
    assert Toks(c) == [Begin(name, pad), EndNode] by {
      ToksDef(c);
      PToksNil();
      KToksNil([]);
    }
    KidSplit(n2, 0);
    assert n2.kids[..0] == [];
    KToksNil([]);
    if n.kids == [] {
      assert n2.kids[1..] == [];
    } else {
      assert n2.kids[1..] == [n.kids[0].(lead := 0)] + n.kids[1..];
      KToksCons(n2.kids[1..], 0);
      assert n2.kids[1..][0..] == n2.kids[1..] && n2.kids[1..][1..] == n.kids[1..];
      ToksDef(n.kids[0]);
      ToksDef(n.kids[0].(lead := 0));
    }
  }

  lemma NewKidDen(n: Cst, name: Name, pad: Pad, tab: seq<byte>)
    ensures Den(WithNewKid(n, name, pad), tab) == T.AddKid(Den(n, tab), name)
  {
    var n2 := WithNewKid(n, name, pad);
    if n.kids != [] {
      DenRelead(n.kids[0], 0, tab);
    }
    assert Den(n2.kids[0], tab) == T.Tree(name, [], []);
    hide Den;
    DenDef(n, tab);
    DenDef(n2, tab);
    assert DenKids(n2.kids, tab) == [T.Tree(name, [], [])] + DenKids(n.kids, tab);
  }

  /** Child `i` replaced by another node. */
  function WithKid(n: Cst, i: nat, c: Cst): Cst
    requires i < |n.kids|
  {
    n.(kids := n.kids[i := c.(lead := n.kids[i].lead)])
  }

  lemma WithKidToks(n: Cst, i: nat, c: Cst)
    requires i < |n.kids|
    ensures Toks(WithKid(n, i, c)) == KidPre(n, i) + Toks(c) + KidPost(n, i)
    ensures KidPre(WithKid(n, i, c), i) == KidPre(n, i) && KidPost(WithKid(n, i, c), i) == KidPost(n, i)
  {
    hide Toks, PToks, KToks, Nops;
    var n2 := WithKid(n, i, c);
    KidSplit(n2, i);
    assert n2.kids[..i] == n.kids[..i] && n2.kids[i + 1..] == n.kids[i + 1..];
    ToksDef(c);
    ToksDef(c.(lead := n.kids[i].lead));
  }

  lemma WithKidDen(n: Cst, i: nat, c: Cst, tab: seq<byte>)
    requires i < |n.kids|
    ensures Den(WithKid(n, i, c), tab) == Den(n, tab).(kids := Den(n, tab).kids[i := Den(c, tab)])
  {
    DenRelead(c, n.kids[i].lead, tab);
    var n2 := WithKid(n, i, c);
    hide Den;
    DenDef(n, tab);
    DenDef(n2, tab);
    assert DenKids(n2.kids, tab) == DenKids(n.kids, tab)[i := Den(c, tab)];
  }
}
