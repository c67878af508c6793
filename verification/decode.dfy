/** A structure block denotes at most one tree: the reading of its bytes as tokens, and of the
    tokens as a node, is unique up to the bytes in alignment gaps. */
module Decode {
  import opened Bytes
  import opened StructBlock
  import opened Concrete
  import opened FdtBase
  import opened FdtRo
  import opened Walking
  import opened NodeEdit
  import opened Focus
  import opened Paths

  const NOPAD: Pad := [0, 0, 0]

  /** A token without the bytes of its alignment gap. */
  function Bare(t: Token): Token {
    match t
    case Begin(name, _) => Begin(name, NOPAD)
    case Prop(nameoff, data, _) => Prop(nameoff, data, NOPAD)
    case _ => t
  }

  function BareAll(ts: seq<Token>): (r: seq<Token>)
    ensures |r| == |ts| && forall i :: 0 <= i < |ts| ==> r[i] == Bare(ts[i])
  {
    seq(|ts|, i requires 0 <= i < |ts| => Bare(ts[i]))
  }

  // ---- bytes as tokens -----------------------------------------------------------------------

  predicate StandsAt(s: seq<byte>, o: nat, t: Token) {
    o % 4 == 0 && InBlock(s, o, |Enc(t)|) && s[o..o + |Enc(t)|] == Enc(t)
  }

  lemma NameUnique(s: seq<byte>, o: nat, a: Name, b: Name)
    requires InBlock(s, o, |a| + 1) && s[o..o + |a|] == a && s[o + |a|] == 0
    requires InBlock(s, o, |b| + 1) && s[o..o + |b|] == b && s[o + |b|] == 0
    ensures a == b
  {
    NameCompare(s, o, a, b);
    NameCompare(s, o, b, a);
    assert a <= b && b <= a;
  }

  lemma TokenUnique(s: seq<byte>, o: nat, t: Token, u: Token)
    requires StandsAt(s, o, t) && StandsAt(s, o, u)
    ensures Bare(t) == Bare(u) && |Enc(t)| == |Enc(u)|
  {
    hide Enc, ReadTag;
    NextTagAt(s, o, t);
    NextTagAt(s, o, u);
    if t.Begin? {
      BeginUnique(s, o, t, u);
    } else if t.Prop? {
      PropInBlock(s, o, t.nameoff, t.data, t.pad);
      PropInBlock(s, o, u.nameoff, u.data, u.pad);
    }
  }

  lemma BeginUnique(s: seq<byte>, o: nat, t: Token, u: Token)
    requires StandsAt(s, o, t) && StandsAt(s, o, u) && t.Begin? && u.Begin?
    ensures t.name == u.name
  {
    hide Enc;
    NameBytes(s, o, t.name, t.pad);
    NameBytes(s, o, u.name, u.pad);
    NameUnique(s, o + 4, t.name, u.name);
  }

  /** Two readings of the same bytes agree as far as both go. */
  lemma {:induction false} TokensUnique(s: seq<byte>, o: nat, ts: seq<Token>, us: seq<Token>)
    requires o % 4 == 0 && o <= |s| && EncAll(ts) <= s[o..] && EncAll(us) <= s[o..] && |ts| <= |us|
    ensures BareAll(ts) == BareAll(us)[..|ts|]
    decreases |ts|
  {
    hide Enc, EncAll, Bare;
    if ts != [] {
      var t, u := ts[0], us[0];
      FirstStands(s, o, ts);
      FirstStands(s, o, us);
      TokenUnique(s, o, t, u);
      TokensUnique(s, o + |Enc(t)|, ts[1..], us[1..]);
      assert BareAll(ts) == [Bare(t)] + BareAll(ts[1..]);
      assert BareAll(us) == [Bare(u)] + BareAll(us[1..]);
    }
  }

  lemma FirstStands(s: seq<byte>, o: nat, ts: seq<Token>)
    requires o % 4 == 0 && o <= |s| && ts != [] && EncAll(ts) <= s[o..]
    ensures StandsAt(s, o, ts[0]) && EncAll(ts[1..]) <= s[o + |Enc(ts[0])|..]
  {
    hide Enc, EncAll;
    var a, b := Enc(ts[0]), EncAll(ts[1..]);
    EncAllConcat([ts[0]], ts[1..]);
    EncOne(ts[0]);
    assert [ts[0]] + ts[1..] == ts;
    assert s[o..][..|a|] == a && s[o..][|a|..|a + b|] == b;
    assert s[o..][|a|..] == s[o + |a|..];
  }

  // ---- tokens as a node --------------------------------------------------------------------------

  function BareProps(ps: seq<CProp>): (r: seq<CProp>)
    ensures |r| == |ps| && forall i :: 0 <= i < |ps| ==> r[i] == ps[i].(pad := NOPAD)
  {
    seq(|ps|, i requires 0 <= i < |ps| => ps[i].(pad := NOPAD))
  }

  function BareKids(ks: seq<Cst>): seq<Cst>
    decreases ks
  {
    if ks == [] then [] else [BareNode(ks[0])] + BareKids(ks[1..])
  }

  /** A node without the bytes of alignment gaps. */
  function BareNode(c: Cst): Cst
    decreases c
  {
    c.(pad := NOPAD, props := BareProps(c.props), kids := BareKids(c.kids))
  }

  lemma BareAllConcat(a: seq<Token>, b: seq<Token>)
    ensures BareAll(a + b) == BareAll(a) + BareAll(b)
  {
  }

  lemma {:induction false} BarePToks(ps: seq<CProp>)
    ensures BareAll(PToks(ps)) == PToks(BareProps(ps))
    decreases |ps|
  {
    if ps == [] {
      PToksNil();
    } else {
      var n, p, r := Nops(ps[0].nops), [PTok(ps[0])], PToks(ps[1..]);
      BareAllConcat(n + p, r);
      BareAllConcat(n, p);
      BarePToks(ps[1..]);
      var b := BareProps(ps);
      assert b[1..] == BareProps(ps[1..]);
      assert BareAll(n) == n && BareAll(p) == [PTok(b[0])];
    }
  }

  lemma {:induction false} BareKToks(ks: seq<Cst>)
    ensures BareAll(KToks(ks)) == KToks(BareKids(ks))
    decreases ks, 0
  {
    hide Toks, BareNode;
    if ks == [] {
      assert KToks([]) == [];
    } else {
      var n, t, r := Nops(ks[0].lead), Toks(ks[0]), KToks(ks[1..]);
      BareAllConcat(n + t, r);
      BareAllConcat(n, t);
      BareKToks(ks[1..]);
      BareToks(ks[0]);
      var b := BareKids(ks);
      assert b[0] == BareNode(ks[0]) && b[1..] == BareKids(ks[1..]);
      BareLead(ks[0]);
      assert BareAll(n) == n;
    }
  }

  lemma BareLead(c: Cst)
    ensures BareNode(c).lead == c.lead
  {
  }

  lemma {:induction false} BareToks(c: Cst)
    ensures BareAll(Toks(c)) == Toks(BareNode(c))
    decreases c, 0
  {
    hide PToks, KToks, Nops, BareProps, BareKids, Toks;
    var b, p, k, n, e := [Begin(c.name, c.pad)], PToks(c.props), KToks(c.kids), Nops(c.tail), [EndNode];
    ToksDef(c);
    ToksDef(BareNode(c));
    BareAllConcat(b + p + k + n, e);
    BareAllConcat(b + p + k, n);
    BareAllConcat(b + p, k);
    BareAllConcat(b, p);
    BarePToks(c.props);
    BareKToks(c.kids);
    assert BareAll(b) == [Begin(c.name, NOPAD)] && BareAll(e) == e && BareAll(n) == n;
  }

  /** How many NOP tags a token list starts with. */
  lemma NopsUnique(m: nat, a: seq<Token>, n: nat, b: seq<Token>)
    requires a != [] && b != [] && !a[0].Nop? && !b[0].Nop? && Nops(m) + a == Nops(n) + b
    ensures m == n && a == b
  {
    var u, v := Nops(m) + a, Nops(n) + b;
    assert u[m] == a[0] && v[n] == b[0];
    assert forall i :: 0 <= i < m ==> u[i] == Nop;
    assert forall i :: 0 <= i < n ==> v[i] == Nop;
    assert a == u[m..] && b == v[n..];
  }

  /** Properties, and what follows them, are read in one way only. */
  lemma {:induction false} PropsUnique(ps: seq<CProp>, m: nat, a: seq<Token>, qs: seq<CProp>, n: nat, b: seq<Token>)
    requires a != [] && b != [] && !a[0].Nop? && !b[0].Nop? && !a[0].Prop? && !b[0].Prop?
    requires BareProps(ps) == ps && BareProps(qs) == qs
    requires PToks(ps) + (Nops(m) + a) == PToks(qs) + (Nops(n) + b)
    ensures ps == qs && m == n && a == b
    decreases |ps|
  {
    hide PToks, PTok;
    if ps == [] || qs == [] {
      PToksNil();
      assert [] + (Nops(m) + a) == Nops(m) + a && [] + (Nops(n) + b) == Nops(n) + b;
      if ps != [] {
        PropsStart(ps, m, a);
        PropHead(ps[0]);
        NopsUnique(ps[0].nops, [PTok(ps[0])] + (PToks(ps[1..]) + (Nops(m) + a)), n, b);
      } else if qs != [] {
        PropsStart(qs, n, b);
        PropHead(qs[0]);
        NopsUnique(qs[0].nops, [PTok(qs[0])] + (PToks(qs[1..]) + (Nops(n) + b)), m, a);
      } else {
        NopsUnique(m, a, n, b);
      }
    } else {
      var x, y := PToks(ps[1..]) + (Nops(m) + a), PToks(qs[1..]) + (Nops(n) + b);
      PropsStart(ps, m, a);
      PropsStart(qs, n, b);
      PropHead(ps[0]);
      PropHead(qs[0]);
      NopsUnique(ps[0].nops, [PTok(ps[0])] + x, qs[0].nops, [PTok(qs[0])] + y);
      assert PTok(ps[0]) == ([PTok(ps[0])] + x)[0] == ([PTok(qs[0])] + y)[0] == PTok(qs[0]);
      assert x == ([PTok(ps[0])] + x)[1..] == ([PTok(qs[0])] + y)[1..] == y;
      assert BareProps(ps[1..]) == BareProps(ps)[1..] && BareProps(qs[1..]) == BareProps(qs)[1..];
      PropsUnique(ps[1..], m, a, qs[1..], n, b);
      assert ps == [ps[0]] + ps[1..] && qs == [qs[0]] + qs[1..];
    }
  }

  lemma PropHead(p: CProp)
    ensures PTok(p).Prop? && PTok(p) == Prop(p.nameoff, p.data, p.pad)
  {
  }

  lemma PropsStart(ps: seq<CProp>, m: nat, a: seq<Token>)
    requires ps != []
    ensures PToks(ps) + (Nops(m) + a) == Nops(ps[0].nops) + ([PTok(ps[0])] + (PToks(ps[1..]) + (Nops(m) + a)))
  {
    hide PTok, Nops;
  }

  /** So are children. */
  lemma {:induction false} KidsUnique(ks: seq<Cst>, m: nat, a: seq<Token>, ls: seq<Cst>, n: nat, b: seq<Token>)
    requires a != [] && b != [] && a[0].EndNode? && b[0].EndNode?
    requires BareKids(ks) == ks && BareKids(ls) == ls
    requires KToks(ks) + (Nops(m) + a) == KToks(ls) + (Nops(n) + b)
    ensures ks == ls && m == n && a == b
    decreases ks, 1
  {
    hide KToks, Toks, BareNode;
    KToksNil(Nops(m) + a);
    KToksNil(Nops(n) + b);
    if ks == [] && ls == [] {
      NopsUnique(m, a, n, b);
    } else if ks == [] {
      KidsStart(ls, n, b);
      NopsUnique(ls[0].lead, Toks(ls[0]) + (KToks(ls[1..]) + (Nops(n) + b)), m, a);
    } else if ls == [] {
      KidsStart(ks, m, a);
      NopsUnique(ks[0].lead, Toks(ks[0]) + (KToks(ks[1..]) + (Nops(m) + a)), n, b);
    } else {
      var x, y := KToks(ks[1..]) + (Nops(m) + a), KToks(ls[1..]) + (Nops(n) + b);
      KidsStart(ks, m, a);
      KidsStart(ls, n, b);
      NopsUnique(ks[0].lead, Toks(ks[0]) + x, ls[0].lead, Toks(ls[0]) + y);
      BareFirst(ks);
      BareFirst(ls);
      NodeUnique(ks[0], x, ls[0], y);
      KidsUnique(ks[1..], m, a, ls[1..], n, b);
      assert ks == [ks[0]] + ks[1..] && ls == [ls[0]] + ls[1..];
    }
  }

  lemma BareFirst(ks: seq<Cst>)
    requires ks != [] && BareKids(ks) == ks
    ensures BareNode(ks[0]) == ks[0] && BareKids(ks[1..]) == ks[1..]
  {
    hide BareNode;
    assert BareKids(ks)[0] == BareNode(ks[0]) && BareKids(ks)[1..] == BareKids(ks[1..]);
  }

  lemma KidsStart(ks: seq<Cst>, m: nat, a: seq<Token>)
    requires ks != []
    ensures KToks(ks) + (Nops(m) + a) == Nops(ks[0].lead) + (Toks(ks[0]) + (KToks(ks[1..]) + (Nops(m) + a)))
    ensures Toks(ks[0])[0] == Begin(ks[0].name, ks[0].pad)
  {
    hide Toks, Nops, PToks, KToks, Body;
    ToksDef(ks[0]);
    KToksCons(ks, 0);
    assert ks[0..] == ks;
  }

  /** A node, and what follows it, is read in one way only. */
  lemma {:induction false} NodeUnique(c: Cst, x: seq<Token>, d: Cst, y: seq<Token>)
    requires BareNode(c) == c && BareNode(d) == d && c.lead == d.lead && Toks(c) + x == Toks(d) + y
    ensures c == d && x == y
    decreases c, 0
  {
    hide PToks, KToks, Toks, BareKids, BareProps;
    var p, q := PToks(c.props) + (KToks(c.kids) + (Nops(c.tail) + ([EndNode] + x))), PToks(d.props) + (KToks(d.kids) + (Nops(d.tail) + ([EndNode] + y)));
    NodeParts(c, x);
    NodeParts(d, y);
    var b, e := Begin(c.name, c.pad), Begin(d.name, d.pad);
    assert b == ([b] + p)[0] == ([e] + q)[0] == e;
    assert p == ([b] + p)[1..] == ([e] + q)[1..] == q;
    BodyUnique(c, x, d, y);
    assert x == ([EndNode] + x)[1..] == ([EndNode] + y)[1..] == y;
  }

  lemma NodeParts(c: Cst, x: seq<Token>)
    ensures Toks(c) + x == [Begin(c.name, c.pad)] + (PToks(c.props) + (KToks(c.kids) + (Nops(c.tail) + ([EndNode] + x))))
  {
    hide PToks, KToks, Toks, Nops;
    ToksDef(c);
  }

  /** What follows the properties starts with some NOP tags and then no property. */
  lemma {:induction false} AfterProps(ks: seq<Cst>, t: nat, x: seq<Token>) returns (m: nat, a: seq<Token>)
    ensures KToks(ks) + (Nops(t) + ([EndNode] + x)) == Nops(m) + a
    ensures a != [] && !a[0].Nop? && !a[0].Prop?
  {
    if ks == [] {
      m, a := t, [EndNode] + x;
      KToksNil(Nops(t) + a);
    } else {
      KidsStart(ks, t, [EndNode] + x);
      m, a := ks[0].lead, Toks(ks[0]) + (KToks(ks[1..]) + (Nops(t) + ([EndNode] + x)));
    }
  }

  lemma {:induction false} BodyUnique(c: Cst, x: seq<Token>, d: Cst, y: seq<Token>)
    requires BareProps(c.props) == c.props && BareProps(d.props) == d.props && BareKids(c.kids) == c.kids && BareKids(d.kids) == d.kids
    requires PToks(c.props) + (KToks(c.kids) + (Nops(c.tail) + ([EndNode] + x))) ==
             PToks(d.props) + (KToks(d.kids) + (Nops(d.tail) + ([EndNode] + y)))
    ensures c.props == d.props && c.kids == d.kids && c.tail == d.tail && [EndNode] + x == [EndNode] + y
    decreases c.kids, 2
  {
    hide PToks, KToks, BareKids, BareProps;
    var m, a := AfterProps(c.kids, c.tail, x);
    var n, b := AfterProps(d.kids, d.tail, y);
    PropsUnique(c.props, m, a, d.props, n, b);
    KidsUnique(c.kids, c.tail, [EndNode] + x, d.kids, d.tail, [EndNode] + y);
  }

  // ---- the meaning -----------------------------------------------------------------------------------

  lemma {:induction false} DenBare(c: Cst, tab: seq<byte>)
    ensures Den(BareNode(c), tab) == Den(c, tab)
    decreases c, 0
  {
    DenBareKids(c.kids, tab);
    assert DenProps(BareProps(c.props), tab) == DenProps(c.props, tab);
  }

  lemma {:induction false} DenBareKids(ks: seq<Cst>, tab: seq<byte>)
    ensures DenKids(BareKids(ks), tab) == DenKids(ks, tab)
    decreases ks, 0
  {
    hide Den, BareNode;
    if ks != [] {
      DenBare(ks[0], tab);
      DenBareKids(ks[1..], tab);
      DenKidsTail(ks, tab);
      DenKidsTail(BareKids(ks), tab);
      assert BareKids(ks)[1..] == BareKids(ks[1..]);
      assert DenKids(ks, tab) == [Den(ks[0], tab)] + DenKids(ks[1..], tab);
      var b := BareKids(ks);
      assert DenKids(b, tab) == [Den(b[0], tab)] + DenKids(b[1..], tab);
    }
  }

  lemma {:induction false} BareTwice(c: Cst)
    ensures BareNode(BareNode(c)) == BareNode(c)
    decreases c, 0
  {
    BareKidsTwice(c.kids);
    assert BareProps(BareProps(c.props)) == BareProps(c.props);
  }

  lemma {:induction false} BareKidsTwice(ks: seq<Cst>)
    ensures BareKids(BareKids(ks)) == BareKids(ks)
    decreases ks, 0
  {
    hide BareNode;
    if ks != [] {
      BareTwice(ks[0]);
      BareKidsTwice(ks[1..]);
      var b := BareKids(ks);
      assert b[0] == BareNode(ks[0]) && b[1..] == BareKids(ks[1..]);
    }
  }

  /** The bytes of a blob denote at most one tree. */
  lemma DecodeUnique(fdt: Fdt, c: Cst, d: Cst)
    requires Whole(fdt, c) && Whole(fdt, d)
    ensures fdt.Layout() && TreeOf(fdt, c) == TreeOf(fdt, d)
  {
    hide Toks, EncAll, Named, Den, BareNode;
    if |Toks(c)| <= |Toks(d)| {
      DecodeUniqueFrom(fdt.S(), c, d, fdt.Strs());
    } else {
      DecodeUniqueFrom(fdt.S(), d, c, fdt.Strs());
    }
  }

  lemma DecodeUniqueFrom(s: seq<byte>, c: Cst, d: Cst, tab: seq<byte>)
    requires EncAll([] + Toks(c) + [End]) <= s && EncAll([] + Toks(d) + [End]) <= s && |Toks(c)| <= |Toks(d)|
    ensures Den(c, tab) == Den(d, tab)
  {
    hide Toks, EncAll, Den, BareNode, BareAll;
    var rest := SameTokens(s, c, d);
    var b, e := BareNode(c), BareNode(d);
    BareTwice(c);
    BareTwice(d);
    LeadAside(c, d);
    var e2 := e.(lead := b.lead);
    BareRelead(e, b.lead);
    ToksLead(e, b.lead);
    NodeUnique(b, [End] + rest, e2, [End]);
    DenBare(c, tab);
    DenBare(d, tab);
    DenRelead(e, b.lead, tab);
  }

  /** The shorter of two runs of tokens with the same bytes, gaps aside, is where the longer one starts. */
  lemma SameTokens(s: seq<byte>, c: Cst, d: Cst) returns (rest: seq<Token>)
    requires EncAll([] + Toks(c) + [End]) <= s && EncAll([] + Toks(d) + [End]) <= s && |Toks(c)| <= |Toks(d)|
    ensures Toks(BareNode(c)) + ([End] + rest) == Toks(BareNode(d)) + [End]
  {
    hide Toks, EncAll, BareNode, BareAll;
    var ts, us := [] + Toks(c) + [End], [] + Toks(d) + [End];
    assert s[0..] == s;
    TokensUnique(s, 0, ts, us);
    assert [] + Toks(c) == Toks(c) && [] + Toks(d) == Toks(d);
    BareNodeEnd(c);
    BareNodeEnd(d);
    rest := BareAll(us)[|ts|..];
    assert BareAll(us) == BareAll(ts) + rest;
  }

  lemma BareNodeEnd(c: Cst)
    ensures BareAll(Toks(c) + [End]) == Toks(BareNode(c)) + [End]
  {
    hide Toks, BareNode;
    BareAllConcat(Toks(c), [End]);
    BareToks(c);
  }

  lemma LeadAside(c: Cst, d: Cst)
    ensures BareNode(c).lead == c.lead && BareNode(d).lead == d.lead
  {
  }

  lemma BareRelead(c: Cst, lead: nat)
    requires BareNode(c) == c
    ensures BareNode(c.(lead := lead)) == c.(lead := lead)
  {
  }
}
