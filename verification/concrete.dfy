/** Concrete nodes: an abstract node together with what its bytes hold beside it (name offsets,
    bytes in alignment gaps, NOP tags), and the tree it denotes. */
module Concrete {
  import opened Bytes
  import opened StructBlock
  import T = Tree

  /** A property preceded by `nops` NOP tags. */
  datatype CProp = CProp(nops: nat, nameoff: u32, data: Data, pad: Pad)

  /** `lead` NOP tags stand before the node where it is a child, `tail` before its END_NODE. */
  datatype Cst = Cst(lead: nat, name: Name, pad: Pad, props: seq<CProp>, kids: seq<Cst>, tail: nat)

  // ---- tokens ----------------------------------------------------------------------------

  function Nops(n: nat): (r: seq<Token>)
    ensures |r| == n
    ensures forall i :: 0 <= i < n ==> r[i] == Nop
  {
    seq(n, _ => Nop)
  }

  function PTok(p: CProp): Token {
    Prop(p.nameoff, p.data, p.pad)
  }

  function PToks(ps: seq<CProp>): seq<Token> {
    if ps == [] then [] else Nops(ps[0].nops) + [PTok(ps[0])] + PToks(ps[1..])
  }

  function KToks(ks: seq<Cst>): seq<Token>
    decreases ks
  {
    if ks == [] then [] else Nops(ks[0].lead) + Toks(ks[0]) + KToks(ks[1..])
  }

  /** What follows the BEGIN_NODE of a node, up to and including its END_NODE. */
  function Body(c: Cst): seq<Token>
    decreases c, 0
  {
    PToks(c.props) + KToks(c.kids) + Nops(c.tail) + [EndNode]
  }

  function Toks(c: Cst): (r: seq<Token>)
    ensures |r| >= 2
    decreases c, 1
  {
    [Begin(c.name, c.pad)] + Body(c)
  }

  lemma {:induction false} PToksConcat(a: seq<CProp>, b: seq<CProp>)
    ensures PToks(a + b) == PToks(a) + PToks(b)
  {
    if a == [] {
      assert a + b == b;
    } else {
      var n := Nops(a[0].nops) + [PTok(a[0])];
      calc {
        PToks(a + b);
        { assert (a + b)[1..] == a[1..] + b; }
        n + PToks(a[1..] + b);
        { PToksConcat(a[1..], b); }
        n + (PToks(a[1..]) + PToks(b));
        (n + PToks(a[1..])) + PToks(b);
        PToks(a) + PToks(b);
      }
    }
  }

  lemma {:induction false} KToksConcat(a: seq<Cst>, b: seq<Cst>)
    ensures KToks(a + b) == KToks(a) + KToks(b)
  {
    if a == [] {
      assert a + b == b;
    } else {
      var n := Nops(a[0].lead) + Toks(a[0]);
      calc {
        KToks(a + b);
        { assert (a + b)[1..] == a[1..] + b; }
        n + KToks(a[1..] + b);
        { KToksConcat(a[1..], b); }
        n + (KToks(a[1..]) + KToks(b));
        (n + KToks(a[1..])) + KToks(b);
        KToks(a) + KToks(b);
      }
    }
  }

  lemma PToksCons(ps: seq<CProp>, i: nat)
    requires i < |ps|
    ensures PToks(ps[i..]) == Nops(ps[i].nops) + [PTok(ps[i])] + PToks(ps[i + 1..])
  {
    assert ps[i..][0] == ps[i] && ps[i..][1..] == ps[i + 1..];
  }

  lemma KToksCons(ks: seq<Cst>, i: nat)
    requires i < |ks|
    ensures KToks(ks[i..]) == Nops(ks[i].lead) + Toks(ks[i]) + KToks(ks[i + 1..])
  {
    hide Toks;
    assert ks[i..][0] == ks[i] && ks[i..][1..] == ks[i + 1..];
  }

  lemma KToksAt(ks: seq<Cst>, i: nat)
    requires i < |ks|
    ensures KToks(ks) == KToks(ks[..i]) + Nops(ks[i].lead) + Toks(ks[i]) + KToks(ks[i + 1..])
  {
    hide KToks, Toks, Nops;
    assert ks == ks[..i] + ks[i..];
    KToksConcat(ks[..i], ks[i..]);
    KToksCons(ks, i);
  }

  lemma ToksDef(c: Cst)
    ensures Toks(c) == [Begin(c.name, c.pad)] + PToks(c.props) + KToks(c.kids) + Nops(c.tail) + [EndNode]
    ensures Toks(c) == [Begin(c.name, c.pad)] + Body(c)
  {
    hide PToks, KToks, Nops;
  }

  // ---- meaning ---------------------------------------------------------------------------

  /** Every property token names a terminated string of the table. */
  predicate Named(ts: seq<Token>, tab: seq<byte>) {
    forall i :: 0 <= i < |ts| && ts[i].Prop? ==> StringAt(tab, ts[i].nameoff)
  }

  function PropName(tab: seq<byte>, nameoff: u32): Name {
    if StringAt(tab, nameoff) then CStr(tab, nameoff) else []
  }

  function DenProp(p: CProp, tab: seq<byte>): T.Property {
    T.Property(PropName(tab, p.nameoff), p.data)
  }

  function DenProps(ps: seq<CProp>, tab: seq<byte>): (r: seq<T.Property>)
    ensures |r| == |ps|
    ensures forall i :: 0 <= i < |ps| ==> r[i] == DenProp(ps[i], tab)
  {
    seq(|ps|, i requires 0 <= i < |ps| => DenProp(ps[i], tab))
  }

  function DenKids(ks: seq<Cst>, tab: seq<byte>): (r: seq<T.Tree>)
    ensures |r| == |ks|
    ensures forall i :: 0 <= i < |ks| ==> r[i] == Den(ks[i], tab)
    decreases ks
  {
    if ks == [] then [] else
      var r := [Den(ks[0], tab)] + DenKids(ks[1..], tab);
      assert forall i :: 1 <= i < |ks| ==> r[i] == DenKids(ks[1..], tab)[i - 1];
      r
  }

  /** The tree a concrete node stands for, given the string table. */
  function Den(c: Cst, tab: seq<byte>): T.Tree
    decreases c
  {
    T.Tree(c.name, DenProps(c.props, tab), DenKids(c.kids, tab))
  }

  lemma NamedConcat(a: seq<Token>, b: seq<Token>, tab: seq<byte>)
    ensures Named(a + b, tab) <==> Named(a, tab) && Named(b, tab)
  {
    if Named(a + b, tab) {
      assert forall i :: 0 <= i < |a| ==> a[i] == (a + b)[i];
      assert forall i :: 0 <= i < |b| ==> b[i] == (a + b)[|a| + i];
    }
  }

  lemma NamedAppend(ts: seq<Token>, tab: seq<byte>, more: seq<byte>)
    requires Named(ts, tab)
    ensures Named(ts, tab + more)
  {
    forall i | 0 <= i < |ts| && ts[i].Prop?
      ensures StringAt(tab + more, ts[i].nameoff)
    {
      CStrAppend(tab, more, ts[i].nameoff);
    }
  }

  lemma NamedProps(ps: seq<CProp>, tab: seq<byte>)
    ensures Named(PToks(ps), tab) <==> forall i :: 0 <= i < |ps| ==> StringAt(tab, ps[i].nameoff)
  {
    if ps != [] {
      var a, b, c := Nops(ps[0].nops), [PTok(ps[0])], PToks(ps[1..]);
      NamedConcat(a + b, c, tab);
      NamedConcat(a, b, tab);
      NamedProps(ps[1..], tab);
      assert Named(b, tab) <==> StringAt(tab, ps[0].nameoff) by {
        assert b[0] == PTok(ps[0]);
      }
      if Named(PToks(ps), tab) {
        forall i | 0 <= i < |ps|
          ensures StringAt(tab, ps[i].nameoff)
        {
          if i > 0 {
            assert ps[i] == ps[1..][i - 1];
          }
        }
      }
    }
  }

  lemma NamedNode(c: Cst, tab: seq<byte>)
    ensures Named(Toks(c), tab) <==> Named(PToks(c.props), tab) && Named(KToks(c.kids), tab)
  {
    var p, k, n, e := PToks(c.props), KToks(c.kids), Nops(c.tail), [EndNode];
    NamedConcat([Begin(c.name, c.pad)], p + k + n + e, tab);
    NamedConcat(p + k + n, e, tab);
    NamedConcat(p + k, n, tab);
    NamedConcat(p, k, tab);
  }

  lemma NamedKids(ks: seq<Cst>, tab: seq<byte>)
    requires ks != []
    ensures Named(KToks(ks), tab) <==> Named(Toks(ks[0]), tab) && Named(KToks(ks[1..]), tab)
  {
    var a, b, c := Nops(ks[0].lead), Toks(ks[0]), KToks(ks[1..]);
    NamedConcat(a + b, c, tab);
    NamedConcat(a, b, tab);
  }

  /** The meaning of a node does not change when strings are added to the table. */
  lemma {:induction false} DenAppend(c: Cst, tab: seq<byte>, more: seq<byte>)
    requires Named(Toks(c), tab)
    ensures Den(c, tab + more) == Den(c, tab)
    decreases c
  {
    NamedNode(c, tab);
    NamedProps(c.props, tab);
    forall i | 0 <= i < |c.props|
      ensures DenProp(c.props[i], tab + more) == DenProp(c.props[i], tab)
    {
      CStrAppend(tab, more, c.props[i].nameoff);
    }
    assert DenProps(c.props, tab + more) == DenProps(c.props, tab);
    DenKidsAppend(c.kids, tab, more);
  }

  lemma {:induction false} DenKidsAppend(ks: seq<Cst>, tab: seq<byte>, more: seq<byte>)
    requires Named(KToks(ks), tab)
    ensures DenKids(ks, tab + more) == DenKids(ks, tab)
    decreases ks
  {
    if ks != [] {
      NamedKids(ks, tab);
      DenAppend(ks[0], tab, more);
      DenKidsAppend(ks[1..], tab, more);
    }
  }
}
