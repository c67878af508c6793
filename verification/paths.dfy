/** Nodes of a whole blob by their place: every node can be brought into focus from the root, and
    an edit in focus is an edit of the whole. */
module Paths {
  import opened Bytes
  import opened StructBlock
  import opened Concrete
  import opened Walking
  import opened FdtBase
  import opened Focus
  import opened FdtRo
  import opened NodeEdit
  import T = Tree

  type Path = T.Path

  predicate HasPath(c: Cst, p: Path) {
    p == [] || (p[0] < |c.kids| && HasPath(c.kids[p[0]], p[1..]))
  }

  function NodeAt(c: Cst, p: Path): Cst
    requires HasPath(c, p)
  {
    if p == [] then c else NodeAt(c.kids[p[0]], p[1..])
  }

  /** The tokens of `c` before the node at `p`. */
  function PreAt(c: Cst, p: Path): seq<Token>
    requires HasPath(c, p)
  {
    if p == [] then [] else KidPre(c, p[0]) + PreAt(c.kids[p[0]], p[1..])
  }

  /** The tokens of `c` after the node at `p`. */
  function PostAt(c: Cst, p: Path): seq<Token>
    requires HasPath(c, p)
  {
    if p == [] then [] else PostAt(c.kids[p[0]], p[1..]) + KidPost(c, p[0])
  }

  /** `c` with the node at `p` replaced. */
  function PutAt(c: Cst, p: Path, n: Cst): Cst
    requires HasPath(c, p)
  {
    if p == [] then n.(lead := c.lead) else WithKid(c, p[0], PutAt(c.kids[p[0]], p[1..], n))
  }

  lemma {:induction false} PathSplit(c: Cst, p: Path)
    requires HasPath(c, p)
    ensures Toks(c) == PreAt(c, p) + Toks(NodeAt(c, p)) + PostAt(c, p)
    decreases |p|
  {
    hide Toks, KidPre, KidPost;
    if p != [] {
      KidSplit(c, p[0]);
      PathSplit(c.kids[p[0]], p[1..]);
    }
  }

  lemma {:induction false} PutToks(c: Cst, p: Path, n: Cst)
    requires HasPath(c, p)
    ensures Toks(PutAt(c, p, n)) == PreAt(c, p) + Toks(n) + PostAt(c, p)
    decreases |p|
  {
    hide Toks, KidPre, KidPost, WithKid;
    if p == [] {
      ToksLead(n, c.lead);
    } else {
      PutToks(c.kids[p[0]], p[1..], n);
      WithKidToks(c, p[0], PutAt(c.kids[p[0]], p[1..], n));
    }
  }

  lemma ToksLead(n: Cst, lead: nat)
    ensures Toks(n.(lead := lead)) == Toks(n)
  {
  }

  lemma {:induction false} HasPathDen(c: Cst, p: Path, tab: seq<byte>)
    ensures HasPath(c, p) <==> T.HasPath(Den(c, tab), p)
    ensures HasPath(c, p) ==> T.At(Den(c, tab), p) == Den(NodeAt(c, p), tab)
    decreases |p|
  {
    hide Den;
    DenDef(c, tab);
    if p != [] && p[0] < |c.kids| {
      HasPathDen(c.kids[p[0]], p[1..], tab);
    }
  }

  lemma {:induction false} PutDen(c: Cst, p: Path, n: Cst, tab: seq<byte>)
    requires HasPath(c, p)
    ensures T.HasPath(Den(c, tab), p)
    ensures Den(PutAt(c, p, n), tab) == T.Put(Den(c, tab), p, Den(n, tab))
    decreases |p|
  {
    hide Den, WithKid;
    DenDef(c, tab);
    HasPathDen(c, p, tab);
    if p == [] {
      DenRelead(n, c.lead, tab);
    } else {
      PutDen(c.kids[p[0]], p[1..], n, tab);
      WithKidDen(c, p[0], PutAt(c.kids[p[0]], p[1..], n), tab);
    }
  }

  /** One step further down. */
  lemma {:induction false} PathSnoc(c: Cst, p: Path, k: nat)
    requires HasPath(c, p) && k < |NodeAt(c, p).kids|
    ensures HasPath(c, p + [k]) && NodeAt(c, p + [k]) == NodeAt(c, p).kids[k]
    ensures PreAt(c, p + [k]) == PreAt(c, p) + KidPre(NodeAt(c, p), k)
    ensures PostAt(c, p + [k]) == KidPost(NodeAt(c, p), k) + PostAt(c, p)
    decreases |p|
  {
    hide KidPre, KidPost;
    if p != [] {
      assert (p + [k])[1..] == p[1..] + [k];
      PathSnoc(c.kids[p[0]], p[1..], k);
    }
  }

  // ---- whole blobs -------------------------------------------------------------------------

  /** The structure block is the node `c` and the end marker. */
  ghost predicate Whole(fdt: Fdt, c: Cst)
    reads fdt, fdt.buf
  {
    Focused(fdt, [], c, [End])
  }

  /** What follows the node at `p` in the block. */
  function Tail(c: Cst, p: Path): seq<Token>
    requires HasPath(c, p)
  {
    PostAt(c, p) + [End]
  }

  /** The tree that a whole blob denotes. */
  ghost function TreeOf(fdt: Fdt, c: Cst): T.Tree
    requires fdt.Layout()
    reads fdt, fdt.buf
  {
    Den(c, fdt.Strs())
  }

  /** Offset of the node at `p`. */
  function NodeOff(c: Cst, p: Path): nat
    requires HasPath(c, p)
  {
    Size(PreAt(c, p))
  }

  lemma WholeFocus(fdt: Fdt, c: Cst, p: Path)
    requires HasPath(c, p)
    ensures Whole(fdt, c) <==> Focused(fdt, PreAt(c, p), NodeAt(c, p), Tail(c, p))
  {
    hide Toks, PreAt, PostAt, Named, EncAll, NodeAt;
    PathSplit(c, p);
    assert [] + Toks(c) + [End] == PreAt(c, p) + Toks(NodeAt(c, p)) + Tail(c, p);
  }

  /** An edit of the node at `p` is an edit of the whole. */
  lemma WholePut(fdt: Fdt, c: Cst, p: Path, n: Cst)
    requires HasPath(c, p) && Focused(fdt, PreAt(c, p), n, Tail(c, p))
    ensures Whole(fdt, PutAt(c, p, n))
  {
    hide Toks, PreAt, PostAt, Named, EncAll, PutAt;
    PutToks(c, p, n);
    assert [] + Toks(PutAt(c, p, n)) + [End] == PreAt(c, p) + Toks(n) + Tail(c, p);
  }

  // ---- the walk over a whole blob ------------------------------------------------------------

  /** The visit `v`, of a walk that starts at the first token of `c`, is at the node at `p`. */
  ghost predicate VisitAt(v: Visit, c: Cst, post: seq<Token>, off: nat, depth: int, p: Path) {
    && HasPath(c, p)
    && v.off == off + Size(PreAt(c, p)) && v.depth == depth + |p|
    && v.rest == Toks(NodeAt(c, p)) + (PostAt(c, p) + post)
  }

  /** The same for a run of children that start at `off`. */
  ghost predicate VisitBelow(v: Visit, ks: seq<Cst>, post: seq<Token>, off: nat, depth: int, base: nat, p: Path) {
    && p != [] && base <= p[0] < base + |ks|
    && var j := p[0] - base;
       VisitAt(v, ks[j], KToks(ks[j + 1..]) + post, KidAt(ks, off, j), depth, p[1..])
  }

  /** A walk visits the nodes of a subtree in the order of their places, with their true depths. */
  lemma {:induction false} PreorderPlaces(c: Cst, post: seq<Token>, off: nat, depth: int, tab: seq<byte>)
    ensures var vs, ps := Preorder(c, post, off, depth), T.Places(Den(c, tab));
      |vs| == |ps| && forall i :: 0 <= i < |vs| ==> VisitAt(vs[i], c, post, off, depth, ps[i])
    decreases c, 1
  {
    hide EncAll, Enc, Toks, PToks, KToks, Nops, PreorderKids, T.KidPlaces, KidPre, KidPost, Den;
    var o, kpost := off + |Enc(Begin(c.name, c.pad))| + Size(PToks(c.props)), Nops(c.tail) + [EndNode] + post;
    var ws, qs := PreorderKids(c.kids, kpost, o, depth + 1), T.KidPlaces(DenKids(c.kids, tab), 0);
    DenDef(c, tab);
    PreorderKidsPlaces(c.kids, kpost, o, depth + 1, 0, tab);
    var vs, ps := Preorder(c, post, off, depth), T.Places(Den(c, tab));
    SizeNil();
    assert [] + post == post;
    assert VisitAt(vs[0], c, post, off, depth, []);
    forall i | 0 < i < |vs|
      ensures VisitAt(vs[i], c, post, off, depth, ps[i])
    {
      assert vs[i] == ws[i - 1] && ps[i] == qs[i - 1];
      BelowIsAt(ws[i - 1], c, post, off, depth, qs[i - 1]);
    }
  }

  lemma BelowIsAt(v: Visit, c: Cst, post: seq<Token>, off: nat, depth: int, p: Path)
    requires VisitBelow(v, c.kids, Nops(c.tail) + [EndNode] + post,
                        off + |Enc(Begin(c.name, c.pad))| + Size(PToks(c.props)), depth + 1, 0, p)
    ensures VisitAt(v, c, post, off, depth, p)
  {
    hide EncAll, Enc, Toks, PToks, KToks, Nops, KidPre, KidAt, PreAt, PostAt, NodeAt;
    var j, q := p[0], p[1..];
    KidOffset([], c, j);
    SizeNil();
    EncAllConcat(KidPre(c, j), PreAt(c.kids[j], q));
    KidAtShift(c.kids, off, |Enc(Begin(c.name, c.pad))| + Size(PToks(c.props)), j);
    assert [] + KidPre(c, j) == KidPre(c, j);
    PathCons(c, p);
    assert KToks(c.kids[j + 1..]) + (Nops(c.tail) + [EndNode] + post) == KidPost(c, j) + post;
    assert PostAt(c.kids[j], q) + (KidPost(c, j) + post) == (PostAt(c.kids[j], q) + KidPost(c, j)) + post;
  }

  lemma KidAtShift(ks: seq<Cst>, off: nat, o: nat, j: nat)
    requires j < |ks|
    ensures KidAt(ks, off + o, j) == off + KidAt(ks, o, j)
  {
  }

  lemma PathCons(c: Cst, p: Path)
    requires p != [] && p[0] < |c.kids| && HasPath(c.kids[p[0]], p[1..])
    ensures HasPath(c, p) && NodeAt(c, p) == NodeAt(c.kids[p[0]], p[1..])
    ensures PreAt(c, p) == KidPre(c, p[0]) + PreAt(c.kids[p[0]], p[1..])
    ensures PostAt(c, p) == PostAt(c.kids[p[0]], p[1..]) + KidPost(c, p[0])
  {
  }

  lemma {:induction false} PreorderKidsPlaces(ks: seq<Cst>, post: seq<Token>, off: nat, depth: int, base: nat, tab: seq<byte>)
    ensures var vs, ps := PreorderKids(ks, post, off, depth), T.KidPlaces(DenKids(ks, tab), base);
      |vs| == |ps| && forall i :: 0 <= i < |vs| ==> VisitBelow(vs[i], ks, post, off, depth, base, ps[i])
    decreases ks
  {
    hide EncAll, Enc, Toks, PToks, KToks, Nops, Preorder, T.Places, VisitAt, VisitBelow;
    if ks != [] {
      var t, r := DenKids(ks, tab), KToks(ks[1..]) + post;
      var o2 := off + 4 * ks[0].lead + Size(Toks(ks[0]));
      DenKidsTail(ks, tab);
      PreorderPlaces(ks[0], r, off + 4 * ks[0].lead, depth, tab);
      PreorderKidsPlaces(ks[1..], post, o2, depth, base + 1, tab);
      var va, vb := Preorder(ks[0], r, off + 4 * ks[0].lead, depth), PreorderKids(ks[1..], post, o2, depth);
      var pa, pb := T.Prefixed(base, T.Places(t[0])), T.KidPlaces(t[1..], base + 1);
      var vs, ps := va + vb, pa + pb;
      assert vs == PreorderKids(ks, post, off, depth) && ps == T.KidPlaces(t, base);
      forall i | 0 <= i < |vs|
        ensures VisitBelow(vs[i], ks, post, off, depth, base, ps[i])
      {
        if i < |va| {
          BelowFirst(va[i], ks, post, off, depth, base, T.Places(t[0])[i]);
        } else {
          BelowLater(vb[i - |va|], ks, post, off, depth, base, pb[i - |va|]);
        }
      }
    }
  }

  lemma BelowFirst(v: Visit, ks: seq<Cst>, post: seq<Token>, off: nat, depth: int, base: nat, q: Path)
    requires ks != [] && VisitAt(v, ks[0], KToks(ks[1..]) + post, off + 4 * ks[0].lead, depth, q)
    ensures VisitBelow(v, ks, post, off, depth, base, [base] + q)
  {
    hide VisitAt, KidAt, KToks, Toks, EncAll;
    KidAtFirst(ks, off);
    assert ([base] + q)[1..] == q;
  }

  lemma BelowLater(v: Visit, ks: seq<Cst>, post: seq<Token>, off: nat, depth: int, base: nat, p: Path)
    requires ks != []
    requires VisitBelow(v, ks[1..], post, off + 4 * ks[0].lead + Size(Toks(ks[0])), depth, base + 1, p)
    ensures VisitBelow(v, ks, post, off, depth, base, p)
  {
    hide VisitAt, KidAt, KToks, Toks, EncAll;
    var j := p[0] - base;
    KidAtTail(ks, off, j);
    assert ks[1..][j - 1] == ks[j] && ks[1..][j..] == ks[j + 1..];
  }

  lemma DenKidsTail(ks: seq<Cst>, tab: seq<byte>)
    requires ks != []
    ensures DenKids(ks, tab)[0] == Den(ks[0], tab) && DenKids(ks, tab)[1..] == DenKids(ks[1..], tab)
  {
  }
}
