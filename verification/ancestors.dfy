/** libfdt/fdt_ro.c: fdt_get_path, fdt_supernode_atdepth_offset, fdt_node_depth, fdt_parent_offset. They
    walk all nodes in front of the one in question and keep what they have seen of its ancestors. */
module Ancestors {
  import opened Bytes
  import opened StructBlock
  import opened Results
  import opened Concrete
  import opened Walking
  import opened FdtBase
  import opened Focus
  import opened FdtRo
  import opened NodeEdit
  import opened Paths
  import opened Traversal
  import opened Naming
  import opened Lookup
  import T = Tree

  // ---- the order of the places ---------------------------------------------------------------------

  /** `r` comes right after `q` in a walk: it is a child of `q` or of a node above `q`. */
  predicate Follows(q: Path, r: Path) {
    r != [] && |r| - 1 <= |q| && r[..|r| - 1] == q[..|r| - 1]
  }

  predicate Chain(ps: seq<Path>) {
    forall i :: 0 <= i < |ps| - 1 ==> Follows(ps[i], ps[i + 1])
  }

  lemma ChainPrefixed(k: nat, ps: seq<Path>)
    requires Chain(ps)
    ensures Chain(T.Prefixed(k, ps))
  {
    var r := T.Prefixed(k, ps);
    forall i | 0 <= i < |r| - 1
      ensures Follows(r[i], r[i + 1])
    {
      assert Follows(ps[i], ps[i + 1]);
      var n := |ps[i + 1]|;
      assert r[i + 1][..n] == [k] + ps[i + 1][..n - 1];
      assert r[i][..n] == [k] + ps[i][..n - 1];
    }
  }

  lemma {:induction false} PlacesChain(t: T.Tree)
    ensures Chain(T.Places(t))
    decreases t, 0
  {
    KidPlacesChain(t.kids, 0);
  }

  lemma {:induction false} KidPlacesChain(ks: seq<T.Tree>, k: nat)
    ensures Chain(T.KidPlaces(ks, k))
    ensures ks != [] ==> T.KidPlaces(ks, k) != [] && T.KidPlaces(ks, k)[0] == [k]
    ensures ks == [] ==> T.KidPlaces(ks, k) == []
    decreases ks, 1
  {
    if ks != [] {
      PlacesChain(ks[0]);
      KidPlacesChain(ks[1..], k + 1);
      hide T.Places, Follows;
      var a, b := T.Prefixed(k, T.Places(ks[0])), T.KidPlaces(ks[1..], k + 1);
      ChainPrefixed(k, T.Places(ks[0]));
      if b != [] {
        TopFollows(a[|a| - 1], b[0]);
      }
    }
  }

  lemma TopFollows(q: Path, r: Path)
    requires |r| == 1
    ensures Follows(q, r)
  {
  }

  // ---- the order of the offsets ------------------------------------------------------------------------

  predicate Rising(vs: seq<Visit>) {
    forall i, j :: 0 <= i < j < |vs| ==> vs[i].off < vs[j].off
  }

  predicate Inside(vs: seq<Visit>, a: nat, b: nat) {
    forall i :: 0 <= i < |vs| ==> a <= vs[i].off < b
  }

  lemma RisingConcat(a: seq<Visit>, b: seq<Visit>, x: nat, y: nat, z: nat)
    requires Rising(a) && Rising(b) && Inside(a, x, y) && Inside(b, y, z) && x <= y <= z
    ensures Rising(a + b) && Inside(a + b, x, z)
  {
  }

  lemma {:induction false} PreorderRises(c: Cst, post: seq<Token>, off: nat, depth: int)
    ensures var vs := Preorder(c, post, off, depth); Rising(vs) && Inside(vs, off, off + Size(Toks(c)))
    decreases c, 1
  {
    hide Toks, Enc, EncAll, PToks, KToks, PreorderKids, Preorder, Size;
    var b, p := |Enc(Begin(c.name, c.pad))|, Size(PToks(c.props));
    PreorderDef(c, post, off, depth);
    PreorderKidsRise(c.kids, Nops(c.tail) + [EndNode] + post, off + b + p, depth + 1);
    SizeToks(c);
    var v := Visit(off, depth, Toks(c) + post);
    var ws := PreorderKids(c.kids, Nops(c.tail) + [EndNode] + post, off + b + p, depth + 1);
    RisingConcat([v], ws, off, off + b + p, off + Size(Toks(c)));
  }

  lemma {:induction false} PreorderKidsRise(ks: seq<Cst>, post: seq<Token>, off: nat, depth: int)
    ensures var vs := PreorderKids(ks, post, off, depth); Rising(vs) && Inside(vs, off, off + Size(KToks(ks)))
    decreases ks, 0
  {
    hide Toks, KToks, Enc, EncAll, Preorder, PreorderKids, Size, Rising, Inside;
    KidsDef(ks, post, off, depth);
    if ks == [] {
      NoVisits(off, off + Size(KToks(ks)));
    } else {
      var o, n := off + 4 * ks[0].lead, Size(Toks(ks[0]));
      PreorderRises(ks[0], KToks(ks[1..]) + post, o, depth);
      PreorderKidsRise(ks[1..], post, o + n, depth);
      var a, b := Preorder(ks[0], KToks(ks[1..]) + post, o, depth), PreorderKids(ks[1..], post, o + n, depth);
      RisingConcat(a, b, o, o + n, off + Size(KToks(ks)));
      InsideFrom(a + b, off, o, off + Size(KToks(ks)));
    }
  }

  lemma KidsDef(ks: seq<Cst>, post: seq<Token>, off: nat, depth: int)
    ensures PreorderKids(ks, post, off, depth) == if ks == [] then [] else
      Preorder(ks[0], KToks(ks[1..]) + post, off + 4 * ks[0].lead, depth) +
      PreorderKids(ks[1..], post, off + 4 * ks[0].lead + Size(Toks(ks[0])), depth)
    ensures ks != [] ==> Size(KToks(ks)) == 4 * ks[0].lead + Size(Toks(ks[0])) + Size(KToks(ks[1..]))
  {
    hide Toks, Enc, EncAll, Preorder;
    if ks != [] {
      NopsSize(ks[0].lead);
      EncAll3(Nops(ks[0].lead), Toks(ks[0]), KToks(ks[1..]));
    }
  }

  lemma NoVisits(a: nat, b: nat)
    ensures Rising([]) && Inside([], a, b)
  {
  }

  lemma InsideFrom(vs: seq<Visit>, a: nat, a2: nat, b: nat)
    requires Inside(vs, a2, b) && a <= a2
    ensures Inside(vs, a, b)
  {
  }

  /** The places of a blob's nodes, in the order in which fdt_next_node reaches them. */
  ghost predicate InOrder(c: Cst, ps: seq<Path>) {
    && (forall j :: 0 <= j < |ps| ==> HasPath(c, ps[j]))
    && Chain(ps) && ps != [] && ps[0] == []
    && (forall i, j :: 0 <= i < j < |ps| ==> NodeOff(c, ps[i]) < NodeOff(c, ps[j]))
    && (forall j :: 0 <= j < |ps| ==> NodeOff(c, ps[j]) < Size(Toks(c)))
  }

  lemma PlacesInOrder(c: Cst, tab: seq<byte>)
    ensures InOrder(c, T.Places(Den(c, tab)))
  {
    hide Preorder, Den, T.Places, EncAll, Toks, PreAt, Chain, HasPath;
    var t := Den(c, tab);
    PlacesChain(t);
    PlacesHere(c, tab);
    PreorderRises(c, [End], 0, 0);
    var vs, ps := AllVisits(c), T.Places(t);
    forall j | 0 <= j < |ps|
      ensures NodeOff(c, ps[j]) == vs[j].off && NodeOff(c, ps[j]) < Size(Toks(c))
    {
      assert VisitAt(vs[j], c, [End], 0, 0, ps[j]);
    }
  }

  /** The root comes first and stands at offset 0. */
  lemma RootFirst(c: Cst)
    ensures HasPath(c, []) && NodeOff(c, []) == 0
  {
    SizeNil();
  }

  // ---- fdt_supernode_atdepth_offset, fdt_parent_offset -------------------------------------------------------

  /** The node at an offset, or nothing when no node starts there. */
  ghost predicate PlaceOfOffset(c: Cst, offset: int, place: Result<Path>) {
    match place
    case Ok(p) => HasPath(c, p) && offset == NodeOff(c, p)
    case Err(_) => forall p :: HasPath(c, p) ==> NodeOff(c, p) != offset
  }

  /** At an offset inside the root node: the ancestor at that depth, or the error. */
  ghost predicate AncestorAnswer(c: Cst, place: Result<Path>, depth: int, r: int) {
    if depth < 0 then r == ERR_NOTFOUND else
    match place
    case Err(_) => r == ERR_BADOFFSET
    case Ok(p) => if depth > |p| then r == ERR_NOTFOUND else HasPath(c, p[..depth]) && r == NodeOff(c, p[..depth])
  }

  lemma {:induction false} HasPathPrefix(c: Cst, p: Path, n: nat)
    requires HasPath(c, p) && n <= |p|
    ensures HasPath(c, p[..n])
    decreases |p|
  {
    if n > 0 {
      HasPathPrefix(c.kids[p[0]], p[1..], n - 1);
      assert p[..n][1..] == p[1..][..n - 1];
    }
  }

  /** Which visit a place is. */
  lemma PlaceIndex(c: Cst, tab: seq<byte>, p: Path) returns (k: nat)
    requires HasPath(c, p)
    ensures k < |T.Places(Den(c, tab))| && T.Places(Den(c, tab))[k] == p
  {
    hide T.Places, Den, HasPath;
    HasPathDen(c, p, tab);
    k := PlacesComplete(Den(c, tab), p);
  }

  /** The visit at an offset is the node there. */
  lemma SamePlace(c: Cst, tab: seq<byte>, offset: int, place: Result<Path>, i: nat)
    requires PlaceOfOffset(c, offset, place) && i < |T.Places(Den(c, tab))|
    requires HasPath(c, T.Places(Den(c, tab))[i]) && offset == NodeOff(c, T.Places(Den(c, tab))[i])
    ensures place == Ok(T.Places(Den(c, tab))[i])
  {
    hide T.Places, Den, PreAt, HasPath, Size, Chain;
    var ps := T.Places(Den(c, tab));
    if place.Ok? {
      var k := PlaceIndex(c, tab, place.value);
      PlacesInOrder(c, tab);
    }
  }

  /** No node starts where the walk has passed by. */
  lemma PassedBy(c: Cst, tab: seq<byte>, offset: int, place: Result<Path>, i: nat)
    requires PlaceOfOffset(c, offset, place) && i <= |T.Places(Den(c, tab))|
    requires InOrder(c, T.Places(Den(c, tab)))
    requires forall j :: 0 <= j < i ==> NodeOff(c, T.Places(Den(c, tab))[j]) < offset
    requires i < |T.Places(Den(c, tab))| ==> offset < NodeOff(c, T.Places(Den(c, tab))[i])
    ensures place.Err?
  {
    hide T.Places, Den, PreAt, HasPath, Size, Chain;
    if place.Ok? {
      var k := PlaceIndex(c, tab, place.value);
    }
  }

  /** What has been seen of the ancestors of the node visited last. */
  lemma AncestorStep(c: Cst, q: Path, r: Path, depth: nat, off: int)
    requires Follows(q, r) && HasPath(c, q) && HasPath(c, r)
    requires depth <= |q| ==> HasPath(c, q[..depth]) && off == NodeOff(c, q[..depth])
    ensures depth < |r| ==> HasPath(c, r[..depth]) && off == NodeOff(c, r[..depth])
  {
    hide HasPath, PreAt, Size;
    if depth < |r| {
      assert r[..depth] == r[..|r| - 1][..depth] == q[..|r| - 1][..depth] == q[..depth];
    }
  }

  /** fdt_supernode_atdepth_offset */
  method SupernodeAtDepth(fdt: Fdt, nodeOffset: int, supernodeDepth: int, ghost c: Cst, ghost place: Result<Path>)
    returns (r: int, nodeDepth: int)
    requires Whole(fdt, c) && nodeOffset < Size(Toks(c)) && PlaceOfOffset(c, nodeOffset, place)
    ensures if fdt.CheckHeader() != 0 then r == fdt.CheckHeader() else AncestorAnswer(c, place, supernodeDepth, r)
    ensures fdt.CheckHeader() == 0 && supernodeDepth >= 0 && place.Ok? ==> nodeDepth == |place.value|
  {
    hide Whole, TreeOf, HasPath, NodeOff, T.Places, Den, Toks, Fdt.Layout, Size, Chain, PlaceOfOffset, Fdt.Strs;
    nodeDepth := 0;
    if fdt.CheckHeader() != 0 {
      return fdt.CheckHeader(), nodeDepth;
    }
    if supernodeDepth < 0 {
      return ERR_NOTFOUND, nodeDepth;
    }
    PlacesIn(fdt, c);
    ghost var tab := fdt.Strs();
    ghost var ps, i := T.Places(TreeOf(fdt, c)), 0;
    PlacesAre(fdt, c);
    PlacesInOrder(c, tab);
    RootFirst(c);
    var supernodeOffset := ERR_INTERNAL;
    var offset, depth := 0, 0;
    while 0 <= offset <= nodeOffset
      invariant i <= |ps| && offset == (if i < |ps| then PlaceOff(c, ps, i) else Size(Toks(c)))
      invariant i < |ps| ==> depth == |ps[i]| && HasPath(c, ps[i])
      invariant forall j :: 0 <= j < i ==> NodeOff(c, ps[j]) < nodeOffset
      invariant i < |ps| && supernodeDepth < |ps[i]| ==>
                  HasPath(c, ps[i][..supernodeDepth]) && supernodeOffset == NodeOff(c, ps[i][..supernodeDepth])
      decreases |ps| - i
    {
      if depth == supernodeDepth {
        supernodeOffset := offset;
        assert ps[i][..supernodeDepth] == ps[i];
      }
      if offset == nodeOffset {
        SamePlace(c, tab, nodeOffset, place, i);
        nodeDepth := depth;
        if supernodeDepth > depth {
          return ERR_NOTFOUND, nodeDepth;
        }
        return supernodeOffset, nodeDepth;
      }
      offset, depth := NextNodeAt(fdt, offset, depth, true, c, ps, i);
      if i + 1 < |ps| {
        FollowsHere(ps, i);
        AncestorStep(c, ps[i], ps[i + 1], supernodeDepth, supernodeOffset);
      }
      i := i + 1;
    }
    NotNegative(c, ps, i);
    PassedBy(c, tab, nodeOffset, place, i);
    r := ERR_BADOFFSET;
  }

  lemma PlacesAre(fdt: Fdt, c: Cst)
    requires Whole(fdt, c)
    ensures fdt.Layout() && TreeOf(fdt, c) == Den(c, fdt.Strs())
  {
    hide Den;
  }

  lemma FollowsHere(ps: seq<Path>, i: nat)
    requires Chain(ps) && i + 1 < |ps|
    ensures Follows(ps[i], ps[i + 1])
  {
  }

  lemma NotNegative(c: Cst, ps: seq<Path>, i: nat)
    requires i < |ps| ==> HasPath(c, ps[i])
    ensures i < |ps| ==> NodeOff(c, ps[i]) >= 0
  {
  }

  /** fdt_node_depth */
  method NodeDepth(fdt: Fdt, nodeOffset: int, ghost c: Cst, ghost place: Result<Path>) returns (r: int)
    requires Whole(fdt, c) && nodeOffset < Size(Toks(c)) && PlaceOfOffset(c, nodeOffset, place)
    ensures r == if fdt.CheckHeader() != 0 then fdt.CheckHeader() else if place.Err? then ERR_BADOFFSET else |place.value|
  {
    hide Whole, HasPath, PreAt, Size, Toks, PlaceOfOffset;
    var err, nodeDepth := SupernodeAtDepth(fdt, nodeOffset, 0, c, place);
    if place.Ok? {
      assert place.value[..0] == [];
    }
    RootFirst(c);
    HeaderErrors(fdt);
    if err != 0 {
      return if err < 0 then err else ERR_INTERNAL;
    }
    r := nodeDepth;
  }

  lemma HeaderErrors(fdt: Fdt)
    ensures fdt.CheckHeader() <= 0
  {
  }

  /** fdt_parent_offset: the node one step up; the root has none. */
  method ParentOffset(fdt: Fdt, nodeOffset: int, ghost c: Cst, ghost place: Result<Path>) returns (r: int)
    requires Whole(fdt, c) && nodeOffset < Size(Toks(c)) && PlaceOfOffset(c, nodeOffset, place)
    ensures if fdt.CheckHeader() != 0 then r == fdt.CheckHeader()
            else if place.Err? then r == ERR_BADOFFSET
            else if place.value == [] then r == ERR_NOTFOUND
            else HasPath(c, place.value[..|place.value| - 1]) && r == NodeOff(c, place.value[..|place.value| - 1])
  {
    hide Whole, HasPath, PreAt, Size, Toks, PlaceOfOffset;
    HeaderErrors(fdt);
    var nodeDepth := NodeDepth(fdt, nodeOffset, c, place);
    if nodeDepth < 0 {
      return nodeDepth;
    }
    var d;
    r, d := SupernodeAtDepth(fdt, nodeOffset, nodeDepth - 1, c, place);
  }

  // ---- fdt_get_path --------------------------------------------------------------------------------------------

  /** The names of the first `d` nodes on the way to `q`, the root being the first, each with a slash behind it. */
  function Text(t: T.Tree, q: Path, d: nat): seq<byte>
    requires T.HasPath(t, q) && d <= |q| + 1
    decreases d
  {
    if d == 0 then [] else
    t.name + [SLASH] + if d == 1 then [] else Text(t.kids[q[0]], q[1..], d - 1)
  }

  lemma {:induction false} TextSnoc(t: T.Tree, q: Path, d: nat)
    requires T.HasPath(t, q) && d <= |q|
    ensures T.HasPath(t, q[..d]) && Text(t, q, d + 1) == Text(t, q, d) + T.At(t, q[..d]).name + [SLASH]
    decreases d
  {
    hide T.HasPath, T.At, Text;
    TextStep(t, q, d);
    if d > 0 {
      TextStep(t, q, d - 1);
      var k := t.kids[q[0]];
      TextSnoc(k, q[1..], d - 1);
      WayDown(t, q, d);
      Regroup(t.name + [SLASH], Text(k, q[1..], d - 1), T.At(t, q[..d]).name, [SLASH]);
    }
  }

  lemma Regroup(a: seq<byte>, b: seq<byte>, c: seq<byte>, d: seq<byte>)
    ensures a + (b + c + d) == a + b + c + d
  {
  }

  /** The first name, and the others below it. */
  lemma TextStep(t: T.Tree, q: Path, d: nat)
    requires T.HasPath(t, q) && d <= |q|
    ensures d == 0 ==> T.HasPath(t, q[..0]) && Text(t, q, 0) == [] && Text(t, q, 1) == T.At(t, q[..0]).name + [SLASH]
    ensures q != [] ==> q[0] < |t.kids| && T.HasPath(t.kids[q[0]], q[1..])
    ensures q != [] ==> Text(t, q, d + 1) == t.name + [SLASH] + Text(t.kids[q[0]], q[1..], d)
  {
    if q != [] && d == 0 {
      assert t.name + [SLASH] + [] == t.name + [SLASH];
    }
  }

  lemma WayDown(t: T.Tree, q: Path, d: nat)
    requires T.HasPath(t, q) && 0 < d <= |q| && q[0] < |t.kids| && T.HasPath(t.kids[q[0]], q[1..][..d - 1])
    ensures T.HasPath(t, q[..d]) && T.At(t, q[..d]) == T.At(t.kids[q[0]], q[1..][..d - 1])
  {
    assert q[..d][1..] == q[1..][..d - 1] && q[..d][0] == q[0];
  }

  /** Two ways that start alike have the same names at their start. */
  lemma {:induction false} TextShared(t: T.Tree, q: Path, r: Path, d: nat)
    requires T.HasPath(t, q) && T.HasPath(t, r) && 1 <= d <= |q| + 1 && d <= |r| + 1 && q[..d - 1] == r[..d - 1]
    ensures Text(t, q, d) == Text(t, r, d)
    decreases d
  {
    if d > 1 {
      assert q[0] == q[..d - 1][0] == r[..d - 1][0] == r[0];
      assert q[1..][..d - 2] == q[..d - 1][1..] == r[..d - 1][1..] == r[1..][..d - 2];
      TextShared(t.kids[q[0]], q[1..], r[1..], d - 1);
    }
  }

  /** No name below the root holds a slash. */
  ghost predicate SlashFree(t: T.Tree) {
    forall p :: T.HasPath(t, p) && p != [] ==> SLASH !in T.At(t, p).name
  }

  /** The buffer holds the start of the text; what is left out does not fit. */
  ghost predicate Holding(t: T.Tree, q: Path, d: nat, bytes: seq<byte>, p: nat, bufLen: nat)
    requires T.HasPath(t, q)
  {
    && d <= |q| + 1 && p <= |bytes| && p <= bufLen && bytes[..p] == Text(t, q, d)
    && (d <= |q| ==> |Text(t, q, d + 1)| > bufLen)
  }

  /** The loops that take the last name back off: `x` ends in a slash, as does everything it is followed by. */
  method PopName(buf: array<byte>, p: nat, ghost x: seq<byte>, ghost name: seq<byte>) returns (r: nat)
    requires p <= buf.Length && buf[..p] == x + name + [SLASH] && x != [] && x[|x| - 1] == SLASH && SLASH !in name
    ensures r == |x|
  {
    r := p - 1;
    assert r == |x| + |name|;
    assert buf[|x| - 1] == buf[..p][|x| - 1] == SLASH;
    forall k | |x| <= k < r
      ensures buf[k] != SLASH
    {
      assert buf[k] == buf[..p][k] == name[k - |x|];
    }
    while buf[r - 1] != SLASH
      invariant |x| <= r <= |x| + |name|
      decreases r
    {
      r := r - 1;
    }
  }

  /** The names that do not belong to the node at `depth` taken off. */
  method PopTo(buf: array<byte>, p0: nat, d0: nat, depth: nat, bufLen: nat, ghost t: T.Tree, ghost q: Path) returns (p: nat, d: nat)
    requires SlashFree(t) && T.HasPath(t, q) && 1 <= depth && Holding(t, q, d0, buf[..], p0, bufLen)
    ensures d == (if d0 > depth then depth else d0) && p <= p0 && p <= buf.Length
    ensures buf[..p] == Text(t, q, d)
  {
    hide T.HasPath, T.At, Text, SlashFree;
    p, d := p0, d0;
    assert buf[..][..p] == buf[..p];
    while d > depth
      invariant d <= d0 && p <= p0 && (d0 > depth ==> d >= depth) && (d0 <= depth ==> d == d0)
      invariant buf[..p] == Text(t, q, d)
    {
      ghost var x, name := LastName(t, q, d);
      p := PopName(buf, p, x, name);
      assert buf[..p] == (x + name + [SLASH])[..p] == x;
      d := d - 1;
    }
  }

  lemma LastName(t: T.Tree, q: Path, d: nat) returns (x: seq<byte>, name: seq<byte>)
    requires SlashFree(t) && T.HasPath(t, q) && 2 <= d <= |q| + 1
    ensures x == Text(t, q, d - 1) && x != [] && x[|x| - 1] == SLASH && SLASH !in name
    ensures Text(t, q, d) == x + name + [SLASH]
  {
    hide T.At, Text;
    TextSnoc(t, q, d - 1);
    TextEnds(t, q, d - 1);
    x, name := Text(t, q, d - 1), T.At(t, q[..d - 1]).name;
  }

  lemma {:induction false} TextEnds(t: T.Tree, q: Path, d: nat)
    requires T.HasPath(t, q) && 1 <= d <= |q| + 1
    ensures Text(t, q, d) != [] && Text(t, q, d)[|Text(t, q, d)| - 1] == SLASH
  {
    TextSnoc(t, q, d - 1);
  }

  /** Before the name of `r` is added: the names of its ancestors are in the buffer, as far as they fit. */
  ghost predicate Awaiting(t: T.Tree, r: Path, d: nat, bytes: seq<byte>, p: nat, bufLen: nat)
    requires T.HasPath(t, r)
  {
    && d <= |r| && p <= |bytes| && p <= bufLen && bytes[..p] == Text(t, r, d)
    && (d < |r| ==> |Text(t, r, d + 1)| > bufLen)
  }

  /** From one node of the walk to the next. */
  lemma PoppedAwaits(t: T.Tree, q: Path, r: Path, d0: nat, d: nat, old0: seq<byte>, p0: nat, bytes: seq<byte>, p: nat, bufLen: nat)
    requires T.HasPath(t, q) && T.HasPath(t, r) && Follows(q, r) && Holding(t, q, d0, old0, p0, bufLen)
    requires d == (if d0 > |r| then |r| else d0) && p <= p0 && p <= |bytes| && bytes[..p] == Text(t, q, d)
    ensures Awaiting(t, r, d, bytes, p, bufLen)
  {
    hide T.HasPath, Text;
    assert forall n {:trigger q[..n]} :: n <= |r| - 1 ==> 0 <= n ==> q[..n] == q[..|r| - 1][..n] == r[..|r| - 1][..n] == r[..n];
    if d > 0 {
      TextShared(t, q, r, d);
    } else {
      NoText(t, q);
      NoText(t, r);
    }
    if d < |r| {
      TextShared(t, q, r, d + 1);
    }
  }

  lemma NoText(t: T.Tree, q: Path)
    requires T.HasPath(t, q)
    ensures Text(t, q, 0) == []
  {
  }

  /** What fdt_get_path answers for the node at `q`: the path and its terminator when they fit. */
  ghost predicate PathAnswer(t: T.Tree, q: Path, bytes: seq<byte>, bufLen: nat, err: int)
    requires T.HasPath(t, q)
  {
    var text := Text(t, q, |q| + 1);
    if |text| > bufLen then err == ERR_NOSPACE
    else err == 0 && Terminated(bytes, if |text| > 1 then text[..|text| - 1] else text)
  }

  predicate Terminated(bytes: seq<byte>, s: seq<byte>) {
    |s| < |bytes| && bytes[..|s|] == s && bytes[|s|] == 0
  }

  /** The name of the node added, when all names before it are there and it fits. */
  method PushName(buf: array<byte>, p0: nat, d0: nat, depth: nat, name: Name, bufLen: nat, ghost t: T.Tree, ghost r: Path) returns (p: nat, d: nat)
    requires T.HasPath(t, r) && depth == |r| && name == T.At(t, r).name && bufLen <= buf.Length
    requires Awaiting(t, r, d0, buf[..], p0, bufLen)
    modifies buf
    ensures Holding(t, r, d, buf[..], p, bufLen) && buf[bufLen..] == old(buf[bufLen..])
  {
    hide T.HasPath, T.At, Text;
    p, d := p0, d0;
    TextSnoc(t, r, |r|);
    assert r[..|r|] == r;
    if d >= depth && p + |name| + 1 <= bufLen {
      ghost var was := buf[..p];
      forall i | 0 <= i < |name| {
        buf[p + i] := name[i];
      }
      p := p + |name|;
      buf[p] := SLASH;
      p := p + 1;
      d := d + 1;
      assert buf[..p] == was + name + [SLASH];
      assert buf[..][..p] == buf[..p];
    }
  }

  /** The answer when the walk has reached the node. */
  method EndPath(buf: array<byte>, p: nat, d: nat, depth: nat, bufLen: nat, ghost t: T.Tree, ghost q: Path) returns (err: int)
    requires T.HasPath(t, q) && depth == |q| && 2 <= bufLen <= buf.Length && Holding(t, q, d, buf[..], p, bufLen)
    modifies buf
    ensures PathAnswer(t, q, buf[..], bufLen, err) && buf[bufLen..] == old(buf[bufLen..])
  {
    hide T.HasPath, T.At, Text, Holding, PathAnswer, Terminated;
    HeldText(t, q, d, buf[..], p, bufLen);
    if d < depth + 1 {
      PathLeftOut(t, q, d, buf[..], p, bufLen);
      return ERR_NOSPACE;
    }
    TextEnds(t, q, |q| + 1);
    var e := if p > 1 then p - 1 else p;
    ghost var b := buf[..];
    buf[e] := 0;
    assert buf[..] == b[e := 0];
    PathStands(t, q, b, p, bufLen);
    err := 0;
  }

  lemma PathLeftOut(t: T.Tree, q: Path, d: nat, bytes: seq<byte>, p: nat, bufLen: nat)
    requires T.HasPath(t, q) && Holding(t, q, d, bytes, p, bufLen) && d <= |q|
    ensures PathAnswer(t, q, bytes, bufLen, ERR_NOSPACE)
  {
    hide Text, T.HasPath;
    TextGrows(t, q, d + 1);
  }

  lemma PathStands(t: T.Tree, q: Path, b: seq<byte>, p: nat, bufLen: nat)
    requires T.HasPath(t, q) && 0 < p <= bufLen && 2 <= bufLen <= |b| && b[..p] == Text(t, q, |q| + 1)
    ensures PathAnswer(t, q, b[(if p > 1 then p - 1 else p) := 0], bufLen, 0)
  {
    hide Text, T.HasPath;
    var e := if p > 1 then p - 1 else p;
    var text := Text(t, q, |q| + 1);
    assert b[e := 0][..e] == b[..p][..e];
    assert b[..p][..e] == if |text| > 1 then text[..|text| - 1] else text;
  }

  lemma {:induction false} TextGrows(t: T.Tree, q: Path, d: nat)
    requires T.HasPath(t, q) && d <= |q| + 1
    ensures |Text(t, q, d)| <= |Text(t, q, |q| + 1)|
    decreases |q| + 1 - d
  {
    if d <= |q| {
      TextSnoc(t, q, d);
      TextGrows(t, q, d + 1);
    }
  }

  lemma RootAwaits(t: T.Tree, bytes: seq<byte>, bufLen: nat)
    ensures T.HasPath(t, []) && Awaiting(t, [], 0, bytes, 0, bufLen)
  {
  }

  lemma HeldText(t: T.Tree, q: Path, d: nat, bytes: seq<byte>, p: nat, bufLen: nat)
    requires T.HasPath(t, q) && Holding(t, q, d, bytes, p, bufLen)
    ensures p <= bufLen && p <= |bytes| && d <= |q| + 1 && bytes[..p] == Text(t, q, d)
  {
  }

  /** fdt_get_path, for a path as long as can be, at any offset inside the root node. */
  method GetPath(fdt: Fdt, nodeOffset: int, buf: array<byte>, bufLen: int, ghost c: Cst, ghost place: Result<Path>) returns (err: int)
    requires Whole(fdt, c) && nodeOffset < Size(Toks(c)) && PlaceOfOffset(c, nodeOffset, place)
    requires buf != fdt.buf && bufLen <= buf.Length && SlashFree(Den(c, fdt.Strs()))
    modifies buf
    ensures Whole(fdt, c) && if bufLen < 0 then unchanged(buf) else buf[bufLen..] == old(buf[bufLen..])
    ensures fdt.CheckHeader() != 0 ==> err == fdt.CheckHeader()
    ensures fdt.CheckHeader() == 0 && bufLen < 2 ==> err == ERR_NOSPACE
    ensures fdt.CheckHeader() == 0 && bufLen >= 2 && place.Err? ==> err == ERR_BADOFFSET
    ensures fdt.CheckHeader() == 0 && bufLen >= 2 && place.Ok? ==>
              T.HasPath(TreeOf(fdt, c), place.value) && PathAnswer(TreeOf(fdt, c), place.value, buf[..], bufLen, err)
  {
    hide Whole, HasPath, NodeOff, T.Places, T.HasPath, T.At, Den, Toks, Fdt.Layout, Size, Chain, PlaceOfOffset, Fdt.Strs,
         SlashFree, Holding, Awaiting, PathAnswer, Text;
    if fdt.CheckHeader() != 0 {
      return fdt.CheckHeader();
    }
    if bufLen < 2 {
      return ERR_NOSPACE;
    }
    PlacesIn(fdt, c);
    PlacesAre(fdt, c);
    ghost var t, tab := TreeOf(fdt, c), fdt.Strs();
    ghost var ps, i := T.Places(t), 0;
    PlacesInOrder(c, tab);
    PlacesValid(t);
    RootFirst(c);
    RootAwaits(t, buf[..], bufLen);
    var pdepth: nat, p: nat := 0, 0;
    var offset, depth := 0, 0;
    while 0 <= offset <= nodeOffset
      invariant i <= |ps| && offset == (if i < |ps| then PlaceOff(c, ps, i) else Size(Toks(c)))
      invariant i < |ps| ==> depth == |ps[i]| && HasPath(c, ps[i])
      invariant forall j :: 0 <= j < i ==> NodeOff(c, ps[j]) < nodeOffset
      invariant buf[bufLen..] == old(buf[bufLen..]) && Whole(fdt, c) && t == TreeOf(fdt, c)
      invariant i == 0 ==> p == 0 && pdepth == 0
      invariant 0 < i <= |ps| ==> Holding(t, ps[i - 1], pdepth, buf[..], p, bufLen)
      decreases |ps| - i
    {
      ghost var p0, d0 := p, pdepth;
      if pdepth > depth {
        p, pdepth := PopTo(buf, p, pdepth, depth, bufLen, t, ps[i - 1]);
        assert buf[..][..p] == buf[..p];
      }
      if i > 0 {
        FollowsHere(ps, i - 1);
        HeldText(t, ps[i - 1], d0, buf[..], p0, bufLen);
        PoppedAwaits(t, ps[i - 1], ps[i], d0, pdepth, buf[..], p0, buf[..], p, bufLen);
      } else {
        RootAwaits(t, buf[..], bufLen);
      }
      var name := NameAt(fdt, offset, c, ps[i]);
      p, pdepth := PushName(buf, p, pdepth, depth, name, bufLen, t, ps[i]);
      WholeStill(fdt, c);
      if offset == nodeOffset {
        SamePlace(c, tab, nodeOffset, place, i);
        err := EndPath(buf, p, pdepth, depth, bufLen, t, ps[i]);
        return;
      }
      offset, depth := NextNodeAt(fdt, offset, depth, true, c, ps, i);
      i := i + 1;
    }
    NotNegative(c, ps, i);
    PassedBy(c, tab, nodeOffset, place, i);
    err := ERR_BADOFFSET;
  }

  lemma WholeStill(fdt: Fdt, c: Cst)
    requires Whole(fdt, c)
    ensures fdt.Layout()
  {
  }

  // ---- paths there and back -----------------------------------------------------------------------------------

  /** The answer as a path: the root's is a slash, another node's the names on the way, each after a slash. */
  lemma {:induction false} TextIsPath(t: T.Tree, q: Path)
    requires T.HasPath(t, q) && t.name == []
    ensures Text(t, q, |q| + 1) == FullPath(NamesTo(t, q)) + [SLASH]
  {
    TextIsNames(t, q, |q| + 1);
    assert [] + [SLASH] + (if q == [] then [] else Text(t.kids[q[0]], q[1..], |q|)) == Text(t, q, |q| + 1);
  }

  /** Names with a slash behind each, or in front of each: the same, but for the first slash and the last. */
  lemma {:induction false} TextIsNames(t: T.Tree, q: Path, d: nat)
    requires T.HasPath(t, q) && d == |q| + 1
    ensures Text(t, q, d) == t.name + FullPath(NamesTo(t, q)) + [SLASH]
    decreases d
  {
    if q == [] {
      assert t.name + [] + [SLASH] == t.name + [SLASH] + [];
    } else {
      var k := t.kids[q[0]];
      TextIsNames(k, q[1..], d - 1);
      var rest := FullPath(NamesTo(k, q[1..]));
      assert NamesTo(t, q) == [k.name] + NamesTo(k, q[1..]);
      assert FullPath(NamesTo(t, q)) == [SLASH] + k.name + rest;
      assert t.name + [SLASH] + (k.name + rest + [SLASH]) == t.name + ([SLASH] + k.name + rest) + [SLASH];
    }
  }

  lemma NamesAreNames(t: T.Tree, q: Path, i: nat)
    requires T.HasPath(t, q) && i < |q|
    ensures T.HasPath(t, q[..i + 1]) && NamesTo(t, q)[i] == T.At(t, q[..i + 1]).name
    decreases |q|
  {
    if i > 0 {
      NamesAreNames(t.kids[q[0]], q[1..], i - 1);
      assert q[..i + 1][1..] == q[1..][..i];
    } else {
      assert q[..1] == [q[0]] && [q[0]][1..] == [];
    }
  }

  /** A path that fdt_get_path has returned leads fdt_path_offset back to the node it was asked for, exactly
      when no earlier sibling on the way takes one of the names. */
  lemma GetPathRoundTrip(t: T.Tree, q: Path, bytes: seq<byte>, bufLen: nat, path: Name)
    requires T.HasPath(t, q) && t.name == [] && SlashFree(t)
    requires forall p :: T.HasPath(t, p) && p != [] ==> T.At(t, p).name != []
    requires PathAnswer(t, q, bytes, bufLen, 0) && Terminated(bytes, path)
    ensures NodeByPath(t, path) == Ok(q) <==> Reachable(t, q)
  {
    hide T.HasPath, T.At, NodeByPath, Reachable, FullPath;
    TextIsPath(t, q);
    var names := NamesTo(t, q);
    forall i | 0 <= i < |q|
      ensures names[i] != [] && SLASH !in names[i]
    {
      NamesAreNames(t, q, i);
    }
    var mine := if q == [] then [SLASH] else FullPath(names);
    FullPathLength(names);
    var text := Text(t, q, |q| + 1);
    assert mine == if |text| > 1 then text[..|text| - 1] else text;
    FullPathNoNul(names);
    OneTerminated(bytes, mine, path);
    PathRoundTrip(t, q);
  }

  lemma FullPathLength(names: seq<Name>)
    ensures if names == [] then FullPath(names) == [] else |FullPath(names)| > 0
  {
  }

  lemma FullPathNoNul(names: seq<Name>)
    ensures NoNul(FullPath(names))
  {
  }

  lemma OneTerminated(bytes: seq<byte>, a: seq<byte>, b: seq<byte>)
    requires Terminated(bytes, a) && Terminated(bytes, b) && NoNul(a) && NoNul(b)
    ensures a == b
  {
    TerminatedAt(bytes, a);
    TerminatedAt(bytes, b);
  }

  lemma TerminatedAt(bytes: seq<byte>, a: seq<byte>)
    requires Terminated(bytes, a) && NoNul(a)
    ensures NulFrom(bytes, 0) == |a|
  {
    assert forall i :: 0 <= i < |a| ==> bytes[i] == bytes[..|a|][i] == a[i];
    NulFromUnique(bytes, 0, |a|);
  }
}
