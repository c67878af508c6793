/** fdt_next_node on tokens, and the sequence of nodes that repeated calls visit. */
module Walking {
  import opened Bytes
  import opened StructBlock
  import opened Concrete

  /** A BEGIN_NODE met while walking: its offset, its depth, and the tokens from there on. */
  datatype Visit = Visit(off: nat, depth: int, rest: seq<Token>)

  datatype Step =
    | Found(v: Visit)   // the next BEGIN_NODE
    | Left(off: nat)    // the END_NODE that takes a counted depth below zero; offset after it
    | Over              // FDT_END

  /** One call of fdt_next_node, from just after the current tag. `counted` is "the caller passed
      a depth pointer". */
  function Scan(rest: seq<Token>, off: nat, depth: int, counted: bool): (r: Step)
    ensures r.Found? ==> r.v.rest != [] && r.v.rest[0].Begin? && |r.v.rest| <= |rest|
    decreases |rest|
  {
    if rest == [] then Over else
    var t, next := rest[0], off + |Enc(rest[0])|;
    match t
    case Begin(_, _) => Found(Visit(off, depth + 1, rest))
    case EndNode =>
      if counted && depth - 1 < 0 then Left(next) else Scan(rest[1..], next, depth - 1, counted)
    case End => Over
    case _ => Scan(rest[1..], next, depth, counted)
  }

  /** The nodes that repeated calls of fdt_next_node visit, and the step that ends them. */
  datatype Trail = Trail(visits: seq<Visit>, end: Step)

  function Before(vs: seq<Visit>, t: Trail): Trail {
    Trail(vs + t.visits, t.end)
  }

  function Walk(rest: seq<Token>, off: nat, depth: int, counted: bool): Trail
    decreases |rest|
  {
    var s := Scan(rest, off, depth, counted);
    match s
    case Found(v) => Before([v], Walk(v.rest[1..], v.off + |Enc(v.rest[0])|, v.depth, counted))
    case _ => Trail([], s)
  }

  lemma BeforeBefore(a: seq<Visit>, b: seq<Visit>, t: Trail)
    ensures Before(a, Before(b, t)) == Before(a + b, t)
  {
    assert a + (b + t.visits) == (a + b) + t.visits;
  }

  // ---- the walk over a concrete node -----------------------------------------------------

  /** The nodes of a subtree in preorder, with their offsets and true depths. */
  function Preorder(c: Cst, post: seq<Token>, off: nat, depth: int): seq<Visit>
    decreases c, 0
  {
    [Visit(off, depth, Toks(c) + post)] +
    PreorderKids(c.kids, Nops(c.tail) + [EndNode] + post,
                 off + |Enc(Begin(c.name, c.pad))| + Size(PToks(c.props)), depth + 1)
  }

  function PreorderKids(ks: seq<Cst>, post: seq<Token>, off: nat, depth: int): seq<Visit>
    decreases ks
  {
    if ks == [] then [] else
    Preorder(ks[0], KToks(ks[1..]) + post, off + 4 * ks[0].lead, depth) +
    PreorderKids(ks[1..], post, off + 4 * ks[0].lead + Size(Toks(ks[0])), depth)
  }

  predicate Plain(ts: seq<Token>) {
    forall i :: 0 <= i < |ts| ==> ts[i].Prop? || ts[i].Nop?
  }

  lemma NopsSize(n: nat)
    ensures Plain(Nops(n)) && Size(Nops(n)) == 4 * n
  {
    if n > 0 {
      NopsSize(n - 1);
      assert Nops(n)[1..] == Nops(n - 1);
    }
  }

  lemma PToksPlain(ps: seq<CProp>)
    ensures Plain(PToks(ps))
  {
  }

  /** fdt_next_node passes over properties and NOPs. */
  lemma {:induction false} ScanPlain(a: seq<Token>, rest: seq<Token>, off: nat, depth: int, counted: bool)
    requires Plain(a)
    ensures Scan(a + rest, off, depth, counted) == Scan(rest, off + Size(a), depth, counted)
  {
    if a == [] {
      assert a + rest == rest;
    } else {
      assert (a + rest)[1..] == a[1..] + rest;
      ScanPlain(a[1..], rest, off + |Enc(a[0])|, depth, counted);
    }
  }

  lemma WalkPlain(a: seq<Token>, rest: seq<Token>, off: nat, depth: int, counted: bool)
    requires Plain(a)
    ensures Walk(a + rest, off, depth, counted) == Walk(rest, off + Size(a), depth, counted)
  {
    ScanPlain(a, rest, off, depth, counted);
  }

  lemma ScanUp(rest: seq<Token>, off: nat, depth: int, counted: bool)
    requires depth >= 1 || !counted
    ensures Scan([EndNode] + rest, off, depth, counted) == Scan(rest, off + 4, depth - 1, counted)
  {
    BareTag(EndNode);
    hide Enc;
    var a := [EndNode] + rest;
    assert a[0] == EndNode && a[1..] == rest;
  }

  /** An END_NODE that does not leave the subtree the walk started in. */
  lemma WalkUp(rest: seq<Token>, off: nat, depth: int, counted: bool)
    requires depth >= 1 || !counted
    ensures Walk([EndNode] + rest, off, depth, counted) == Walk(rest, off + 4, depth - 1, counted)
  {
    ScanUp(rest, off, depth, counted);
    hide Scan, Enc;
  }

  lemma WalkDown(c: Cst, rest: seq<Token>, off: nat, depth: int, counted: bool)
    ensures Walk([Begin(c.name, c.pad)] + rest, off, depth, counted) ==
            Before([Visit(off, depth + 1, [Begin(c.name, c.pad)] + rest)],
                   Walk(rest, off + |Enc(Begin(c.name, c.pad))|, depth + 1, counted))
  {
    var a := [Begin(c.name, c.pad)] + rest;
    assert a[0] == Begin(c.name, c.pad) && a[1..] == rest;
    assert Scan(a, off, depth, counted) == Found(Visit(off, depth + 1, a));
  }

  lemma ToksParts(c: Cst, post: seq<Token>)
    ensures Toks(c) + post ==
            [Begin(c.name, c.pad)] + (PToks(c.props) + (KToks(c.kids) + (Nops(c.tail) + [EndNode] + post)))
    ensures Nops(c.tail) + [EndNode] + post == Nops(c.tail) + ([EndNode] + post)
  {
    hide PToks, KToks, Nops;
  }

  lemma KToksNil(post: seq<Token>)
    ensures KToks([]) + post == post && Size(KToks([])) == 0
  {
  }

  lemma KToksParts(ks: seq<Cst>, post: seq<Token>)
    requires ks != []
    ensures KToks(ks) + post == Nops(ks[0].lead) + (Toks(ks[0]) + (KToks(ks[1..]) + post))
  {
    hide Toks, Nops;
  }

  lemma SizeToks(c: Cst)
    ensures Size(Toks(c)) == |Enc(Begin(c.name, c.pad))| + Size(PToks(c.props)) + Size(KToks(c.kids)) + 4 * c.tail + 4
    ensures Size(Body(c)) == Size(PToks(c.props)) + Size(KToks(c.kids)) + 4 * c.tail + 4
  {
    var b, p, k, n, e := [Begin(c.name, c.pad)], PToks(c.props), KToks(c.kids), Nops(c.tail), [EndNode];
    EncAllConcat(b, p + k + n + e);
    EncAllConcat(p + k + n, e);
    EncAllConcat(p + k, n);
    EncAllConcat(p, k);
    NopsSize(c.tail);
    EncOne(b[0]);
    EncOne(EndNode);
  }

  lemma SizeKToks(ks: seq<Cst>)
    requires ks != []
    ensures Size(KToks(ks)) == 4 * ks[0].lead + Size(Toks(ks[0])) + Size(KToks(ks[1..]))
  {
    EncAll3(Nops(ks[0].lead), Toks(ks[0]), KToks(ks[1..]));
    NopsSize(ks[0].lead);
  }

  /** Walking through a whole node visits its preorder and comes back to the depth it started from. */
  lemma {:induction false} WalkNode(c: Cst, post: seq<Token>, off: nat, depth: int, counted: bool)
    requires depth >= 0 || !counted
    ensures Walk(Toks(c) + post, off, depth, counted) ==
            Before(Preorder(c, post, off, depth + 1), Walk(post, off + Size(Toks(c)), depth, counted))
    decreases c, 1
  {
    hide Walk, Scan, EncAll, Enc, PToks, KToks, Toks, Body, Nops, PreorderKids;
    var b, p, k, n := Begin(c.name, c.pad), PToks(c.props), KToks(c.kids), Nops(c.tail);
    var kpost := n + [EndNode] + post;
    var o := off + |Enc(b)|;
    var o2 := o + Size(p) + Size(k);
    var v := [Visit(off, depth + 1, Toks(c) + post)];
    var vs := PreorderKids(c.kids, kpost, o + Size(p), depth + 2);
    ToksParts(c, post);
    PToksPlain(c.props);
    NopsSize(c.tail);
    SizeToks(c);
    calc {
      Walk(Toks(c) + post, off, depth, counted);
      { WalkDown(c, p + (k + kpost), off, depth, counted); }
      Before(v, Walk(p + (k + kpost), o, depth + 1, counted));
      { WalkPlain(p, k + kpost, o, depth + 1, counted); }
      Before(v, Walk(k + kpost, o + Size(p), depth + 1, counted));
      { WalkKids(c.kids, kpost, o + Size(p), depth + 1, counted); }
      Before(v, Before(vs, Walk(kpost, o2, depth + 1, counted)));
      { WalkPlain(n, [EndNode] + post, o2, depth + 1, counted); }
      Before(v, Before(vs, Walk([EndNode] + post, o2 + 4 * c.tail, depth + 1, counted)));
      { WalkUp(post, o2 + 4 * c.tail, depth + 1, counted); }
      Before(v, Before(vs, Walk(post, off + Size(Toks(c)), depth, counted)));
      { BeforeBefore(v, vs, Walk(post, off + Size(Toks(c)), depth, counted)); }
      Before(v + vs, Walk(post, off + Size(Toks(c)), depth, counted));
    }
  }

  lemma {:induction false} WalkKids(ks: seq<Cst>, post: seq<Token>, off: nat, depth: int, counted: bool)
    requires depth >= 0 || !counted
    ensures Walk(KToks(ks) + post, off, depth, counted) ==
            Before(PreorderKids(ks, post, off, depth + 1), Walk(post, off + Size(KToks(ks)), depth, counted))
    decreases ks
  {
    hide Walk, Scan, EncAll, Enc, PToks, KToks, Toks, Body, Nops, Preorder;
    if ks == [] {
      KToksNil(post);
      assert [] + Walk(post, off, depth, counted).visits == Walk(post, off, depth, counted).visits;
    } else {
      var l, t, r := Nops(ks[0].lead), Toks(ks[0]), KToks(ks[1..]) + post;
      var o := off + 4 * ks[0].lead;
      var end := Walk(post, off + Size(KToks(ks)), depth, counted);
      NopsSize(ks[0].lead);
      SizeKToks(ks);
      var vs, ws := Preorder(ks[0], r, o, depth + 1), PreorderKids(ks[1..], post, o + Size(t), depth + 1);
      calc {
        Walk(KToks(ks) + post, off, depth, counted);
        { KToksParts(ks, post); }
        Walk(l + (t + r), off, depth, counted);
        { WalkPlain(l, t + r, off, depth, counted); }
        Walk(t + r, o, depth, counted);
        { WalkNode(ks[0], r, o, depth, counted); }
        Before(vs, Walk(r, o + Size(t), depth, counted));
        { WalkKids(ks[1..], post, o + Size(t), depth, counted); }
        Before(vs, Before(ws, end));
        { BeforeBefore(vs, ws, end); }
        Before(vs + ws, end);
      }
    }
  }

  lemma BodyParts(c: Cst, post: seq<Token>)
    ensures Body(c) + post == PToks(c.props) + (KToks(c.kids) + (Nops(c.tail) + [EndNode] + post))
    ensures Nops(c.tail) + [EndNode] + post == Nops(c.tail) + ([EndNode] + post)
  {
    hide PToks, KToks, Nops;
  }

  lemma WalkLeave(rest: seq<Token>, off: nat)
    ensures Walk([EndNode] + rest, off, 0, true) == Trail([], Left(off + 4))
  {
    BareTag(EndNode);
    hide Enc;
    assert ([EndNode] + rest)[0] == EndNode;
  }

  /** A counted walk inside a node visits the nodes below it, and ends where the node ends. */
  lemma WalkBody(c: Cst, post: seq<Token>, off: nat)
    ensures Walk(Body(c) + post, off, 0, true) ==
            Trail(PreorderKids(c.kids, Nops(c.tail) + [EndNode] + post, off + Size(PToks(c.props)), 1),
                  Left(off + Size(Body(c))))
  {
    hide Walk, Scan, EncAll, Enc, PToks, KToks, Toks, Body, Nops, PreorderKids;
    var p, k, n := PToks(c.props), KToks(c.kids), Nops(c.tail);
    var kpost := n + [EndNode] + post;
    var o := off + Size(p);
    BodyParts(c, post);
    PToksPlain(c.props);
    NopsSize(c.tail);
    SizeToks(c);
    WalkPlain(p, k + kpost, off, 0, true);
    WalkKids(c.kids, kpost, o, 0, true);
    WalkPlain(n, [EndNode] + post, o + Size(k), 0, true);
    WalkLeave(post, o + Size(k) + 4 * c.tail);
  }

  /** A walk inside a deeper node visits the nodes below it and then goes on after it. */
  lemma WalkBodyUp(c: Cst, post: seq<Token>, off: nat, depth: int, counted: bool)
    requires depth >= 1
    ensures Walk(Body(c) + post, off, depth, counted) ==
            Before(PreorderKids(c.kids, Nops(c.tail) + [EndNode] + post, off + Size(PToks(c.props)), depth + 1),
                   Walk(post, off + Size(Body(c)), depth - 1, counted))
  {
    hide Walk, Scan, EncAll, Enc, PToks, KToks, Toks, Body, Nops, PreorderKids;
    var p, k, n := PToks(c.props), KToks(c.kids), Nops(c.tail);
    var kpost := n + [EndNode] + post;
    var o := off + Size(p);
    BodyParts(c, post);
    PToksPlain(c.props);
    NopsSize(c.tail);
    SizeToks(c);
    WalkPlain(p, k + kpost, off, depth, counted);
    WalkKids(c.kids, kpost, o, depth, counted);
    WalkPlain(n, [EndNode] + post, o + Size(k), depth, counted);
    WalkUp(post, o + Size(k) + 4 * c.tail, depth, counted);
  }

  /** A counted walk over the last children of a node. */
  lemma WalkSiblings(ks: seq<Cst>, tail: nat, post: seq<Token>, off: nat)
    ensures Walk(KToks(ks) + (Nops(tail) + [EndNode] + post), off, 0, true) ==
            Trail(PreorderKids(ks, Nops(tail) + [EndNode] + post, off, 1), Left(off + Size(KToks(ks)) + 4 * tail + 4))
  {
    hide Walk, Scan, EncAll, Enc, PToks, KToks, Toks, Body, Nops, PreorderKids;
    var n, o := Nops(tail), off + Size(KToks(ks));
    NopsSize(tail);
    assert n + [EndNode] + post == n + ([EndNode] + post);
    WalkKids(ks, n + [EndNode] + post, off, 0, true);
    WalkPlain(n, [EndNode] + post, o, 0, true);
    WalkLeave(post, o + 4 * tail);
  }

  /** The tokens passed over on the way to the node found. */
  lemma {:induction false} ScanSuffix(rest: seq<Token>, off: nat, depth: int, counted: bool) returns (k: nat)
    ensures k <= |rest|
    ensures var s := Scan(rest, off, depth, counted);
      s.Found? ==> s.v.rest == rest[k..] && s.v.off == off + Size(rest[..k])
    decreases |rest|
  {
    hide Enc;
    k := 0;
    if rest == [] || rest[0].Begin? || rest[0].End? || (rest[0].EndNode? && counted && depth - 1 < 0) {
      SizeNil();
    } else {
      var d := if rest[0].EndNode? then depth - 1 else depth;
      var j := ScanSuffix(rest[1..], off + |Enc(rest[0])|, d, counted);
      k := j + 1;
      assert rest[..k][0] == rest[0] && rest[..k][1..] == rest[1..][..j];
    }
  }

  lemma {:induction false} ScanDepth(rest: seq<Token>, off: nat, depth: int)
    requires depth >= 0
    ensures var s := Scan(rest, off, depth, true); s.Found? ==> s.v.depth >= 1
    decreases |rest|
  {
    hide Enc;
    if rest != [] && !rest[0].Begin? && !rest[0].End? && (rest[0].EndNode? ==> depth >= 1) {
      ScanDepth(rest[1..], off + |Enc(rest[0])|, if rest[0].EndNode? then depth - 1 else depth);
    }
  }

  /** From a visited node to the next one, in the same list of tokens. */
  lemma Advance(a: seq<Token>, b: seq<Token>, depth: int, counted: bool) returns (a2: seq<Token>)
    requires b != []
    ensures var s := Scan(b[1..], Size(a) + |Enc(b[0])|, depth, counted);
      s.Found? ==> a2 + s.v.rest == a + b && Size(a2) == s.v.off
  {
    var k := ScanSuffix(b[1..], Size(a) + |Enc(b[0])|, depth, counted);
    hide Scan, Enc, EncAll;
    var m, r := b[1..][..k], b[1..][k..];
    a2 := a + [b[0]] + m;
    EncAll3(a, [b[0]], m);
    EncOne(b[0]);
    SplitTokens(a, b, k);
  }

  lemma SplitTokens(a: seq<Token>, b: seq<Token>, k: nat)
    requires b != [] && k <= |b| - 1
    ensures a + b == (a + [b[0]] + b[1..][..k]) + b[1..][k..]
  {
    assert b == [b[0]] + b[1..];
    assert b[1..] == b[1..][..k] + b[1..][k..];
  }

  /** At a visited node: `b` are the tokens from its BEGIN_NODE on, `w` is the rest of the walk. */
  ghost predicate Cursor(a: seq<Token>, b: seq<Token>, depth: int, counted: bool, w: Trail) {
    && b != [] && b[0].Begin?
    && w == Walk(b[1..], Size(a) + |Enc(b[0])|, depth, counted)
  }

  lemma CursorBegin(a: seq<Token>, b: seq<Token>, depth: int, counted: bool, w: Trail)
    requires Cursor(a, b, depth, counted, w)
    ensures b != [] && b[0].Begin?
  {
  }

  /** A walk without its first visit. */
  function After(w: Trail): Trail
    requires w.visits != []
  {
    Trail(w.visits[1..], w.end)
  }

  lemma WalkOne(rest: seq<Token>, off: nat, depth: int, counted: bool)
    ensures var s, w := Scan(rest, off, depth, counted), Walk(rest, off, depth, counted);
      if s.Found? then
        && w.visits != [] && w.visits[0] == s.v
        && After(w) == Walk(s.v.rest[1..], s.v.off + |Enc(s.v.rest[0])|, s.v.depth, counted)
      else w == Trail([], s)
  {
    hide Scan, Enc;
    var s, w := Scan(rest, off, depth, counted), Walk(rest, off, depth, counted);
    if s.Found? {
      var w2 := Walk(s.v.rest[1..], s.v.off + |Enc(s.v.rest[0])|, s.v.depth, counted);
      assert w.visits == [s.v] + w2.visits;
      assert w.visits[1..] == w2.visits;
    }
  }

  /** The next visit of a walk, and the walk after it. */
  lemma NextVisit(a: seq<Token>, b: seq<Token>, depth: int, counted: bool, w: Trail) returns (a2: seq<Token>)
    requires Cursor(a, b, depth, counted, w)
    ensures var s := Scan(b[1..], Size(a) + |Enc(b[0])|, depth, counted);
      if s.Found? then
        && w.visits != [] && w.visits[0] == s.v
        && a2 + s.v.rest == a + b && Size(a2) == s.v.off
        && Cursor(a2, s.v.rest, s.v.depth, counted, After(w))
      else w == Trail([], s)
  {
    hide EncAll, Enc, Scan, Walk, After;
    a2 := Advance(a, b, depth, counted);
    WalkOne(b[1..], Size(a) + |Enc(b[0])|, depth, counted);
  }
}
