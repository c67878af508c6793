/** dtc's checks.c: path references. The full path of the node referred to is inserted at its marker, which
    moves the bytes and the markers behind it. */
module PathRefs {
  import opened Bytes
  import opened StructBlock
  import opened Naming
  import opened Markers
  import R = References

  /** The nodes that references stand for, and their paths. */
  datatype Nodes = Nodes(resolve: Name -> nat, fullPath: seq<Name>)

  /** What belongs at a marker. */
  function PathText(m: Marker, nodes: Nodes): seq<byte> {
    if m.kind == RefPath && nodes.resolve(m.ref) < |nodes.fullPath| then nodes.fullPath[nodes.resolve(m.ref)] + [0] else []
  }

  predicate Broken(m: Marker, nodes: Nodes) {
    m.kind == RefPath && nodes.resolve(m.ref) >= |nodes.fullPath|
  }

  /** The length of all that has been inserted at the first `k` markers. */
  function Total(ms: seq<Marker>, k: nat, nodes: Nodes): nat
    requires k <= |ms|
  {
    if k == 0 then 0 else Total(ms, k - 1, nodes) + |PathText(ms[k - 1], nodes)|
  }

  lemma {:induction false} TotalMono(ms: seq<Marker>, j: nat, k: nat, nodes: Nodes)
    requires j <= k <= |ms|
    ensures Total(ms, j, nodes) <= Total(ms, k, nodes)
    ensures j < k ==> Total(ms, j, nodes) + |PathText(ms[j], nodes)| <= Total(ms, k, nodes)
    decreases k
  {
    hide PathText;
    if j < k {
      TotalMono(ms, j, k - 1, nodes);
    }
  }

  function Least(i: nat, k: nat): nat {
    if i < k then i else k
  }

  /** The markers after the first `k` have been dealt with. */
  predicate Moved(d: Value, r: Value, k: nat, nodes: Nodes)
    requires k <= |d.markers|
  {
    && |r.markers| == |d.markers| && |r.bytes| == |d.bytes| + Total(d.markers, k, nodes)
    && forall i :: 0 <= i < |d.markers| ==> MovedAt(d.markers, r.markers[i], k, nodes, i)
  }

  predicate MovedAt(ms: seq<Marker>, m: Marker, k: nat, nodes: Nodes, i: nat)
    requires k <= |ms| && i < |ms|
  {
    m == ms[i].(offset := ms[i].offset + Total(ms, Least(i, k), nodes))
  }

  /** Where markers stand to one another. */
  lemma Order(d: Value, r: Value, k: nat, nodes: Nodes, i: nat, j: nat)
    requires Sound(d) && k <= |d.markers| && Moved(d, r, k, nodes) && i < |d.markers| && j <= |d.markers|
    ensures |r.markers| == |d.markers|
    ensures i < j ==>
      var width := Width(d.markers[i].kind) + (if i < k then |PathText(d.markers[i], nodes)| else 0);
      r.markers[i].offset + width <= (if j < |d.markers| then r.markers[j].offset else |r.bytes|)
  {
    hide PathText;
    if i < j {
      TotalMono(d.markers, Least(i, k), Least(j, k), nodes);
      if j == |d.markers| {
        TotalMono(d.markers, Least(i, k), k, nodes);
      }
    }
  }

  predicate StandsIn(bytes: seq<byte>, o: nat, text: seq<byte>) {
    o + |text| <= |bytes| && bytes[o..o + |text|] == text
  }

  /** The paths of the first `k` markers stand where their markers are. */
  predicate PathsStand(d: Value, r: Value, k: nat, nodes: Nodes)
    requires k <= |d.markers| == |r.markers|
  {
    forall i :: 0 <= i < k ==> StandsIn(r.bytes, r.markers[i].offset, PathText(d.markers[i], nodes))
  }

  /** The cells of phandle references are where their markers are, unchanged. */
  predicate CellsStand(d: Value, r: Value)
    requires Sound(d) && |r.markers| == |d.markers|
  {
    forall i :: 0 <= i < |d.markers| && R.IsRef(d.markers[i]) ==>
      StandsIn(r.bytes, r.markers[i].offset, d.bytes[d.markers[i].offset..d.markers[i].offset + 4])
  }

  /** The bytes without what has been inserted at the first `k` markers. */
  function Erased(bytes: seq<byte>, ms: seq<Marker>, k: nat, nodes: Nodes): seq<byte>
    requires k <= |ms|
    decreases k
  {
    if k == 0 then bytes else
      var m, n := ms[k - 1], |PathText(ms[k - 1], nodes)|;
      Erased(if m.offset + n <= |bytes| then bytes[..m.offset] + bytes[m.offset + n..] else bytes, ms, k - 1, nodes)
  }

  lemma {:induction false} ErasedPrefix(bytes: seq<byte>, ms: seq<Marker>, ns: seq<Marker>, k: nat, nodes: Nodes)
    requires k <= |ms| && k <= |ns| && ms[..k] == ns[..k]
    ensures Erased(bytes, ms, k, nodes) == Erased(bytes, ns, k, nodes)
    decreases k
  {
    hide PathText;
    if k > 0 {
      assert ms[k - 1] == ms[..k][k - 1] == ns[..k][k - 1] == ns[k - 1];
      assert ms[..k - 1] == ms[..k][..k - 1] == ns[..k][..k - 1] == ns[..k - 1];
      var m, n := ms[k - 1], |PathText(ms[k - 1], nodes)|;
      ErasedPrefix(if m.offset + n <= |bytes| then bytes[..m.offset] + bytes[m.offset + n..] else bytes, ms, ns, k - 1, nodes);
    }
  }

  /** Paths have been inserted at the first `k` markers, and nothing else has happened. */
  predicate Expanded(d: Value, r: Value, k: nat, nodes: Nodes)
    requires Sound(d) && k <= |d.markers|
  {
    Moved(d, r, k, nodes) && PathsStand(d, r, k, nodes) && CellsStand(d, r) && Erased(r.bytes, r.markers, k, nodes) == d.bytes
  }

  lemma NothingExpanded(d: Value, nodes: Nodes)
    requires Sound(d)
    ensures Expanded(d, d, 0, nodes)
  {
  }

  /** A stretch in front of an insertion, and one behind it. */
  lemma StandsStill(s: seq<byte>, o: nat, t: seq<byte>, a: nat, text: seq<byte>)
    requires o <= |s| && StandsIn(s, a, text)
    ensures a + |text| <= o ==> StandsIn(s[..o] + t + s[o..], a, text)
    ensures o <= a ==> StandsIn(s[..o] + t + s[o..], a + |t|, text)
  {
    var r := s[..o] + t + s[o..];
    if a + |text| <= o {
      assert r[a..a + |text|] == s[a..a + |text|];
    }
    if o <= a {
      assert r[a + |t|..a + |t| + |text|] == s[a..a + |text|];
    }
  }

  lemma InsertedParts(r: Value, k: nat, t: seq<byte>)
    requires k < |r.markers| && r.markers[k].offset <= |r.bytes|
    ensures var r2, o := Inserted(r, k, t), r.markers[k].offset;
      && |r2.markers| == |r.markers| && |r2.bytes| == |r.bytes| + |t| && r2.bytes == r.bytes[..o] + t + r.bytes[o..]
      && forall i :: 0 <= i < |r.markers| ==>
           r2.markers[i] == if i <= k then r.markers[i] else r.markers[i].(offset := r.markers[i].offset + |t|)
  {
  }

  lemma InsertedMoved(d: Value, r: Value, k: nat, nodes: Nodes)
    requires Sound(d) && k < |d.markers| && Moved(d, r, k, nodes)
    ensures r.markers[k].offset <= |r.bytes| && Moved(d, Inserted(r, k, PathText(d.markers[k], nodes)), k + 1, nodes)
  {
    Order(d, r, k, nodes, k, |d.markers|);
    hide PathText, Inserted, Sound, MovedAt;
    var t, ms := PathText(d.markers[k], nodes), d.markers;
    SizesAfter(r, k, t);
    TotalNext(ms, k, nodes);
    forall i | 0 <= i < |ms|
      ensures MovedAt(ms, Inserted(r, k, t).markers[i], k + 1, nodes, i)
    {
      MarkerAfter(r, k, t, i);
      MovedNext(ms, r.markers[i], k, nodes, i);
    }
  }

  lemma TotalNext(ms: seq<Marker>, k: nat, nodes: Nodes)
    requires k < |ms|
    ensures Total(ms, k + 1, nodes) == Total(ms, k, nodes) + |PathText(ms[k], nodes)|
  {
  }

  lemma MovedNext(ms: seq<Marker>, m: Marker, k: nat, nodes: Nodes, i: nat)
    requires k < |ms| && i < |ms| && MovedAt(ms, m, k, nodes, i)
    ensures MovedAt(ms, if i <= k then m else m.(offset := m.offset + |PathText(ms[k], nodes)|), k + 1, nodes, i)
  {
    TotalNext(ms, k, nodes);
    hide PathText, Total;
  }

  lemma SizesAfter(r: Value, k: nat, t: seq<byte>)
    requires k < |r.markers| && r.markers[k].offset <= |r.bytes|
    ensures |Inserted(r, k, t).markers| == |r.markers| && |Inserted(r, k, t).bytes| == |r.bytes| + |t|
  {
  }

  lemma MarkerAfter(r: Value, k: nat, t: seq<byte>, i: nat)
    requires k < |r.markers| && r.markers[k].offset <= |r.bytes| && i < |r.markers|
    ensures |Inserted(r, k, t).markers| == |r.markers|
    ensures Inserted(r, k, t).markers[i] == if i <= k then r.markers[i] else r.markers[i].(offset := r.markers[i].offset + |t|)
  {
  }

  /** What stands at a marker still does after an insertion at another one. */
  lemma StandsAfter(r: Value, k: nat, t: seq<byte>, i: nat, text: seq<byte>)
    requires k < |r.markers| && r.markers[k].offset <= |r.bytes| && i < |r.markers| && i != k
    requires StandsIn(r.bytes, r.markers[i].offset, text)
    requires if i < k then r.markers[i].offset + |text| <= r.markers[k].offset else r.markers[k].offset <= r.markers[i].offset
    ensures var r2 := Inserted(r, k, t); i < |r2.markers| && StandsIn(r2.bytes, r2.markers[i].offset, text)
  {
    InsertedParts(r, k, t);
    hide Inserted, StandsIn;
    StandsStill(r.bytes, r.markers[k].offset, t, r.markers[i].offset, text);
  }

  lemma InsertedStands(d: Value, r: Value, k: nat, nodes: Nodes)
    requires Sound(d) && k < |d.markers| && Moved(d, r, k, nodes) && PathsStand(d, r, k, nodes) && r.markers[k].offset <= |r.bytes|
    ensures PathsStand(d, Inserted(r, k, PathText(d.markers[k], nodes)), k + 1, nodes)
  {
    hide PathText, Inserted, Sound, Total, Moved, StandsIn;
    Order(d, r, k, nodes, k, k);
    var t := PathText(d.markers[k], nodes);
    TextPut(r, k, t);
    forall i | 0 <= i < k
      ensures StandsIn(Inserted(r, k, t).bytes, Inserted(r, k, t).markers[i].offset, PathText(d.markers[i], nodes))
    {
      Order(d, r, k, nodes, i, k);
      StandsAfter(r, k, t, i, PathText(d.markers[i], nodes));
    }
  }

  lemma TextPut(r: Value, k: nat, t: seq<byte>)
    requires k < |r.markers| && r.markers[k].offset <= |r.bytes|
    ensures var r2 := Inserted(r, k, t); |r2.markers| == |r.markers| && StandsIn(r2.bytes, r2.markers[k].offset, t)
  {
  }

  lemma InsertedCells(d: Value, r: Value, k: nat, nodes: Nodes)
    requires Sound(d) && k < |d.markers| && Moved(d, r, k, nodes) && CellsStand(d, r) && r.markers[k].offset <= |r.bytes|
    ensures CellsStand(d, Inserted(r, k, PathText(d.markers[k], nodes)))
  {
    hide Inserted, Total, StandsIn, Moved;
    Order(d, r, k, nodes, k, k);
    var t := PathText(d.markers[k], nodes);
    TextPut(r, k, t);
    forall i | 0 <= i < |d.markers| && R.IsRef(d.markers[i])
      ensures StandsIn(Inserted(r, k, t).bytes, Inserted(r, k, t).markers[i].offset,
                       d.bytes[d.markers[i].offset..d.markers[i].offset + 4])
    {
      if i == k {
        InsertedNothing(r, k);
      } else {
        Order(d, r, k, nodes, i, k);
        Order(d, r, k, nodes, k, i);
        StandsAfter(r, k, t, i, d.bytes[d.markers[i].offset..d.markers[i].offset + 4]);
      }
    }
  }

  lemma InsertedErased(d: Value, r: Value, k: nat, nodes: Nodes)
    requires k < |d.markers| && k < |r.markers| && r.markers[k].offset <= |r.bytes|
    requires PathText(r.markers[k], nodes) == PathText(d.markers[k], nodes)
    ensures var r2 := Inserted(r, k, PathText(d.markers[k], nodes));
      k < |r2.markers| && Erased(r2.bytes, r2.markers, k + 1, nodes) == Erased(r.bytes, r.markers, k, nodes)
  {
    var t, o := PathText(d.markers[k], nodes), r.markers[k].offset;
    InsertedParts(r, k, t);
    hide PathText, Inserted;
    var r2 := Inserted(r, k, t);
    assert r2.markers[k] == r.markers[k];
    assert r2.bytes[..o] + r2.bytes[o + |t|..] == r.bytes;
    ErasedPrefix(r.bytes, r2.markers, r.markers, k, nodes);
  }

  lemma InsertedExpands(d: Value, r: Value, k: nat, nodes: Nodes)
    requires Sound(d) && k < |d.markers| && Expanded(d, r, k, nodes)
    ensures r.markers[k].offset <= |r.bytes| && Expanded(d, Inserted(r, k, PathText(d.markers[k], nodes)), k + 1, nodes)
  {
    InsertedMoved(d, r, k, nodes);
    SameText(d.markers[k], r.markers[k], nodes);
    hide PathText, Moved, PathsStand, CellsStand, Erased, Inserted;
    InsertedStands(d, r, k, nodes);
    InsertedCells(d, r, k, nodes);
    InsertedErased(d, r, k, nodes);
  }

  lemma SameText(m: Marker, n: Marker, nodes: Nodes)
    requires m.kind == n.kind && m.ref == n.ref
    ensures PathText(m, nodes) == PathText(n, nodes)
  {
  }

  /** fixup_path_references on one property. */
  method ExpandPaths(d: Value, nodes: Nodes) returns (r: Value, failed: bool)
    requires Sound(d)
    ensures Expanded(d, r, |d.markers|, nodes)
    ensures failed <==> exists i :: 0 <= i < |d.markers| && Broken(d.markers[i], nodes)
  {
    hide PathText, PathsStand, CellsStand, Erased, Sound, Expanded, Moved, Inserted, Broken;
    r, failed := d, false;
    NothingExpanded(d, nodes);
    var k := 0;
    while k < |r.markers|
      invariant k <= |d.markers| == |r.markers| && Expanded(d, r, k, nodes)
      invariant failed <==> exists i :: 0 <= i < k && Broken(d.markers[i], nodes)
    {
      ExpandedShape(d, r, k, nodes);
      InsertedExpands(d, r, k, nodes);
      InsertedParts(r, k, PathText(d.markers[k], nodes));
      BrokenIs(d.markers[k], nodes);
      if r.markers[k].kind == RefPath && nodes.resolve(r.markers[k].ref) < |nodes.fullPath| {
        TextThere(d.markers[k], nodes);
        r := InsertAtMarker(r, k, nodes.fullPath[nodes.resolve(r.markers[k].ref)] + [0]);
      } else {
        TextThere(d.markers[k], nodes);
        InsertedNothing(r, k);
        if r.markers[k].kind == RefPath {
          failed := true;
        }
      }
      k := k + 1;
    }
  }

  lemma ExpandedShape(d: Value, r: Value, k: nat, nodes: Nodes)
    requires Sound(d) && k <= |d.markers| && Expanded(d, r, k, nodes)
    ensures |r.markers| == |d.markers|
    ensures k < |d.markers| ==> r.markers[k].kind == d.markers[k].kind && r.markers[k].ref == d.markers[k].ref
  {
  }

  lemma BrokenIs(m: Marker, nodes: Nodes)
    ensures Broken(m, nodes) <==> m.kind == RefPath && nodes.resolve(m.ref) >= |nodes.fullPath|
  {
  }

  lemma TextThere(m: Marker, nodes: Nodes)
    ensures PathText(m, nodes) == if m.kind == RefPath && nodes.resolve(m.ref) < |nodes.fullPath|
                                  then nodes.fullPath[nodes.resolve(m.ref)] + [0] else []
  {
  }

  lemma InsertedNothing(r: Value, k: nat)
    requires k < |r.markers| && r.markers[k].offset <= |r.bytes|
    ensures Inserted(r, k, []) == r
  {
    var o := r.markers[k].offset;
    assert r.bytes[..o] + [] + r.bytes[o..] == r.bytes;
    assert r.markers[..k + 1] + Shifted(r.markers[k + 1..], 0) == r.markers;
  }

  // ---- the whole tree --------------------------------------------------------------------------------------

  /** All properties as they were, with the paths inserted; everything but the values is as it was. */
  predicate AllExpanded(ps: seq<seq<R.Property>>, qs: seq<seq<R.Property>>, n: nat, i: nat, nodes: Nodes)
    requires R.AllSound(ps)
  {
    && |qs| == |ps| && (forall a :: 0 <= a < |ps| ==> |qs[a]| == |ps[a]|)
    && (forall a, b :: 0 <= a < |ps| && 0 <= b < |ps[a]| ==>
          if a < n || (a == n && b < i)
          then qs[a][b].name == ps[a][b].name && Expanded(ps[a][b].val, qs[a][b].val, |ps[a][b].val.markers|, nodes)
          else qs[a][b] == ps[a][b])
  }

  predicate BrokenIn(ms: seq<Marker>, nodes: Nodes) {
    exists i :: 0 <= i < |ms| && Broken(ms[i], nodes)
  }

  predicate BrokenUpTo(ps: seq<seq<R.Property>>, n: nat, i: nat, nodes: Nodes) {
    exists a, b :: 0 <= a < |ps| && 0 <= b < |ps[a]| && (a < n || (a == n && b < i)) && BrokenIn(ps[a][b].val.markers, nodes)
  }

  /** fixup_path_references over the tree. */
  method PathReferences(dti: R.Dti, fullPath: seq<Name>) returns (failed: bool)
    requires |dti.props| == dti.count && R.AllSound(dti.props) && |fullPath| == dti.count
    modifies dti`props
    ensures AllExpanded(old(dti.props), dti.props, dti.count, 0, Nodes(dti.resolve, fullPath))
    ensures failed <==> BrokenUpTo(old(dti.props), dti.count, 0, Nodes(dti.resolve, fullPath))
  {
    hide Sound, Expanded, BrokenIn;
    var nodes := Nodes(dti.resolve, fullPath);
    ghost var ps := dti.props;
    failed := false;
    var n := 0;
    while n < dti.count
      invariant n <= dti.count && R.AllSound(ps) && AllExpanded(ps, dti.props, n, 0, nodes)
      invariant failed <==> BrokenUpTo(ps, n, 0, nodes)
    {
      var i := 0;
      while i < |dti.props[n]|
        invariant i <= |ps[n]| && R.AllSound(ps) && AllExpanded(ps, dti.props, n, i, nodes)
        invariant failed <==> BrokenUpTo(ps, n, i, nodes)
      {
        ghost var qs := dti.props;
        assert dti.props[n][i] == ps[n][i];
        assert Sound(ps[n][i].val);
        var val, fail := ExpandPaths(dti.props[n][i].val, nodes);
        dti.props := dti.props[n := dti.props[n][i := R.Property(dti.props[n][i].name, val)]];
        OneMore(ps, qs, dti.props, n, i, val, nodes);
        BrokenMore(ps, n, i, nodes);
        BrokenInIs(ps[n][i].val.markers, nodes);
        failed := failed || fail;
        i := i + 1;
      }
      NextNode(ps, dti.props, n, nodes);
      n := n + 1;
    }
  }

  lemma OneMore(ps: seq<seq<R.Property>>, qs: seq<seq<R.Property>>, rs: seq<seq<R.Property>>, n: nat, i: nat, val: Value, nodes: Nodes)
    requires R.AllSound(ps) && n < |ps| && i < |ps[n]| && AllExpanded(ps, qs, n, i, nodes)
    requires Sound(ps[n][i].val) && Expanded(ps[n][i].val, val, |ps[n][i].val.markers|, nodes)
    requires rs == qs[n := qs[n][i := R.Property(qs[n][i].name, val)]]
    ensures AllExpanded(ps, rs, n, i + 1, nodes)
  {
    hide Sound, Expanded;
    assert qs[n][i] == ps[n][i];
    forall a, b | 0 <= a < |ps| && 0 <= b < |ps[a]|
      ensures if a < n || (a == n && b < i + 1)
              then rs[a][b].name == ps[a][b].name && Expanded(ps[a][b].val, rs[a][b].val, |ps[a][b].val.markers|, nodes)
              else rs[a][b] == ps[a][b]
    {
      assert if a == n && b == i then rs[a][b].val == val else rs[a][b] == qs[a][b];
    }
  }

  lemma BrokenMore(ps: seq<seq<R.Property>>, n: nat, i: nat, nodes: Nodes)
    requires n < |ps| && i < |ps[n]|
    ensures BrokenUpTo(ps, n, i + 1, nodes) <==> BrokenUpTo(ps, n, i, nodes) || BrokenIn(ps[n][i].val.markers, nodes)
  {
    hide BrokenIn;
  }

  lemma BrokenInIs(ms: seq<Marker>, nodes: Nodes)
    ensures BrokenIn(ms, nodes) <==> exists i :: 0 <= i < |ms| && Broken(ms[i], nodes)
  {
  }

  lemma NextNode(ps: seq<seq<R.Property>>, qs: seq<seq<R.Property>>, n: nat, nodes: Nodes)
    requires R.AllSound(ps) && n < |ps| && AllExpanded(ps, qs, n, |ps[n]|, nodes)
    ensures AllExpanded(ps, qs, n + 1, 0, nodes)
    ensures BrokenUpTo(ps, n + 1, 0, nodes) <==> BrokenUpTo(ps, n, |ps[n]|, nodes)
  {
    hide Expanded, BrokenIn;
  }

  /** A value with every reference in place: at a phandle reference the phandle of the node meant, at a path
      reference its path and a terminator. */
  predicate Settled(d: Value, ph: seq<u32>, nodes: Nodes, plugin: bool)
    requires |ph| == |nodes.fullPath|
  {
    forall c :: 0 <= c < |d.markers| ==>
      var m := d.markers[c];
      var n := nodes.resolve(m.ref);
      && (m.kind == RefPhandle && n < |ph| ==> ph[n] != 0 && StandsIn(d.bytes, m.offset, BE32(ph[n])))
      && (m.kind == RefPhandle && n >= |ph| ==> plugin && StandsIn(d.bytes, m.offset, BE32(NO_PHANDLE)))
      && (m.kind == RefPath ==> n < |ph| && StandsIn(d.bytes, m.offset, nodes.fullPath[n] + [0]))
  }

  lemma ExpandedSettles(d: Value, r: Value, ph: seq<u32>, nodes: Nodes, plugin: bool)
    requires Sound(d) && |ph| == |nodes.fullPath| && R.Filled(d, |d.markers|, ph, nodes.resolve, plugin)
    requires Expanded(d, r, |d.markers|, nodes) && !BrokenIn(d.markers, nodes)
    ensures Settled(r, ph, nodes, plugin)
  {
    hide BE32, Erased, Sound, Total;
    forall c | 0 <= c < |r.markers|
      ensures var m := r.markers[c];
        var n := nodes.resolve(m.ref);
        && (m.kind == RefPhandle && n < |ph| ==> ph[n] != 0 && StandsIn(r.bytes, m.offset, BE32(ph[n])))
        && (m.kind == RefPhandle && n >= |ph| ==> plugin && StandsIn(r.bytes, m.offset, BE32(NO_PHANDLE)))
        && (m.kind == RefPath ==> n < |ph| && StandsIn(r.bytes, m.offset, nodes.fullPath[n] + [0]))
    {
      var m := d.markers[c];
      if m.kind == RefPhandle {
        assert R.IsRef(m);
      } else if m.kind == RefPath {
        assert !Broken(m, nodes);
      }
    }
  }

  /** What has become of a value: the markers have moved behind the paths inserted, and without the paths only
      cells of references have been written. */
  predicate Carried(d: Value, r: Value, nodes: Nodes) {
    && |r.markers| == |d.markers|
    && (forall i :: 0 <= i < |d.markers| ==> MovedAt(d.markers, r.markers[i], |d.markers|, nodes, i))
    && R.ValueKept(d, Value(Erased(r.bytes, r.markers, |r.markers|, nodes), d.markers))
  }

  /** What has become of a node: its properties are all there, and only phandle properties have been added. */
  predicate NodeCarried(p: seq<R.Property>, q: seq<R.Property>, nodes: Nodes) {
    && |p| <= |q|
    && (forall b :: 0 <= b < |p| ==> q[b].name == p[b].name && Carried(p[b].val, q[b].val, nodes))
    && (forall b :: |p| <= b < |q| ==> R.Added(q[b]))
  }

  /** The phandle property of that name, if there is one, holds the node's phandle. */
  predicate Carries(q: seq<R.Property>, name: Name, h: u32, nodes: Nodes) {
    var i := R.FindNamed(q, name);
    i < |q| ==> h != 0 && Erased(q[i].val.bytes, q[i].val.markers, |q[i].val.markers|, nodes) == BE32(h)
  }

  /** The properties of a node with the paths inserted. */
  predicate NodeDone(e: seq<R.Property>, q: seq<R.Property>, nodes: Nodes) {
    |q| == |e| && forall b :: 0 <= b < |e| ==>
      Sound(e[b].val) && q[b].name == e[b].name && Expanded(e[b].val, q[b].val, |e[b].val.markers|, nodes)
  }

  lemma ValueCarried(d: Value, e: Value, r: Value, nodes: Nodes)
    requires Sound(e) && R.ValueKept(d, e) && Expanded(e, r, |e.markers|, nodes)
    ensures Carried(d, r, nodes)
  {
    hide R.InCell, MovedAt, Erased, Sound, PathsStand, CellsStand;
  }

  lemma AddedCarried(e: R.Property, r: R.Property, nodes: Nodes)
    requires Sound(e.val) && R.Added(e) && r.name == e.name && Expanded(e.val, r.val, |e.val.markers|, nodes)
    ensures R.Added(r)
  {
    hide Erased, PathsStand, CellsStand;
  }

  lemma NewOnesCarried(p: seq<R.Property>, e: seq<R.Property>, q: seq<R.Property>, h: u32, legacy: bool, epapr: bool, nodes: Nodes)
    requires |p| <= |e| && R.NewOnes(p, e, h, legacy, epapr) && NodeDone(e, q, nodes)
    ensures R.NewOnes(p, q, h, legacy, epapr)
  {
    hide Sound, Expanded, R.FindNamed, BE32;
    forall b | |p| <= b < |q|
      ensures q[b] == e[b]
    {
      assert R.NewOne(p, e[b], h, legacy, epapr);
      PlainExpanded(e[b].val, q[b].val, nodes);
    }
    R.NewOnesSame(p, e, q, h, legacy, epapr);
  }

  lemma NewOnesFollow(p: seq<R.Property>, e: seq<R.Property>, q: seq<R.Property>, h: u32, legacy: bool, epapr: bool, nodes: Nodes)
    requires R.PropsKept(p, e) && R.NewOnes(p, e, h, legacy, epapr) && NodeDone(e, q, nodes)
    ensures R.NewOnes(p, q, h, legacy, epapr)
  {
    hide NodeDone, R.ValueKept, R.NewOnes;
    NewOnesCarried(p, e, q, h, legacy, epapr, nodes);
  }

  lemma PlainExpanded(e: Value, r: Value, nodes: Nodes)
    requires Sound(e) && e.markers == [] && Expanded(e, r, 0, nodes)
    ensures r == e
  {
    ErasedIs(e, r, nodes);
  }

  lemma NodeFollows(p: seq<R.Property>, e: seq<R.Property>, q: seq<R.Property>, nodes: Nodes)
    requires R.PropsKept(p, e) && NodeDone(e, q, nodes)
    ensures NodeCarried(p, q, nodes)
  {
    hide Sound, Expanded, Carried, R.ValueKept, R.Added;
    forall b | 0 <= b < |q|
      ensures if b < |p| then q[b].name == p[b].name && Carried(p[b].val, q[b].val, nodes) else R.Added(q[b])
    {
      assert Sound(e[b].val);
      if b < |p| {
        ValueCarried(p[b].val, e[b].val, q[b].val, nodes);
      } else {
        AddedCarried(e[b], q[b], nodes);
      }
    }
  }

  lemma SameNames(e: seq<R.Property>, q: seq<R.Property>, name: Name)
    requires |q| == |e| && forall b :: 0 <= b < |e| ==> q[b].name == e[b].name
    ensures R.FindNamed(q, name) == R.FindNamed(e, name)
  {
    R.FindNamedIs(q, name, R.FindNamed(e, name));
  }

  lemma ErasedIs(e: Value, r: Value, nodes: Nodes)
    requires Sound(e) && Expanded(e, r, |e.markers|, nodes)
    ensures |r.markers| == |e.markers| && Erased(r.bytes, r.markers, |r.markers|, nodes) == e.bytes
  {
    hide Erased, PathsStand, CellsStand, MovedAt;
  }

  lemma NodeCarries(e: seq<R.Property>, q: seq<R.Property>, name: Name, n: nat, ph: seq<u32>, nodes: Nodes, plugin: bool)
    requires NodeDone(e, q, nodes) && n < |ph| && R.Agrees(e, name, n, ph[n], nodes.resolve)
    requires forall b :: 0 <= b < |e| ==> R.Filled(e[b].val, |e[b].val.markers|, ph, nodes.resolve, plugin)
    ensures Carries(q, name, ph[n], nodes)
  {
    hide Sound, Expanded, R.Filled, R.Agrees, R.FindNamed, Erased, BE32;
    SameNames(e, q, name);
    var i := R.FindNamed(e, name);
    if i < |e| {
      assert Sound(e[i].val);
      R.PhandleHeld(e, name, n, ph, nodes.resolve, plugin);
      ErasedIs(e[i].val, q[i].val, nodes);
    }
  }

  lemma BrokenBack(p: seq<R.Property>, e: seq<R.Property>, nodes: Nodes)
    requires R.PropsKept(p, e)
    ensures (exists b :: 0 <= b < |e| && BrokenIn(e[b].val.markers, nodes)) <==> exists b :: 0 <= b < |p| && BrokenIn(p[b].val.markers, nodes)
  {
    hide R.ValueKept, BrokenIn;
    forall b | 0 <= b < |e|
      ensures if b < |p| then e[b].val.markers == p[b].val.markers else !BrokenIn(e[b].val.markers, nodes)
    {
      if b < |p| {
        R.MarksKept(p[b].val, e[b].val);
      } else {
        BrokenInIs(e[b].val.markers, nodes);
      }
    }
  }

  lemma BrokenAllBack(ps: seq<seq<R.Property>>, es: seq<seq<R.Property>>, nodes: Nodes)
    requires |ps| == |es| && forall n :: 0 <= n < |ps| ==> R.PropsKept(ps[n], es[n])
    ensures BrokenUpTo(es, |ps|, 0, nodes) <==> BrokenUpTo(ps, |ps|, 0, nodes)
  {
    hide R.PropsKept, BrokenIn;
    forall n | 0 <= n < |ps|
      ensures (exists b :: 0 <= b < |es[n]| && BrokenIn(es[n][b].val.markers, nodes))
         <==> exists b :: 0 <= b < |ps[n]| && BrokenIn(ps[n][b].val.markers, nodes)
    {
      BrokenBack(ps[n], es[n], nodes);
    }
    assert BrokenUpTo(es, |ps|, 0, nodes) <==>
      exists n :: 0 <= n < |ps| && exists b :: 0 <= b < |es[n]| && BrokenIn(es[n][b].val.markers, nodes);
  }

  /** explicit_phandles, and phandle_references, which is not run when the former fails. */
  method PhandlePasses(dti: R.Dti) returns (failed: bool)
    requires dti.Valid() && dti.phandle == seq(dti.count, _ => 0) && dti.next == 1
    modifies dti
    ensures dti.Valid()
    ensures forall n :: 0 <= n < dti.count ==> R.PropsKept(old(dti.props)[n], dti.props[n])
    ensures forall n :: 0 <= n < dti.count ==>
      && R.NewOnes(old(dti.props)[n], dti.props[n], dti.phandle[n], dti.legacy, dti.epapr)
      && (R.Given(old(dti.props)[n]) || dti.phandle[n] == 0 ==> |dti.props[n]| == |old(dti.props)[n]|)
    ensures failed <==> (forall g :: !R.Assignment(old(dti.props), g, dti.resolve)) || dti.SomeDangling(old(dti.props), dti.count)
    ensures !failed ==> R.Apart(dti.phandle) && R.AllAgree(dti.props, dti.phandle, dti.resolve)
    ensures !failed ==> R.FilledUpTo(dti.props, dti.phandle, dti.count, 0, dti.resolve, dti.plugin)
    ensures !failed ==> forall n :: 0 <= n < dti.count && dti.phandle[n] != 0 ==>
      R.Given(old(dti.props)[n]) || (R.Chosen(dti.props[n], dti.legacy, dti.epapr) && dti.Meant(old(dti.props), n))
  {
    hide Sound, R.Filled, R.MayHave, R.Apart, R.Given, R.Chosen, R.PropsKept, R.NewOnes, R.Dti.SomeDangling, R.Dti.Meant, R.FilledUpTo;
    ghost var ps0 := dti.props;
    failed := dti.ExplicitPhandles();
    if failed {
      forall n: nat | n < dti.count
        ensures R.PropsKept(ps0[n], dti.props[n]) && R.NewOnes(ps0[n], dti.props[n], dti.phandle[n], dti.legacy, dti.epapr)
      {
        R.PropsKeptSelf(ps0[n]);
        assert |dti.props[n]| == |ps0[n]|;
        R.NoNewOnes(ps0[n], dti.phandle[n], dti.legacy, dti.epapr);
      }
    } else {
      ghost var ph0 := dti.phandle;
      assert R.Assignment(ps0, ph0, dti.resolve);
      failed := dti.PhandleReferences();
      forall n: nat | n < dti.count
        ensures R.PropsKept(ps0[n], dti.props[n]) && R.NewOnes(ps0[n], dti.props[n], dti.phandle[n], dti.legacy, dti.epapr)
        ensures R.Given(ps0[n]) || dti.phandle[n] == 0 ==> |dti.props[n]| == |ps0[n]|
        ensures !failed && dti.phandle[n] != 0 ==>
          R.Given(ps0[n]) || (R.Chosen(dti.props[n], dti.legacy, dti.epapr) && dti.Meant(ps0, n))
      {
        assert dti.phandle[n] != 0 && ph0[n] == 0 ==> dti.GivenTo(ph0, dti.phandle, n);
        assert R.MayHave(ps0[n], n, ph0[n], dti.resolve);
        if R.Given(ps0[n]) {
          R.GivenHas(ps0[n], n, ph0[n], dti.resolve);
        }
        R.KeptAt(ps0, ph0, dti.props, dti.phandle, n, dti.legacy, dti.epapr);
      }
    }
  }

  lemma NodeExpanded(es: seq<seq<R.Property>>, qs: seq<seq<R.Property>>, n: nat, nodes: Nodes)
    requires R.AllSound(es) && AllExpanded(es, qs, |es|, 0, nodes) && n < |es|
    ensures |qs| == |es| && NodeDone(es[n], qs[n], nodes)
  {
    hide Sound, Expanded;
  }

  lemma BrokenNowhere(es: seq<seq<R.Property>>, nodes: Nodes)
    requires !BrokenUpTo(es, |es|, 0, nodes)
    ensures forall n, i :: 0 <= n < |es| && 0 <= i < |es[n]| ==> !BrokenIn(es[n][i].val.markers, nodes)
  {
    hide BrokenIn;
  }

  lemma NodeSettles(es: seq<seq<R.Property>>, q: seq<R.Property>, n: nat, ph: seq<u32>, nodes: Nodes, plugin: bool, legacy: bool, epapr: bool)
    requires |es| == |ph| == |nodes.fullPath| && R.AllSound(es) && n < |es| && NodeDone(es[n], q, nodes)
    requires R.AllAgree(es, ph, nodes.resolve) && R.FilledUpTo(es, ph, |es|, 0, nodes.resolve, plugin)
    requires forall i :: 0 <= i < |es[n]| ==> !BrokenIn(es[n][i].val.markers, nodes)
    ensures Carries(q, PHANDLE, ph[n], nodes) && Carries(q, LINUX_PHANDLE, ph[n], nodes)
    ensures R.Chosen(es[n], legacy, epapr) ==> R.Chosen(q, legacy, epapr)
    ensures forall i :: 0 <= i < |q| ==> Settled(q[i].val, ph, nodes, plugin)
  {
    hide Sound, Expanded, R.Filled, BrokenIn, Settled, Carries, R.FindNamed, R.Agrees;
    SameNames(es[n], q, PHANDLE);
    SameNames(es[n], q, LINUX_PHANDLE);
    NodeCarries(es[n], q, PHANDLE, n, ph, nodes, plugin);
    NodeCarries(es[n], q, LINUX_PHANDLE, n, ph, nodes, plugin);
    forall i: nat | i < |q|
      ensures Settled(q[i].val, ph, nodes, plugin)
    {
      ExpandedSettles(es[n][i].val, q[i].val, ph, nodes, plugin);
    }
  }

  /** explicit_phandles, phandle_references (which needs it) and path_references, in the order of the table. Every
      property comes out where it was, with its markers; without the paths inserted only cells of references have
      changed; and the properties added are phandle properties. One of the passes fails exactly when no phandles
      satisfy the properties, or a reference means no node. Otherwise no two nodes share a phandle, every reference
      is in place, and a node that has a phandle says so in its properties: in those written in the source, or in
      those of the chosen format. */
  method RunReferences(dti: R.Dti, fullPath: seq<Name>) returns (failed: bool)
    requires dti.Valid() && dti.phandle == seq(dti.count, _ => 0) && dti.next == 1 && |fullPath| == dti.count
    modifies dti
    ensures |dti.phandle| == |dti.props| == dti.count
    ensures forall n :: 0 <= n < dti.count ==> NodeCarried(old(dti.props)[n], dti.props[n], Nodes(dti.resolve, fullPath))
    ensures forall n :: 0 <= n < dti.count ==>
      && R.NewOnes(old(dti.props)[n], dti.props[n], dti.phandle[n], dti.legacy, dti.epapr)
      && (R.Given(old(dti.props)[n]) || dti.phandle[n] == 0 ==> |dti.props[n]| == |old(dti.props)[n]|)
    ensures failed <==>
      || (forall g :: !R.Assignment(old(dti.props), g, dti.resolve))
      || dti.SomeDangling(old(dti.props), dti.count)
      || BrokenUpTo(old(dti.props), dti.count, 0, Nodes(dti.resolve, fullPath))
    ensures !failed ==> R.Apart(dti.phandle)
    ensures !failed ==> forall n, i :: 0 <= n < dti.count && 0 <= i < |dti.props[n]| ==>
      Settled(dti.props[n][i].val, dti.phandle, Nodes(dti.resolve, fullPath), dti.plugin)
    ensures !failed ==> forall n :: 0 <= n < dti.count ==>
      && Carries(dti.props[n], PHANDLE, dti.phandle[n], Nodes(dti.resolve, fullPath))
      && Carries(dti.props[n], LINUX_PHANDLE, dti.phandle[n], Nodes(dti.resolve, fullPath))
    ensures !failed ==> forall n :: 0 <= n < dti.count && dti.phandle[n] != 0 ==>
      R.Given(old(dti.props)[n]) || (R.Chosen(dti.props[n], dti.legacy, dti.epapr) && dti.Meant(old(dti.props), n))
  {
    hide Sound, Settled, R.Filled, BrokenIn, Expanded, R.MayHave, R.Assignment, R.Apart, R.Given, R.Chosen, R.PropsKept, R.NewOnes,
      NodeCarried, Carries, R.Dti.SomeDangling, R.Dti.Meant, BrokenUpTo;
    ghost var ps0 := dti.props;
    var failed1 := PhandlePasses(dti);
    ghost var es: seq<seq<R.Property>>, ph: seq<u32>, nodes := dti.props, dti.phandle, Nodes(dti.resolve, fullPath);
    BrokenAllBack(ps0, es, nodes);
    var failed2 := PathReferences(dti, fullPath);
    failed := failed1 || failed2;
    forall n: nat | n < dti.count
      ensures R.Given(ps0[n]) || ph[n] == 0 ==> |dti.props[n]| == |ps0[n]|
      ensures NodeCarried(ps0[n], dti.props[n], nodes) && R.NewOnes(ps0[n], dti.props[n], ph[n], dti.legacy, dti.epapr)
    {
      NodeExpanded(es, dti.props, n, nodes);
      NodeFollows(ps0[n], es[n], dti.props[n], nodes);
      NewOnesFollow(ps0[n], es[n], dti.props[n], ph[n], dti.legacy, dti.epapr, nodes);
    }
    if !failed {
      BrokenNowhere(es, nodes);
      forall n: nat | n < dti.count
        ensures Carries(dti.props[n], PHANDLE, ph[n], nodes) && Carries(dti.props[n], LINUX_PHANDLE, ph[n], nodes)
        ensures ph[n] != 0 ==> R.Given(ps0[n]) || (R.Chosen(dti.props[n], dti.legacy, dti.epapr) && dti.Meant(ps0, n))
        ensures forall i :: 0 <= i < |dti.props[n]| ==> Settled(dti.props[n][i].val, ph, nodes, dti.plugin)
      {
        NodeExpanded(es, dti.props, n, nodes);
        NodeSettles(es, dti.props[n], n, ph, nodes, dti.plugin, dti.legacy, dti.epapr);
      }
    }
  }
}
