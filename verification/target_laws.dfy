/** Which node of the base a fragment is merged into: said of the trees, by phandles and paths. */
module TargetLaws {
  import opened Bytes
  import opened StructBlock
  import opened Results
  import opened FdtBase
  import opened Naming
  import opened Overlay
  import T = Tree

  /** The first property of that name is there. */
  predicate HasProp(t: T.Tree, name: Name) {
    T.FindProp(t.props, name) < |t.props|
  }

  /** The fragment gives the phandle of its target. */
  predicate NamesPhandle(fragment: T.Tree, h: u32) {
    HasProp(fragment, TARGET) && |T.ValueOf(fragment, TARGET)| == 4 && Word(T.ValueOf(fragment, TARGET), 0) == h
  }

  /** Its `target`, if there is one, says nothing. */
  predicate NamesNone(fragment: T.Tree) {
    !HasProp(fragment, TARGET) || NamesPhandle(fragment, 0)
  }

  /** The node at `p` is the first, in the order in which nodes are visited, to have the phandle. */
  ghost predicate FirstHas(b: T.Tree, p: Path, h: u32) {
    exists i :: 0 <= i < |T.Places(b)| && T.Places(b)[i] == p && HasAt(b, p, h)
      && forall k :: 0 <= k < i ==> !HasAt(b, T.Places(b)[k], h)
  }

  predicate HasAt(b: T.Tree, p: Path, h: u32) {
    T.HasPath(b, p) && PhandleOf(T.At(b, p)) == h
  }

  /** The lookup answers the first node with the phandle, and fails exactly where there is none. */
  lemma PhandleFinds(b: T.Tree, h: u32)
    requires 0 < h < NO_PHANDLE
    ensures var r := NodeByPhandle(b, h);
      && (r.Ok? <==> exists p :: HasAt(b, p, h))
      && (r.Ok? ==> HasAt(b, r.value, h) && FirstHas(b, r.value, h))
      && (r.Err? ==> r.code == ERR_NOTFOUND)
  {
    hide PhandleOf;
    PlacesValid(b);
    var r := NodeByPhandle(b, h);
    if r.Ok? {
      var i := PlaceWith(b, T.Places(b), h, 0);
      assert T.Places(b)[i] == r.value && HasAt(b, r.value, h);
    }
    if exists p :: HasAt(b, p, h) {
      var p :| HasAt(b, p, h);
      NodeByPhandleFinds(b, h, p);
    }
  }

  /** A fragment that names a phandle is merged into the first node that has it, and into nothing exactly where
      no node has it. */
  lemma TargetByPhandle(b: T.Tree, fragment: T.Tree, h: u32)
    requires NamesPhandle(fragment, h) && 0 < h < NO_PHANDLE
    ensures var r := Target(b, fragment);
      && (r.Ok? <==> exists p :: HasAt(b, p, h))
      && (r.Ok? ==> HasAt(b, r.value, h) && FirstHas(b, r.value, h))
      && (r.Err? ==> r.code == ERR_NOTFOUND)
  {
    hide T.Places, Word, NodeByPhandle, HasAt, FirstHas;
    PhandleFinds(b, h);
  }

  /** Without a phandle it is merged into the node at its target-path. */
  lemma TargetByPath(b: T.Tree, fragment: T.Tree)
    requires NamesNone(fragment)
    ensures Target(b, fragment) ==
            if HasProp(fragment, TARGET_PATH) && StringAt(T.ValueOf(fragment, TARGET_PATH), 0)
            then NodeByPath(b, CStr(T.ValueOf(fragment, TARGET_PATH), 0)) else Err(ERR_BADOVERLAY)
  {
    hide Word, NodeByPath, NodeByPhandle;
  }

  /** And a target that is no phandle is an error. */
  lemma TargetBroken(b: T.Tree, fragment: T.Tree)
    requires HasProp(fragment, TARGET) && (|T.ValueOf(fragment, TARGET)| != 4 || NamesPhandle(fragment, NO_PHANDLE))
    ensures Target(b, fragment) == Err(ERR_BADPHANDLE)
  {
    hide Word, NodeByPath, NodeByPhandle;
  }

  // ---- merging one fragment ------------------------------------------------------------------------------

  predicate HasOverlay(fragment: T.Tree) {
    T.FindKid(fragment.kids, OVERLAY) < |fragment.kids|
  }

  /** The child that is merged. */
  function OverlayOf(fragment: T.Tree): T.Tree
    requires HasOverlay(fragment)
  {
    fragment.kids[T.FindKid(fragment.kids, OVERLAY)]
  }

  /** `r` is `b` with the node at `p`, and no other, merged with `o`. */
  ghost predicate MergedAt(b: T.Tree, r: T.Tree, p: Path, o: T.Tree) {
    && T.HasPath(b, p) && T.HasPath(r, p) && T.At(r, p) == T.Merge(T.At(b, p), o)
    && (forall q :: T.HasPath(b, q) && T.Diverge(p, q) ==> T.HasPath(r, q) && T.At(r, q) == T.At(b, q))
    && (forall q :: T.HasPath(b, q) && q < p ==> T.HasPath(r, q) && SameButKids(T.At(b, q), T.At(r, q)))
  }

  predicate SameButKids(x: T.Tree, y: T.Tree) {
    x.name == y.name && x.props == y.props && |x.kids| == |y.kids|
  }

  lemma {:induction false} PutAbove(t: T.Tree, p: Path, x: T.Tree, q: Path)
    requires T.HasPath(t, p) && T.HasPath(t, q) && q < p
    ensures T.HasPath(T.Put(t, p, x), q) && SameButKids(T.At(t, q), T.At(T.Put(t, p, x), q))
    decreases |p|
  {
    if q != [] {
      PutAbove(t.kids[p[0]], p[1..], x, q[1..]);
    }
  }

  lemma PutMerges(b: T.Tree, p: Path, o: T.Tree)
    requires T.HasPath(b, p)
    ensures MergedAt(b, T.Put(b, p, T.Merge(T.At(b, p), o)), p, o)
  {
    hide T.Merge, T.At, T.HasPath, T.Put, SameButKids, T.Diverge;
    var x := T.Merge(T.At(b, p), o);
    forall q | T.HasPath(b, q) && T.Diverge(p, q)
      ensures T.HasPath(T.Put(b, p, x), q) && T.At(T.Put(b, p, x), q) == T.At(b, q)
    {
      T.PutElsewhere(b, p, x, q);
    }
    forall q | T.HasPath(b, q) && q < p
      ensures T.HasPath(T.Put(b, p, x), q) && SameButKids(T.At(b, q), T.At(T.Put(b, p, x), q))
    {
      PutAbove(b, p, x, q);
    }
  }

  /** Where a single node has the phandle that a fragment names, exactly that node is merged with its overlay. */
  lemma FragmentByPhandle(b: T.Tree, fragment: T.Tree, h: u32, p: Path)
    requires NamesPhandle(fragment, h) && 0 < h < NO_PHANDLE && HasOverlay(fragment)
    requires HasAt(b, p, h) && forall q :: HasAt(b, q, h) ==> q == p
    ensures MergeFragment(b, fragment).Ok? && MergedAt(b, MergeFragment(b, fragment).value, p, OverlayOf(fragment))
  {
    hide Target, HasAt, FirstHas, MergedAt, T.FindKid, NamesPhandle;
    TargetByPhandle(b, fragment, h);
    HasPathOf(b, p, h);
    PutMerges(b, p, OverlayOf(fragment));
  }

  lemma HasPathOf(b: T.Tree, p: Path, h: u32)
    requires HasAt(b, p, h)
    ensures T.HasPath(b, p)
  {
  }

  /** And so is the node at its target-path, where it names no phandle. */
  lemma FragmentByPath(b: T.Tree, fragment: T.Tree)
    requires NamesNone(fragment) && HasOverlay(fragment)
    requires HasProp(fragment, TARGET_PATH) && StringAt(T.ValueOf(fragment, TARGET_PATH), 0)
    ensures var r := NodeByPath(b, CStr(T.ValueOf(fragment, TARGET_PATH), 0));
      if r.Err? then MergeFragment(b, fragment) == Err(r.code)
      else MergeFragment(b, fragment).Ok? && MergedAt(b, MergeFragment(b, fragment).value, r.value, OverlayOf(fragment))
  {
    hide Target, MergedAt, T.FindKid, NodeByPath, StringAt, CStr, NamesNone;
    TargetByPath(b, fragment);
    var r := NodeByPath(b, CStr(T.ValueOf(fragment, TARGET_PATH), 0));
    if r.Ok? {
      PutMerges(b, r.value, OverlayOf(fragment));
    }
  }

  /** A child of the overlay without an `__overlay__` node is no fragment. */
  lemma NoFragment(b: T.Tree, fragment: T.Tree)
    requires !HasOverlay(fragment)
    ensures MergeFragment(b, fragment) == Ok(b)
  {
  }
}
