/** overlay_merge in a base of limited size: what it answers, and the tree that is there then. */
module OverlayRoom {
  import opened StructBlock
  import opened Results
  import opened FdtBase
  import opened EditRoom
  import opened Overlay
  import T = Tree

  /** One fragment in the space `sp`. */
  ghost function MergeFragmentIn(sp: Space, b: T.Tree, fragment: T.Tree): Merging {
    var i := T.FindKid(fragment.kids, OVERLAY);
    if i == |fragment.kids| then Merging(0, sp, b) else
    match Target(b, fragment)
    case Err(e) => Merging(e, sp, b)
    case Ok(p) =>
      var m := MergeIn(sp, T.At(b, p), fragment.kids[i]);
      m.(tree := T.Put(b, p, m.tree))
  }

  /** The fragments in order, up to the first that cannot be merged. */
  ghost function MergeFragmentsIn(sp: Space, b: T.Tree, fs: seq<T.Tree>): Merging
    decreases |fs|
  {
    if fs == [] then Merging(0, sp, b) else
    var m := MergeFragmentIn(sp, b, fs[0]);
    if m.ret != 0 then m else MergeFragmentsIn(m.left, m.tree, fs[1..])
  }

  lemma FragmentsStep(sp: Space, b: T.Tree, fs: seq<T.Tree>, k: nat)
    requires k < |fs|
    ensures var m := MergeFragmentIn(sp, b, fs[k]);
      MergeFragmentsIn(sp, b, fs[k..]) == if m.ret != 0 then m else MergeFragmentsIn(m.left, m.tree, fs[k + 1..])
  {
    hide MergeFragmentIn;
    assert fs[k..][0] == fs[k] && fs[k..][1..] == fs[k + 1..];
  }

  lemma FragmentsEnds(sp: Space, b: T.Tree, fs: seq<T.Tree>)
    ensures MergeFragmentsIn(sp, b, fs[0..]) == MergeFragmentsIn(sp, b, fs)
    ensures MergeFragmentsIn(sp, b, fs[|fs|..]) == Merging(0, sp, b)
  {
    assert fs[0..] == fs;
  }

  /** What the answer of a merging step says about the trees alone. */
  predicate Explained(sp: Space, m: Merging, r: Result<T.Tree>) {
    && (m.ret == 0 ==> r == Ok(m.tree))
    && (m.ret == 0 && m.left.Shut? ==> m.left == sp)
    && (m.ret != 0 ==> m.ret == ERR_NOSPACE || (sp.Shut? && m.ret == sp.err) || (r.Err? && m.ret == r.code))
  }

  lemma FragmentExplained(sp: Space, b: T.Tree, fragment: T.Tree)
    ensures Explained(sp, MergeFragmentIn(sp, b, fragment), MergeFragment(b, fragment))
  {
    hide Target, T.FindKid, MergeIn, T.Merge, T.At, T.Put;
    var i := T.FindKid(fragment.kids, OVERLAY);
    if i < |fragment.kids| {
      match Target(b, fragment)
      case Err(e) =>
      case Ok(p) =>
        var t, o := T.At(b, p), fragment.kids[i];
        MergeAnswers(sp, t, o);
        if MergeIn(sp, t, o).ret == 0 {
          MergedIn(sp, t, o);
        }
    }
  }

  /** Merging all fragments answers 0 exactly for the merged tree, and else why it stopped: no room,
      a header that forbids edits, or a fragment without a target. */
  lemma {:induction false} FragmentsExplained(sp: Space, b: T.Tree, fs: seq<T.Tree>)
    ensures Explained(sp, MergeFragmentsIn(sp, b, fs), MergeFragments(b, fs))
    decreases |fs|
  {
    hide MergeFragmentIn, MergeFragment;
    if fs != [] {
      var m := MergeFragmentIn(sp, b, fs[0]);
      FragmentExplained(sp, b, fs[0]);
      if m.ret == 0 {
        FragmentsExplained(m.left, m.tree, fs[1..]);
      }
    }
  }

  // ---- where the room goes -------------------------------------------------------------------------

  lemma {:induction false} PutBytes(t: T.Tree, p: T.Path, x: T.Tree)
    requires T.HasPath(t, p)
    ensures NodeBytes(T.Put(t, p, x)) == NodeBytes(t) + NodeBytes(x) - NodeBytes(T.At(t, p))
    decreases |p|
  {
    hide PropsBytes;
    if p != [] {
      var k := T.Put(t.kids[p[0]], p[1..], x);
      PutBytes(t.kids[p[0]], p[1..], x);
      KidsBytesAt(t.kids, p[0], k);
    }
  }

  /** An overlay that can be merged takes from the gap of the base exactly what the tree and the
      strings have grown by. */
  lemma {:induction false} FragmentsConserve(sp: Space, b: T.Tree, fs: seq<T.Tree>)
    requires sp.Space? && MergeFragmentsIn(sp, b, fs).ret == 0
    ensures var m := MergeFragmentsIn(sp, b, fs); m.left.Space? && Total(m.left, m.tree) == Total(sp, b)
    decreases |fs|
  {
    hide MergeFragmentIn, Total;
    if fs != [] {
      FragmentConserves(sp, b, fs[0]);
      var m := MergeFragmentIn(sp, b, fs[0]);
      FragmentsConserve(m.left, m.tree, fs[1..]);
    }
  }

  lemma FragmentConserves(sp: Space, b: T.Tree, fragment: T.Tree)
    requires sp.Space? && MergeFragmentIn(sp, b, fragment).ret == 0
    ensures var m := MergeFragmentIn(sp, b, fragment); m.left.Space? && Total(m.left, m.tree) == Total(sp, b)
  {
    hide Target, T.FindKid, MergeIn, T.At, T.Put, NodeBytes;
    var i := T.FindKid(fragment.kids, OVERLAY);
    if i < |fragment.kids| {
      var p, o := Target(b, fragment).value, fragment.kids[i];
      Conserves(sp, T.At(b, p), o);
      PutBytes(b, p, MergeIn(sp, T.At(b, p), o).tree);
    }
  }
}
