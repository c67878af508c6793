/** The abstract device tree and the edits libfdt promises on it, one node at a time. */
module Tree {
  import opened Bytes
  import opened StructBlock

  datatype Property = Property(name: Name, val: Data)

  datatype Tree = Tree(name: Name, props: seq<Property>, kids: seq<Tree>)

  // ---- lookup ----------------------------------------------------------------------------

  /** First property of that name, or |ps|. */
  function FindProp(ps: seq<Property>, name: seq<byte>): (i: nat)
    ensures i <= |ps|
    ensures i < |ps| ==> ps[i].name == name
    ensures forall j :: 0 <= j < i ==> ps[j].name != name
  {
    if ps == [] || ps[0].name == name then 0 else
      var i := FindProp(ps[1..], name);
      assert forall j :: 1 <= j < i + 1 ==> ps[j] == ps[1..][j - 1];
      i + 1
  }

  lemma FindPropIs(ps: seq<Property>, name: seq<byte>, i: nat)
    requires i <= |ps| && (i < |ps| ==> ps[i].name == name)
    requires forall j :: 0 <= j < i ==> ps[j].name != name
    ensures FindProp(ps, name) == i
  {
  }

  const AT: byte := 64  // '@'

  /** _fdt_nodename_eq: a name without a unit address also matches a node that has one. */
  predicate NameMatches(node: seq<byte>, s: seq<byte>) {
    s <= node && (|node| == |s| || (AT !in s && node[|s|] == AT))
  }

  /** The node's name is the one asked for, or that with a unit address behind it, when none was asked for. */
  lemma MatchesExactly(node: seq<byte>, s: seq<byte>)
    ensures NameMatches(node, s) <==> node == s || (64 !in s && exists unit: seq<byte> :: node == s + [64] + unit)
  {
    if NameMatches(node, s) && |node| > |s| {
      assert node == s + [64] + node[|s| + 1..];
    }
  }

  /** First child that the name matches, or |kids|. */
  function FindKid(kids: seq<Tree>, name: seq<byte>): (i: nat)
    ensures i <= |kids|
    ensures i < |kids| ==> NameMatches(kids[i].name, name)
    ensures forall j :: 0 <= j < i ==> !NameMatches(kids[j].name, name)
  {
    if kids == [] || NameMatches(kids[0].name, name) then 0 else
      var i := FindKid(kids[1..], name);
      assert forall j :: 1 <= j < i + 1 ==> kids[j] == kids[1..][j - 1];
      i + 1
  }

  lemma FindKidIs(kids: seq<Tree>, name: seq<byte>, i: nat)
    requires i <= |kids| && (i < |kids| ==> NameMatches(kids[i].name, name))
    requires forall j :: 0 <= j < i ==> !NameMatches(kids[j].name, name)
    ensures FindKid(kids, name) == i
  {
  }

  function GetProp(t: Tree, name: seq<byte>): (r: seq<Property>)
    ensures |r| <= 1
  {
    var i := FindProp(t.props, name);
    if i < |t.props| then [t.props[i]] else []
  }

  // ---- edits at one node -----------------------------------------------------------------

  /** An existing property keeps its place; a new one becomes the first. */
  function SetProp(t: Tree, name: Name, val: Data): Tree {
    var i := FindProp(t.props, name);
    if i < |t.props| then t.(props := t.props[i := Property(name, val)])
    else t.(props := [Property(name, val)] + t.props)
  }

  /** The value of the first property of that name; nothing when there is none. */
  function ValueOf(t: Tree, name: seq<byte>): Data {
    var i := FindProp(t.props, name);
    if i < |t.props| then t.props[i].val else []
  }

  /** `data` with `val` written over it from `idx` on. */
  function Patched(data: seq<byte>, idx: nat, val: seq<byte>): (r: seq<byte>)
    requires idx + |val| <= |data|
    ensures |r| == |data|
  {
    data[..idx] + val + data[idx + |val|..]
  }

  /** Part of the value of property `i` overwritten. */
  function PatchProp(t: Tree, i: nat, idx: nat, val: seq<byte>): Tree
    requires i < |t.props| && idx + |val| <= |t.props[i].val|
  {
    t.(props := t.props[i := t.props[i].(val := Patched(t.props[i].val, idx, val))])
  }

  function AddKid(t: Tree, name: Name): Tree {
    t.(kids := [Tree(name, [], [])] + t.kids)
  }

  function RemoveAt<T>(s: seq<T>, i: nat): (r: seq<T>)
    requires i < |s|
    ensures |r| == |s| - 1
  {
    s[..i] + s[i + 1..]
  }

  function DelProp(t: Tree, i: nat): Tree
    requires i < |t.props|
  {
    t.(props := RemoveAt(t.props, i))
  }

  function DelKid(t: Tree, i: nat): Tree
    requires i < |t.kids|
  {
    t.(kids := RemoveAt(t.kids, i))
  }

  // ---- deep merge ------------------------------------------------------------------------

  function MergeProps(t: Tree, ps: seq<Property>): Tree
    decreases |ps|
  {
    if ps == [] then t else MergeProps(SetProp(t, ps[0].name, ps[0].val), ps[1..])
  }

  /** The children with `o` merged into the one its name matches, or into a new first child. */
  function MergeKid(kids: seq<Tree>, o: Tree): seq<Tree>
    decreases o, 1
  {
    var i := FindKid(kids, o.name);
    if i < |kids| then kids[i := Merge(kids[i], o)]
    else [Merge(Tree(o.name, [], []), o)] + kids
  }

  function MergeKids(kids: seq<Tree>, os: seq<Tree>): seq<Tree>
    decreases os
  {
    if os == [] then kids else MergeKids(MergeKid(kids, os[0]), os[1..])
  }

  /** overlay_apply_node as a function of two trees. */
  function Merge(t: Tree, o: Tree): Tree
    decreases o, 0
  {
    var p := MergeProps(t, o.props);
    p.(kids := MergeKids(p.kids, o.kids))
  }

  lemma MergeNothing(t: Tree)
    ensures MergeProps(t, []) == t && MergeKids(t.kids, []) == t.kids
  {
  }

  lemma {:induction false} MergePropsSnoc(t: Tree, ps: seq<Property>, p: Property)
    ensures MergeProps(t, ps + [p]) == SetProp(MergeProps(t, ps), p.name, p.val)
    decreases |ps|
  {
    hide SetProp;
    if ps == [] {
      assert (ps + [p])[1..] == [];
    } else {
      assert (ps + [p])[0] == ps[0] && (ps + [p])[1..] == ps[1..] + [p];
      MergePropsSnoc(SetProp(t, ps[0].name, ps[0].val), ps[1..], p);
    }
  }

  lemma {:induction false} MergeKidsSnoc(kids: seq<Tree>, os: seq<Tree>, o: Tree)
    ensures MergeKids(kids, os + [o]) == MergeKid(MergeKids(kids, os), o)
    decreases |os|
  {
    hide MergeKid;
    if os == [] {
      assert (os + [o])[0] == o && (os + [o])[1..] == [];
    } else {
      assert (os + [o])[0] == os[0] && (os + [o])[1..] == os[1..] + [o];
      MergeKidsSnoc(MergeKid(kids, os[0]), os[1..], o);
    }
  }

  /** Properties are merged without a look at the children. */
  lemma {:induction false} MergePropsKids(t: Tree, ps: seq<Property>)
    ensures MergeProps(t, ps).kids == t.kids && MergeProps(t, ps).name == t.name
    decreases |ps|
  {
    if ps != [] {
      MergePropsKids(SetProp(t, ps[0].name, ps[0].val), ps[1..]);
    }
  }

  // ---- nodes by their place in the tree --------------------------------------------------

  /** The place of a node: which child to take at every step down from the root. */
  type Path = seq<nat>

  predicate HasPath(t: Tree, p: Path) {
    p == [] || (p[0] < |t.kids| && HasPath(t.kids[p[0]], p[1..]))
  }

  function At(t: Tree, p: Path): Tree
    requires HasPath(t, p)
  {
    if p == [] then t else At(t.kids[p[0]], p[1..])
  }

  /** The tree with the node at `p` replaced. */
  function Put(t: Tree, p: Path, x: Tree): (r: Tree)
    requires HasPath(t, p)
    ensures HasPath(r, p) && At(r, p) == x
  {
    if p == [] then x else t.(kids := t.kids[p[0] := Put(t.kids[p[0]], p[1..], x)])
  }

  /** Two places neither of which lies below the other. */
  predicate Diverge(p: Path, q: Path) {
    p != [] && q != [] && (p[0] != q[0] || Diverge(p[1..], q[1..]))
  }

  /** A replacement is not seen from a place beside it. */
  lemma {:induction false} PutElsewhere(t: Tree, p: Path, x: Tree, q: Path)
    requires HasPath(t, p) && HasPath(t, q) && Diverge(p, q)
    ensures HasPath(Put(t, p, x), q) && At(Put(t, p, x), q) == At(t, q)
    decreases |p|
  {
    if p[0] == q[0] {
      PutElsewhere(t.kids[p[0]], p[1..], x, q[1..]);
    }
  }

  function Prefixed(k: nat, ps: seq<Path>): (r: seq<Path>)
    ensures |r| == |ps|
    ensures forall i :: 0 <= i < |ps| ==> r[i] == [k] + ps[i]
  {
    seq(|ps|, i requires 0 <= i < |ps| => [k] + ps[i])
  }

  /** The places of all nodes, a node before its children. */
  function Places(t: Tree): (r: seq<Path>)
    ensures r != [] && r[0] == []
    decreases t, 0
  {
    [[]] + KidPlaces(t.kids, 0)
  }

  /** The places of all nodes at or below children that are counted from `k` on. */
  function KidPlaces(kids: seq<Tree>, k: nat): seq<Path>
    decreases kids
  {
    if kids == [] then [] else Prefixed(k, Places(kids[0])) + KidPlaces(kids[1..], k + 1)
  }
}
