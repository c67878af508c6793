/** How the nodes of a tree are named: phandles, paths and aliases (Devicetree Specification,
    sections 2.2.3, 2.3.3 and 3.3). */
module Naming {
  import opened Bytes
  import opened StructBlock
  import opened Results
  import opened FdtBase
  import T = Tree

  type Path = T.Path

  const PHANDLE: Name := Ascii("phandle")
  const LINUX_PHANDLE: Name := Ascii("linux,phandle")
  const ALIASES: Name := Ascii("aliases")
  const SLASH: byte := 47

  // ---- phandles ----------------------------------------------------------------------------

  /** The property holds one cell. */
  predicate HasCell(t: T.Tree, name: seq<byte>) {
    T.FindProp(t.props, name) < |t.props| && |T.ValueOf(t, name)| == 4
  }

  /** fdt_get_phandle: 0 is "no phandle". */
  function PhandleOf(t: T.Tree): u32 {
    if HasCell(t, PHANDLE) then Word(T.ValueOf(t, PHANDLE), 0)
    else if HasCell(t, LINUX_PHANDLE) then Word(T.ValueOf(t, LINUX_PHANDLE), 0)
    else 0
  }

  /** The largest phandle of the nodes at the first `n` places, all-ones not counted. */
  function MaxOver(t: T.Tree, ps: seq<Path>, n: nat): (m: u32)
    requires n <= |ps| && forall i :: 0 <= i < |ps| ==> T.HasPath(t, ps[i])
  {
    if n == 0 then 0 else
      var m, h := MaxOver(t, ps, n - 1), PhandleOf(T.At(t, ps[n - 1]));
      if h != NO_PHANDLE && h > m then h else m
  }

  lemma {:induction false} PlacesValid(t: T.Tree)
    ensures forall i :: 0 <= i < |T.Places(t)| ==> T.HasPath(t, T.Places(t)[i])
    decreases t, 1
  {
    KidPlacesValid(t.kids, 0);
    forall i | 0 <= i < |T.Places(t)|
      ensures T.HasPath(t, T.Places(t)[i])
    {
      if i > 0 {
        assert T.Places(t)[i] == T.KidPlaces(t.kids, 0)[i - 1];
      }
    }
  }

  lemma {:induction false} KidPlacesValid(kids: seq<T.Tree>, base: nat)
    ensures forall i :: 0 <= i < |T.KidPlaces(kids, base)| ==>
      var p := T.KidPlaces(kids, base)[i];
      p != [] && base <= p[0] < base + |kids| && T.HasPath(kids[p[0] - base], p[1..])
    decreases kids
  {
    if kids != [] {
      PlacesValid(kids[0]);
      KidPlacesValid(kids[1..], base + 1);
      var pa, pb := T.Prefixed(base, T.Places(kids[0])), T.KidPlaces(kids[1..], base + 1);
      forall i | 0 <= i < |pa + pb|
        ensures var p := (pa + pb)[i];
          p != [] && base <= p[0] < base + |kids| && T.HasPath(kids[p[0] - base], p[1..])
      {
        if i < |pa| {
          assert pa[i][1..] == T.Places(kids[0])[i];
        } else {
          var p := pb[i - |pa|];
          assert kids[1..][p[0] - (base + 1)] == kids[p[0] - base];
        }
      }
    }
  }

  /** Every node has a place in the list. */
  lemma {:induction false} PlacesComplete(t: T.Tree, p: Path) returns (i: nat)
    requires T.HasPath(t, p)
    ensures i < |T.Places(t)| && T.Places(t)[i] == p
    decreases t, 1
  {
    if p == [] {
      i := 0;
    } else {
      i := KidPlacesComplete(t.kids, 0, p);
      assert T.Places(t)[i + 1] == T.KidPlaces(t.kids, 0)[i];
      i := i + 1;
    }
  }

  lemma {:induction false} KidPlacesComplete(kids: seq<T.Tree>, base: nat, p: Path) returns (i: nat)
    requires p != [] && base <= p[0] < base + |kids| && T.HasPath(kids[p[0] - base], p[1..])
    ensures i < |T.KidPlaces(kids, base)| && T.KidPlaces(kids, base)[i] == p
    decreases kids
  {
    var pa, pb := T.Prefixed(base, T.Places(kids[0])), T.KidPlaces(kids[1..], base + 1);
    if p[0] == base {
      i := PlacesComplete(kids[0], p[1..]);
      assert pa[i] == p;
    } else {
      assert kids[1..][p[0] - (base + 1)] == kids[p[0] - base];
      i := KidPlacesComplete(kids[1..], base + 1, p);
      i := i + |pa|;
    }
  }

  /** fdt_get_max_phandle. */
  function MaxPhandle(t: T.Tree): u32 {
    PlacesValid(t);
    MaxOver(t, T.Places(t), |T.Places(t)|)
  }

  /** No node of the tree has a larger phandle, all-ones apart; and some node has that one. */
  lemma MaxPhandleBounds(t: T.Tree)
    ensures forall p :: T.HasPath(t, p) && PhandleOf(T.At(t, p)) != NO_PHANDLE ==> PhandleOf(T.At(t, p)) <= MaxPhandle(t)
    ensures MaxPhandle(t) == 0 || exists p :: T.HasPath(t, p) && PhandleOf(T.At(t, p)) == MaxPhandle(t)
    ensures MaxPhandle(t) != NO_PHANDLE
  {
    PlacesValid(t);
    MaxOverBounds(t, T.Places(t), |T.Places(t)|);
    forall p | T.HasPath(t, p) && PhandleOf(T.At(t, p)) != NO_PHANDLE
      ensures PhandleOf(T.At(t, p)) <= MaxPhandle(t)
    {
      var i := PlacesComplete(t, p);
    }
  }

  lemma {:induction false} MaxOverBounds(t: T.Tree, ps: seq<Path>, n: nat)
    requires n <= |ps| && forall i :: 0 <= i < |ps| ==> T.HasPath(t, ps[i])
    ensures MaxOver(t, ps, n) != NO_PHANDLE
    ensures forall i :: 0 <= i < n && PhandleOf(T.At(t, ps[i])) != NO_PHANDLE ==> PhandleOf(T.At(t, ps[i])) <= MaxOver(t, ps, n)
    ensures MaxOver(t, ps, n) == 0 || exists p :: T.HasPath(t, p) && PhandleOf(T.At(t, p)) == MaxOver(t, ps, n)
  {
    hide PhandleOf;
    if n > 0 {
      MaxOverBounds(t, ps, n - 1);
      assert T.HasPath(t, ps[n - 1]);
      assert PhandleOf(T.At(t, ps[n - 1])) == PhandleOf(T.At(t, ps[n - 1]));
    }
  }

  /** Number of the first place, from `n` on, whose node has the phandle. */
  function PlaceWith(t: T.Tree, ps: seq<Path>, h: u32, n: nat): (r: nat)
    requires n <= |ps| && forall i :: 0 <= i < |ps| ==> T.HasPath(t, ps[i])
    ensures n <= r <= |ps|
    ensures r < |ps| ==> PhandleOf(T.At(t, ps[r])) == h
    ensures forall i :: n <= i < r ==> PhandleOf(T.At(t, ps[i])) != h
    decreases |ps| - n
  {
    if n == |ps| || PhandleOf(T.At(t, ps[n])) == h then n else PlaceWith(t, ps, h, n + 1)
  }

  /** fdt_node_offset_by_phandle, as a place: the first node that has the phandle. */
  function NodeByPhandle(t: T.Tree, h: u32): (r: Result<Path>)
    ensures r.Ok? ==> T.HasPath(t, r.value) && PhandleOf(T.At(t, r.value)) == h
  {
    if h == 0 || h == NO_PHANDLE then Err(ERR_BADPHANDLE) else
      PlacesValid(t);
      var i := PlaceWith(t, T.Places(t), h, 0);
      if i < |T.Places(t)| then Ok(T.Places(t)[i]) else Err(ERR_NOTFOUND)
  }

  /** The lookup fails only where no node has the phandle. */
  lemma NodeByPhandleFinds(t: T.Tree, h: u32, p: Path)
    requires h != 0 && h != NO_PHANDLE && T.HasPath(t, p) && PhandleOf(T.At(t, p)) == h
    ensures NodeByPhandle(t, h).Ok?
  {
    PlacesValid(t);
    var i := PlacesComplete(t, p);
  }

  // ---- paths ---------------------------------------------------------------------------------

  /** Where the byte first stands, or the length. */
  function IndexOf(s: seq<byte>, b: byte): (i: nat)
    ensures i <= |s| && (i < |s| ==> s[i] == b)
    ensures forall j :: 0 <= j < i ==> s[j] != b
  {
    if s == [] || s[0] == b then 0 else 1 + IndexOf(s[1..], b)
  }

  /** The node names in a path; repeated and trailing slashes do not count. */
  function Components(path: Name): (r: seq<Name>)
    ensures forall i :: 0 <= i < |r| ==> r[i] != [] && SLASH !in r[i]
  {
    if path == [] then [] else
    if path[0] == SLASH then Components(path[1..])
    else
      var n := IndexOf(path, SLASH);
      [path[..n]] + Components(path[n..])
  }

  /** Down from the node at `at`, one name after the other. */
  function Descend(t: T.Tree, at: Path, names: seq<Name>): (r: Result<Path>)
    requires T.HasPath(t, at)
    ensures r.Ok? ==> T.HasPath(t, r.value)
    ensures r.Err? ==> r.code == ERR_NOTFOUND
    decreases |names|
  {
    if names == [] then Ok(at) else
      var kids := T.At(t, at).kids;
      var i := T.FindKid(kids, names[0]);
      if i == |kids| then Err(ERR_NOTFOUND) else
        HasPathSnoc(t, at, i);
        Descend(t, at + [i], names[1..])
  }

  lemma {:induction false} HasPathSnoc(t: T.Tree, p: Path, k: nat)
    requires T.HasPath(t, p) && k < |T.At(t, p).kids|
    ensures T.HasPath(t, p + [k]) && T.At(t, p + [k]) == T.At(t, p).kids[k]
    decreases |p|
  {
    if p != [] {
      assert (p + [k])[1..] == p[1..] + [k];
      HasPathSnoc(t.kids[p[0]], p[1..], k);
    }
  }

  predicate IsAbsolute(path: seq<byte>) {
    path != [] && path[0] == SLASH
  }

  /** The node at an absolute path. */
  function NodeAtPath(t: T.Tree, path: Name): (r: Result<Path>)
    ensures r.Ok? ==> T.HasPath(t, r.value)
    ensures r.Err? ==> r.code == ERR_NOTFOUND
  {
    Descend(t, [], Components(path))
  }

  /** fdt_get_alias: the value of the alias, whatever it is. */
  function AliasValue(t: T.Tree, name: Name): (r: Result<Data>)
    ensures r.Err? ==> r.code == ERR_BADPATH
  {
    var a := Descend(t, [], [ALIASES]);
    if a.Err? then Err(ERR_BADPATH) else
      var ps := T.At(t, a.value).props;
      var i := T.FindProp(ps, name);
      if i == |ps| then Err(ERR_BADPATH) else Ok(ps[i].val)
  }

  /** The alias in front of a path, its value, the alias in front of that, and so on: within `d` steps
      there is none any more, and the values on the way are strings. */
  predicate PathEnds(t: T.Tree, path: Name, d: nat)
    decreases d
  {
    IsAbsolute(path) ||
    match AliasValue(t, path[..IndexOf(path, SLASH)])
    case Err(_) => true
    case Ok(val) => StringAt(val, 0) && d > 0 && PathEnds(t, CStr(val, 0), d - 1)
  }

  /** fdt_path_offset, as a place: an absolute path, or an alias, what it stands for in its turn,
      followed by such a path. */
  function NodeWithin(t: T.Tree, path: Name, d: nat): (r: Result<Path>)
    requires PathEnds(t, path, d)
    ensures r.Ok? ==> T.HasPath(t, r.value)
    decreases d
  {
    if IsAbsolute(path) then NodeAtPath(t, path) else
      var n := IndexOf(path, SLASH);
      match AliasValue(t, path[..n])
      case Err(e) => Err(e)
      case Ok(val) =>
        match NodeWithin(t, CStr(val, 0), d - 1)
        case Err(e) => Err(e)
        case Ok(at) => Descend(t, at, Components(path[n..]))
  }

  lemma {:induction false} NodeWithinOnce(t: T.Tree, path: Name, d: nat, e: nat)
    requires PathEnds(t, path, d) && PathEnds(t, path, e)
    ensures NodeWithin(t, path, d) == NodeWithin(t, path, e)
    decreases d
  {
    hide AliasValue, Descend, Components, StringAt, CStr, IndexOf;
    if !IsAbsolute(path) {
      var r := AliasValue(t, path[..IndexOf(path, SLASH)]);
      if r.Ok? {
        NodeWithinOnce(t, CStr(r.value, 0), d - 1, e - 1);
      }
    }
  }

  /** A path the lookup of which comes to an end: aliases in it do not stand for themselves. */
  ghost predicate Ends(t: T.Tree, path: Name) {
    exists d: nat :: PathEnds(t, path, d)
  }

  ghost function NodeByPath(t: T.Tree, path: Name): (r: Result<Path>)
    ensures r.Ok? ==> T.HasPath(t, r.value)
  {
    if Ends(t, path) then
      var d: nat :| PathEnds(t, path, d);
      NodeWithin(t, path, d)
    else Err(ERR_BADPATH)
  }

  lemma NodeByPathIs(t: T.Tree, path: Name, d: nat)
    requires PathEnds(t, path, d)
    ensures Ends(t, path) && NodeByPath(t, path) == NodeWithin(t, path, d)
  {
    hide PathEnds, NodeWithin;
    var e: nat :| PathEnds(t, path, e) && NodeByPath(t, path) == NodeWithin(t, path, e);
    NodeWithinOnce(t, path, d, e);
  }

  lemma AbsoluteEnds(t: T.Tree, path: Name)
    requires IsAbsolute(path)
    ensures PathEnds(t, path, 0) && Ends(t, path) && NodeByPath(t, path) == NodeAtPath(t, path)
  {
    NodeByPathIs(t, path, 0);
  }

  /** A property value that is used as a path: a string whose lookup comes to an end. */
  ghost predicate PathValue(t: T.Tree, val: seq<byte>) {
    StringAt(val, 0) && Ends(t, CStr(val, 0))
  }

  // ---- aliases ------------------------------------------------------------------------------------

  /** On from where a lookup has led. */
  function DescendOn(t: T.Tree, r: Result<Path>, rest: Name): Result<Path>
    requires r.Ok? ==> T.HasPath(t, r.value)
  {
    if r.Err? then r else Descend(t, r.value, Components(rest))
  }

  lemma ComponentsNext(path: Name)
    requires path != []
    ensures var n := IndexOf(path, SLASH);
      Components(path) == if path[0] == SLASH then Components(path[1..]) else [path[..n]] + Components(path[n..])
    ensures path[0] != SLASH ==> IndexOf(path, SLASH) > 0
  {
  }

  lemma {:induction false} ComponentsConcat(a: Name, b: Name)
    requires b == [] || b[0] == SLASH
    ensures Components(a + b) == Components(a) + Components(b)
    decreases |a|
  {
    hide Components, IndexOf;
    if a == [] {
      NoComponents();
      assert a + b == b;
    } else {
      ComponentsNext(a);
      ComponentsNext(a + b);
      IndexOfConcat(a, b);
      var n := if a[0] == SLASH then 1 else IndexOf(a, SLASH);
      Taken(a, b, n);
      ComponentsConcat(a[n..], b);
    }
  }

  lemma Taken(a: Name, b: Name, n: nat)
    requires n <= |a| && a != []
    ensures (a + b)[..n] == a[..n] && (a + b)[n..] == a[n..] + b && (a + b)[0] == a[0]
  {
  }

  lemma NoComponents()
    ensures Components([]) == []
  {
  }

  lemma {:induction false} IndexOfConcat(a: Name, b: Name)
    requires b == [] || b[0] == SLASH
    ensures IndexOf(a + b, SLASH) == IndexOf(a, SLASH)
    decreases |a|
  {
    if a == [] {
      assert a + b == b;
    } else if a[0] != SLASH {
      assert (a + b)[1..] == a[1..] + b;
      IndexOfConcat(a[1..], b);
    }
  }

  lemma {:induction false} DescendConcat(t: T.Tree, at: Path, a: seq<Name>, b: seq<Name>)
    requires T.HasPath(t, at)
    ensures Descend(t, at, a + b) ==
            var r := Descend(t, at, a); if r.Err? then r else Descend(t, r.value, b)
    decreases |a|
  {
    hide T.FindKid, T.At, T.HasPath;
    if a == [] {
      assert a + b == b;
    } else {
      assert (a + b)[1..] == a[1..] + b && (a + b)[0] == a[0];
      var i := T.FindKid(T.At(t, at).kids, a[0]);
      if i < |T.At(t, at).kids| {
        HasPathSnoc(t, at, i);
        DescendConcat(t, at + [i], a[1..], b);
      }
    }
  }

  /** A path behind another one, be that absolute or behind an alias. */
  lemma WithinBehind(t: T.Tree, s: Name, rest: Name, d: nat)
    requires s != [] && (rest == [] || rest[0] == SLASH)
    ensures PathEnds(t, s + rest, d) == PathEnds(t, s, d)
    ensures PathEnds(t, s, d) ==> NodeWithin(t, s + rest, d) == DescendOn(t, NodeWithin(t, s, d), rest)
  {
    hide Components, Descend, AliasValue, StringAt, CStr, T.HasPath;
    var n := IndexOf(s, SLASH);
    IndexOfConcat(s, rest);
    assert (s + rest)[0] == s[0] && (s + rest)[..n] == s[..n] && (s + rest)[n..] == s[n..] + rest;
    ComponentsConcat(s, rest);
    ComponentsConcat(s[n..], rest);
    if PathEnds(t, s, d) {
      if IsAbsolute(s) {
        RootHasPath(t);
        DescendConcat(t, [], Components(s), Components(rest));
      } else {
        var v := AliasValue(t, s[..n]);
        if v.Ok? && NodeWithin(t, CStr(v.value, 0), d - 1).Ok? {
          DescendConcat(t, NodeWithin(t, CStr(v.value, 0), d - 1).value, Components(s[n..]), Components(rest));
        }
      }
    }
  }

  lemma RootHasPath(t: T.Tree)
    ensures T.HasPath(t, [])
  {
  }

  /** An alias in front of a path may be replaced by what it stands for. */
  lemma AliasExpands(t: T.Tree, path: Name)
    requires !IsAbsolute(path) && AliasValue(t, path[..IndexOf(path, SLASH)]).Ok?
    requires var val := AliasValue(t, path[..IndexOf(path, SLASH)]).value; StringAt(val, 0) && CStr(val, 0) != []
    ensures var n := IndexOf(path, SLASH);
      var s := CStr(AliasValue(t, path[..n]).value, 0);
      && (Ends(t, path) <==> Ends(t, s + path[n..])) && NodeByPath(t, path) == NodeByPath(t, s + path[n..])
  {
    hide Components, Descend, AliasValue, StringAt, CStr, NodeWithin, PathEnds, NodeByPath;
    var n := IndexOf(path, SLASH);
    var s, rest := CStr(AliasValue(t, path[..n]).value, 0), path[n..];
    if d: nat :| PathEnds(t, path, d) {
      AliasStep(t, path, d);
      WithinBehind(t, s, rest, d - 1);
      NodeByPathIs(t, path, d);
      NodeByPathIs(t, s + rest, d - 1);
    } else if d: nat :| PathEnds(t, s + rest, d) {
      WithinBehind(t, s, rest, d);
      AliasStep(t, path, d + 1);
    } else {
      NoEnd(t, path);
      NoEnd(t, s + rest);
    }
  }

  lemma NoEnd(t: T.Tree, path: Name)
    requires !Ends(t, path)
    ensures NodeByPath(t, path) == Err(ERR_BADPATH)
  {
    hide Ends;
  }

  lemma AliasStep(t: T.Tree, path: Name, d: nat)
    requires !IsAbsolute(path) && AliasValue(t, path[..IndexOf(path, SLASH)]).Ok?
    requires StringAt(AliasValue(t, path[..IndexOf(path, SLASH)]).value, 0)
    ensures var n := IndexOf(path, SLASH);
      var s := CStr(AliasValue(t, path[..n]).value, 0);
      && PathEnds(t, path, d) == (d > 0 && PathEnds(t, s, d - 1))
      && (PathEnds(t, path, d) ==> NodeWithin(t, path, d) == DescendOn(t, NodeWithin(t, s, d - 1), path[n..]))
  {
    hide Components, Descend, AliasValue, StringAt, CStr;
  }

  /** Aliases are the properties of the root's child of that name. */
  lemma AliasesAre(t: T.Tree, name: Name)
    ensures var k := T.FindKid(t.kids, Ascii("aliases"));
      AliasValue(t, name) ==
        if k == |t.kids| || T.FindProp(t.kids[k].props, name) == |t.kids[k].props| then Err(ERR_BADPATH)
        else Ok(t.kids[k].props[T.FindProp(t.kids[k].props, name)].val)
  {
    hide T.FindKid, T.FindProp;
    assert ALIASES == Ascii("aliases");
    var k := T.FindKid(t.kids, ALIASES);
    if k < |t.kids| {
      HasPathSnoc(t, [], k);
      assert [] + [k] == [k] && [ALIASES][1..] == [];
      assert Descend(t, [k], []) == Ok([k]) && Descend(t, [], [ALIASES]) == Ok([k]);
    }
  }

  /** A path that starts with no alias leads nowhere. */
  lemma NoAlias(t: T.Tree, path: Name)
    requires !IsAbsolute(path) && AliasValue(t, path[..IndexOf(path, SLASH)]).Err?
    ensures NodeByPath(t, path) == Err(ERR_BADPATH)
  {
    hide Components, Descend, AliasValue, NodeByPath;
    NodeByPathIs(t, path, 0);
  }

  /** The phandle of a node is that of its `phandle` property, or else that of its `linux,phandle`. */
  lemma PhandleWritten(t: T.Tree, h: u32)
    ensures PhandleOf(T.SetProp(t, PHANDLE, BE32(h))) == h
    ensures !HasCell(t, PHANDLE) ==> PhandleOf(T.SetProp(t, LINUX_PHANDLE, BE32(h))) == h
    ensures HasCell(t, PHANDLE) ==> PhandleOf(T.SetProp(t, LINUX_PHANDLE, BE32(h))) == PhandleOf(t)
    ensures !HasCell(t, PHANDLE) && !HasCell(t, LINUX_PHANDLE) ==> PhandleOf(t) == 0
  {
    hide BE32, Word;
    CellWritten(t, PHANDLE, h);
    CellWritten(t, LINUX_PHANDLE, h);
    assert PHANDLE[0] == 112 && LINUX_PHANDLE[0] == 108;
    OtherWritten(t, LINUX_PHANDLE, BE32(h), PHANDLE);
  }

  lemma CellWritten(t: T.Tree, name: Name, h: u32)
    ensures var x := T.SetProp(t, name, BE32(h)); HasCell(x, name) && Word(T.ValueOf(x, name), 0) == h
  {
    hide Word;
    WordOfBE32(h);
    hide BE32;
    var x := T.SetProp(t, name, BE32(h));
    T.FindPropIs(x.props, name, if T.FindProp(t.props, name) < |t.props| then T.FindProp(t.props, name) else 0);
  }

  lemma OtherWritten(t: T.Tree, name: Name, val: Data, other: Name)
    requires other != name
    ensures var x := T.SetProp(t, name, val); HasCell(x, other) == HasCell(t, other) && T.ValueOf(x, other) == T.ValueOf(t, other)
  {
    var i, j := T.FindProp(t.props, name), T.FindProp(t.props, other);
    T.FindPropIs(T.SetProp(t, name, val).props, other, if i < |t.props| then j else j + 1);
  }

  // ---- paths and places -------------------------------------------------------------------------

  /** The names on the way down to a node. */
  function NamesTo(t: T.Tree, p: Path): (r: seq<Name>)
    requires T.HasPath(t, p)
    ensures |r| == |p|
  {
    if p == [] then [] else [t.kids[p[0]].name] + NamesTo(t.kids[p[0]], p[1..])
  }

  /** fdt_get_path: "/" for the root, otherwise every name preceded by a slash. */
  function FullPath(names: seq<Name>): Name {
    if names == [] then [] else [SLASH] + names[0] + FullPath(names[1..])
  }

  /** On the way to the node every child is the first that its own name matches. */
  predicate Reachable(t: T.Tree, p: Path)
    requires T.HasPath(t, p)
  {
    p == [] || (T.FindKid(t.kids, t.kids[p[0]].name) == p[0] && Reachable(t.kids[p[0]], p[1..]))
  }

  /** Looking up a node's own names from the root leads to it exactly when no earlier sibling on
      the way takes one of them. */
  lemma {:induction false} DescendNames(t: T.Tree, at: Path, p: Path)
    requires T.HasPath(t, at) && T.HasPath(T.At(t, at), p)
    ensures Descend(t, at, NamesTo(T.At(t, at), p)) == Ok(at + p) <==> Reachable(T.At(t, at), p)
    decreases |p|
  {
    hide T.FindKid, T.NameMatches;
    var x := T.At(t, at);
    if p == [] {
      assert at + p == at;
    } else {
      var names := NamesTo(x, p);
      var i := T.FindKid(x.kids, names[0]);
      OwnNameFound(x.kids, p[0]);
      HasPathSnoc(t, at, i);
      if i == p[0] {
        DescendNames(t, at + [i], p[1..]);
        assert names[1..] == NamesTo(x.kids[i], p[1..]);
        assert at + [i] + p[1..] == at + p;
      } else {
        DescendPrefix(t, at + [i], names[1..]);
        assert (at + p)[|at|] == p[0];
      }
    }
  }

  lemma OwnNameFound(kids: seq<T.Tree>, k: nat)
    requires k < |kids|
    ensures T.FindKid(kids, kids[k].name) <= k
  {
  }

  /** A lookup only goes down. */
  lemma {:induction false} DescendPrefix(t: T.Tree, at: Path, names: seq<Name>)
    requires T.HasPath(t, at)
    ensures var r := Descend(t, at, names); r.Ok? ==> |at| <= |r.value| && r.value[..|at|] == at
    decreases |names|
  {
    if names != [] {
      var i := T.FindKid(T.At(t, at).kids, names[0]);
      if i < |T.At(t, at).kids| {
        HasPathSnoc(t, at, i);
        DescendPrefix(t, at + [i], names[1..]);
        var r := Descend(t, at + [i], names[1..]);
        if r.Ok? {
          assert r.value[..|at|] == r.value[..|at| + 1][..|at|];
        }
      }
    }
  }

  /** A full path falls apart into the names it was made of. */
  lemma {:induction false} ComponentsOfFullPath(names: seq<Name>)
    requires forall i :: 0 <= i < |names| ==> names[i] != [] && SLASH !in names[i]
    ensures Components(FullPath(names)) == names
    decreases |names|
  {
    if names != [] {
      var n, rest := names[0], FullPath(names[1..]);
      var path := FullPath(names);
      assert path[1..] == n + rest;
      assert IndexOf(n + rest, SLASH) == |n| by {
        IndexOfSplit(n, rest);
      }
      assert (n + rest)[..|n|] == n && (n + rest)[|n|..] == rest;
      ComponentsOfFullPath(names[1..]);
    }
  }

  lemma {:induction false} IndexOfSplit(n: seq<byte>, rest: seq<byte>)
    requires SLASH !in n && (rest == [] || rest[0] == SLASH)
    ensures IndexOf(n + rest, SLASH) == |n|
  {
    if n == [] {
      assert n + rest == rest;
    } else {
      assert (n + rest)[1..] == n[1..] + rest;
      IndexOfSplit(n[1..], rest);
    }
  }

  /** Path lookup undoes path construction, for every node whose names can be told apart from
      those of their earlier siblings; and for no other node. */
  lemma PathRoundTrip(t: T.Tree, p: Path)
    requires T.HasPath(t, p)
    requires forall i :: 0 <= i < |p| ==> NamesTo(t, p)[i] != [] && SLASH !in NamesTo(t, p)[i]
    ensures var path := if p == [] then [SLASH] else FullPath(NamesTo(t, p));
      NodeByPath(t, path) == Ok(p) <==> Reachable(t, p)
  {
    hide NodeByPath, Ends, PathEnds;
    AbsoluteEnds(t, if p == [] then [SLASH] else FullPath(NamesTo(t, p)));
    ComponentsOfFullPath(NamesTo(t, p));
    DescendNames(t, [], p);
    assert [] + p == p;
    if p == [] {
      assert [SLASH][1..] == [];
    }
  }
}
