/** The room that edits take, and what they come to when it runs out: bytes of the gap behind the
    strings go to tokens and to names that are not in the table yet. */
module EditRoom {
  import opened Bytes
  import opened StructBlock
  import opened FdtBase
  import opened Results
  import opened BlockEdit
  import T = Tree

  /** What an edit finds, or leaves: the strings and the number of bytes behind them; or the error
      that every edit is answered with. */
  datatype Space = Shut(err: Error) | Space(tab: seq<byte>, room: int)

  ghost function Gap(fdt: Fdt): Space
    requires fdt.Layout()
    reads fdt, fdt.buf
  {
    Space(fdt.Strs(), Room(fdt))
  }

  ghost function SpaceOf(fdt: Fdt): Space
    requires fdt.Layout()
    reads fdt, fdt.buf
  {
    if RwHeader(fdt) != 0 then Shut(RwHeader(fdt)) else Gap(fdt)
  }

  /** `n` bytes taken; a negative number gives bytes back. */
  function Spend(sp: Space, n: int): Space {
    if sp.Shut? then sp else if n > sp.room then Shut(ERR_NOSPACE) else sp.(room := sp.room - n)
  }

  ghost function SpendName(sp: Space, name: Name): Space {
    if sp.Shut? then sp else
    var tab := TableWith(sp.tab, name);
    Spend(Space(tab, sp.room), |tab| - |sp.tab|)
  }

  /** A new property: the name first, then the token. */
  ghost function AddPropRoom(sp: Space, name: Name, len: nat): Space {
    Spend(SpendName(sp, name), 12 + Align4(len))
  }

  function ResizeRoom(sp: Space, was: nat, len: nat): Space {
    Spend(sp, Align4(len) - Align4(was))
  }

  /** Room for `len` bytes of value of a property of that name. */
  ghost function PropRoom(sp: Space, ps: seq<T.Property>, name: Name, len: nat): Space {
    var i := T.FindProp(ps, name);
    if i < |ps| then ResizeRoom(sp, |ps[i].val|, len) else AddPropRoom(sp, name, len)
  }

  /** An edit that is answered with the error of the header, whatever it is. */
  lemma PropRoomShut(sp: Space, ps: seq<T.Property>, name: Name, len: nat)
    ensures sp.Shut? ==> PropRoom(sp, ps, name, len) == sp
  {
  }

  function AddKidRoom(sp: Space, name: Name): Space {
    Spend(sp, 8 + Align4(|name| + 1))
  }

  /** Room for a child of that name: none is needed where there is one. */
  function KidRoom(sp: Space, kids: seq<T.Tree>, name: Name): Space {
    if T.FindKid(kids, name) < |kids| then sp else AddKidRoom(sp, name)
  }

  function RenameRoom(sp: Space, was: Name, name: Name): Space {
    Spend(sp, Align4(|name| + 1) - Align4(|was| + 1))
  }

  /** The answer of an edit, with `sp` the space that it leaves if it can be made. */
  ghost predicate Answered(fdt: Fdt, err: int, sp: Space)
    requires fdt.Layout()
    reads fdt, fdt.buf
  {
    if sp.Shut? then err == sp.err else err == 0 && Gap(fdt) == sp
  }

  // ---- merging ---------------------------------------------------------------------------------

  /** What merging comes to: its answer, the tree there is then, and the space left if all went well. */
  datatype Merging = Merging(ret: int, left: Space, tree: T.Tree)

  /** The first loop of overlay_apply_node in the space `sp`. */
  ghost function MergePropsIn(sp: Space, t: T.Tree, ps: seq<T.Property>): Merging
    decreases |ps|
  {
    if ps == [] then Merging(0, sp, t) else
    var sp1 := PropRoom(sp, t.props, ps[0].name, |ps[0].val|);
    if sp1.Shut? then Merging(sp1.err, sp1, t) else MergePropsIn(sp1, T.SetProp(t, ps[0].name, ps[0].val), ps[1..])
  }

  /** A child merged into the one its name matches, or into a new first child. */
  ghost function MergeKidIn(sp: Space, t: T.Tree, o: T.Tree): Merging
    decreases o, 1
  {
    var i, sp1 := T.FindKid(t.kids, o.name), KidRoom(sp, t.kids, o.name);
    if sp1.Shut? then Merging(sp1.err, sp1, t)
    else if i < |t.kids| then AtKid(t, i, MergeIn(sp1, t.kids[i], o))
    else AtKid(T.AddKid(t, o.name), 0, MergeIn(sp1, T.Tree(o.name, [], []), o))
  }

  /** What merging into child `i` of `t` comes to. */
  function AtKid(t: T.Tree, i: nat, m: Merging): Merging
    requires i < |t.kids|
  {
    m.(tree := t.(kids := t.kids[i := m.tree]))
  }

  ghost function MergeKidsIn(sp: Space, t: T.Tree, os: seq<T.Tree>): Merging
    decreases os
  {
    if os == [] then Merging(0, sp, t) else
    var m := MergeKidIn(sp, t, os[0]);
    if m.ret != 0 then m else MergeKidsIn(m.left, m.tree, os[1..])
  }

  /** overlay_apply_node in the space `sp`. */
  ghost function MergeIn(sp: Space, t: T.Tree, o: T.Tree): Merging
    decreases o, 0
  {
    var m := MergePropsIn(sp, t, o.props);
    if m.ret != 0 then m else MergeKidsIn(m.left, m.tree, o.kids)
  }

  lemma PropsStep(sp: Space, t: T.Tree, ps: seq<T.Property>, i: nat)
    requires i < |ps|
    ensures var p, sp1 := ps[i], PropRoom(sp, t.props, ps[i].name, |ps[i].val|);
      MergePropsIn(sp, t, ps[i..])
         == if sp1.Shut? then Merging(sp1.err, sp1, t) else MergePropsIn(sp1, T.SetProp(t, p.name, p.val), ps[i + 1..])
  {
    hide T.SetProp;
    assert ps[i..][0] == ps[i] && ps[i..][1..] == ps[i + 1..];
  }

  lemma KidsStep(sp: Space, t: T.Tree, os: seq<T.Tree>, j: nat)
    requires j < |os|
    ensures var m := MergeKidIn(sp, t, os[j]);
      MergeKidsIn(sp, t, os[j..]) == if m.ret != 0 then m else MergeKidsIn(m.left, m.tree, os[j + 1..])
  {
    hide MergeKidIn;
    assert os[j..][0] == os[j] && os[j..][1..] == os[j + 1..];
  }

  /** Where `ps` and `os` begin and end. */
  lemma MergeEnds(sp: Space, t: T.Tree, ps: seq<T.Property>, os: seq<T.Tree>)
    ensures MergePropsIn(sp, t, ps[0..]) == MergePropsIn(sp, t, ps) && MergePropsIn(sp, t, ps[|ps|..]) == Merging(0, sp, t)
    ensures MergeKidsIn(sp, t, os[0..]) == MergeKidsIn(sp, t, os) && MergeKidsIn(sp, t, os[|os|..]) == Merging(0, sp, t)
  {
    assert ps[0..] == ps && os[0..] == os;
  }

  // ---- what merging in a space means -------------------------------------------------------------

  /** Where nothing has gone wrong, the tree is the merged one. */
  lemma {:induction false} PropsMerged(sp: Space, t: T.Tree, ps: seq<T.Property>)
    requires MergePropsIn(sp, t, ps).ret == 0
    ensures var m := MergePropsIn(sp, t, ps); m.tree == T.MergeProps(t, ps)
    decreases |ps|
  {
    hide T.SetProp, PropRoom;
    if ps != [] {
      PropsStep(sp, t, ps, 0);
      MergeEnds(sp, t, ps, []);
      PropsMerged(PropRoom(sp, t.props, ps[0].name, |ps[0].val|), T.SetProp(t, ps[0].name, ps[0].val), ps[1..]);
    }
  }

  lemma {:induction false} KidMerged(sp: Space, t: T.Tree, o: T.Tree)
    requires MergeKidIn(sp, t, o).ret == 0
    ensures var m := MergeKidIn(sp, t, o); m.tree == t.(kids := T.MergeKid(t.kids, o))
    decreases o, 1
  {
    hide T.FindKid, T.Merge, MergeIn;
    var i, sp1 := T.FindKid(t.kids, o.name), KidRoom(sp, t.kids, o.name);
    MergedIn(sp1, if i < |t.kids| then t.kids[i] else T.Tree(o.name, [], []), o);
  }

  lemma {:induction false} KidsMerged(sp: Space, t: T.Tree, os: seq<T.Tree>)
    requires MergeKidsIn(sp, t, os).ret == 0
    ensures var m := MergeKidsIn(sp, t, os); m.tree == t.(kids := T.MergeKids(t.kids, os))
    decreases os
  {
    hide MergeKidIn, T.MergeKid;
    if os != [] {
      var m := MergeKidIn(sp, t, os[0]);
      KidMerged(sp, t, os[0]);
      KidsMerged(m.left, m.tree, os[1..]);
    }
  }

  /** A merge that does not fail is the merge. */
  lemma {:induction false} MergedIn(sp: Space, t: T.Tree, o: T.Tree)
    requires MergeIn(sp, t, o).ret == 0
    ensures var m := MergeIn(sp, t, o); m.tree == T.Merge(t, o)
    decreases o, 0
  {
    hide MergePropsIn, MergeKidsIn, T.MergeProps, T.MergeKids;
    var m := MergePropsIn(sp, t, o.props);
    PropsMerged(sp, t, o.props);
    KidsMerged(m.left, m.tree, o.kids);
  }

  // ---- why merging stops ---------------------------------------------------------------------------

  /** The answer of a step is no room, or the error of the space that it starts from. */
  predicate Stopped(sp: Space, m: Merging) {
    && (m.ret != 0 ==> m.ret == ERR_NOSPACE || (sp.Shut? && m.ret == sp.err))
    && (m.ret == 0 && m.left.Shut? ==> m.left == sp)
  }

  lemma {:induction false} PropsAnswer(sp: Space, t: T.Tree, ps: seq<T.Property>)
    ensures Stopped(sp, MergePropsIn(sp, t, ps))
    decreases |ps|
  {
    hide T.SetProp;
    if ps != [] {
      var sp1 := PropRoom(sp, t.props, ps[0].name, |ps[0].val|);
      if !sp1.Shut? {
        PropsAnswer(sp1, T.SetProp(t, ps[0].name, ps[0].val), ps[1..]);
      }
    }
  }

  lemma {:induction false} KidsAnswer(sp: Space, t: T.Tree, os: seq<T.Tree>)
    ensures Stopped(sp, MergeKidsIn(sp, t, os))
    decreases os
  {
    hide MergeIn, T.FindKid;
    if os != [] {
      var i, sp1 := T.FindKid(t.kids, os[0].name), KidRoom(sp, t.kids, os[0].name);
      MergeAnswers(sp1, if i < |t.kids| then t.kids[i] else T.Tree(os[0].name, [], []), os[0]);
      var m := MergeKidIn(sp, t, os[0]);
      if m.ret == 0 {
        KidsAnswer(m.left, m.tree, os[1..]);
      }
    }
  }

  lemma {:induction false} MergeAnswers(sp: Space, t: T.Tree, o: T.Tree)
    ensures Stopped(sp, MergeIn(sp, t, o))
    decreases o
  {
    hide MergePropsIn, MergeKidsIn;
    var m := MergePropsIn(sp, t, o.props);
    PropsAnswer(sp, t, o.props);
    if m.ret == 0 {
      KidsAnswer(m.left, m.tree, o.kids);
    }
  }

  // ---- where the room goes -------------------------------------------------------------------------

  function PropsBytes(ps: seq<T.Property>): nat {
    if ps == [] then 0 else 12 + Align4(|ps[0].val|) + PropsBytes(ps[1..])
  }

  /** The bytes of the tags of a node, NOPs not counted. */
  function NodeBytes(t: T.Tree): nat
    decreases t, 0
  {
    8 + Align4(|t.name| + 1) + PropsBytes(t.props) + KidsBytes(t.kids)
  }

  function KidsBytes(kids: seq<T.Tree>): nat
    decreases kids
  {
    if kids == [] then 0 else NodeBytes(kids[0]) + KidsBytes(kids[1..])
  }

  /** The bytes of a tree, of the strings and of the gap behind them. */
  function Total(sp: Space, t: T.Tree): int
    requires sp.Space?
  {
    NodeBytes(t) + |sp.tab| + sp.room
  }

  lemma {:induction false} PropsBytesAt(ps: seq<T.Property>, i: nat, p: T.Property)
    requires i < |ps|
    ensures PropsBytes(ps[i := p]) == PropsBytes(ps) + Align4(|p.val|) - Align4(|ps[i].val|)
    decreases |ps|
  {
    if i == 0 {
      assert ps[0 := p][1..] == ps[1..];
    } else {
      assert ps[i := p][1..] == ps[1..][i - 1 := p];
      PropsBytesAt(ps[1..], i - 1, p);
    }
  }

  lemma {:induction false} KidsBytesAt(kids: seq<T.Tree>, i: nat, k: T.Tree)
    requires i < |kids|
    ensures KidsBytes(kids[i := k]) == KidsBytes(kids) + NodeBytes(k) - NodeBytes(kids[i])
    decreases |kids|
  {
    hide NodeBytes;
    if i == 0 {
      assert kids[0 := k][1..] == kids[1..];
    } else {
      assert kids[i := k][1..] == kids[1..][i - 1 := k];
      KidsBytesAt(kids[1..], i - 1, k);
    }
  }

  /** What one property takes from the gap goes to its token and to its name. */
  lemma SetPropConserves(sp: Space, t: T.Tree, name: Name, val: Data)
    requires sp.Space? && PropRoom(sp, t.props, name, |val|).Space?
    ensures Total(PropRoom(sp, t.props, name, |val|), T.SetProp(t, name, val)) == Total(sp, t)
  {
    hide KidsBytes, Align4, TableWith;
    var i, p := T.FindProp(t.props, name), T.Property(name, val);
    if i < |t.props| {
      PropsBytesAt(t.props, i, p);
    } else {
      assert ([p] + t.props)[1..] == t.props;
    }
  }

  lemma {:induction false} PropsConserve(sp: Space, t: T.Tree, ps: seq<T.Property>)
    requires sp.Space? && MergePropsIn(sp, t, ps).ret == 0
    ensures var m := MergePropsIn(sp, t, ps); m.left.Space? && Total(m.left, m.tree) == Total(sp, t)
    decreases |ps|
  {
    hide T.SetProp, PropRoom, Total;
    if ps != [] {
      SetPropConserves(sp, t, ps[0].name, ps[0].val);
      PropsConserve(PropRoom(sp, t.props, ps[0].name, |ps[0].val|), T.SetProp(t, ps[0].name, ps[0].val), ps[1..]);
    }
  }

  lemma {:induction false} KidConserves(sp: Space, t: T.Tree, o: T.Tree)
    requires sp.Space? && MergeKidIn(sp, t, o).ret == 0
    ensures var m := MergeKidIn(sp, t, o); m.left.Space? && Total(m.left, m.tree) == Total(sp, t)
    decreases o, 1
  {
    hide T.FindKid, MergeIn, PropsBytes, Align4;
    var i, sp1 := T.FindKid(t.kids, o.name), KidRoom(sp, t.kids, o.name);
    var e := T.Tree(o.name, [], []);
    var k, t1 := if i < |t.kids| then i else 0, if i < |t.kids| then t else T.AddKid(t, o.name);
    assert ([e] + t.kids)[1..] == t.kids;
    EmptyBytes(o.name);
    var m := MergeIn(sp1, t1.kids[k], o);
    Conserves(sp1, t1.kids[k], o);
    KidsBytesAt(t1.kids, k, m.tree);
  }

  lemma EmptyBytes(name: Name)
    ensures NodeBytes(T.Tree(name, [], [])) == 8 + Align4(|name| + 1)
  {
  }

  lemma {:induction false} KidsConserve(sp: Space, t: T.Tree, os: seq<T.Tree>)
    requires sp.Space? && MergeKidsIn(sp, t, os).ret == 0
    ensures var m := MergeKidsIn(sp, t, os); m.left.Space? && Total(m.left, m.tree) == Total(sp, t)
    decreases os
  {
    hide MergeKidIn, Total;
    if os != [] {
      var m := MergeKidIn(sp, t, os[0]);
      KidConserves(sp, t, os[0]);
      KidsConserve(m.left, m.tree, os[1..]);
    }
  }

  /** A merge that succeeds takes from the gap exactly what the tree and the strings have grown by. */
  lemma {:induction false} Conserves(sp: Space, t: T.Tree, o: T.Tree)
    requires sp.Space? && MergeIn(sp, t, o).ret == 0
    ensures var m := MergeIn(sp, t, o); m.left.Space? && Total(m.left, m.tree) == Total(sp, t)
    decreases o, 0
  {
    hide MergePropsIn, MergeKidsIn, Total;
    var m := MergePropsIn(sp, t, o.props);
    PropsConserve(sp, t, o.props);
    KidsConserve(m.left, m.tree, o.kids);
  }
}
