/** When dtc's merge of an override is the patch that the override describes: exactly, for trees and overrides in
    which names repeat. Trouble starts where a definition is taken over as it stands, and where a live entry hides
    behind another one of its name. */
module LivetreeExact {
  import opened Bytes
  import opened StructBlock
  import opened Livetree

  datatype Option<+A> = None | Some(value: A)

  // ---- properties ------------------------------------------------------------------------------------

  /** The value that counts: that of the first live entry. */
  function FirstLive(ps: seq<LProp>, name: Name): Option<Data> {
    if ps == [] then None
    else if ps[0].name == name && !ps[0].deleted then Some(ps[0].val)
    else FirstLive(ps[1..], name)
  }

  /** What would count if the first entry of the name, dead or not, were gone. */
  function Behind(ps: seq<LProp>, name: Name): Option<Data> {
    if ps == [] then None else if ps[0].name == name then FirstLive(ps[1..], name) else Behind(ps[1..], name)
  }

  /** The last thing that an override says about a property. */
  datatype Word = Silent | Gone | Set(val: Data)

  function LastWord(qs: seq<LProp>, name: Name): Word {
    if qs == [] then Silent else
    var w := LastWord(qs[1..], name);
    if w != Silent || qs[0].name != name then w else if qs[0].deleted then Gone else Set(qs[0].val)
  }

  function WordValue(w: Word): Option<Data> {
    if w.Set? then Some(w.val) else None
  }

  function ValueIn(v: map<Name, Data>, name: Name): Option<Data> {
    if name in v then Some(v[name]) else None
  }

  lemma {:induction false} PropViewFirst(ps: seq<LProp>, name: Name)
    ensures ValueIn(PropView(ps), name) == FirstLive(ps, name)
  {
    if ps != [] {
      PropViewFirst(ps[1..], name);
    }
  }

  lemma {:induction false} PatchLast(v: map<Name, Data>, qs: seq<LProp>, name: Name)
    ensures ValueIn(PatchProps(v, qs), name) ==
            if LastWord(qs, name) == Silent then ValueIn(v, name) else WordValue(LastWord(qs, name))
    decreases |qs|
  {
    if qs != [] {
      PatchLast(if qs[0].deleted then v - {qs[0].name} else v[qs[0].name := qs[0].val], qs[1..], name);
    }
  }

  lemma {:induction false} FirstLiveSkips(ps: seq<LProp>, name: Name)
    ensures var i := FindProp(ps, name);
      FirstLive(ps, name) == if i < |ps| && !ps[i].deleted then Some(ps[i].val) else Behind(ps, name)
  {
    if ps != [] && ps[0].name != name {
      FirstLiveSkips(ps[1..], name);
    }
  }

  /** An entry of another name makes no difference. */
  lemma {:induction false} OtherEntry(ps: seq<LProp>, i: nat, p: LProp, name: Name)
    requires i < |ps| && p.name == ps[i].name != name
    ensures FirstLive(ps[i := p], name) == FirstLive(ps, name)
    decreases |ps|
  {
    if i > 0 {
      assert ps[i := p][1..] == ps[1..][i - 1 := p];
      OtherEntry(ps[1..], i - 1, p, name);
    } else {
      assert ps[i := p][1..] == ps[1..];
    }
  }

  lemma {:induction false} BehindReplaced(ps: seq<LProp>, p: LProp, name: Name)
    requires FindProp(ps, p.name) < |ps|
    ensures Behind(ps[FindProp(ps, p.name) := p], name) == Behind(ps, name)
    decreases |ps|
  {
    var i := FindProp(ps, p.name);
    if i == 0 {
      assert ps[0 := p][1..] == ps[1..];
    } else {
      assert i == 1 + FindProp(ps[1..], p.name);
      assert ps[i := p][1..] == ps[1..][i - 1 := p];
      BehindReplaced(ps[1..], p, name);
      if ps[0].name == name {
        OtherEntry(ps[1..], i - 1, p, name);
      }
    }
  }

  lemma {:induction false} BehindAppended(ps: seq<LProp>, p: LProp, name: Name)
    requires FindProp(ps, p.name) == |ps|
    ensures Behind(ps + [p], name) == Behind(ps, name)
    ensures p.name != name ==> FirstLive(ps + [p], name) == FirstLive(ps, name)
    decreases |ps|
  {
    if ps == [] {
      assert ([] + [p])[1..] == [];
    } else {
      assert (ps + [p])[1..] == ps[1..] + [p];
      BehindAppended(ps[1..], p, name);
    }
  }

  lemma BehindOne(ps: seq<LProp>, p: LProp, name: Name)
    ensures Behind(MergeProp(ps, p), name) == Behind(ps, name)
  {
    hide Behind;
    var i := FindProp(ps, p.name);
    if i < |ps| {
      BehindReplaced(ps, MergeProp(ps, p)[i], name);
    } else if !p.deleted {
      BehindAppended(ps, p, name);
    }
  }

  lemma MergePropAt(ps: seq<LProp>, p: LProp, name: Name)
    ensures FirstLive(MergeProp(ps, p), name) ==
            if p.name != name then FirstLive(ps, name) else if p.deleted then Behind(ps, name) else Some(p.val)
  {
    hide FirstLive, Behind;
    var r, i := MergeProp(ps, p), FindProp(ps, p.name);
    FirstLiveSkips(ps, name);
    FirstLiveSkips(r, name);
    BehindOne(ps, p, name);
    MergePropFind(ps, p, name);
  }

  /** After a merge: the last word of the override; where that is a deletion, what stands behind the first entry. */
  lemma {:induction false} MergePropsAt(ps: seq<LProp>, qs: seq<LProp>, name: Name)
    ensures FirstLive(MergeProps(ps, qs), name) ==
            var w := LastWord(qs, name);
            if w == Silent then FirstLive(ps, name) else if w == Gone then Behind(ps, name) else Some(w.val)
    ensures Behind(MergeProps(ps, qs), name) == Behind(ps, name)
    decreases |qs|
  {
    hide MergeProp, FirstLive, Behind;
    if qs != [] {
      MergePropAt(ps, qs[0], name);
      BehindOne(ps, qs[0], name);
      MergePropsAt(MergeProp(ps, qs[0]), qs[1..], name);
    }
  }

  /** A property that the override deletes in the end has no live entry behind its first one. */
  predicate DeletesWell(ps: seq<LProp>, qs: seq<LProp>, name: Name) {
    LastWord(qs, name) == Gone ==> Behind(ps, name) == None
  }

  /** The first live entry of one list is as good as the last word of another. */
  predicate ShowsWell(ps: seq<LProp>, qs: seq<LProp>, name: Name) {
    FirstLive(ps, name) == WordValue(LastWord(qs, name))
  }

  lemma PropAgrees(ps: seq<LProp>, qs: seq<LProp>, name: Name)
    ensures ValueIn(PropView(MergeProps(ps, qs)), name) == ValueIn(PatchProps(PropView(ps), qs), name) <==> DeletesWell(ps, qs, name)
    ensures ValueIn(PropView(ps), name) == ValueIn(PatchProps(NOTHING.props, qs), name) <==> ShowsWell(ps, qs, name)
  {
    hide MergeProps, PropView, PatchProps, LastWord, Behind, FirstLive;
    PropViewFirst(MergeProps(ps, qs), name);
    MergePropsAt(ps, qs, name);
    PatchLast(PropView(ps), qs, name);
    PatchLast(NOTHING.props, qs, name);
    PropViewFirst(ps, name);
  }

  lemma SameValues(r: map<Name, Data>, v: map<Name, Data>)
    requires forall name: Name :: ValueIn(r, name) == ValueIn(v, name)
    ensures r == v
  {
    forall name: Name
      ensures (name in r <==> name in v) && (name in r ==> r[name] == v[name])
    {
      assert ValueIn(r, name) == ValueIn(v, name);
    }
  }

  /** For any two lists, merging properties is patching exactly when no property that is deleted in the end has a
      live entry behind its first one. */
  lemma PropsExactly(ps: seq<LProp>, qs: seq<LProp>)
    ensures PropView(MergeProps(ps, qs)) == PatchProps(PropView(ps), qs) <==> forall name: Name :: DeletesWell(ps, qs, name)
  {
    hide MergeProps, PropView, PatchProps, DeletesWell, ShowsWell, ValueIn;
    var r, v := PropView(MergeProps(ps, qs)), PatchProps(PropView(ps), qs);
    if r == v {
      forall name: Name
        ensures DeletesWell(ps, qs, name)
      {
        PropAgrees(ps, qs, name);
      }
    }
    if forall name: Name :: DeletesWell(ps, qs, name) {
      forall name: Name
        ensures ValueIn(r, name) == ValueIn(v, name)
      {
        PropAgrees(ps, qs, name);
      }
      SameValues(r, v);
    }
  }

  /** A list that is taken over as it stands shows what another one says exactly when, for every name, its first
      live entry is as good as the other's last word. */
  lemma TakenPropsExactly(ps: seq<LProp>, qs: seq<LProp>)
    ensures PropView(ps) == PatchProps(NOTHING.props, qs) <==> forall name: Name :: ShowsWell(ps, qs, name)
  {
    hide PropView, PatchProps, DeletesWell, ShowsWell, ValueIn;
    var r, v := PropView(ps), PatchProps(NOTHING.props, qs);
    if r == v {
      forall name: Name
        ensures ShowsWell(ps, qs, name)
      {
        PropAgrees(ps, qs, name);
      }
    }
    if forall name: Name :: ShowsWell(ps, qs, name) {
      forall name: Name
        ensures ValueIn(r, name) == ValueIn(v, name)
      {
        PropAgrees(ps, qs, name);
      }
      SameValues(r, v);
    }
  }

  // ---- children ----------------------------------------------------------------------------------------

  /** The first child of the name, dead or not. */
  function First(ks: seq<LTree>, name: Name): Option<LTree> {
    if ks == [] then None else if ks[0].name == name then Some(ks[0]) else First(ks[1..], name)
  }

  /** The child that counts: the first live one. */
  function FirstLiveKid(ks: seq<LTree>, name: Name): Option<LTree> {
    if ks == [] then None
    else if ks[0].name == name && !ks[0].deleted then Some(ks[0])
    else FirstLiveKid(ks[1..], name)
  }

  /** What would count if the first child of the name, dead or not, were gone. */
  function BehindKid(ks: seq<LTree>, name: Name): Option<LTree> {
    if ks == [] then None else if ks[0].name == name then FirstLiveKid(ks[1..], name) else BehindKid(ks[1..], name)
  }

  /** What the first entry of a name becomes when it meets an entry of an override. */
  function Step(s: Option<LTree>, c: LTree): Option<LTree> {
    if c.deleted then (if s.None? then None else Some(Kill(s.value)))
    else if s.None? then Some(c)
    else Some(Merge(s.value, c))
  }

  function Slot(s: Option<LTree>, cs: seq<LTree>, name: Name): Option<LTree>
    decreases |cs|
  {
    if cs == [] then s else Slot(if cs[0].name == name then Step(s, cs[0]) else s, cs[1..], name)
  }

  lemma MergeNamed(t: LTree, o: LTree)
    ensures Merge(t, o).name == t.name && Kill(t).name == t.name
  {
  }

  /** One entry of the list replaced by one of its name. */
  lemma {:induction false} Replaced(ks: seq<LTree>, x: LTree, name: Name)
    requires FindKid(ks, x.name) < |ks|
    ensures var r := ks[FindKid(ks, x.name) := x];
      First(r, name) == (if x.name == name then Some(x) else First(ks, name)) && BehindKid(r, name) == BehindKid(ks, name)
    decreases |ks|
  {
    var i := FindKid(ks, x.name);
    if i == 0 {
      assert ks[0 := x][1..] == ks[1..];
    } else {
      assert i == 1 + FindKid(ks[1..], x.name);
      assert ks[i := x][1..] == ks[1..][i - 1 := x];
      Replaced(ks[1..], x, name);
      if ks[0].name == name {
        OtherKid(ks[1..], i - 1, x, name);
      }
    }
  }

  lemma {:induction false} OtherKid(ks: seq<LTree>, i: nat, x: LTree, name: Name)
    requires i < |ks| && x.name == ks[i].name != name
    ensures FirstLiveKid(ks[i := x], name) == FirstLiveKid(ks, name)
    decreases |ks|
  {
    if i > 0 {
      assert ks[i := x][1..] == ks[1..][i - 1 := x];
      OtherKid(ks[1..], i - 1, x, name);
    } else {
      assert ks[i := x][1..] == ks[1..];
    }
  }

  lemma {:induction false} Appended(ks: seq<LTree>, x: LTree, name: Name)
    requires FindKid(ks, x.name) == |ks|
    ensures First(ks + [x], name) == (if x.name == name then Some(x) else First(ks, name))
    ensures BehindKid(ks + [x], name) == BehindKid(ks, name)
    ensures x.name != name ==> FirstLiveKid(ks + [x], name) == FirstLiveKid(ks, name)
    decreases |ks|
  {
    if ks == [] {
      assert ([] + [x])[1..] == [];
    } else {
      assert (ks + [x])[1..] == ks[1..] + [x];
      Appended(ks[1..], x, name);
    }
  }

  lemma {:induction false} FirstFound(ks: seq<LTree>, name: Name)
    ensures var i := FindKid(ks, name); First(ks, name) == if i < |ks| then Some(ks[i]) else None
  {
    if ks != [] && ks[0].name != name {
      FirstFound(ks[1..], name);
    }
  }

  lemma MergeKidAt(ks: seq<LTree>, c: LTree, name: Name)
    ensures First(MergeKid(ks, c), name) == if c.name == name then Step(First(ks, name), c) else First(ks, name)
    ensures BehindKid(MergeKid(ks, c), name) == BehindKid(ks, name)
  {
    hide Merge, Kill, BehindKid, First;
    var i := FindKid(ks, c.name);
    FirstFound(ks, c.name);
    if i < |ks| {
      MergeNamed(ks[i], c);
      Replaced(ks, MergeKid(ks, c)[i], name);
    } else if !c.deleted {
      Appended(ks, c, name);
    }
  }

  lemma {:induction false} MergeKidsAt(ks: seq<LTree>, cs: seq<LTree>, name: Name)
    ensures First(MergeKids(ks, cs), name) == Slot(First(ks, name), cs, name)
    ensures BehindKid(MergeKids(ks, cs), name) == BehindKid(ks, name)
    decreases |cs|
  {
    hide MergeKid, Step, First, BehindKid;
    if cs != [] {
      MergeKidAt(ks, cs[0], name);
      MergeKidsAt(MergeKid(ks, cs[0]), cs[1..], name);
    }
  }

  lemma {:induction false} FirstLiveKidSkips(ks: seq<LTree>, name: Name)
    ensures FirstLiveKid(ks, name) ==
            var f := First(ks, name); if f.Some? && !f.value.deleted then f else BehindKid(ks, name)
  {
    if ks != [] && ks[0].name != name {
      FirstLiveKidSkips(ks[1..], name);
    }
  }

  function KidIn(v: map<Name, View>, name: Name): Option<View> {
    if name in v then Some(v[name]) else None
  }

  lemma {:induction false} KidViewFirst(ks: seq<LTree>, name: Name)
    ensures KidIn(KidView(ks), name) ==
            var f := FirstLiveKid(ks, name); if f.Some? then Some(ViewOf(f.value)) else None
  {
    hide ViewOf;
    if ks != [] {
      KidViewFirst(ks[1..], name);
    }
  }

  lemma SameKids(r: map<Name, View>, v: map<Name, View>)
    requires forall name: Name :: KidIn(r, name) == KidIn(v, name)
    ensures r == v
  {
    forall name: Name
      ensures (name in r <==> name in v) && (name in r ==> r[name] == v[name])
    {
      assert KidIn(r, name) == KidIn(v, name);
    }
  }

  // ---- the definitions that stand --------------------------------------------------------------------------

  /** The override deletes the name. */
  predicate Deletes(cs: seq<LTree>, name: Name) {
    cs != [] && ((cs[0].name == name && cs[0].deleted) || Deletes(cs[1..], name))
  }

  /** The definitions of a name that no deletion follows. */
  function Standing(cs: seq<LTree>, name: Name): (r: seq<LTree>)
    ensures Count(Kids(r)) + |r| <= Count(cs)
    ensures forall i :: 0 <= i < |r| ==> r[i] in cs && !r[i].deleted && r[i].name == name
  {
    if cs == [] then []
    else if cs[0].name == name && !cs[0].deleted && !Deletes(cs[1..], name) then
      var r := Standing(cs[1..], name);
      assert ([cs[0]] + r)[1..] == r;
      CountConcat(cs[0].kids, Kids(r));
      [cs[0]] + r
    else Standing(cs[1..], name)
  }

  /** The first entry of the name when these definitions come. */
  function Before(s: Option<LTree>, cs: seq<LTree>, name: Name): Option<LTree>
    decreases |cs|
  {
    if !Deletes(cs, name) then s else Before(if cs[0].name == name then Step(s, cs[0]) else s, cs[1..], name)
  }

  function Kids(cs: seq<LTree>): seq<LTree> {
    if cs == [] then [] else cs[0].kids + Kids(cs[1..])
  }

  function Props(cs: seq<LTree>): seq<LProp> {
    if cs == [] then [] else cs[0].props + Props(cs[1..])
  }

  /** Several definitions of a name as one. */
  function Joined(cs: seq<LTree>): LTree {
    LTree(false, [], Props(cs), Kids(cs))
  }

  /** How many nodes there are. */
  function Count(ks: seq<LTree>): nat
    decreases ks
  {
    if ks == [] then 0 else 1 + Count(ks[0].kids) + Count(ks[1..])
  }

  lemma {:induction false} CountConcat(a: seq<LTree>, b: seq<LTree>)
    ensures Count(a + b) == Count(a) + Count(b)
    decreases |a|
  {
    if a == [] {
      assert a + b == b;
    } else {
      assert (a + b)[1..] == a[1..] + b;
      CountConcat(a[1..], b);
    }
  }

  /** Definitions merged into a node, one after the other. */
  function MergeAll(x: LTree, cs: seq<LTree>): LTree
    decreases |cs|
  {
    if cs == [] then x else MergeAll(Merge(x, cs[0]), cs[1..])
  }

  /** What the definitions make of the entry that they find; the first one is taken over where there is none. */
  function After(s: Option<LTree>, cs: seq<LTree>): Option<LTree> {
    if cs == [] then s
    else if s.None? then Some(MergeAll(cs[0], cs[1..]))
    else Some(MergeAll(s.value, cs))
  }

  lemma {:induction false} NothingStands(cs: seq<LTree>, name: Name)
    ensures Standing(cs, name) == [] && !Deletes(cs, name) ==> forall i :: 0 <= i < |cs| ==> cs[i].name != name
  {
    if cs != [] {
      NothingStands(cs[1..], name);
    }
  }

  lemma AfterCons(s: Option<LTree>, c: LTree, r: seq<LTree>)
    requires !c.deleted
    ensures After(Step(s, c), r) == After(s, [c] + r)
  {
    hide Merge, Kill;
    assert ([c] + r)[0] == c && ([c] + r)[1..] == r;
  }

  lemma {:induction false} SlotIs(s: Option<LTree>, cs: seq<LTree>, name: Name)
    ensures Slot(s, cs, name) == After(Before(s, cs, name), Standing(cs, name))
    decreases |cs|
  {
    hide Merge, Kill;
    if cs != [] {
      var s1 := if cs[0].name == name then Step(s, cs[0]) else s;
      SlotIs(s1, cs[1..], name);
      if !Deletes(cs[1..], name) {
        BeforeNone(s1, cs[1..], name);
        if cs[0].name == name && !cs[0].deleted {
          AfterCons(s, cs[0], Standing(cs[1..], name));
        }
      }
    }
  }

  lemma BeforeNone(s: Option<LTree>, cs: seq<LTree>, name: Name)
    requires !Deletes(cs, name)
    ensures Before(s, cs, name) == s
  {
  }

  lemma {:induction false} PropsConcat(ps: seq<LProp>, a: seq<LProp>, b: seq<LProp>)
    ensures MergeProps(ps, a + b) == MergeProps(MergeProps(ps, a), b)
    decreases |a|
  {
    hide MergeProp;
    if a == [] {
      assert a + b == b;
    } else {
      assert (a + b)[1..] == a[1..] + b;
      PropsConcat(MergeProp(ps, a[0]), a[1..], b);
    }
  }

  lemma {:induction false} KidsConcat(ks: seq<LTree>, a: seq<LTree>, b: seq<LTree>)
    ensures MergeKids(ks, a + b) == MergeKids(MergeKids(ks, a), b)
    decreases |a|
  {
    hide MergeKid;
    if a == [] {
      assert a + b == b;
    } else {
      assert (a + b)[1..] == a[1..] + b;
      KidsConcat(MergeKid(ks, a[0]), a[1..], b);
    }
  }

  /** Merging several definitions is merging them as one. */
  lemma {:induction false} MergeAllIs(x: LTree, cs: seq<LTree>)
    requires cs != []
    ensures MergeAll(x, cs) == Merge(x, Joined(cs))
    decreases |cs|
  {
    hide MergeProps, MergeKids;
    var c := cs[0];
    if |cs| == 1 {
      assert cs[1..] == [] && Props(cs[1..]) == [] && Kids(cs[1..]) == [];
      assert Joined(cs).props == c.props && Joined(cs).kids == c.kids;
      assert MergeAll(x, cs) == Merge(x, c);
    } else {
      MergeAllIs(Merge(x, c), cs[1..]);
      PropsConcat(x.props, c.props, Props(cs[1..]));
      KidsConcat(x.kids, c.kids, Kids(cs[1..]));
    }
  }

  // ---- the patch, name by name ---------------------------------------------------------------------------------

  function PatchStep(v: Option<View>, c: LTree): Option<View> {
    if c.deleted then None else Some(Patch(if v.Some? then v.value else NOTHING, c))
  }

  function PatchSlot(v: Option<View>, cs: seq<LTree>, name: Name): Option<View>
    decreases |cs|
  {
    if cs == [] then v else PatchSlot(if cs[0].name == name then PatchStep(v, cs[0]) else v, cs[1..], name)
  }

  lemma {:induction false} PatchKidsAt(v: map<Name, View>, cs: seq<LTree>, name: Name)
    ensures KidIn(PatchKids(v, cs), name) == PatchSlot(KidIn(v, name), cs, name)
    decreases |cs|
  {
    hide Patch;
    if cs != [] {
      var c := cs[0];
      PatchKidsAt(if c.deleted then v - {c.name} else v[c.name := Patch(if c.name in v then v[c.name] else NOTHING, c)], cs[1..], name);
    }
  }

  lemma {:induction false} PatchPropsConcat(v: map<Name, Data>, a: seq<LProp>, b: seq<LProp>)
    ensures PatchProps(v, a + b) == PatchProps(PatchProps(v, a), b)
    decreases |a|
  {
    if a == [] {
      assert a + b == b;
    } else {
      assert (a + b)[1..] == a[1..] + b;
      PatchPropsConcat(if a[0].deleted then v - {a[0].name} else v[a[0].name := a[0].val], a[1..], b);
    }
  }

  lemma {:induction false} PatchKidsConcat(v: map<Name, View>, a: seq<LTree>, b: seq<LTree>)
    ensures PatchKids(v, a + b) == PatchKids(PatchKids(v, a), b)
    decreases |a|
  {
    hide Patch;
    if a == [] {
      assert a + b == b;
    } else {
      var c := a[0];
      assert (a + b)[1..] == a[1..] + b;
      PatchKidsConcat(if c.deleted then v - {c.name} else v[c.name := Patch(if c.name in v then v[c.name] else NOTHING, c)], a[1..], b);
    }
  }

  /** Patching with two definitions of a name, one after the other. */
  lemma PatchTwice(v: View, c: LTree, cs: seq<LTree>)
    ensures Patch(v, Joined([c] + cs)) == Patch(Patch(v, c), Joined(cs))
  {
    hide PatchProps, PatchKids;
    assert ([c] + cs)[1..] == cs;
    PatchPropsConcat(v.props, c.props, Props(cs));
    PatchKidsConcat(v.kids, c.kids, Kids(cs));
  }

  lemma PatchEmpty(v: View)
    ensures Patch(v, Joined([])) == v
  {
  }

  lemma {:induction false} PatchSlotIs(v: Option<View>, cs: seq<LTree>, name: Name)
    ensures PatchSlot(v, cs, name) ==
            var run, w := Standing(cs, name), if Deletes(cs, name) then None else v;
            if run == [] then w else Some(Patch(if w.Some? then w.value else NOTHING, Joined(run)))
    decreases |cs|
  {
    hide Patch, Joined;
    if cs != [] {
      var c := cs[0];
      PatchSlotIs(if c.name == name then PatchStep(v, c) else v, cs[1..], name);
      if c.name == name && !c.deleted && !Deletes(cs[1..], name) {
        var w := if v.Some? then v.value else NOTHING;
        PatchTwice(w, c, Standing(cs[1..], name));
        PatchEmpty(Patch(w, c));
      }
    }
  }

  // ---- what is taken over --------------------------------------------------------------------------------------

  /** A tree as it stands shows what definitions say: for every property the first live entry is as good as the last
      word, and for every child the first live one shows what the definitions say that no deletion follows. */
  ghost predicate Shows(x: LTree, o: LTree)
    decreases Count(o.kids), 1
  {
    (forall name: Name :: ShowsWell(x.props, o.props, name)) && forall name: Name :: ShowsKid(x, o, name)
  }

  ghost predicate ShowsKid(x: LTree, o: LTree, name: Name)
    decreases Count(o.kids), 0
  {
    var f, run := FirstLiveKid(x.kids, name), Standing(o.kids, name);
    (f.Some? <==> run != []) && (f.Some? && run != [] ==> Shows(f.value, Joined(run)))
  }

  /** And that is exactly when taking it over is patching nothing. */
  lemma {:induction false} ShowsExactly(x: LTree, o: LTree)
    ensures ViewOf(x) == Patch(NOTHING, o) <==> Shows(x, o)
    decreases Count(o.kids), 1
  {
    hide PropView, KidView, PatchProps, PatchKids, ShowsKid, ShowsWell, KidIn, FirstLiveKid, Standing, Joined;
    TakenPropsExactly(x.props, o.props);
    var r, v := KidView(x.kids), PatchKids(NOTHING.kids, o.kids);
    forall name: Name
      ensures KidIn(r, name) == KidIn(v, name) <==> ShowsKid(x, o, name)
    {
      ShowsKidExactly(x, o, name);
    }
    if r == v {
      forall name: Name
        ensures ShowsKid(x, o, name)
      {
        assert KidIn(r, name) == KidIn(v, name);
      }
    }
    if forall name: Name :: ShowsKid(x, o, name) {
      forall name: Name
        ensures KidIn(r, name) == KidIn(v, name)
      {
        assert ShowsKid(x, o, name);
      }
      SameKids(r, v);
    }
  }

  lemma NothingIn(name: Name)
    ensures KidIn(NOTHING.kids, name) == None
  {
  }

  lemma {:induction false} ShowsKidExactly(x: LTree, o: LTree, name: Name)
    ensures KidIn(KidView(x.kids), name) == KidIn(PatchKids(NOTHING.kids, o.kids), name) <==> ShowsKid(x, o, name)
    decreases Count(o.kids), 0
  {
    hide KidView, PatchKids, KidIn, FirstLiveKid, Standing, Patch, ViewOf, Shows;
    KidViewFirst(x.kids, name);
    PatchKidsAt(NOTHING.kids, o.kids, name);
    NothingIn(name);
    PatchSlotIs(None, o.kids, name);
    var f, run := FirstLiveKid(x.kids, name), Standing(o.kids, name);
    if f.Some? && run != [] {
      ShowsExactly(f.value, Joined(run));
    }
  }

  // ---- trees that any override finds its way in -------------------------------------------------------------------

  predicate NoneBehind(ps: seq<LProp>) {
    forall i, j :: 0 <= i < j < |ps| && ps[i].name == ps[j].name ==> ps[j].deleted
  }

  predicate NoKidBehind(ks: seq<LTree>) {
    forall i, j :: 0 <= i < j < |ks| && ks[i].name == ks[j].name ==> ks[j].deleted
  }

  /** No live entry stands behind another one of its name. */
  predicate Plain(t: LTree)
    decreases t
  {
    NoneBehind(t.props) && NoKidBehind(t.kids) && forall i :: 0 <= i < |t.kids| ==> Plain(t.kids[i])
  }

  predicate CleanKids(ks: seq<LTree>) {
    forall i :: 0 <= i < |ks| ==> Clean(ks[i])
  }

  lemma {:induction false} NoneLive(ps: seq<LProp>, name: Name)
    requires forall i :: 0 <= i < |ps| && ps[i].name == name ==> ps[i].deleted
    ensures FirstLive(ps, name) == None
  {
    if ps != [] {
      NoneLive(ps[1..], name);
    }
  }

  lemma {:induction false} SomeLive(ps: seq<LProp>, i: nat)
    requires i < |ps| && !ps[i].deleted
    ensures FirstLive(ps, ps[i].name).Some?
    decreases |ps|
  {
    if i > 0 {
      SomeLive(ps[1..], i - 1);
    }
  }

  lemma {:induction false} BehindNone(ps: seq<LProp>, name: Name)
    requires NoneBehind(ps)
    ensures Behind(ps, name) == None
    decreases |ps|
  {
    if ps != [] {
      if ps[0].name == name {
        forall i | 0 <= i < |ps[1..]| && ps[1..][i].name == name
          ensures ps[1..][i].deleted
        {
          assert ps[i + 1].deleted;
        }
        NoneLive(ps[1..], name);
      } else {
        forall i, j | 0 <= i < j < |ps[1..]| && ps[1..][i].name == ps[1..][j].name
          ensures ps[1..][j].deleted
        {
          assert ps[i + 1].name == ps[j + 1].name;
        }
        BehindNone(ps[1..], name);
      }
    }
  }

  lemma {:induction false} BehindSome(ps: seq<LProp>, i: nat, j: nat)
    requires i < j < |ps| && ps[i].name == ps[j].name && !ps[j].deleted
    ensures Behind(ps, ps[j].name).Some?
    decreases |ps|
  {
    if ps[0].name == ps[j].name {
      SomeLive(ps[1..], j - 1);
    } else {
      BehindSome(ps[1..], i - 1, j - 1);
    }
  }

  lemma NoneBehindIs(ps: seq<LProp>)
    requires forall name: Name :: Behind(ps, name) == None
    ensures NoneBehind(ps)
  {
    forall i, j | 0 <= i < j < |ps| && ps[i].name == ps[j].name
      ensures ps[j].deleted
    {
      if !ps[j].deleted {
        BehindSome(ps, i, j);
      }
    }
  }

  lemma {:induction false} NoKidLive(ks: seq<LTree>, name: Name)
    requires forall i :: 0 <= i < |ks| && ks[i].name == name ==> ks[i].deleted
    ensures FirstLiveKid(ks, name) == None
  {
    if ks != [] {
      NoKidLive(ks[1..], name);
    }
  }

  lemma {:induction false} SomeKidLive(ks: seq<LTree>, i: nat)
    requires i < |ks| && !ks[i].deleted
    ensures FirstLiveKid(ks, ks[i].name).Some?
    decreases |ks|
  {
    if i > 0 {
      SomeKidLive(ks[1..], i - 1);
    }
  }

  lemma {:induction false} KidBehindNone(ks: seq<LTree>, name: Name)
    requires NoKidBehind(ks)
    ensures BehindKid(ks, name) == None
    decreases |ks|
  {
    if ks != [] {
      if ks[0].name == name {
        forall i | 0 <= i < |ks[1..]| && ks[1..][i].name == name
          ensures ks[1..][i].deleted
        {
          assert ks[i + 1].deleted;
        }
        NoKidLive(ks[1..], name);
      } else {
        forall i, j | 0 <= i < j < |ks[1..]| && ks[1..][i].name == ks[1..][j].name
          ensures ks[1..][j].deleted
        {
          assert ks[i + 1].name == ks[j + 1].name;
        }
        KidBehindNone(ks[1..], name);
      }
    }
  }

  lemma {:induction false} KidBehindSome(ks: seq<LTree>, i: nat, j: nat)
    requires i < j < |ks| && ks[i].name == ks[j].name && !ks[j].deleted
    ensures BehindKid(ks, ks[j].name).Some?
    decreases |ks|
  {
    if ks[0].name == ks[j].name {
      SomeKidLive(ks[1..], j - 1);
    } else {
      KidBehindSome(ks[1..], i - 1, j - 1);
    }
  }

  lemma NoKidBehindIs(ks: seq<LTree>)
    requires forall name: Name :: BehindKid(ks, name) == None
    ensures NoKidBehind(ks)
  {
    forall i, j | 0 <= i < j < |ks| && ks[i].name == ks[j].name
      ensures ks[j].deleted
    {
      if !ks[j].deleted {
        KidBehindSome(ks, i, j);
      }
    }
  }

  /** A dead node hides nothing. */
  lemma {:induction false} DeadPlain(t: LTree)
    requires Clean(t) && t.deleted
    ensures Plain(t)
    decreases t
  {
    forall i | 0 <= i < |t.kids|
      ensures Plain(t.kids[i])
    {
      DeadPlain(t.kids[i]);
    }
  }

  /** A merge revives no content: nothing dead ever holds anything live. */
  lemma {:induction false} MergeClean(t: LTree, o: LTree)
    requires Clean(t) && CleanKids(o.kids)
    ensures Clean(Merge(t, o))
    decreases o, 1
  {
    hide MergeProps, MergeKids;
    MergeKidsClean(t.kids, o.kids);
  }

  lemma {:induction false} MergeKidsClean(ks: seq<LTree>, cs: seq<LTree>)
    requires CleanKids(ks) && CleanKids(cs)
    ensures CleanKids(MergeKids(ks, cs))
    decreases cs, 0
  {
    hide Clean, Merge, Kill;
    if cs != [] {
      var i := FindKid(ks, cs[0].name);
      if i < |ks| {
        KillClean(ks[i]);
        if !cs[0].deleted {
          CleanBelow(cs[0]);
          MergeClean(ks[i], cs[0]);
        }
      }
      MergeKidsClean(MergeKid(ks, cs[0]), cs[1..]);
    }
  }

  lemma CleanBelow(t: LTree)
    requires Clean(t)
    ensures CleanKids(t.kids)
  {
  }

  lemma StepClean(s: Option<LTree>, c: LTree)
    requires (s.Some? ==> Clean(s.value)) && Clean(c)
    ensures Step(s, c).Some? ==> Clean(Step(s, c).value) && (c.deleted ==> Step(s, c).value.deleted)
  {
    hide Clean, Merge;
    CleanBelow(c);
    if s.Some? {
      KillClean(s.value);
      MergeClean(s.value, c);
    }
  }

  lemma {:induction false} BeforeClean(s: Option<LTree>, cs: seq<LTree>, name: Name)
    requires (s.Some? ==> Clean(s.value)) && CleanKids(cs)
    ensures var b := Before(s, cs, name); b.Some? ==> Clean(b.value) && (Deletes(cs, name) ==> b.value.deleted)
    decreases |cs|
  {
    hide Clean, Step;
    if Deletes(cs, name) {
      var s1 := if cs[0].name == name then Step(s, cs[0]) else s;
      StepClean(s, cs[0]);
      BeforeClean(s1, cs[1..], name);
    }
  }

  lemma {:induction false} FirstIn(ks: seq<LTree>, name: Name)
    ensures First(ks, name).Some? ==> First(ks, name).value in ks && First(ks, name).value.name == name
  {
    if ks != [] {
      FirstIn(ks[1..], name);
    }
  }

  /** The entry that the standing definitions find. */
  lemma FoundSound(t: LTree, o: LTree, name: Name)
    requires Plain(t) && Clean(t) && CleanKids(o.kids)
    ensures var b := Before(First(t.kids, name), o.kids, name); b.Some? ==>
      Plain(b.value) && Clean(b.value) && (Deletes(o.kids, name) ==> b.value.deleted)
  {
    hide Before, First, Deletes;
    FirstIn(t.kids, name);
    BeforeClean(First(t.kids, name), o.kids, name);
    BeforeDef(First(t.kids, name), o.kids, name);
    var b := Before(First(t.kids, name), o.kids, name);
    if b.Some? && b.value.deleted {
      DeadPlain(b.value);
    }
  }

  lemma BeforeDef(s: Option<LTree>, cs: seq<LTree>, name: Name)
    ensures !Deletes(cs, name) ==> Before(s, cs, name) == s
  {
  }

  lemma {:induction false} KidsClean(run: seq<LTree>)
    requires CleanKids(run)
    ensures CleanKids(Kids(run))
  {
    if run != [] {
      KidsClean(run[1..]);
    }
  }

  lemma JoinedClean(cs: seq<LTree>, name: Name)
    requires CleanKids(cs)
    ensures CleanKids(Joined(Standing(cs, name)).kids)
  {
    hide Clean;
    var run := Standing(cs, name);
    forall i | 0 <= i < |run|
      ensures Clean(run[i])
    {
      assert run[i] in cs;
    }
    KidsClean(run);
  }

  // ---- exactly when a merge is a patch ---------------------------------------------------------------------------------

  /** Every new node, taken over as it stands, shows what its definitions say. */
  ghost predicate Follows(t: LTree, o: LTree)
    decreases Count(o.kids), 1
  {
    forall name: Name :: FollowsKid(t, o, name)
  }

  ghost predicate FollowsKid(t: LTree, o: LTree, name: Name)
    decreases Count(o.kids), 0
  {
    var run, b := Standing(o.kids, name), Before(First(t.kids, name), o.kids, name);
    run != [] ==> if b.None? then Shows(MergeAll(run[0], run[1..]), Joined(run)) else Follows(b.value, Joined(run))
  }

  lemma AfterLive(s: Option<LTree>, run: seq<LTree>)
    requires run != [] && forall i :: 0 <= i < |run| ==> !run[i].deleted
    ensures var a := After(s, run); a.Some? && !a.value.deleted
    ensures s.Some? ==> After(s, run).value == Merge(s.value, Joined(run))
  {
    hide Joined;
    if s.Some? {
      MergeAllIs(s.value, run);
    } else if |run| > 1 {
      MergeAllIs(run[0], run[1..]);
    }
  }

  /** One name, after the merge and after the patch. */
  lemma KidAfter(t: LTree, o: LTree, name: Name)
    requires Plain(t) && Clean(t) && CleanKids(o.kids)
    ensures var r := KidIn(KidView(MergeKids(t.kids, o.kids)), name);
      var v := KidIn(PatchKids(KidView(t.kids), o.kids), name);
      var run, b := Standing(o.kids, name), Before(First(t.kids, name), o.kids, name);
      if run == [] then r == v
      else if b.None? then r == Some(ViewOf(MergeAll(run[0], run[1..]))) && v == Some(Patch(NOTHING, Joined(run)))
      else r == Some(ViewOf(Merge(b.value, Joined(run)))) && v == Some(Patch(ViewOf(b.value), Joined(run)))
  {
    hide KidView, PatchKids, MergeKids, KidIn, FirstLiveKid, First, Standing, Before, Deletes, Patch, ViewOf, Merge, Joined, BehindKid,
      MergeAll, Slot, PatchSlot;
    var ks, cs := t.kids, o.kids;
    var r := MergeKids(ks, cs);
    var run, b := Standing(cs, name), Before(First(ks, name), cs, name);
    FoundSound(t, o, name);
    BeforeDef(First(ks, name), cs, name);
    KidBehindNone(ks, name);
    MergeKidsAt(ks, cs, name);
    SlotIs(First(ks, name), cs, name);
    FirstLiveKidSkips(r, name);
    FirstLiveKidSkips(ks, name);
    KidViewFirst(r, name);
    KidViewFirst(ks, name);
    PatchKidsAt(KidView(ks), cs, name);
    PatchSlotIs(KidIn(KidView(ks), name), cs, name);
    if run != [] {
      AfterLive(b, run);
    }
    if b.Some? && b.value.deleted {
      CleanView(b.value);
    }
  }

  /** For every tree and every override: merging is patching exactly when the override is followed. */
  lemma {:induction false} MergeIsPatchExactly(t: LTree, o: LTree)
    requires Plain(t) && Clean(t) && CleanKids(o.kids)
    ensures ViewOf(Merge(t, o)) == Patch(ViewOf(t), o) <==> Follows(t, o)
    decreases Count(o.kids), 1
  {
    hide PropView, KidView, PatchProps, PatchKids, MergeProps, MergeKids, FollowsKid, KidIn, Behind, DeletesWell;
    forall name: Name
      ensures DeletesWell(t.props, o.props, name)
    {
      NoDeletionFails(t.props, o.props, name);
    }
    PropsExactly(t.props, o.props);
    var r, v := KidView(MergeKids(t.kids, o.kids)), PatchKids(KidView(t.kids), o.kids);
    if r == v {
      forall name: Name
        ensures FollowsKid(t, o, name)
      {
        FollowsKidExactly(t, o, name);
      }
    }
    if forall name: Name :: FollowsKid(t, o, name) {
      forall name: Name
        ensures KidIn(r, name) == KidIn(v, name)
      {
        FollowsKidExactly(t, o, name);
      }
      SameKids(r, v);
    }
  }

  lemma NoDeletionFails(ps: seq<LProp>, qs: seq<LProp>, name: Name)
    requires NoneBehind(ps)
    ensures DeletesWell(ps, qs, name)
  {
    hide LastWord, Behind;
    BehindNone(ps, name);
  }

  lemma {:induction false} FollowsKidExactly(t: LTree, o: LTree, name: Name)
    requires Plain(t) && Clean(t) && CleanKids(o.kids)
    ensures KidIn(KidView(MergeKids(t.kids, o.kids)), name) == KidIn(PatchKids(KidView(t.kids), o.kids), name) <==> FollowsKid(t, o, name)
    decreases Count(o.kids), 0
  {
    hide KidView, PatchKids, MergeKids, KidIn, Standing, Before, First, Patch, ViewOf, Merge, Shows, Follows, Plain, Clean, MergeAll, Joined;
    var run, b := Standing(o.kids, name), Before(First(t.kids, name), o.kids, name);
    KidAfter(t, o, name);
    if run != [] {
      if b.None? {
        ShowsExactly(MergeAll(run[0], run[1..]), Joined(run));
      } else {
        FoundSound(t, o, name);
        JoinedClean(o.kids, name);
        JoinedCount(o.kids, name);
        MergeIsPatchExactly(b.value, Joined(run));
      }
    }
  }

  lemma JoinedCount(cs: seq<LTree>, name: Name)
    ensures Standing(cs, name) != [] ==> Count(Joined(Standing(cs, name)).kids) < Count(cs)
  {
    hide Standing, Count;
  }

  // ---- when the result is as good as the tree was -------------------------------------------------------------------

  /** Every new node, taken over as it stands, hides nothing. */
  ghost predicate Keeps(t: LTree, o: LTree)
    decreases Count(o.kids), 1
  {
    forall name: Name :: KeepsKid(t, o, name)
  }

  ghost predicate KeepsKid(t: LTree, o: LTree, name: Name)
    decreases Count(o.kids), 0
  {
    var run, b := Standing(o.kids, name), Before(First(t.kids, name), o.kids, name);
    run != [] ==> if b.None? then Plain(MergeAll(run[0], run[1..])) else Keeps(b.value, Joined(run))
  }

  /** The first entry of every name hides nothing. */
  ghost predicate FirstPlain(ks: seq<LTree>, name: Name) {
    First(ks, name).Some? ==> Plain(First(ks, name).value)
  }

  lemma AllPlain(ks: seq<LTree>)
    requires NoKidBehind(ks) && CleanKids(ks)
    ensures (forall i :: 0 <= i < |ks| ==> Plain(ks[i])) <==> forall name: Name :: FirstPlain(ks, name)
  {
    hide Plain, Clean, First;
    if forall name: Name :: FirstPlain(ks, name) {
      forall i | 0 <= i < |ks|
        ensures Plain(ks[i])
      {
        var k := FindKid(ks, ks[i].name);
        FirstFound(ks, ks[i].name);
        assert FirstPlain(ks, ks[i].name);
        if k < i {
          DeadPlain(ks[i]);
        }
      }
    }
    if forall i :: 0 <= i < |ks| ==> Plain(ks[i]) {
      forall name: Name
        ensures FirstPlain(ks, name)
      {
        FirstIn(ks, name);
      }
    }
  }

  lemma NoneBehindAfter(t: LTree, o: LTree)
    requires Plain(t)
    ensures NoneBehind(MergeProps(t.props, o.props)) && NoKidBehind(MergeKids(t.kids, o.kids))
  {
    hide MergeProps, MergeKids, Behind, BehindKid, NoneBehind, NoKidBehind;
    forall name: Name
      ensures Behind(MergeProps(t.props, o.props), name) == None && BehindKid(MergeKids(t.kids, o.kids), name) == None
    {
      BehindNone(t.props, name);
      KidBehindNone(t.kids, name);
      MergePropsAt(t.props, o.props, name);
      MergeKidsAt(t.kids, o.kids, name);
    }
    NoneBehindIs(MergeProps(t.props, o.props));
    NoKidBehindIs(MergeKids(t.kids, o.kids));
  }

  /** Nothing is hidden after a merge exactly when what is taken over hides nothing. */
  lemma {:induction false} PlainExactly(t: LTree, o: LTree)
    requires Plain(t) && Clean(t) && CleanKids(o.kids)
    ensures Plain(Merge(t, o)) <==> Keeps(t, o)
    decreases Count(o.kids), 1
  {
    hide MergeProps, MergeKids, NoneBehind, NoKidBehind, KeepsKid, FirstPlain;
    var ks := MergeKids(t.kids, o.kids);
    NoneBehindAfter(t, o);
    MergeKidsClean(t.kids, o.kids);
    AllPlain(ks);
    if forall name: Name :: FirstPlain(ks, name) {
      forall name: Name
        ensures KeepsKid(t, o, name)
      {
        KeepsKidExactly(t, o, name);
      }
    }
    if forall name: Name :: KeepsKid(t, o, name) {
      forall name: Name
        ensures FirstPlain(ks, name)
      {
        KeepsKidExactly(t, o, name);
      }
    }
  }

  lemma {:induction false} KeepsKidExactly(t: LTree, o: LTree, name: Name)
    requires Plain(t) && Clean(t) && CleanKids(o.kids)
    ensures FirstPlain(MergeKids(t.kids, o.kids), name) <==> KeepsKid(t, o, name)
    decreases Count(o.kids), 0
  {
    hide MergeKids, Standing, Before, First, Merge, Keeps, Plain, Clean, MergeAll, Joined, Slot, BehindKid;
    var run, b := Standing(o.kids, name), Before(First(t.kids, name), o.kids, name);
    MergeKidsAt(t.kids, o.kids, name);
    SlotIs(First(t.kids, name), o.kids, name);
    FoundSound(t, o, name);
    if run != [] {
      AfterLive(b, run);
      if b.Some? {
        JoinedClean(o.kids, name);
        JoinedCount(o.kids, name);
        PlainExactly(b.value, Joined(run));
      }
    }
  }

  // ---- overrides without repeated names ---------------------------------------------------------------------------------

  lemma {:induction false} StandingOne(cs: seq<LTree>, name: Name)
    requires UniqueKids(cs)
    ensures |Standing(cs, name)| <= 1
  {
    hide Count, Kids;
    if cs != [] {
      StandingOne(cs[1..], name);
      if cs[0].name == name {
        StandingNone(cs[1..], name);
      }
    }
  }

  lemma {:induction false} StandingNone(cs: seq<LTree>, name: Name)
    requires forall i :: 0 <= i < |cs| ==> cs[i].name != name
    ensures Standing(cs, name) == []
  {
    hide Count, Kids;
    if cs != [] {
      StandingNone(cs[1..], name);
    }
  }

  lemma {:induction false} UniquePlain(t: LTree)
    requires Unique(t)
    ensures Plain(t)
    decreases t
  {
    forall i | 0 <= i < |t.kids|
      ensures Plain(t.kids[i])
    {
      UniquePlain(t.kids[i]);
    }
  }

  lemma JoinedOne(c: LTree)
    ensures Joined([c]).props == c.props && Joined([c]).kids == c.kids && MergeAll(c, []) == c
    ensures Unique(c) ==> Unique(Joined([c]))
  {
    assert [c][1..] == [] && Props([]) == [] && Kids([]) == [];
  }

  /** They are followed by every tree that hides nothing, and leave it so. */
  lemma {:induction false} UniqueFollows(t: LTree, o: LTree)
    requires Plain(t) && Clean(t) && CleanKids(o.kids) && Unique(o)
    ensures Follows(t, o) && Keeps(t, o)
    decreases Count(o.kids), 1
  {
    hide FollowsKid, KeepsKid;
    forall name: Name
      ensures FollowsKid(t, o, name) && KeepsKid(t, o, name)
    {
      UniqueFollowsKid(t, o, name);
    }
  }

  lemma {:induction false} UniqueFollowsKid(t: LTree, o: LTree, name: Name)
    requires Plain(t) && Clean(t) && CleanKids(o.kids) && Unique(o)
    ensures FollowsKid(t, o, name) && KeepsKid(t, o, name)
    decreases Count(o.kids), 0
  {
    hide Standing, Before, First, Plain, Clean, Shows, MergeAll, Joined, Follows, Keeps;
    var run, b := Standing(o.kids, name), Before(First(t.kids, name), o.kids, name);
    StandingOne(o.kids, name);
    if run != [] {
      var c := run[0];
      assert run == [c] && run[1..] == [] && c in o.kids;
      JoinedOne(c);
      if b.None? {
        UniquePlain(c);
        UniqueShows(c);
      } else {
        FoundSound(t, o, name);
        JoinedClean(o.kids, name);
        JoinedCount(o.kids, name);
        UniqueFollows(b.value, Joined(run));
      }
    }
  }

  lemma UniqueShows(c: LTree)
    requires Unique(c)
    ensures Shows(c, Joined([c]))
  {
    hide Unique, Shows;
    JoinedOne(c);
    PatchNothing(c);
    ShowsExactly(c, Joined([c]));
  }

  /** Overrides, each merged into what the ones before it made: as long as no override repeats a name, whatever the tree
      was like that hides nothing, the result is all of them applied as patches. */
  function MergeInOrder(t: LTree, os: seq<LTree>): LTree
    decreases |os|
  {
    if os == [] then t else MergeInOrder(Merge(t, os[0]), os[1..])
  }

  function PatchInOrder(v: View, os: seq<LTree>): View
    decreases |os|
  {
    if os == [] then v else PatchInOrder(Patch(v, os[0]), os[1..])
  }

  lemma {:induction false} OverridesInOrder(t: LTree, os: seq<LTree>)
    requires Plain(t) && Clean(t) && forall i :: 0 <= i < |os| ==> CleanKids(os[i].kids) && Unique(os[i])
    ensures ViewOf(MergeInOrder(t, os)) == PatchInOrder(ViewOf(t), os)
    ensures Plain(MergeInOrder(t, os)) && Clean(MergeInOrder(t, os))
    decreases |os|
  {
    hide Plain, Clean, Unique, Merge, ViewOf, Patch, Follows, Keeps, CleanKids;
    if os != [] {
      var o := os[0];
      assert CleanKids(o.kids) && Unique(o);
      UniqueFollows(t, o);
      MergeIsPatchExactly(t, o);
      PlainExactly(t, o);
      MergeClean(t, o);
      OverridesInOrder(Merge(t, o), os[1..]);
    }
  }

  // ---- trees that hide something --------------------------------------------------------------------------------------------

  function DeletesProp(name: Name): LTree { LTree(false, [], [LProp(true, name, [])], []) }
  function DeletesKid(name: Name): LTree { LTree(false, [], [], [LTree(true, name, [], [])]) }
  function Wraps(name: Name, o: LTree): LTree { LTree(false, [], [], [LTree(false, name, o.props, o.kids)]) }

  /** An override that ends no name twice. */
  predicate Simple(o: LTree) {
    Unique(o) && Clean(o) && !o.deleted
  }

  lemma HiddenProp(t: LTree, name: Name)
    requires Behind(t.props, name).Some?
    ensures Simple(DeletesProp(name)) && ViewOf(Merge(t, DeletesProp(name))) != Patch(ViewOf(t), DeletesProp(name))
  {
    var qs := [LProp(true, name, [])];
    assert qs[1..] == [] && LastWord(qs, name) == Gone;
    assert !DeletesWell(t.props, qs, name);
    hide MergeProps, PatchProps, DeletesWell;
    PropsExactly(t.props, qs);
  }

  lemma HiddenKid(t: LTree, name: Name)
    requires BehindKid(t.kids, name).Some?
    ensures Simple(DeletesKid(name)) && ViewOf(Merge(t, DeletesKid(name))) != Patch(ViewOf(t), DeletesKid(name))
  {
    SimpleDeletion(name);
    hide KidView, PatchKids, MergeKids, BehindKid, FirstLiveKid, First, Slot, PatchSlot, KidIn, Merge, Patch, ViewOf, Simple;
    var c := LTree(true, name, [], []);
    var r, v := MergeKids(t.kids, [c]), PatchKids(KidView(t.kids), [c]);
    MergeKidsAt(t.kids, [c], name);
    FirstLiveKidSkips(r, name);
    KidViewFirst(r, name);
    PatchKidsAt(KidView(t.kids), [c], name);
    DeletedSlots(First(t.kids, name), KidIn(KidView(t.kids), name), c);
    assert KidIn(KidView(r), name) != KidIn(v, name);
    WrapView(t, c);
  }

  lemma SimpleDeletion(name: Name)
    ensures Simple(DeletesKid(name)) && Simple(DeletesProp(name))
  {
    var c := LTree(true, name, [], []);
    assert Unique(c) && Clean(c);
  }

  lemma DeletedSlots(s: Option<LTree>, v: Option<View>, c: LTree)
    requires c.deleted
    ensures PatchSlot(v, [c], c.name) == None && (Slot(s, [c], c.name).Some? ==> Slot(s, [c], c.name).value.deleted)
  {
    assert [c][1..] == [];
  }

  lemma HiddenBelow(t: LTree, name: Name, o: LTree)
    requires BehindKid(t.kids, name) == None && First(t.kids, name).Some? && !First(t.kids, name).value.deleted
    requires var k := First(t.kids, name).value; Simple(o) && ViewOf(Merge(k, o)) != Patch(ViewOf(k), o)
    ensures Simple(Wraps(name, o)) && ViewOf(Merge(t, Wraps(name, o))) != Patch(ViewOf(t), Wraps(name, o))
  {
    SimpleWrap(name, o);
    hide Simple;
    var k, c := First(t.kids, name).value, LTree(false, name, o.props, o.kids);
    var cs := [c];
    hide KidView, PatchKids, MergeKids, BehindKid, FirstLiveKid, First, Slot, KidIn, PatchSlot, Merge, Patch, ViewOf;
    var r, v := MergeKids(t.kids, cs), PatchKids(KidView(t.kids), cs);
    MergeKidsAt(t.kids, cs, name);
    FirstLiveKidSkips(r, name);
    FirstLiveKidSkips(t.kids, name);
    KidViewFirst(r, name);
    KidViewFirst(t.kids, name);
    PatchKidsAt(KidView(t.kids), cs, name);
    MetSlots(k, c);
    SameOverride(k, o, c);
    assert KidIn(KidView(r), name) != KidIn(v, name);
    WrapView(t, c);
  }

  lemma SimpleWrap(name: Name, o: LTree)
    requires Simple(o)
    ensures Simple(Wraps(name, o))
  {
    var c := LTree(false, name, o.props, o.kids);
    assert Unique(c) && Clean(c);
  }

  lemma MetSlots(k: LTree, c: LTree)
    requires !c.deleted
    ensures Slot(Some(k), [c], c.name) == Some(Merge(k, c)) && !Merge(k, c).deleted
    ensures PatchSlot(Some(ViewOf(k)), [c], c.name) == Some(Patch(ViewOf(k), c))
  {
    hide ViewOf, Patch;
    assert [c][1..] == [];
  }

  lemma SameOverride(k: LTree, o: LTree, c: LTree)
    requires c.props == o.props && c.kids == o.kids
    ensures Merge(k, c) == Merge(k, o) && Patch(ViewOf(k), c) == Patch(ViewOf(k), o)
  {
  }

  lemma WrapView(t: LTree, c: LTree)
    ensures var o := LTree(false, [], [], [c]);
      ViewOf(Merge(t, o)).kids == KidView(MergeKids(t.kids, [c])) && Patch(ViewOf(t), o).kids == PatchKids(KidView(t.kids), [c])
  {
    hide KidView, PatchKids, MergeKids;
  }

  /** A tree that hides something does not follow some override, even one without repeated names. */
  lemma {:induction false} HidesSomething(t: LTree) returns (o: LTree)
    requires Clean(t) && !Plain(t)
    ensures Simple(o) && ViewOf(Merge(t, o)) != Patch(ViewOf(t), o)
    decreases t
  {
    hide Merge, Patch, ViewOf, Simple, Behind, BehindKid;
    if !NoneBehind(t.props) {
      var i, j :| 0 <= i < j < |t.props| && t.props[i].name == t.props[j].name && !t.props[j].deleted;
      BehindSome(t.props, i, j);
      HiddenProp(t, t.props[j].name);
      o := DeletesProp(t.props[j].name);
    } else if !NoKidBehind(t.kids) {
      var i, j :| 0 <= i < j < |t.kids| && t.kids[i].name == t.kids[j].name && !t.kids[j].deleted;
      KidBehindSome(t.kids, i, j);
      HiddenKid(t, t.kids[j].name);
      o := DeletesKid(t.kids[j].name);
    } else {
      var i: nat :| i < |t.kids| && !Plain(t.kids[i]);
      var name := t.kids[i].name;
      LiveFirst(t.kids, i);
      KidBehindNone(t.kids, name);
      var below := HidesSomething(t.kids[i]);
      HiddenBelow(t, name, below);
      o := Wraps(name, below);
    }
  }

  lemma LiveFirst(ks: seq<LTree>, i: nat)
    requires i < |ks| && NoKidBehind(ks) && CleanKids(ks) && !Plain(ks[i])
    ensures !ks[i].deleted && First(ks, ks[i].name) == Some(ks[i])
  {
    hide Plain, Clean, First;
    if ks[i].deleted {
      DeadPlain(ks[i]);
    }
    FirstFound(ks, ks[i].name);
  }

  /** So a tree follows every override without repeated names exactly when it hides nothing. */
  lemma PlainIsEnough(t: LTree)
    requires Clean(t)
    ensures Plain(t) <==> forall o :: Simple(o) ==> ViewOf(Merge(t, o)) == Patch(ViewOf(t), o)
  {
    hide Plain, Merge, Patch, ViewOf, Follows, Keeps;
    if Plain(t) {
      forall o | Simple(o)
        ensures ViewOf(Merge(t, o)) == Patch(ViewOf(t), o)
      {
        CleanBelow(o);
        UniqueFollows(t, o);
        MergeIsPatchExactly(t, o);
      }
    } else {
      var o := HidesSomething(t);
    }
  }

  /** A node that deletes a property and then defines it shows what it says, but hides it: an override that deletes the
      property finds the dead entry only. */
  lemma LaterDeletion()
    ensures var c := LTree(false, [], [LProp(true, P, []), LProp(false, P, [])], []);
      && Shows(c, c) && !Plain(c) && Simple(DeletesProp(P))
      && P in ViewOf(Merge(c, DeletesProp(P))).props && P !in Patch(ViewOf(c), DeletesProp(P)).props
  {
    var a, b := LProp(true, P, []), LProp(false, P, []);
    var c, qs := LTree(false, [], [a, b], []), [LProp(true, P, [])];
    assert [a, b][1..] == [b] && [b][1..] == [] && qs[1..] == [];
    assert c.props[0].name == c.props[1].name && !c.props[1].deleted;
    assert FirstLive(c.props, P) == Some([]) && Behind(c.props, P) == Some([]);
    HiddenProp(c, P);
    hide FirstLive, Behind, MergeProps, PatchProps, PropView;
    MergePropsAt(c.props, qs, P);
    PatchLast(PropView(c.props), qs, P);
    PropViewFirst(MergeProps(c.props, qs), P);
    DeleteDefineShows(a, b, c);
  }

  lemma DeleteDefineShows(a: LProp, b: LProp, c: LTree)
    requires a.name == b.name && a.deleted && !b.deleted && c == LTree(false, [], [a, b], [])
    ensures Shows(c, c)
  {
    hide FirstLiveKid, Standing;
    assert [a, b][1..] == [b] && [b][1..] == [] && c.kids == [];
    forall name: Name
      ensures ShowsWell(c.props, c.props, name) && ShowsKid(c, c, name)
    {
      Childless(name);
      assert FirstLive([], name) == None && LastWord([], name) == Silent;
      assert FirstLive([b], name) == WordValue(LastWord([b], name));
    }
  }

  lemma Childless(name: Name)
    ensures FirstLiveKid([], name) == None && Standing([], name) == []
  {
  }

  /** A node that defines a property and then deletes it does not show what it says. */
  lemma DefineThenDeleteFails()
    ensures var c := LTree(false, [], [LProp(false, P, []), LProp(true, P, [])], []); !Shows(c, c)
  {
    var c := LTree(false, [], [LProp(false, P, []), LProp(true, P, [])], []);
    hide Shows;
    DefineThenDelete();
    assert P in ViewOf(c).props && P !in Patch(NOTHING, c).props;
    ShowsExactly(c, c);
  }
}
