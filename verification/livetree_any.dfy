/** When dtc's merge of an override is the patch that the override describes: for any tree at all, whatever it hides and
    whatever dead nodes of it hold. */
module LivetreeAny {
  import opened Bytes
  import opened StructBlock
  import opened Livetree
  import opened LivetreeExact

  // ---- the condition --------------------------------------------------------------------------------------

  /** What a child shows. */
  function Seen(k: Option<LTree>): Option<View> {
    if k.Some? then Some(ViewOf(k.value)) else None
  }

  /** What the standing definitions of a name start from. */
  function Start(v: View, cs: seq<LTree>, name: Name): View {
    if Deletes(cs, name) || name !in v.kids then NOTHING else v.kids[name]
  }

  /** One property: said nothing of, it must be as in `v`; deleted in the end, it must not have been hidden. */
  predicate PropFits(ps: seq<LProp>, v: map<Name, Data>, qs: seq<LProp>, name: Name) {
    var w := LastWord(qs, name);
    if w == Silent then FirstLive(ps, name) == ValueIn(v, name) else w == Gone ==> Behind(ps, name) == None
  }

  predicate PropTaken(ps: seq<LProp>, v: map<Name, Data>, qs: seq<LProp>, name: Name) {
    var w := LastWord(qs, name);
    FirstLive(ps, name) == if w == Silent then ValueIn(v, name) else WordValue(w)
  }

  /** `x` as it stands shows what the override makes of `v`. */
  ghost predicate Taken(x: LTree, v: View, o: LTree)
    decreases Count(o.kids), 1
  {
    (forall name: Name :: PropTaken(x.props, v.props, o.props, name)) && forall name: Name :: KidTaken(x, v, o, name)
  }

  ghost predicate KidTaken(x: LTree, v: View, o: LTree, name: Name)
    decreases Count(o.kids), 0
  {
    var f, run := FirstLiveKid(x.kids, name), Standing(o.kids, name);
    if run == [] then Seen(f) == if Deletes(o.kids, name) then None else KidIn(v.kids, name)
    else f.Some? && Taken(f.value, Start(v, o.kids, name), Joined(run))
  }

  /** The override makes of `x`, entry by entry, what it makes of `v`. */
  ghost predicate Fits(x: LTree, v: View, o: LTree)
    decreases Count(o.kids), 2
  {
    (forall name: Name :: PropFits(x.props, v.props, o.props, name)) && KidsFit(x, v, o)
  }

  ghost predicate KidsFit(x: LTree, v: View, o: LTree)
    decreases Count(o.kids), 1
  {
    forall name: Name :: KidFits(x, v, o, name)
  }

  ghost predicate KidFits(x: LTree, v: View, o: LTree, name: Name)
    decreases Count(o.kids), 0
  {
    var run, b := Standing(o.kids, name), Before(First(x.kids, name), o.kids, name);
    if run == [] then
      (if Deletes(o.kids, name) then BehindKid(x.kids, name) == None else Seen(FirstLiveKid(x.kids, name)) == KidIn(v.kids, name))
    else if b.None? then Taken(MergeAll(run[0], run[1..]), Start(v, o.kids, name), Joined(run))
    else Fits(b.value, Start(v, o.kids, name), Joined(run))
  }

  // ---- properties --------------------------------------------------------------------------------------------

  lemma PropFitsExactly(ps: seq<LProp>, v: map<Name, Data>, qs: seq<LProp>, name: Name)
    ensures ValueIn(PropView(MergeProps(ps, qs)), name) == ValueIn(PatchProps(v, qs), name) <==> PropFits(ps, v, qs, name)
    ensures ValueIn(PropView(ps), name) == ValueIn(PatchProps(v, qs), name) <==> PropTaken(ps, v, qs, name)
  {
    hide MergeProps, PropView, PatchProps, LastWord, Behind, FirstLive;
    PropViewFirst(MergeProps(ps, qs), name);
    PropViewFirst(ps, name);
    MergePropsAt(ps, qs, name);
    PatchLast(v, qs, name);
  }

  lemma PropsFit(ps: seq<LProp>, v: map<Name, Data>, qs: seq<LProp>)
    ensures PropView(MergeProps(ps, qs)) == PatchProps(v, qs) <==> forall name: Name :: PropFits(ps, v, qs, name)
  {
    hide MergeProps, PropView, PatchProps, PropFits, PropTaken, ValueIn;
    var r, w := PropView(MergeProps(ps, qs)), PatchProps(v, qs);
    if r == w {
      forall name: Name
        ensures PropFits(ps, v, qs, name)
      {
        PropFitsExactly(ps, v, qs, name);
      }
    }
    if forall name: Name :: PropFits(ps, v, qs, name) {
      forall name: Name
        ensures ValueIn(r, name) == ValueIn(w, name)
      {
        PropFitsExactly(ps, v, qs, name);
      }
      SameValues(r, w);
    }
  }

  lemma PropsTaken(ps: seq<LProp>, v: map<Name, Data>, qs: seq<LProp>)
    ensures PropView(ps) == PatchProps(v, qs) <==> forall name: Name :: PropTaken(ps, v, qs, name)
  {
    hide MergeProps, PropView, PatchProps, PropFits, PropTaken, ValueIn;
    var r, w := PropView(ps), PatchProps(v, qs);
    if r == w {
      forall name: Name
        ensures PropTaken(ps, v, qs, name)
      {
        PropFitsExactly(ps, v, qs, name);
      }
    }
    if forall name: Name :: PropTaken(ps, v, qs, name) {
      forall name: Name
        ensures ValueIn(r, name) == ValueIn(w, name)
      {
        PropFitsExactly(ps, v, qs, name);
      }
      SameValues(r, w);
    }
  }

  // ---- children ----------------------------------------------------------------------------------------------

  /** One name, after the patch. */
  lemma PatchedKid(v: View, o: LTree, name: Name)
    ensures KidIn(PatchKids(v.kids, o.kids), name) ==
            var run := Standing(o.kids, name);
            if run != [] then Some(Patch(Start(v, o.kids, name), Joined(run)))
            else if Deletes(o.kids, name) then None else KidIn(v.kids, name)
  {
    hide PatchKids, Patch, Joined, Standing, Deletes;
    PatchKidsAt(v.kids, o.kids, name);
    PatchSlotIs(KidIn(v.kids, name), o.kids, name);
  }

  /** What a deletion finds is dead. */
  lemma {:induction false} BeforeDead(s: Option<LTree>, cs: seq<LTree>, name: Name)
    requires Deletes(cs, name)
    ensures var b := Before(s, cs, name); b.Some? ==> b.value.deleted
    decreases |cs|
  {
    hide Merge;
    var s1 := if cs[0].name == name then Step(s, cs[0]) else s;
    if Deletes(cs[1..], name) {
      BeforeDead(s1, cs[1..], name);
    } else {
      BeforeDef(s1, cs[1..], name);
    }
  }

  /** One name, after the merge. */
  lemma MergedKid(x: LTree, o: LTree, name: Name)
    ensures KidIn(KidView(MergeKids(x.kids, o.kids)), name) ==
            var run, b := Standing(o.kids, name), Before(First(x.kids, name), o.kids, name);
            if run == [] then Seen(if Deletes(o.kids, name) then BehindKid(x.kids, name) else FirstLiveKid(x.kids, name))
            else if b.None? then Some(ViewOf(MergeAll(run[0], run[1..])))
            else Some(ViewOf(Merge(b.value, Joined(run))))
  {
    hide KidView, MergeKids, KidIn, FirstLiveKid, First, Standing, Before, Deletes, ViewOf, Merge, Joined, BehindKid, MergeAll, Slot;
    var r := MergeKids(x.kids, o.kids);
    var run, b := Standing(o.kids, name), Before(First(x.kids, name), o.kids, name);
    MergeKidsAt(x.kids, o.kids, name);
    SlotIs(First(x.kids, name), o.kids, name);
    FirstLiveKidSkips(r, name);
    FirstLiveKidSkips(x.kids, name);
    KidViewFirst(r, name);
    BeforeDef(First(x.kids, name), o.kids, name);
    if run != [] {
      AfterLive(b, run);
    } else if Deletes(o.kids, name) {
      BeforeDead(First(x.kids, name), o.kids, name);
    }
  }

  // ---- taken over ----------------------------------------------------------------------------------------------

  lemma {:induction false} TakenExactly(x: LTree, v: View, o: LTree)
    ensures ViewOf(x) == Patch(v, o) <==> Taken(x, v, o)
    decreases Count(o.kids), 1
  {
    hide PropView, KidView, PatchProps, PatchKids, PropTaken, KidTaken, KidIn;
    PropsTaken(x.props, v.props, o.props);
    var r, w := KidView(x.kids), PatchKids(v.kids, o.kids);
    if r == w {
      forall name: Name
        ensures KidTaken(x, v, o, name)
      {
        KidTakenExactly(x, v, o, name);
      }
    }
    if forall name: Name :: KidTaken(x, v, o, name) {
      forall name: Name
        ensures KidIn(r, name) == KidIn(w, name)
      {
        KidTakenExactly(x, v, o, name);
      }
      SameKids(r, w);
    }
  }

  lemma {:induction false} KidTakenExactly(x: LTree, v: View, o: LTree, name: Name)
    ensures KidIn(KidView(x.kids), name) == KidIn(PatchKids(v.kids, o.kids), name) <==> KidTaken(x, v, o, name)
    decreases Count(o.kids), 0
  {
    hide KidView, PatchKids, KidIn, FirstLiveKid, Standing, Patch, ViewOf, Taken, Deletes, Start, Joined;
    KidViewFirst(x.kids, name);
    PatchedKid(v, o, name);
    var f, run := FirstLiveKid(x.kids, name), Standing(o.kids, name);
    if f.Some? && run != [] {
      JoinedCount(o.kids, name);
      TakenExactly(f.value, Start(v, o.kids, name), Joined(run));
    }
  }

  // ---- merged --------------------------------------------------------------------------------------------------

  lemma {:induction false} FitsExactly(x: LTree, v: View, o: LTree)
    ensures ViewOf(Merge(x, o)) == Patch(v, o) <==> Fits(x, v, o)
    decreases Count(o.kids), 2
  {
    hide PropView, KidView, PatchProps, PatchKids, MergeProps, MergeKids, PropFits, KidsFit;
    PropsFit(x.props, v.props, o.props);
    KidsFitExactly(x, v, o);
  }

  lemma {:induction false} KidsFitExactly(x: LTree, v: View, o: LTree)
    ensures KidView(MergeKids(x.kids, o.kids)) == PatchKids(v.kids, o.kids) <==> KidsFit(x, v, o)
    decreases Count(o.kids), 1
  {
    hide KidView, PatchKids, MergeKids, KidFits, KidIn;
    var r, w := KidView(MergeKids(x.kids, o.kids)), PatchKids(v.kids, o.kids);
    if r == w {
      forall name: Name
        ensures KidFits(x, v, o, name)
      {
        KidFitsExactly(x, v, o, name);
      }
    }
    if forall name: Name :: KidFits(x, v, o, name) {
      forall name: Name
        ensures KidIn(r, name) == KidIn(w, name)
      {
        KidFitsExactly(x, v, o, name);
      }
      SameKids(r, w);
    }
  }

  lemma {:induction false} KidFitsExactly(x: LTree, v: View, o: LTree, name: Name)
    ensures KidIn(KidView(MergeKids(x.kids, o.kids)), name) == KidIn(PatchKids(v.kids, o.kids), name) <==> KidFits(x, v, o, name)
    decreases Count(o.kids), 0
  {
    hide KidView, PatchKids, MergeKids, KidIn, FirstLiveKid, First, Standing, Before, Patch, ViewOf, Merge, Taken, Fits, Deletes, Start,
      Joined, BehindKid, MergeAll;
    MergedKid(x, o, name);
    PatchedKid(v, o, name);
    var run, b := Standing(o.kids, name), Before(First(x.kids, name), o.kids, name);
    if run != [] {
      JoinedCount(o.kids, name);
      if b.None? {
        TakenExactly(MergeAll(run[0], run[1..]), Start(v, o.kids, name), Joined(run));
      } else {
        FitsExactly(b.value, Start(v, o.kids, name), Joined(run));
      }
    }
  }

  /** For any tree and any override: merging is patching exactly when every property that is deleted in the end, and
      every child that is, hides none of its name, and every definition that stands finds a node, dead or live, that it
      makes the same of as of what is visible, or is taken over as what it says. */
  lemma MergeExactly(t: LTree, o: LTree)
    ensures ViewOf(Merge(t, o)) == Patch(ViewOf(t), o) <==>
            && (forall name: Name :: DeletesWell(t.props, o.props, name))
            && KidsFit(t, ViewOf(t), o)
  {
    hide Merge, Patch, Fits, KidsFit, DeletesWell, PropFits;
    FitsExactly(t, ViewOf(t), o);
    FitsOwn(t, o);
  }

  lemma FitsOwn(t: LTree, o: LTree)
    ensures Fits(t, ViewOf(t), o) <==>
            && (forall name: Name :: DeletesWell(t.props, o.props, name))
            && KidsFit(t, ViewOf(t), o)
  {
    hide PropFits, DeletesWell, ViewOf, KidsFit;
    var v := ViewOf(t);
    if forall name: Name :: PropFits(t.props, v.props, o.props, name) {
      forall name: Name
        ensures DeletesWell(t.props, o.props, name)
      {
        OwnProp(t, o, name);
      }
    }
    if forall name: Name :: DeletesWell(t.props, o.props, name) {
      forall name: Name
        ensures PropFits(t.props, v.props, o.props, name)
      {
        OwnProp(t, o, name);
      }
    }
  }

  lemma OwnProp(t: LTree, o: LTree, name: Name)
    ensures PropFits(t.props, ViewOf(t).props, o.props, name) <==> DeletesWell(t.props, o.props, name)
  {
    hide LastWord, Behind, FirstLive, PropView, KidView, ValueIn;
    PropViewFirst(t.props, name);
  }
}
