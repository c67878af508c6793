/** What applying `__fixups__` puts into the cells of an overlay: the phandles of the nodes that the labels
    stand for in the base, and nothing else anywhere. */
module FixupLaws {
  import opened Bytes
  import opened StructBlock
  import opened Results
  import opened FdtBase
  import opened Naming
  import opened Overlay
  import opened OverlayFixups
  import opened RelocLaws
  import opened OverlaySound
  import opened FixupText
  import T = Tree

  // ---- what the tables say --------------------------------------------------------------------------

  /** One line of `__fixups__`: the cell at `off` of property `name` of the node at `path` is to hold the phandle
      of what `symbol` stands for. */
  datatype Listed = Listed(symbol: Name, path: Name, name: Name, off: u32)

  /** The entries of one property, up to the first that cannot be read. */
  function Entries(symbol: Name, val: seq<byte>): seq<Listed>
    decreases |val|
  {
    var z := NulFrom(val, 0);
    if z == |val| then [] else
    match ParseFixup(val[..z])
    case Err(_) => []
    case Ok(f) => [Listed(symbol, f.path, f.name, f.poffset)] + Entries(symbol, val[z + 1..])
  }

  /** Printed entries are read back. */
  lemma {:induction false} EntriesPrinted(symbol: Name, fs: seq<Fixup>)
    requires forall i :: 0 <= i < |fs| ==> Writable(fs[i])
    ensures |Entries(symbol, PrintAll(fs))| == |fs|
    ensures forall i :: 0 <= i < |fs| ==> Entries(symbol, PrintAll(fs))[i] == Listed(symbol, fs[i].path, fs[i].name, fs[i].poffset)
    decreases |fs|
  {
    hide Print, ParseFixup;
    var val := PrintAll(fs);
    if fs != [] {
      var s, rest := Print(fs[0]), PrintAll(fs[1..]);
      assert Writable(fs[0]);
      EntryRoundTrip(fs[0]);
      NulAfter(s, rest);
      assert val == s + [0] + rest;
      assert val[..|s|] == s && val[|s| + 1..] == rest;
      EntriesPrinted(symbol, fs[1..]);
    }
  }

  function AllEntries(ps: seq<T.Property>): seq<Listed> {
    if ps == [] then [] else Entries(ps[0].name, ps[0].val) + AllEntries(ps[1..])
  }

  /** The properties of the fixups node. */
  function FixupsOf(o: T.Tree): seq<T.Property> {
    var f := T.FindKid(o.kids, FIXUPS);
    if f < |o.kids| then o.kids[f].props else []
  }

  /** The label is in `__symbols__` of the base, with the path of a node that has this phandle. */
  ghost predicate StandsFor(b: T.Tree, symbol: Name, h: u32) {
    var s := Descend(b, [], [SYMBOLS]);
    s.Ok? && StandsAt(b, T.At(b, s.value).props, symbol, h)
  }

  ghost predicate StandsAt(b: T.Tree, ps: seq<T.Property>, symbol: Name, h: u32) {
    var i := T.FindProp(ps, symbol);
    && i < |ps| && StringAt(ps[i].val, 0)
    && var q := NodeByPath(b, CStr(ps[i].val, 0));
       q.Ok? && h == PhandleOf(T.At(b, q.value)) && h != 0
  }

  // ---- cells ------------------------------------------------------------------------------------------

  predicate HasValue(t: T.Tree, p: Path, i: nat) {
    T.HasPath(t, p) && i < |T.At(t, p).props|
  }

  function ValueIn(t: T.Tree, p: Path, i: nat): Data
    requires HasValue(t, p, i)
  {
    T.At(t, p).props[i].val
  }

  /** The entry is of property `i` of the node at `p`. */
  ghost predicate IsOf(o: T.Tree, e: Listed, p: Path, i: nat) {
    NodeByPath(o, e.path) == Ok(p) && HasValue(o, p, i) && i == T.FindProp(T.At(o, p).props, e.name)
  }

  /** Its cell has a byte in the stretch from `x` to `y` of that property. */
  ghost predicate Touches(o: T.Tree, e: Listed, p: Path, i: nat, x: nat, y: nat) {
    IsOf(o, e, p, i) && e.off < y && x < e.off + 4
  }

  /** None of the entries has. */
  ghost predicate NoneTouches(o: T.Tree, es: seq<Listed>, p: Path, i: nat, x: nat, y: nat) {
    forall j :: 0 <= j < |es| ==> !Touches(o, es[j], p, i, x, y)
  }

  /** The cell of the entry holds the phandle of what its label stands for. */
  ghost predicate Resolved(b: T.Tree, o: T.Tree, o3: T.Tree, e: Listed) {
    exists p, i :: IsOf(o, e, p, i) && HoldsPhandle(b, o3, e, p, i)
  }

  ghost predicate HoldsPhandle(b: T.Tree, o3: T.Tree, e: Listed, p: Path, i: nat) {
    HasValue(o3, p, i) && e.off + 4 <= |ValueIn(o3, p, i)| && StandsFor(b, e.symbol, Word(ValueIn(o3, p, i), e.off))
  }

  // ---- lookups while values change ------------------------------------------------------------------------

  /** The aliases are the same in both trees. */
  predicate SameAliases(a: T.Tree, b: T.Tree) {
    var s := Descend(a, [], [ALIASES]);
    s.Ok? ==> T.HasPath(b, s.value) && T.At(b, s.value).props == T.At(a, s.value).props
  }

  /** Paths that the fixups do not change the meaning of: absolute ones, or any where no entry is of the aliases. */
  ghost predicate Steady(o: T.Tree, es: seq<Listed>) {
    || (forall j :: 0 <= j < |es| ==> IsAbsolute(es[j].path))
    || (forall j :: 0 <= j < |es| ==> !OfAliases(o, es[j]))
  }

  ghost predicate OfAliases(o: T.Tree, e: Listed) {
    Descend(o, [], [ALIASES]).Ok? && NodeByPath(o, e.path) == Descend(o, [], [ALIASES])
  }

  lemma AliasSame(a: T.Tree, b: T.Tree, name: Name)
    requires Skel(a) == Skel(b) && SameAliases(a, b)
    ensures AliasValue(a, name) == AliasValue(b, name)
  {
    hide Skel, Descend;
    DescendSkel(a, b, [], [ALIASES]);
  }

  lemma {:induction false} WithinSame(a: T.Tree, b: T.Tree, path: Name, d: nat)
    requires Skel(a) == Skel(b) && SameAliases(a, b)
    ensures PathEnds(a, path, d) == PathEnds(b, path, d)
    ensures PathEnds(a, path, d) ==> NodeWithin(a, path, d) == NodeWithin(b, path, d)
    decreases d
  {
    hide Skel, SameAliases, AliasValue, Descend, Components, IndexOf, StringAt, CStr;
    PathSkel(a, b, path);
    if !IsAbsolute(path) {
      var n := IndexOf(path, SLASH);
      AliasSame(a, b, path[..n]);
      var v := AliasValue(a, path[..n]);
      if v.Ok? && StringAt(v.value, 0) && d > 0 {
        WithinSame(a, b, CStr(v.value, 0), d - 1);
        if PathEnds(a, CStr(v.value, 0), d - 1) && NodeWithin(a, CStr(v.value, 0), d - 1).Ok? {
          DescendSkel(a, b, NodeWithin(a, CStr(v.value, 0), d - 1).value, Components(path[n..]));
        }
      }
    }
  }

  lemma LookupSame(a: T.Tree, b: T.Tree, path: Name)
    requires Skel(a) == Skel(b) && (IsAbsolute(path) || SameAliases(a, b))
    ensures NodeByPath(a, path) == NodeByPath(b, path)
  {
    hide Skel, SameAliases, PathEnds, NodeWithin, NodeAtPath, NodeByPath;
    if IsAbsolute(path) {
      AbsoluteEnds(a, path);
      AbsoluteEnds(b, path);
      PathSkel(a, b, path);
    } else {
      EndsSame(a, b, path);
    }
  }

  lemma EndsSame(a: T.Tree, b: T.Tree, path: Name)
    requires Skel(a) == Skel(b) && SameAliases(a, b)
    ensures NodeByPath(a, path) == NodeByPath(b, path)
  {
    hide Skel, SameAliases, PathEnds, NodeWithin;
    if d: nat :| PathEnds(a, path, d) {
      WithinSame(a, b, path, d);
      NodeByPathIs(a, path, d);
      NodeByPathIs(b, path, d);
    } else if d: nat :| PathEnds(b, path, d) {
      WithinSame(a, b, path, d);
    }
  }

  // ---- one entry ------------------------------------------------------------------------------------------

  ghost function Symbols(b: T.Tree): Result<Path>
    ensures Symbols(b).Ok? ==> T.HasPath(b, Symbols(b).value)
  {
    Descend(b, [], [SYMBOLS])
  }

  ghost function One(b: T.Tree, o: T.Tree, e: Listed): Result<T.Tree> {
    FixupOne(b, o, Symbols(b), Fixup(e.path, e.name, e.off), e.symbol)
  }

  /** What one entry does. */
  lemma OneIs(b: T.Tree, o: T.Tree, e: Listed) returns (p: Path, i: nat, h: u32)
    requires One(b, o, e).Ok?
    ensures StandsFor(b, e.symbol, h) && IsOf(o, e, p, i) && e.off + 4 <= |ValueIn(o, p, i)|
    ensures One(b, o, e).value == T.Put(o, p, T.PatchProp(T.At(o, p), i, e.off, BE32(h)))
  {
    hide NodeByPath, T.At, T.HasPath, T.Put, T.PatchProp, PhandleOf, Descend, BE32;
    p := NodeByPath(o, e.path).value;
    i := T.FindProp(T.At(o, p).props, e.name);
    h := LabelPhandle(b, Symbols(b), e.symbol).value;
  }

  /** When an entry can be carried out, and what is answered when it cannot. */
  lemma OneOutcomes(b: T.Tree, o: T.Tree, e: Listed)
    ensures var r, s := One(b, o, e), Symbols(b);
      if !exists h :: StandsFor(b, e.symbol, h) then r.Err? && r.code == LabelError(b, e.symbol) else
      var p := NodeByPath(o, e.path);
      if p.Err? then r == Err(if p.code == ERR_NOTFOUND then ERR_BADOVERLAY else p.code) else
      var i := T.FindProp(T.At(o, p.value).props, e.name);
      if i == |T.At(o, p.value).props| then r == Err(ERR_NOTFOUND)
      else if e.off + 4 > |T.At(o, p.value).props[i].val| then r == Err(ERR_NOSPACE)
      else r.Ok?
  {
    hide NodeByPath, T.At, T.HasPath, T.Put, T.PatchProp, PhandleOf, Descend, BE32;
    var l := LabelPhandle(b, Symbols(b), e.symbol);
    if l.Ok? {
      assert StandsFor(b, e.symbol, l.value);
    }
  }

  /** Why a label stands for no phandle. */
  ghost function LabelError(b: T.Tree, symbol: Name): int {
    var s := Symbols(b);
    if s.Err? then s.code else
    var ps := T.At(b, s.value).props;
    var i := T.FindProp(ps, symbol);
    if i == |ps| then ERR_NOTFOUND
    else if !StringAt(ps[i].val, 0) then ERR_BADOVERLAY
    else
      var q := NodeByPath(b, CStr(ps[i].val, 0));
      if q.Err? then q.code else ERR_NOTFOUND
  }

  /** A cell written in one place. */
  lemma Written(o: T.Tree, p: Path, i: nat, off: nat, h: u32)
    requires HasValue(o, p, i) && off + 4 <= |ValueIn(o, p, i)|
    ensures var o1 := T.Put(o, p, T.PatchProp(T.At(o, p), i, off, BE32(h)));
      && Skel(o1) == Skel(o)
      && HasValue(o1, p, i) && |ValueIn(o1, p, i)| == |ValueIn(o, p, i)| && Word(ValueIn(o1, p, i), off) == h
  {
    hide Skel, T.Put, BE32, Word;
    FourBytesOf(h);
    PatchSkel(T.At(o, p), i, off, BE32(h));
    PutSkel(o, p, T.PatchProp(T.At(o, p), i, off, BE32(h)));
    PatchedReads(ValueIn(o, p, i), off, h);
  }

  /** Nothing else is. */
  lemma NotWritten(o: T.Tree, p: Path, i: nat, off: nat, h: u32, q: Path, k: nat, x: nat, y: nat)
    requires HasValue(o, p, i) && off + 4 <= |ValueIn(o, p, i)| && HasValue(o, q, k) && x <= y <= |ValueIn(o, q, k)|
    requires !(q == p && k == i && off < y && x < off + 4)
    ensures var o1 := T.Put(o, p, T.PatchProp(T.At(o, p), i, off, BE32(h)));
      HasValue(o1, q, k) && |ValueIn(o1, q, k)| == |ValueIn(o, q, k)| && ValueIn(o1, q, k)[x..y] == ValueIn(o, q, k)[x..y]
  {
    hide T.Put, BE32;
    FourBytesOf(h);
    if q == p {
      if k == i {
        PatchedElsewhere(ValueIn(o, p, i), off, BE32(h), x, y);
      }
    } else {
      PropsElsewhere(o, p, T.PatchProp(T.At(o, p), i, off, BE32(h)), q);
    }
  }

  lemma FourBytesOf(h: u32)
    ensures |BE32(h)| == 4
  {
  }

  lemma PatchedReads(val: Data, off: nat, h: u32)
    requires off + 4 <= |val| && |BE32(h)| == 4
    ensures Word(T.Patched(val, off, BE32(h)), off) == h
  {
    hide BE32, Word;
    WordAt(T.Patched(val, off, BE32(h)), off, h);
  }

  lemma PatchedElsewhere(val: Data, off: nat, d: seq<byte>, x: nat, y: nat)
    requires off + |d| <= |val| && x <= y <= |val| && !(off < y && x < off + |d|)
    ensures T.Patched(val, off, d)[x..y] == val[x..y]
  {
  }

  // ---- all entries ------------------------------------------------------------------------------------------

  /** The entries one after the other. */
  ghost function Run(b: T.Tree, o: T.Tree, es: seq<Listed>): Result<T.Tree>
    decreases |es|
  {
    if es == [] then Ok(o) else
    match One(b, o, es[0])
    case Err(e) => Err(e)
    case Ok(o1) => Run(b, o1, es[1..])
  }

  lemma {:induction false} RunConcat(b: T.Tree, o: T.Tree, es: seq<Listed>, fs: seq<Listed>)
    requires Run(b, o, es).Ok?
    ensures Run(b, o, es + fs) == Run(b, Run(b, o, es).value, fs)
    decreases |es|
  {
    hide One;
    if es == [] {
      assert es + fs == fs;
    } else {
      assert (es + fs)[1..] == es[1..] + fs;
      RunConcat(b, One(b, o, es[0]).value, es[1..], fs);
    }
  }

  lemma {:induction false} ListRuns(b: T.Tree, o: T.Tree, val: seq<byte>, symbol: Name)
    requires FixupList(b, o, Symbols(b), val, symbol).Ok?
    ensures Run(b, o, Entries(symbol, val)) == FixupList(b, o, Symbols(b), val, symbol)
    decreases |val|
  {
    hide FixupOne, ParseFixup, Symbols;
    var z := NulFrom(val, 0);
    var f := ParseFixup(val[..z]).value;
    var e := Listed(symbol, f.path, f.name, f.poffset);
    var es := Entries(symbol, val[z + 1..]);
    assert Entries(symbol, val) == [e] + es && ([e] + es)[1..] == es;
    if z + 1 == |val| {
      assert val[z + 1..] == [] && es == [];
    } else {
      ListRuns(b, One(b, o, e).value, val[z + 1..], symbol);
    }
  }

  lemma {:induction false} PropsRun(b: T.Tree, o: T.Tree, ps: seq<T.Property>)
    requires FixupProps(b, o, Symbols(b), ps).Ok?
    ensures Run(b, o, AllEntries(ps)) == FixupProps(b, o, Symbols(b), ps)
    decreases |ps|
  {
    hide FixupList, Entries, Symbols, Run;
    if ps == [] {
      RunNone(b, o);
    } else {
      ListRuns(b, o, ps[0].val, ps[0].name);
      var o1 := FixupList(b, o, Symbols(b), ps[0].val, ps[0].name).value;
      PropsRun(b, o1, ps[1..]);
      RunConcat(b, o, Entries(ps[0].name, ps[0].val), AllEntries(ps[1..]));
    }
  }

  lemma RunNone(b: T.Tree, o: T.Tree)
    ensures Run(b, o, []) == Ok(o)
  {
  }

  lemma AllRuns(b: T.Tree, o: T.Tree)
    requires FixupAll(b, o).Ok?
    ensures Run(b, o, AllEntries(FixupsOf(o))) == FixupAll(b, o)
  {
    hide FixupProps, Run, T.FindKid;
    if T.FindKid(o.kids, FIXUPS) < |o.kids| {
      PropsRun(b, o, FixupsOf(o));
    } else {
      RunNone(b, o);
    }
  }

  // ---- half way through the entries -------------------------------------------------------------------------

  /** `o` is what some entries have made of `o0`, and looks up the paths of the others as `o0` does. */
  ghost predicate Reached(o0: T.Tree, o: T.Tree, es: seq<Listed>) {
    Skel(o) == Skel(o0) && ((forall j :: 0 <= j < |es| ==> IsAbsolute(es[j].path)) ||
                            (SameAliases(o0, o) && forall j :: 0 <= j < |es| ==> !OfAliases(o0, es[j])))
  }

  lemma ReachedLookup(o0: T.Tree, o: T.Tree, es: seq<Listed>, j: nat)
    requires Reached(o0, o, es) && j < |es|
    ensures NodeByPath(o, es[j].path) == NodeByPath(o0, es[j].path)
  {
    hide Skel, SameAliases, NodeByPath, OfAliases;
    LookupSame(o0, o, es[j].path);
  }

  lemma IsOfSame(o0: T.Tree, o: T.Tree, es: seq<Listed>, j: nat, p: Path, i: nat)
    requires Reached(o0, o, es) && j < |es|
    ensures IsOf(o, es[j], p, i) <==> IsOf(o0, es[j], p, i)
  {
    hide Skel, NodeByPath, T.HasPath, T.At, Reached;
    ReachedLookup(o0, o, es, j);
    ReachedSkel(o0, o, es);
    SkelAt(o0, o, p);
    if T.HasPath(o0, p) {
      SkelValues(T.At(o0, p), T.At(o, p), es[j].name);
    }
  }

  lemma ReachedSkel(o0: T.Tree, o: T.Tree, es: seq<Listed>)
    requires Reached(o0, o, es)
    ensures Skel(o) == Skel(o0)
  {
  }

  /** The first of the entries has been carried out. */
  lemma ReachedNext(b: T.Tree, o0: T.Tree, o: T.Tree, es: seq<Listed>)
    requires Reached(o0, o, es) && es != [] && One(b, o, es[0]).Ok?
    ensures Reached(o0, One(b, o, es[0]).value, es[1..])
  {
    hide Skel, One, SameAliases, OfAliases, T.Put, T.Patched, BE32, NodeByPath, StandsFor, T.HasPath, T.At;
    var o1 := One(b, o, es[0]).value;
    var p, i, h := OneIs(b, o, es[0]);
    FourBytesOf(h);
    Written(o, p, i, es[0].off, h);
    assert forall j :: 0 <= j < |es[1..]| ==> es[1..][j] == es[j + 1];
    if !(forall j :: 0 <= j < |es| ==> IsAbsolute(es[j].path)) {
      ReachedLookup(o0, o, es, 0);
      AliasesStay(o0, o, p, T.PatchProp(T.At(o, p), i, es[0].off, BE32(h)), es[0]);
    }
  }

  lemma AliasesStay(o0: T.Tree, o: T.Tree, p: Path, x: T.Tree, e: Listed)
    requires Skel(o) == Skel(o0) && SameAliases(o0, o) && !OfAliases(o0, e) && NodeByPath(o0, e.path) == Ok(p)
    requires T.HasPath(o, p) && x.kids == T.At(o, p).kids
    ensures SameAliases(o0, T.Put(o, p, x))
  {
    hide Skel, NodeByPath, T.Put, T.At, Descend;
    var s := Descend(o0, [], [ALIASES]);
    if s.Ok? {
      PropsElsewhere(o, p, x, s.value);
    }
  }

  lemma SteadyReached(o: T.Tree, es: seq<Listed>)
    requires Steady(o, es)
    ensures Reached(o, o, es)
  {
    hide Skel, OfAliases;
  }

  /** What no entry touches stays. */
  lemma {:induction false} RunKeeps(b: T.Tree, o0: T.Tree, o: T.Tree, es: seq<Listed>, p: Path, i: nat, x: nat, y: nat)
    requires Reached(o0, o, es) && Run(b, o, es).Ok? && HasValue(o, p, i) && x <= y <= |ValueIn(o, p, i)|
    requires NoneTouches(o0, es, p, i, x, y)
    ensures var o3 := Run(b, o, es).value;
      HasValue(o3, p, i) && |ValueIn(o3, p, i)| == |ValueIn(o, p, i)| && ValueIn(o3, p, i)[x..y] == ValueIn(o, p, i)[x..y]
    decreases |es|
  {
    hide Reached, One, IsOf, HasValue, ValueIn, T.Put, T.PatchProp, BE32, StandsFor;
    if es != [] {
      var o1 := One(b, o, es[0]).value;
      var q, k, h := OneIs(b, o, es[0]);
      IsOfSame(o0, o, es, 0, q, k);
      assert !Touches(o0, es[0], p, i, x, y);
      HasOf(o, es[0], q, k);
      SameSpot(o0, es[0], q, k, p, i, x, y);
      NotWritten(o, q, k, es[0].off, h, p, i, x, y);
      ReachedNext(b, o0, o, es);
      LaterOnes(o0, es, p, i, x, y);
      RunKeeps(b, o0, o1, es[1..], p, i, x, y);
    }
  }

  lemma HasOf(o: T.Tree, e: Listed, p: Path, i: nat)
    requires IsOf(o, e, p, i)
    ensures HasValue(o, p, i)
  {
  }

  lemma SameSpot(o: T.Tree, e: Listed, q: Path, k: nat, p: Path, i: nat, x: nat, y: nat)
    requires IsOf(o, e, q, k) && !Touches(o, e, p, i, x, y)
    ensures !(p == q && i == k && e.off < y && x < e.off + 4)
  {
    hide IsOf;
  }

  lemma LaterOnes(o: T.Tree, es: seq<Listed>, p: Path, i: nat, x: nat, y: nat)
    requires es != [] && NoneTouches(o, es, p, i, x, y)
    ensures NoneTouches(o, es[1..], p, i, x, y)
  {
    hide Touches;
    assert forall j :: 0 <= j < |es[1..]| ==> es[1..][j] == es[j + 1];
  }

  /** No later entry touches the cell of entry `j`. */
  ghost predicate Stands(o: T.Tree, es: seq<Listed>, j: nat)
    requires j < |es|
  {
    forall p, i :: IsOf(o, es[j], p, i) ==> NoneTouches(o, es[j + 1..], p, i, es[j].off, es[j].off + 4)
  }

  /** A cell that no later entry touches ends up with the phandle. */
  lemma {:induction false} RunSets(b: T.Tree, o0: T.Tree, o: T.Tree, es: seq<Listed>, j: nat)
    requires Reached(o0, o, es) && Run(b, o, es).Ok? && j < |es| && Stands(o0, es, j)
    ensures Resolved(b, o0, Run(b, o, es).value, es[j])
    decreases |es|
  {
    hide Reached, One, IsOf, T.Put, T.PatchProp, BE32, StandsFor, Word, Resolved, HoldsPhandle, Stands;
    var o1 := One(b, o, es[0]).value;
    ReachedNext(b, o0, o, es);
    if j == 0 {
      SetsFirst(b, o0, o, es);
    } else {
      assert es[1..][j - 1] == es[j] && es[1..][j..] == es[j + 1..];
      StandsLater(o0, es, j);
      RunSets(b, o0, o1, es[1..], j - 1);
    }
  }

  lemma StandsLater(o: T.Tree, es: seq<Listed>, j: nat)
    requires 0 < j < |es| && Stands(o, es, j)
    ensures Stands(o, es[1..], j - 1)
  {
    hide IsOf, NoneTouches;
    assert es[1..][j - 1] == es[j] && es[1..][j..] == es[j + 1..];
  }

  lemma SetsFirst(b: T.Tree, o0: T.Tree, o: T.Tree, es: seq<Listed>)
    requires Reached(o0, o, es) && Run(b, o, es).Ok? && es != [] && Stands(o0, es, 0)
    ensures Resolved(b, o0, Run(b, o, es).value, es[0])
  {
    hide Reached, One, IsOf, HasValue, ValueIn, T.Put, T.PatchProp, BE32, StandsFor, Word, NoneTouches;
    var e, o1, o3 := es[0], One(b, o, es[0]).value, Run(b, o, es).value;
    var p, i, h := OneIs(b, o, e);
    IsOfSame(o0, o, es, 0, p, i);
    HasOf(o, e, p, i);
    Written(o, p, i, e.off, h);
    ReachedNext(b, o0, o, es);
    RunKeeps(b, o0, o1, es[1..], p, i, e.off, e.off + 4);
    SameWord(ValueIn(o1, p, i), ValueIn(o3, p, i), e.off);
    assert HoldsPhandle(b, o3, e, p, i);
  }

  lemma SameWord(s: seq<byte>, t: seq<byte>, off: nat)
    requires off + 4 <= |s| == |t| && s[off..off + 4] == t[off..off + 4]
    ensures Word(s, off) == Word(t, off)
  {
    hide BE32;
    var n := Word(s, off);
    WordSlice(s, off);
    WordAt(t, off, n);
  }

  lemma WordSlice(s: seq<byte>, off: nat)
    requires off + 4 <= |s|
    ensures s[off..off + 4] == BE32(Word(s, off))
  {
    var d := s[off..off + 4];
    BE32OfWord(d);
    assert forall k :: 0 <= k < 4 ==> d[k] == s[off + k];
    hide BE32;
  }

  // ---- the fixups of an overlay ---------------------------------------------------------------------------------

  /** After the fixups, a listed cell holds the phandle of the node of the base that its label stands for, unless a
      later entry has written into it. */
  lemma FixupsResolve(b: T.Tree, o: T.Tree, j: nat)
    requires FixupAll(b, o).Ok?
    requires var es := AllEntries(FixupsOf(o)); Steady(o, es) && j < |es| && Stands(o, es, j)
    ensures Resolved(b, o, FixupAll(b, o).value, AllEntries(FixupsOf(o))[j])
  {
    hide FixupAll, Run, Reached, Steady, Resolved, Stands, AllEntries, FixupsOf;
    var es := AllEntries(FixupsOf(o));
    AllRuns(b, o);
    SteadyReached(o, es);
    RunSets(b, o, o, es, j);
  }

  /** Bytes in no listed cell are those they were. */
  lemma FixupsKeep(b: T.Tree, o: T.Tree, p: Path, i: nat, x: nat, y: nat)
    requires FixupAll(b, o).Ok? && HasValue(o, p, i) && x <= y <= |ValueIn(o, p, i)|
    requires var es := AllEntries(FixupsOf(o)); Steady(o, es) && NoneTouches(o, es, p, i, x, y)
    ensures var o3 := FixupAll(b, o).value;
      HasValue(o3, p, i) && |ValueIn(o3, p, i)| == |ValueIn(o, p, i)| && ValueIn(o3, p, i)[x..y] == ValueIn(o, p, i)[x..y]
  {
    hide FixupAll, Run, Reached, Steady, NoneTouches, AllEntries, FixupsOf;
    var es := AllEntries(FixupsOf(o));
    AllRuns(b, o);
    SteadyReached(o, es);
    RunKeeps(b, o, o, es, p, i, x, y);
  }

  lemma {:induction false} RunSkel(b: T.Tree, o: T.Tree, es: seq<Listed>)
    requires Run(b, o, es).Ok?
    ensures Skel(Run(b, o, es).value) == Skel(o)
    decreases |es|
  {
    hide Skel, One, T.Put, T.PatchProp, BE32, StandsFor, IsOf, ValueIn;
    if es != [] {
      var p, i, h := OneIs(b, o, es[0]);
      HasOf(o, es[0], p, i);
      Written(o, p, i, es[0].off, h);
      RunSkel(b, One(b, o, es[0]).value, es[1..]);
    }
  }

  /** Names, and the lengths of values, do not change. */
  lemma FixupsSkel(b: T.Tree, o: T.Tree)
    requires FixupAll(b, o).Ok?
    ensures Skel(FixupAll(b, o).value) == Skel(o)
  {
    hide FixupAll, Run, Skel, AllEntries, FixupsOf;
    AllRuns(b, o);
    RunSkel(b, o, AllEntries(FixupsOf(o)));
  }

  // ---- the prepared overlay ---------------------------------------------------------------------------------------

  /** The same of the overlay that is merged, seen from the relocated one. */
  lemma PreparedResolves(b: T.Tree, o: T.Tree, j: nat)
    requires Prepared(b, o).Ok?
    requires var o2 := Relocated(b, o).value;
      var es := AllEntries(FixupsOf(o2));
      Steady(o2, es) && j < |es| && Stands(o2, es, j)
    ensures var o2 := Relocated(b, o).value; Resolved(b, o2, Prepared(b, o).value, AllEntries(FixupsOf(o2))[j])
  {
    hide Relocated, FixupAll, Steady, Stands, Resolved, AllEntries, FixupsOf;
    FixupsResolve(b, Relocated(b, o).value, j);
  }

  lemma {:induction false} PlainEntries(o: T.Tree, f: nat, symbol: Name, val: seq<byte>)
    requires EntriesPlain(o, f, val)
    ensures forall j :: 0 <= j < |Entries(symbol, val)| ==> IsAbsolute(Entries(symbol, val)[j].path)
    decreases |val|
  {
    hide ParseFixup, NodeAtPath;
    var z := NulFrom(val, 0);
    if z < |val| && ParseFixup(val[..z]).Ok? {
      PlainEntries(o, f, symbol, val[z + 1..]);
    }
  }

  lemma {:induction false} PlainAll(o: T.Tree, f: nat, ps: seq<T.Property>)
    requires forall i :: 0 <= i < |ps| ==> EntriesPlain(o, f, ps[i].val)
    ensures forall j :: 0 <= j < |AllEntries(ps)| ==> IsAbsolute(AllEntries(ps)[j].path)
    decreases |ps|
  {
    hide Entries, EntriesPlain, IsAbsolute;
    if ps != [] {
      PlainEntries(o, f, ps[0].name, ps[0].val);
      assert forall i :: 0 <= i < |ps[1..]| ==> ps[1..][i] == ps[i + 1];
      PlainAll(o, f, ps[1..]);
    }
  }

  lemma PlainFixups(b: T.Tree, o: T.Tree, o2: T.Tree)
    requires FixupsPlain(b, o) && Kept(o, o2, T.FindKid(o.kids, FIXUPS))
    ensures FixupsOf(o2) == FixupsOf(o)
    ensures var es := AllEntries(FixupsOf(o)); Reached(o, o2, es) && Steady(o2, es)
  {
    hide Skel, T.FindKid, EntriesPlain, LabelPlain, HasPhandle, AllEntries, SameAliases, OfAliases;
    var f := T.FindKid(o.kids, FIXUPS);
    SameSkelFind(o, o2, FIXUPS);
    if f < |o.kids| {
      assert KidKept(o.kids[f], o2.kids[f], f == f);
      PlainAll(o, f, FixupsOf(o));
    } else {
      NoEntries();
    }
  }

  lemma NoEntries()
    ensures AllEntries([]) == []
  {
  }

  /** An overlay and a base as they are handed in: where the tables are plain, every cell that `__fixups__` lists, and
      no later entry lists again, holds the phandle that its label stands for when the overlay is merged. */
  lemma PlainResolves(b: T.Tree, o: T.Tree, j: nat)
    requires Plain(b, o) && Prepared(b, o).Ok?
    requires var es := AllEntries(FixupsOf(o)); j < |es| && Stands(o, es, j)
    ensures Resolved(b, o, Prepared(b, o).value, AllEntries(FixupsOf(o))[j])
  {
    hide Relocated, FixupAll, Steady, Stands, Resolved, AllEntries, FixupsOf, Kept, LocalsPlain, FixupsPlain, TargetPlain, Reached, T.FindKid;
    var o2, es := Relocated(b, o).value, AllEntries(FixupsOf(o));
    PlainRelocated(b, o);
    PlainFixups(b, o, o2);
    StandsSame(o, o2, es, j);
    FixupsResolve(b, o2, j);
    ResolvedSame(b, o, o2, Prepared(b, o).value, es, j);
  }

  lemma StandsSame(o: T.Tree, o2: T.Tree, es: seq<Listed>, j: nat)
    requires Reached(o, o2, es) && j < |es| && Stands(o, es, j)
    ensures Stands(o2, es, j)
  {
    hide Reached, IsOf;
    forall p, i | IsOf(o2, es[j], p, i)
      ensures NoneTouches(o2, es[j + 1..], p, i, es[j].off, es[j].off + 4)
    {
      IsOfSame(o, o2, es, j, p, i);
      var later := es[j + 1..];
      forall k | 0 <= k < |later|
        ensures !Touches(o2, later[k], p, i, es[j].off, es[j].off + 4)
      {
        assert later[k] == es[j + 1 + k];
        assert !Touches(o, later[k], p, i, es[j].off, es[j].off + 4);
        IsOfSame(o, o2, es, j + 1 + k, p, i);
      }
    }
  }

  lemma ResolvedSame(b: T.Tree, o: T.Tree, o2: T.Tree, o3: T.Tree, es: seq<Listed>, j: nat)
    requires Reached(o, o2, es) && j < |es| && Resolved(b, o2, o3, es[j])
    ensures Resolved(b, o, o3, es[j])
  {
    hide Reached, IsOf, HoldsPhandle;
    var p, i :| IsOf(o2, es[j], p, i) && HoldsPhandle(b, o3, es[j], p, i);
    IsOfSame(o, o2, es, j, p, i);
  }
}
