/** dtc's flattree.c: flattening a live tree and reading it back, in the layout of versions 1 to 3
    (full paths, aligned values, implied name properties) and in that of versions 16 and 17. */
module Flattree {
  import opened Bytes
  import opened StructBlock
  import opened PropEdit
  import T = Tree

  datatype Option<+X> = None | Some(value: X)

  const NAME: Name := [110, 97, 109, 101]
  const SLASH: byte := 47
  const ROOT: Name := [SLASH]

  // ---- paths and base names ------------------------------------------------------------------------

  /** join_path */
  function JoinPath(path: Name, name: Name): Name {
    if path != [] && path[|path| - 1] == SLASH then path + name else path + [SLASH] + name
  }

  /** The name up to its unit address. */
  function BaseName(name: Name): Name {
    if name == [] || name[0] == T.AT then [] else [name[0]] + BaseName(name[1..])
  }

  // ---- writing ---------------------------------------------------------------------------------------

  /** The two buffers flatten_tree writes to. */
  datatype Out = Out(dt: seq<byte>, str: seq<byte>)

  /** Both buffers have only been appended to. */
  predicate Within(o: Out, r: Out) {
    o.str <= r.str && o.dt <= r.dt
  }

  /** The buffers are what two longer ones start with. */
  predicate Fits(o: Out, d: seq<byte>, s: seq<byte>) {
    o.dt <= d && o.str <= s
  }

  lemma FitsDown(o: Out, r: Out, d: seq<byte>, s: seq<byte>)
    requires Within(o, r) && Fits(r, d, s)
    ensures Fits(o, d, s) && |o.dt| <= |d| && |o.str| <= |s|
  {
  }

  function Align(n: nat, a: nat): (r: nat)
    requires a == 4 || a == 8
    ensures n <= r < n + a && r % a == 0
  {
    (n + a - 1) / a * a
  }

  function Aligned(d: seq<byte>, a: nat): (r: seq<byte>)
    requires a == 4 || a == 8
    ensures |r| == Align(|d|, a) && d <= r
  {
    d + Zeros(Align(|d|, a) - |d|)
  }

  /** A cell is 32 bits wide. */
  function Cell(n: nat): seq<byte> {
    BE32(n % 0x1_0000_0000)
  }

  /** Where stringtable_insert finds the string, or the length of the table. */
  function FindString(str: seq<byte>, s: Name, i: nat): (r: nat)
    requires i <= |str|
    ensures i <= r <= |str|
    ensures r < |str| ==> StringAt(str, r) && CStr(str, r) == s
    decreases |str| - i
  {
    if i == |str| || (StringAt(str, i) && CStr(str, i) == s) then i else FindString(str, s, i + 1)
  }

  function Inserted(str: seq<byte>, s: Name): (r: seq<byte>)
    ensures str <= r
  {
    if FindString(str, s, 0) < |str| then str else str + s + [0]
  }

  function Offset(str: seq<byte>, s: Name): nat {
    FindString(str, s, 0)
  }

  /** One property; `val` is what the length says, `text` is what is written. */
  function EmitValue(o: Out, name: Name, len: nat, text: seq<byte>, v1: bool): (r: Out)
    ensures Within(o, r) && |r.dt| % 4 == 0
  {
    var head := o.dt + BE32(FDT_PROP) + Cell(len) + Cell(Offset(o.str, name));
    var start := if v1 && len >= 8 then Aligned(head, 8) else head;
    Out(Aligned(start + text, 4), Inserted(o.str, name))
  }

  function EmitProps(o: Out, ps: seq<T.Property>, v1: bool): (r: Out)
    requires |o.dt| % 4 == 0
    ensures Within(o, r) && |r.dt| % 4 == 0
    decreases |ps|
  {
    if ps == [] then o else EmitProps(EmitValue(o, ps[0].name, |ps[0].val|, ps[0].val, v1), ps[1..], v1)
  }

  /** bin_emit_string: a length of 0 means the whole string. */
  function StringText(s: Name, len: nat): seq<byte>
    requires len <= |s|
  {
    (if len == 0 then s else s[..len]) + [0]
  }

  lemma BaseNameFits(name: Name)
    ensures |BaseName(name)| <= |name| && BaseName(name) == name[..|BaseName(name)|]
  {
  }

  /** The name property that old versions want for every node. */
  function EmitName(o: Out, name: Name): (r: Out)
    requires |o.dt| % 4 == 0
    ensures Within(o, r) && |r.dt| % 4 == 0
  {
    BaseNameFits(name);
    var n := |BaseName(name)|;
    EmitValue(o, NAME, n + 1, StringText(name, n), true)
  }

  function EmitHead(o: Out, text: Name): (r: Out)
    requires |o.dt| % 4 == 0
    ensures Within(o, r) && |r.dt| % 4 == 0
  {
    o.(dt := Aligned(o.dt + BE32(FDT_BEGIN_NODE) + text + [0], 4))
  }

  predicate NeedsName(t: T.Tree, v1: bool) {
    v1 && T.FindProp(t.props, NAME) == |t.props|
  }

  /** A node up to its children. */
  function EmitOpen(o: Out, t: T.Tree, path: Name, v1: bool): (r: Out)
    requires |o.dt| % 4 == 0
    ensures Within(o, r) && |r.dt| % 4 == 0
  {
    var props := EmitProps(EmitHead(o, if v1 then path else t.name), t.props, v1);
    if NeedsName(t, v1) then EmitName(props, t.name) else props
  }

  function EmitEnd(o: Out): (r: Out)
    requires |o.dt| % 4 == 0
    ensures Within(o, r) && |r.dt| % 4 == 0
  {
    o.(dt := o.dt + BE32(FDT_END_NODE))
  }

  /** flatten_tree on a tree without tombstones; `path` is the node's full path. */
  function EmitNode(o: Out, t: T.Tree, path: Name, v1: bool): (r: Out)
    requires |o.dt| % 4 == 0
    ensures Within(o, r) && |r.dt| % 4 == 0
    decreases t, 1
  {
    EmitEnd(EmitKids(EmitOpen(o, t, path, v1), t.kids, path, v1))
  }

  function EmitKids(o: Out, ks: seq<T.Tree>, path: Name, v1: bool): (r: Out)
    requires |o.dt| % 4 == 0
    ensures Within(o, r) && |r.dt| % 4 == 0
    decreases ks
  {
    if ks == [] then o else EmitKids(EmitNode(o, ks[0], JoinPath(path, ks[0].name), v1), ks[1..], path, v1)
  }

  // ---- the string table ------------------------------------------------------------------------------

  /** Every offset stringtable_insert has answered reads back its string in every later table. */
  lemma InsertedReads(str: seq<byte>, s: Name, later: seq<byte>)
    requires Inserted(str, s) <= later
    ensures StringAt(later, Offset(str, s)) && CStr(later, Offset(str, s)) == s
  {
    var r, o := Inserted(str, s), Offset(str, s);
    if o == |str| {
      assert r == str + (s + [0]);
      assert r[o..o + |s| + 1] == s + [0];
      CStrStored(r, o, s);
    }
    assert later == r + later[|r|..];
    CStrAppend(r, later[|r|..], o);
  }

  // ---- reading -----------------------------------------------------------------------------------------

  /** flat_read_word: a word at an aligned place inside the buffer. */
  function ReadWord(d: seq<byte>, p: nat): Option<u32> {
    if p % 4 != 0 || p + 4 > |d| then None else Some(Word(d, p))
  }

  /** flat_realign */
  function Realign(d: seq<byte>, p: nat, a: nat): (r: Option<nat>)
    requires a == 4 || a == 8
    ensures r.Some? ==> r.value == Align(p, a) <= |d|
  {
    if Align(p, a) > |d| then None else Some(Align(p, a))
  }

  /** flat_read_string */
  function ReadString(d: seq<byte>, p: nat): (r: Option<(Name, nat)>)
    requires p <= |d|
    ensures r.Some? ==> p < r.value.1 <= |d| && r.value.1 % 4 == 0
  {
    var z := NulFrom(d, p);
    if z == |d| then None else
    match Realign(d, z + 1, 4)
    case None => None
    case Some(q) => var name: Name := d[p..z]; Some((name, q))
  }

  /** flat_read_data */
  function ReadData(d: seq<byte>, p: nat, len: nat): (r: Option<(seq<byte>, nat)>)
    requires p <= |d|
    ensures r.Some? ==> p <= r.value.1 <= |d| && |r.value.0| == len
  {
    if len == 0 then Some(([], p)) else
    if p + len > |d| then None else
    match Realign(d, p + len, 4)
    case None => None
    case Some(q) => Some((d[p..p + len], q))
  }

  /** flat_read_property, after its tag. Lengths are C ints. */
  function ReadProp(d: seq<byte>, p: nat, str: seq<byte>, v1: bool): (r: Option<(T.Property, nat)>)
    requires p <= |d|
    ensures r.Some? ==> p + 8 <= r.value.1 <= |d|
  {
    var len, off := ReadWord(d, p), ReadWord(d, p + 4);
    if len.None? || off.None? || len.value >= 0x8000_0000 || !StringAt(str, off.value) then None else
    var q := if v1 && len.value >= 8 then Realign(d, p + 8, 8) else Some(p + 8);
    if q.None? then None else
    match ReadData(d, q.value, len.value)
    case None => None
    case Some((val, e)) => Some((T.Property(CStr(str, off.value), val), e))
  }

  /** nodename_from_path */
  function NameFromPath(parent: Name, path: Name): Option<Name> {
    var n := |parent| + (if parent != ROOT then 1 else 0);
    if !(parent <= path) || n > |path| then None else Some(path[n..])
  }

  /** unflatten_tree, after the BEGIN_NODE tag: the node and the place behind it; no answer where the
      source gives up. */
  function ReadNode(d: seq<byte>, p: nat, str: seq<byte>, parent: Name, v1: bool): (r: Option<(T.Tree, nat)>)
    requires p <= |d|
    ensures r.Some? ==> p < r.value.1 <= |d|
    decreases |d| - p, 0
  {
    var s := ReadString(d, p);
    if s.None? then None else
    var flat, q := s.value.0, s.value.1;
    var name := if v1 then NameFromPath(parent, flat) else Some(flat);
    if name.None? then None else ReadItems(d, q, str, flat, v1, T.Tree(name.value, [], []))
  }

  /** The loop over what a node consists of; `t` is what has been read of it. */
  function ReadItems(d: seq<byte>, p: nat, str: seq<byte>, flat: Name, v1: bool, t: T.Tree): (r: Option<(T.Tree, nat)>)
    requires p <= |d|
    ensures r.Some? ==> p < r.value.1 <= |d|
    decreases |d| - p, 0
  {
    var tag := ReadWord(d, p);
    if tag.None? then None else
    if tag.value == FDT_PROP then
      (match ReadProp(d, p + 4, str, v1)
       case None => None
       case Some((prop, q)) => ReadItems(d, q, str, flat, v1, t.(props := t.props + [prop])))
    else if tag.value == FDT_BEGIN_NODE then
      (match ReadNode(d, p + 4, str, flat, v1)
       case None => None
       case Some((kid, q)) => ReadItems(d, q, str, flat, v1, t.(kids := t.kids + [kid])))
    else if tag.value == FDT_END_NODE then Some((t, p + 4))
    else if tag.value == FDT_NOP then ReadItems(d, p + 4, str, flat, v1, t)
    else None
  }

  // ---- writing, then reading -----------------------------------------------------------------------------

  /** What is read back: in old versions every node has a name property. */
  function Reread(t: T.Tree, v1: bool): T.Tree
    decreases t
  {
    t.(props := if NeedsName(t, v1) then t.props + [T.Property(NAME, NameValue(t.name))] else t.props,
       kids := RereadKids(t.kids, v1))
  }

  function RereadKids(ks: seq<T.Tree>, v1: bool): (r: seq<T.Tree>)
    ensures |r| == |ks|
    decreases ks
  {
    if ks == [] then [] else [Reread(ks[0], v1)] + RereadKids(ks[1..], v1)
  }

  /** The value of an implied name property: the base name and a terminator, or, where the base name is
      empty, the first byte of whatever is written instead. */
  function NameValue(name: Name): Data {
    BaseNameFits(name);
    var n := |BaseName(name)|;
    var v := StringText(name, n)[..n + 1];
    if |v| < 0x8000_0000 then v else []
  }

  /** Stretches of a buffer are stretches of every longer one. */
  lemma PrefixStretch(a: seq<byte>, d: seq<byte>, i: nat, j: nat)
    requires a <= d && i <= j <= |a|
    ensures d[i..j] == a[i..j]
  {
    assert d[0..|a|] == a[0..|a|];
    SubEqual(d, 0, a, 0, |a|, i, j);
  }

  /** The head of a property: tag, length and name offset. */
  lemma HeadReads(dt: seq<byte>, len: u32, off: u32, d: seq<byte>)
    requires |dt| % 4 == 0 && dt + BE32(FDT_PROP) + BE32(len) + BE32(off) <= d
    ensures ReadWord(d, |dt|) == Some(FDT_PROP) && ReadWord(d, |dt| + 4) == Some(len) && ReadWord(d, |dt| + 8) == Some(off)
    ensures |dt| + 12 <= |d|
  {
    hide BE32, Word;
    var p, a, b, c := |dt|, BE32(FDT_PROP), BE32(len), BE32(off);
    var h := dt + a + b + c;
    assert h[p..p + 4] == a && h[p + 4..p + 8] == b && h[p + 8..p + 12] == c;
    PrefixStretch(h, d, p, p + 4);
    PrefixStretch(h, d, p + 4, p + 8);
    PrefixStretch(h, d, p + 8, p + 12);
    WordAt(d, p, FDT_PROP);
    WordAt(d, p + 4, len);
    WordAt(d, p + 8, off);
  }

  /** Where the value of a property starts. */
  function ValueStart(p: nat, len: nat, v1: bool): nat {
    if v1 && len >= 8 then Align(p + 12, 8) else p + 12
  }

  /** The value of a property, written and read. */
  lemma ValueReads(start: seq<byte>, len: nat, text: seq<byte>, d: seq<byte>)
    requires |start| % 4 == 0 && len <= |text| && Aligned(start + text, 4) <= d
    requires Align(|start| + |text|, 4) == Align(|start| + len, 4)
    ensures ReadData(d, |start|, len) == Some((text[..len], |Aligned(start + text, 4)|))
  {
    var s, r := start + text, Aligned(start + text, 4);
    assert s[|start|..|start| + len] == text[..len];
    assert r[..|s|] == s;
    PrefixStretch(s, r, |start|, |start| + len);
    PrefixStretch(r, d, |start|, |start| + len);
  }

  lemma ValueStartFour(p: nat, len: nat, v1: bool)
    requires p % 4 == 0
    ensures ValueStart(p, len, v1) % 4 == 0
  {
  }

  /** The pieces a property is written in. */
  lemma ValuePieces(o: Out, name: Name, len: nat, text: seq<byte>, v1: bool, d: seq<byte>, s: seq<byte>) returns (head: seq<byte>, start: seq<byte>)
    requires |o.dt| % 4 == 0 && len < 0x8000_0000 && |s| < 0x1_0000_0000
    requires Fits(EmitValue(o, name, len, text, v1), d, s)
    ensures Offset(o.str, name) < 0x1_0000_0000
    ensures head == o.dt + BE32(FDT_PROP) + BE32(len) + BE32(Offset(o.str, name)) && head <= d
    ensures |start| == ValueStart(|o.dt|, len, v1) <= |d| && |start| % 4 == 0 && (!(v1 && len >= 8) ==> start == head)
    ensures Aligned(start + text, 4) == EmitValue(o, name, len, text, v1).dt <= d
  {
    hide BE32, FindString, Aligned, Inserted, Align;
    OffsetFits(o.str, s);
    head := o.dt + BE32(FDT_PROP) + Cell(len) + Cell(Offset(o.str, name));
    start := if v1 && len >= 8 then Aligned(head, 8) else head;
    ValueStartFour(|o.dt|, len, v1);
    ChainPrefix(head, start, Aligned(start + text, 4), text, d);
  }

  /** A property written and read. */
  lemma PropReads(o: Out, name: Name, len: nat, text: seq<byte>, v1: bool, d: seq<byte>, s: seq<byte>)
    requires |o.dt| % 4 == 0 && len <= |text| && len < 0x8000_0000 && |s| < 0x1_0000_0000
    requires Fits(EmitValue(o, name, len, text, v1), d, s)
    requires var q := ValueStart(|o.dt|, len, v1); Align(q + |text|, 4) == Align(q + len, 4)
    ensures ReadWord(d, |o.dt|) == Some(FDT_PROP)
    ensures ReadProp(d, |o.dt| + 4, s, v1) == Some((T.Property(name, text[..len]), |EmitValue(o, name, len, text, v1).dt|))
  {
    hide BE32, Word, ReadData, ReadWord, StringAt, CStr, EmitValue, Aligned, Align, Fits, Within, Offset;
    var head, start := ValuePieces(o, name, len, text, v1, d, s);
    InsertedHere(o, name, len, text, v1, d, s);
    HeadReads(o.dt, len, Offset(o.str, name), d);
    ValueReads(start, len, text, d);
  }

  lemma InsertedHere(o: Out, name: Name, len: nat, text: seq<byte>, v1: bool, d: seq<byte>, s: seq<byte>)
    requires Fits(EmitValue(o, name, len, text, v1), d, s)
    ensures StringAt(s, Offset(o.str, name)) && CStr(s, Offset(o.str, name)) == name
  {
    hide Aligned, StringAt, CStr, Inserted, Offset;
    InsertedReads(o.str, name, s);
  }

  lemma OffsetFits(str: seq<byte>, s: seq<byte>)
    requires |s| < 0x1_0000_0000
    ensures str <= s ==> |str| < 0x1_0000_0000
  {
  }

  lemma ChainPrefix(head: seq<byte>, start: seq<byte>, all: seq<byte>, text: seq<byte>, d: seq<byte>)
    requires head <= start && start + text <= all && all <= d
    ensures head <= d && start <= d
  {
    PrefixStretch(start + text, all, 0, |start|);
    PrefixStretch(all, d, 0, |start|);
    PrefixStretch(start, d, 0, |head|);
  }

  lemma {:induction false} PropsRead(o: Out, ps: seq<T.Property>, v1: bool, d: seq<byte>, s: seq<byte>, flat: Name, t: T.Tree)
    requires |o.dt| % 4 == 0 && |s| < 0x1_0000_0000
    requires var r := EmitProps(o, ps, v1); Fits(r, d, s)
    ensures |o.dt| <= |d| && ReadItems(d, |o.dt|, s, flat, v1, t) ==
            ReadItems(d, |EmitProps(o, ps, v1).dt|, s, flat, v1, t.(props := t.props + ps))
    decreases |ps|
  {
    hide EmitValue, ReadProp, ReadNode, ReadWord, Within, Fits;
    FitsDown(o, EmitProps(o, ps, v1), d, s);
    if ps == [] {
      assert t.props + ps == t.props;
    } else {
      var p := ps[0];
      var o1 := EmitValue(o, p.name, |p.val|, p.val, v1);
      FitsDown(o1, EmitProps(o1, ps[1..], v1), d, s);
      assert p.val[..|p.val|] == p.val;
      PropReads(o, p.name, |p.val|, p.val, v1, d, s);
      PropsRead(o1, ps[1..], v1, d, s, flat, t.(props := t.props + [p]));
      assert t.props + [p] + ps[1..] == t.props + ps;
    }
  }

  // ---- whole nodes -----------------------------------------------------------------------------------------

  /** A node name that survives: in old versions it must not be mistaken when it is cut out of a path,
      and a name without a base name must fit the single word its name property is read from. */
  predicate NameSound(name: Name, v1: bool) {
    |name| < 0x7fff_ffff && (v1 ==> (BaseName(name) == [] ==> |name| <= 3))
  }

  /** The paths of its children can be taken apart again. */
  predicate KidName(k: T.Tree, v1: bool) {
    v1 && k.kids != [] ==> k.name != [] && k.name[|k.name| - 1] != SLASH
  }

  predicate Sound(t: T.Tree, v1: bool)
    decreases t
  {
    NameSound(t.name, v1) && forall i :: 0 <= i < |t.kids| ==> KidName(t.kids[i], v1) && Sound(t.kids[i], v1)
  }

  predicate PathSound(path: Name) {
    path == ROOT || (path != [] && path[|path| - 1] != SLASH)
  }

  /** The name cut out of a full path is the name the path was made with. */
  lemma NameCut(path: Name, name: Name)
    requires PathSound(path)
    ensures NameFromPath(path, JoinPath(path, name)) == Some(name)
    ensures name != [] && name[|name| - 1] != SLASH ==> PathSound(JoinPath(path, name))
  {
    var full := JoinPath(path, name);
    if path == ROOT {
      assert full[1..] == name;
    } else {
      assert full[|path| + 1..] == name;
    }
  }

  /** A terminated string that stands in a buffer. */
  lemma StringReads(d: seq<byte>, p: nat, text: Name)
    requires p + |text| < |d| && d[p..p + |text|] == text && d[p + |text|] == 0
    ensures NulFrom(d, p) == p + |text|
  {
    assert forall i :: p <= i < p + |text| ==> d[i] == d[p..p + |text|][i - p];
    NulFromUnique(d, p, p + |text|);
  }

  lemma HeadBytes(dt: seq<byte>, b: seq<byte>, text: Name, r: seq<byte>, d: seq<byte>)
    requires |b| == 4 && dt + b + text + [0] <= r && r <= d
    ensures var p := |dt|;
      p + 4 + |text| < |d| && d[p..p + 4] == b && d[p + 4..p + 4 + |text|] == text && d[p + 4 + |text|] == 0
  {
    var p, h := |dt|, dt + b + text + [0];
    PrefixStretch(h, r, 0, |h|);
    PrefixStretch(r, d, 0, |h|);
    assert h[p..p + 4] == b && h[p + 4..p + 4 + |text|] == text && h[p + 4 + |text|] == 0;
    PrefixStretch(h, d, p, p + 4);
    PrefixStretch(h, d, p + 4, p + 4 + |text|);
    PrefixStretch(h, d, p + 4 + |text|, p + 5 + |text|);
    assert d[p + 4 + |text|..p + 5 + |text|][0] == h[p + 4 + |text|];
  }

  /** The string of a BEGIN_NODE. */
  lemma HeadString(o: Out, text: Name, d: seq<byte>)
    requires |o.dt| % 4 == 0 && EmitHead(o, text).dt <= d
    ensures ReadWord(d, |o.dt|) == Some(FDT_BEGIN_NODE)
    ensures |o.dt| + 4 <= |d| && ReadString(d, |o.dt| + 4) == Some((text, |EmitHead(o, text).dt|))
  {
    hide BE32, Word, Zeros, NulFrom;
    var p, b, r := |o.dt|, BE32(FDT_BEGIN_NODE), EmitHead(o, text).dt;
    HeadBytes(o.dt, b, text, r, d);
    WordAt(d, p, FDT_BEGIN_NODE);
    StringReads(d, p + 4, text);
  }

  lemma EndReads(o: Out, d: seq<byte>, s: seq<byte>, flat: Name, v1: bool, t: T.Tree)
    requires |o.dt| % 4 == 0 && Fits(EmitEnd(o), d, s)
    ensures |o.dt| <= |d| && ReadItems(d, |o.dt|, s, flat, v1, t) == Some((t, |EmitEnd(o).dt|))
  {
    hide BE32, Word, ReadProp, ReadNode;
    var p, b := |o.dt|, BE32(FDT_END_NODE);
    var h := o.dt + b;
    assert h[p..p + 4] == b;
    PrefixStretch(h, d, p, p + 4);
    WordAt(d, p, FDT_END_NODE);
  }

  lemma NameSize(p: nat, name: Name)
    requires p % 4 == 0 && NameSound(name, true)
    ensures var n := |BaseName(name)|;
      && n <= |name| && n + 1 <= |StringText(name, n)|
      && Align(ValueStart(p, n + 1, true) + |StringText(name, n)|, 4) == Align(ValueStart(p, n + 1, true) + n + 1, 4)
  {
    BaseNameFits(name);
  }

  /** The implied name property. */
  lemma NameReads(o: Out, name: Name, d: seq<byte>, s: seq<byte>)
    requires |o.dt| % 4 == 0 && |s| < 0x1_0000_0000 && NameSound(name, true)
    requires Fits(EmitName(o, name), d, s)
    ensures ReadWord(d, |o.dt|) == Some(FDT_PROP)
    ensures ReadProp(d, |o.dt| + 4, s, true) == Some((T.Property(NAME, NameValue(name)), |EmitName(o, name).dt|))
  {
    hide EmitValue, ReadProp, ReadWord, StringText, BaseName, Align, ValueStart, Within, Fits;
    BaseNameFits(name);
    var n := |BaseName(name)|;
    NameSize(|o.dt|, name);
    PropReads(o, NAME, n + 1, StringText(name, n), true, d, s);
  }

  /** The string a node starts with. */
  lemma NodeHeadReads(o: Out, name: Name, path: Name, v1: bool, parent: Name, d: seq<byte>, s: seq<byte>)
    requires |o.dt| % 4 == 0 && Fits(EmitHead(o, if v1 then path else name), d, s)
    requires v1 ==> NameFromPath(parent, path) == Some(name)
    ensures ReadWord(d, |o.dt|) == Some(FDT_BEGIN_NODE) && |o.dt| + 4 <= |d|
    ensures var flat := if v1 then path else name;
      |EmitHead(o, flat).dt| <= |d| &&
      ReadNode(d, |o.dt| + 4, s, parent, v1) == ReadItems(d, |EmitHead(o, flat).dt|, s, flat, v1, T.Tree(name, [], []))
  {
    hide ReadItems, ReadWord, ReadString, NameFromPath, Aligned;
    HeadString(o, if v1 then path else name, d);
  }

  /** What a node starts with: its string, its properties, and its name where it is implied. */
  lemma OpenReads(o: Out, t: T.Tree, path: Name, v1: bool, parent: Name, d: seq<byte>, s: seq<byte>)
    requires |o.dt| % 4 == 0 && |s| < 0x1_0000_0000 && NameSound(t.name, v1)
    requires var r := EmitOpen(o, t, path, v1); Fits(r, d, s)
    requires v1 ==> NameFromPath(parent, path) == Some(t.name)
    ensures ReadWord(d, |o.dt|) == Some(FDT_BEGIN_NODE) && |o.dt| + 4 <= |d|
    ensures |EmitOpen(o, t, path, v1).dt| <= |d| && ReadNode(d, |o.dt| + 4, s, parent, v1) ==
            ReadItems(d, |EmitOpen(o, t, path, v1).dt|, s, if v1 then path else t.name, v1, T.Tree(t.name, Reread(t, v1).props, []))
  {
    hide EmitProps, EmitName, EmitHead, ReadItems, ReadNode, ReadProp, ReadWord, NameFromPath, NameValue, RereadKids, Within, Fits;
    var text := if v1 then path else t.name;
    var head := EmitHead(o, text);
    var props := EmitProps(head, t.props, v1);
    var r := EmitOpen(o, t, path, v1);
    FitsDown(props, r, d, s);
    FitsDown(head, props, d, s);
    NodeHeadReads(o, t.name, path, v1, parent, d, s);
    PropsRead(head, t.props, v1, d, s, text, T.Tree(t.name, [], []));
    assert [] + t.props == t.props;
    if NeedsName(t, v1) {
      NameReads(props, t.name, d, s);
      PropItem(d, |props.dt|, s, text, v1, T.Tree(t.name, t.props, []));
    }
  }

  /** One property, then the rest. */
  lemma PropItem(d: seq<byte>, p: nat, s: seq<byte>, flat: Name, v1: bool, t: T.Tree)
    requires p + 4 <= |d| && ReadWord(d, p) == Some(FDT_PROP) && ReadProp(d, p + 4, s, v1).Some?
    ensures var (prop, q) := ReadProp(d, p + 4, s, v1).value;
      ReadItems(d, p, s, flat, v1, t) == ReadItems(d, q, s, flat, v1, t.(props := t.props + [prop]))
  {
    hide ReadProp, ReadNode, ReadWord;
  }

  lemma KidItem(d: seq<byte>, p: nat, s: seq<byte>, flat: Name, v1: bool, t: T.Tree)
    requires p + 4 <= |d| && ReadWord(d, p) == Some(FDT_BEGIN_NODE) && ReadNode(d, p + 4, s, flat, v1).Some?
    ensures var (kid, q) := ReadNode(d, p + 4, s, flat, v1).value;
      ReadItems(d, p, s, flat, v1, t) == ReadItems(d, q, s, flat, v1, t.(kids := t.kids + [kid]))
  {
    hide ReadProp, ReadNode, ReadWord;
  }

  /** A node written and read. */
  lemma {:induction false} NodeReads(o: Out, t: T.Tree, path: Name, v1: bool, parent: Name, d: seq<byte>, s: seq<byte>)
    requires |o.dt| % 4 == 0 && |s| < 0x1_0000_0000 && Sound(t, v1) && (t.kids != [] ==> PathSound(path))
    requires var r := EmitNode(o, t, path, v1); Fits(r, d, s)
    requires v1 ==> NameFromPath(parent, path) == Some(t.name)
    ensures ReadWord(d, |o.dt|) == Some(FDT_BEGIN_NODE) && |o.dt| + 4 <= |d|
    ensures ReadNode(d, |o.dt| + 4, s, parent, v1) == Some((Reread(t, v1), |EmitNode(o, t, path, v1).dt|))
    decreases t, 1
  {
    hide EmitOpen, EmitKids, EmitEnd, ReadNode, ReadItems, ReadWord, NameFromPath, PathSound, Within, Fits;
    var open := EmitOpen(o, t, path, v1);
    var kids := EmitKids(open, t.kids, path, v1);
    FitsDown(kids, EmitEnd(kids), d, s);
    FitsDown(open, kids, d, s);
    OpenReads(o, t, path, v1, parent, d, s);
    var flat := if v1 then path else t.name;
    var t1 := T.Tree(t.name, Reread(t, v1).props, []);
    KidsRead(open, t.kids, path, v1, flat, d, s, t1);
    assert [] + RereadKids(t.kids, v1) == RereadKids(t.kids, v1);
    EndReads(kids, d, s, flat, v1, t1.(kids := RereadKids(t.kids, v1)));
  }

  lemma {:induction false} KidsRead(o: Out, ks: seq<T.Tree>, path: Name, v1: bool, flat: Name, d: seq<byte>, s: seq<byte>, t: T.Tree)
    requires |o.dt| % 4 == 0 && |s| < 0x1_0000_0000 && (ks != [] ==> PathSound(path)) && (v1 ==> flat == path)
    requires forall i :: 0 <= i < |ks| ==> KidName(ks[i], v1) && Sound(ks[i], v1)
    requires var r := EmitKids(o, ks, path, v1); Fits(r, d, s)
    ensures |o.dt| <= |d| && ReadItems(d, |o.dt|, s, flat, v1, t) ==
            ReadItems(d, |EmitKids(o, ks, path, v1).dt|, s, flat, v1, t.(kids := t.kids + RereadKids(ks, v1)))
    decreases ks, 0
  {
    hide EmitNode, ReadNode, ReadItems, ReadWord, NameFromPath, PathSound, JoinPath, Sound, Reread, Within, Fits;
    FitsDown(o, EmitKids(o, ks, path, v1), d, s);
    if ks == [] {
      assert t.kids + RereadKids(ks, v1) == t.kids;
    } else {
      var k := ks[0];
      var kpath := JoinPath(path, k.name);
      var o1 := EmitNode(o, k, kpath, v1);
      FitsDown(o1, EmitKids(o1, ks[1..], path, v1), d, s);
      NameCut(path, k.name);
      if v1 {
        NodeReads(o, k, kpath, v1, flat, d, s);
      } else {
        EmitNew(o, k, kpath, ROOT);
        RootSound();
        NodeReads(o, k, ROOT, v1, flat, d, s);
      }
      KidItem(d, |o.dt|, s, flat, v1, t);
      KidsRead(o1, ks[1..], path, v1, flat, d, s, t.(kids := t.kids + [Reread(k, v1)]));
      assert t.kids + [Reread(k, v1)] + RereadKids(ks[1..], v1) == t.kids + RereadKids(ks, v1);
    }
  }

  lemma RootSound()
    ensures PathSound(ROOT)
  {
  }

  /** New versions do not write paths. */
  lemma {:induction false} EmitNew(o: Out, t: T.Tree, p: Name, q: Name)
    requires |o.dt| % 4 == 0
    ensures EmitNode(o, t, p, false) == EmitNode(o, t, q, false)
    decreases t, 1
  {
    hide EmitProps, EmitHead, EmitName, EmitEnd, EmitKids;
    EmitKidsNew(EmitOpen(o, t, p, false), t.kids, p, q);
  }

  lemma {:induction false} EmitKidsNew(o: Out, ks: seq<T.Tree>, p: Name, q: Name)
    requires |o.dt| % 4 == 0
    ensures EmitKids(o, ks, p, false) == EmitKids(o, ks, q, false)
    decreases ks, 0
  {
    hide EmitNode, JoinPath;
    if ks != [] {
      EmitNew(o, ks[0], JoinPath(p, ks[0].name), JoinPath(q, ks[0].name));
      EmitKidsNew(EmitNode(o, ks[0], JoinPath(p, ks[0].name), false), ks[1..], p, q);
    }
  }

  // ---- the whole tree ------------------------------------------------------------------------------------------

  /** The structure block and the string table that dt_to_blob writes for a tree. */
  function Flatten(t: T.Tree, v1: bool): Out {
    var r := EmitNode(Out([], []), t, ROOT, v1);
    r.(dt := r.dt + BE32(FDT_END))
  }

  /** The part of dt_from_blob that reads the tree: `d` starts with the structure block. */
  function Unflatten(d: seq<byte>, s: seq<byte>, v1: bool): Option<T.Tree> {
    if ReadWord(d, 0) != Some(FDT_BEGIN_NODE) then None else
    match ReadNode(d, 4, s, [], v1)
    case None => None
    case Some((t, p)) => if ReadWord(d, p) == Some(FDT_END) then Some(t) else None
  }

  /** Flattening and reading back, whatever follows the blocks. */
  lemma RoundTrip(t: T.Tree, v1: bool, d: seq<byte>, s: seq<byte>)
    requires Sound(t, v1) && (v1 ==> t.name == []) && |s| < 0x1_0000_0000
    requires Fits(Flatten(t, v1), d, s)
    ensures Unflatten(d, s, v1) == Some(Reread(t, v1))
  {
    hide EmitNode, ReadNode, BE32, Word;
    var r := EmitNode(Out([], []), t, ROOT, v1);
    var p, all := |r.dt|, Flatten(t, v1).dt;
    FitsDown(r, Flatten(t, v1), d, s);
    RootSound();
    assert ROOT[1..] == [];
    NodeReads(Out([], []), t, ROOT, v1, [], d, s);
    assert all[p..p + 4] == BE32(FDT_END);
    PrefixStretch(all, d, p, p + 4);
    WordAt(d, p, FDT_END);
  }

  /** In the new versions the tree comes back as it was. */
  lemma {:induction false} RereadNew(t: T.Tree)
    ensures Reread(t, false) == t
    decreases t, 1
  {
    RereadKidsNew(t.kids);
  }

  lemma {:induction false} RereadKidsNew(ks: seq<T.Tree>)
    ensures RereadKids(ks, false) == ks
    decreases ks, 0
  {
    hide Reread;
    if ks != [] {
      RereadNew(ks[0]);
      RereadKidsNew(ks[1..]);
    }
  }

  // ---- check_name_properties ----------------------------------------------------------------------------------

  /** The value that a redundant name property has, up to its last byte, which is not looked at. */
  predicate NameCorrect(val: seq<byte>, name: Name) {
    |val| == |BaseName(name)| + 1 && val[..|BaseName(name)|] == BaseName(name)
  }

  /** check_name_properties: a correct name property is redundant and goes. */
  function DropName(t: T.Tree): seq<T.Property> {
    var i := T.FindProp(t.props, NAME);
    if i < |t.props| && NameCorrect(t.props[i].val, t.name) then T.RemoveAt(t.props, i) else t.props
  }

  function CheckNames(t: T.Tree): T.Tree
    decreases t
  {
    t.(props := DropName(t), kids := CheckKids(t.kids))
  }

  function CheckKids(ks: seq<T.Tree>): seq<T.Tree>
    decreases ks
  {
    if ks == [] then [] else [CheckNames(ks[0])] + CheckKids(ks[1..])
  }

  lemma ImpliedDropped(t: T.Tree)
    requires |t.name| < 0x7fff_ffff
    ensures DropName(Reread(t, true)) == DropName(t)
  {
    hide T.FindProp;
    BaseNameFits(t.name);
    if NeedsName(t, true) {
      var ps := t.props + [T.Property(NAME, NameValue(t.name))];
      T.FindPropIs(ps, NAME, |t.props|);
      assert T.RemoveAt(ps, |t.props|) == t.props;
    }
  }

  /** In the old versions the tree comes back as it was once the redundant name properties are gone. */
  lemma {:induction false} RereadOld(t: T.Tree)
    requires Sound(t, true)
    ensures CheckNames(Reread(t, true)) == CheckNames(t)
    decreases t, 1
  {
    hide DropName;
    ImpliedDropped(t);
    RereadKidsOld(t.kids);
  }

  lemma {:induction false} RereadKidsOld(ks: seq<T.Tree>)
    requires forall i :: 0 <= i < |ks| ==> Sound(ks[i], true)
    ensures CheckKids(RereadKids(ks, true)) == CheckKids(ks)
    decreases ks, 0
  {
    hide Reread, CheckNames, Sound;
    if ks != [] {
      RereadOld(ks[0]);
      RereadKidsOld(ks[1..]);
      var r := RereadKids(ks, true);
      assert r[0] == Reread(ks[0], true) && r[1..] == RereadKids(ks[1..], true);
    }
  }

  /** Flattening loses nothing. Versions 16 and 17 give the tree back as it was; versions 1 to 3 give it
      back up to name properties that only repeat the name of their node. */
  lemma FlattenReadsBack(t: T.Tree, v1: bool, d: seq<byte>, s: seq<byte>)
    requires Sound(t, v1) && (v1 ==> t.name == []) && |s| < 0x1_0000_0000
    requires Fits(Flatten(t, v1), d, s)
    ensures var r := Unflatten(d, s, v1);
      r.Some? && if v1 then CheckNames(r.value) == CheckNames(t) else r.value == t
  {
    hide Flatten, Unflatten, Reread, Fits;
    RoundTrip(t, v1, d, s);
    if v1 {
      RereadOld(t);
    } else {
      RereadNew(t);
    }
  }

  /** One byte read as a property. */
  lemma ReadsOneByte(d: seq<byte>, p: nat, off: u32, s: seq<byte>)
    requires p % 4 == 0 && p + 8 < |d| && ReadWord(d, p) == Some(1) && ReadWord(d, p + 4) == Some(off) && StringAt(s, off)
    ensures var r := ReadProp(d, p, s, true); r.Some? ==> r.value.1 == p + 12
    ensures p + 12 <= |d| ==> ReadProp(d, p, s, true).Some?
  {
    hide ReadWord, StringAt, CStr;
  }

  /** What is written for the implied name property. */
  lemma NameLength(o: Out, name: Name)
    requires |o.dt| % 4 == 0 && BaseName(name) == []
    ensures EmitName(o, name) == EmitValue(o, NAME, 1, StringText(name, 0), true)
    ensures |EmitName(o, name).dt| >= |o.dt| + 16 && (|EmitName(o, name).dt| == |o.dt| + 16 <==> |name| <= 3)
  {
    hide BE32, Offset, Inserted;
  }

  /** For a name without a base name, the length 0 passed to bin_emit_string means the whole name: what
      is written for the implied name property is what is read only where the name has at most three
      bytes. */
  lemma NameWithoutBase(o: Out, name: Name, d: seq<byte>, s: seq<byte>)
    requires |o.dt| % 4 == 0 && |s| < 0x1_0000_0000 && BaseName(name) == [] && Fits(EmitName(o, name), d, s)
    ensures var r := ReadProp(d, |o.dt| + 4, s, true);
      r.Some? && (r.value.1 == |EmitName(o, name).dt| <==> |name| <= 3)
  {
    hide BE32, Word, ReadWord, ReadProp, StringAt, CStr, Within, Offset, EmitName, EmitValue, BaseName, StringText;
    var text := StringText(name, 0);
    NameLength(o, name);
    var head, start := ValuePieces(o, NAME, 1, text, true, d, s);
    InsertedHere(o, NAME, 1, text, true, d, s);
    HeadReads(o.dt, 1, Offset(o.str, NAME), d);
    ReadsOneByte(d, |o.dt| + 4, Offset(o.str, NAME), s);
  }

  // ---- the layout of the old versions ------------------------------------------------------------------

  /** Where a value stands: behind its header at the next multiple of 4, or of 8 for a value of at least 8 bytes in
      the old versions. */
  lemma ValuePlace(o: Out, name: Name, len: nat, text: seq<byte>, v1: bool) returns (at: nat)
    requires |o.dt| % 4 == 0
    ensures at % (if v1 && len >= 8 then 8 else 4) == 0
    ensures |o.dt| + 12 <= at < |o.dt| + 12 + if v1 && len >= 8 then 8 else 4
    ensures var d := EmitValue(o, name, len, text, v1).dt;
      && at + |text| <= |d| < at + |text| + 4 && d[at..at + |text|] == text
      && (forall i :: |o.dt| + 12 <= i < at || at + |text| <= i < |d| ==> d[i] == 0)
      && d[|o.dt|..|o.dt| + 12] == [0, 0, 0, 3] + Cell(len) + Cell(Offset(o.str, name))
  {
    hide BE32, Offset, Inserted, Aligned, Align, Cell;
    TagBytes();
    CellFour(len);
    CellFour(Offset(o.str, name));
    var h := BE32(FDT_PROP) + Cell(len) + Cell(Offset(o.str, name));
    var head := o.dt + BE32(FDT_PROP) + Cell(len) + Cell(Offset(o.str, name));
    assert head == o.dt + h;
    var start := if v1 && len >= 8 then Aligned(head, 8) else head;
    at := |start|;
    AlignBounds(|head|, 8);
    AlignedIs(head, 8);
    TextPlace(start, text);
    HeadPlace(o.dt, h, start, Aligned(start + text, 4));
  }

  lemma CellFour(n: nat)
    ensures |Cell(n)| == 4
  {
  }

  lemma AlignBounds(n: nat, a: nat)
    requires a == 4 || a == 8
    ensures n <= Align(n, a) < n + a && Align(n, a) % a == 0
  {
  }

  lemma TextPlace(start: seq<byte>, text: seq<byte>)
    ensures var d := Aligned(start + text, 4);
      && |start| + |text| <= |d| < |start| + |text| + 4 && d[..|start|] == start && d[|start|..|start| + |text|] == text
      && forall i :: |start| + |text| <= i < |d| ==> d[i] == 0
  {
    hide Zeros;
    ZerosAre(Align(|start + text|, 4) - |start + text|);
    var d := Aligned(start + text, 4);
    assert d == start + (text + Zeros(Align(|start + text|, 4) - |start + text|));
  }

  lemma ZerosAre(n: nat)
    ensures |Zeros(n)| == n && forall i :: 0 <= i < n ==> Zeros(n)[i] == 0
  {
  }

  lemma HeadPlace(dt: seq<byte>, h: seq<byte>, start: seq<byte>, d: seq<byte>)
    requires |h| == 12 && dt + h <= start && |start| <= |d| && d[..|start|] == start
    ensures d[|dt|..|dt| + 12] == h && forall i :: |dt| + 12 <= i < |start| ==> d[i] == start[i]
  {
    assert d[|dt|..|dt| + 12] == start[|dt|..|dt| + 12] == (dt + h)[|dt|..] == h;
  }

  lemma TagBytes()
    ensures BE32(FDT_PROP) == [0, 0, 0, 3] && BE32(FDT_BEGIN_NODE) == [0, 0, 0, 1] && BE32(FDT_END_NODE) == [0, 0, 0, 2]
    ensures BE32(FDT_END) == [0, 0, 0, 9]
  {
  }

  lemma AlignedIs(d: seq<byte>, a: nat)
    requires a == 4 || a == 8
    ensures var r := Aligned(d, a); r[..|d|] == d && forall i :: |d| <= i < |r| ==> r[i] == 0
  {
  }

  /** What a node begins with: the tag, then its full path in the old versions, else its name. */
  lemma NodeBegins(o: Out, t: T.Tree, path: Name, v1: bool)
    requires |o.dt| % 4 == 0
    ensures o.dt + [0, 0, 0, 1] + (if v1 then path else t.name) + [0] <= EmitNode(o, t, path, v1).dt
  {
    hide EmitKids, EmitProps, EmitEnd, EmitName, BE32;
    TagBytes();
    var text := if v1 then path else t.name;
    var h := EmitHead(o, text);
    assert o.dt + [0, 0, 0, 1] + text + [0] <= h.dt;
    assert h.dt <= EmitProps(h, t.props, v1).dt <= EmitOpen(o, t, path, v1).dt;
    assert EmitOpen(o, t, path, v1).dt <= EmitKids(EmitOpen(o, t, path, v1), t.kids, path, v1).dt <= EmitNode(o, t, path, v1).dt;
  }

  /** Paths of children: the root's is a slash, and below it every name is preceded by one. */
  lemma PathsJoin(path: Name, name: Name)
    ensures JoinPath(ROOT, name) == [47] + name
    ensures path != [] && path[|path| - 1] != 47 ==> JoinPath(path, name) == path + [47] + name
  {
  }

  /** The name property of a node that has none: the name up to its unit address, with a terminator. */
  lemma NameWritten(o: Out, name: Name, unit: Name)
    requires |o.dt| % 4 == 0 && T.AT !in name && name != []
    ensures EmitName(o, name + [T.AT] + unit) == EmitValue(o, Ascii("name"), |name| + 1, name + [0], true)
    ensures EmitName(o, name) == EmitValue(o, Ascii("name"), |name| + 1, name + [0], true)
  {
    hide EmitValue;
    assert NAME == Ascii("name");
    BaseNameIs(name, [T.AT] + unit);
    BaseNameIs(name, []);
    assert name + [] == name && name + ([T.AT] + unit) == name + [T.AT] + unit;
    assert (name + [T.AT] + unit)[..|name|] == name;
  }

  lemma {:induction false} BaseNameIs(name: Name, rest: Name)
    requires T.AT !in name && (rest == [] || rest[0] == T.AT)
    ensures BaseName(name + rest) == name
  {
    if name == [] {
      assert name + rest == rest;
    } else {
      assert (name + rest)[1..] == name[1..] + rest;
      BaseNameIs(name[1..], rest);
    }
  }
}
