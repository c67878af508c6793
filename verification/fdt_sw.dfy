/** libfdt/fdt_sw.c: a blob written from front to back in one pass. The structure block grows up, the
    strings grow down from the end of the buffer, and names are recorded by how far below the end they
    start, until fdt_finish moves the strings behind the structure block. */
module SeqWrite {
  import opened Bytes
  import opened StructBlock
  import opened Concrete
  import opened FdtBase
  import opened BlockEdit
  import opened PropEdit
  import opened Paths
  import opened MemRsv
  import T = Tree

  /** What the calls after the reservation map describe. */
  datatype Call =
    | BeginCall(name: Name)
    | PropCall(name: Name, val: Data)
    | EndCall

  const RSV_AT: nat := 48
  const WRAP: nat := 0x1_0000_0000

  // ---- a blob under construction -----------------------------------------------------------------

  /** The blocks of an unfinished blob. */
  ghost predicate Open(fdt: Fdt)
    reads fdt
  {
    && fdt.magic == FDT_SW_MAGIC && fdt.version == LAST_SUPPORTED_VERSION
    && fdt.lastCompVersion == FIRST_SUPPORTED_VERSION && fdt.offMemRsvmap == RSV_AT
    && fdt.offDtStrings == fdt.totalSize <= fdt.buf.Length < 0x8000_0000
    && fdt.offDtStruct + fdt.sizeDtStruct + fdt.sizeDtStrings <= fdt.totalSize
  }

  /** The bytes between the structure block and the strings. */
  function Gap(fdt: Fdt): int
    reads fdt
  {
    fdt.totalSize - fdt.offDtStruct - fdt.sizeDtStruct - fdt.sizeDtStrings
  }

  ghost function Head(fdt: Fdt): seq<byte>
    requires Open(fdt)
    reads fdt, fdt.buf
  {
    fdt.Mem()[..fdt.offDtStruct]
  }

  ghost function Struct(fdt: Fdt): seq<byte>
    requires Open(fdt)
    reads fdt, fdt.buf
  {
    fdt.Mem()[fdt.offDtStruct..fdt.offDtStruct + fdt.sizeDtStruct]
  }

  ghost function Table(fdt: Fdt): (r: seq<byte>)
    requires Open(fdt)
    reads fdt, fdt.buf
    ensures |r| == fdt.sizeDtStrings
  {
    fdt.Mem()[fdt.totalSize - fdt.sizeDtStrings..fdt.totalSize]
  }

  /** The entries of the reservation map, in front of the structure block. */
  ghost predicate Reserved(head: seq<byte>, rs: seq<Entry>) {
    |head| == RSV_AT + 16 * |rs| && forall i :: 0 <= i < |rs| ==> EntryAt(head, RSV_AT + 16 * i) == rs[i]
  }

  /** The string that starts `k` bytes before the end of the table. */
  ghost predicate Below(tab: seq<byte>, k: int, name: Name) {
    0 < k <= |tab| && StringAt(tab, |tab| - k) && CStr(tab, |tab| - k) == name
  }

  /** The token that a call leaves; the offset of a name is a negative number. */
  ghost predicate Wrote(t: Token, c: Call, tab: seq<byte>) {
    match c
    case BeginCall(name) => t.Begin? && t.name == name
    case PropCall(name, val) => t.Prop? && t.data == val && Below(tab, WRAP - t.nameoff, name)
    case EndCall => t.EndNode?
  }

  ghost predicate AllWrote(ts: seq<Token>, cs: seq<Call>, tab: seq<byte>) {
    |ts| == |cs| && forall i :: 0 <= i < |ts| ==> Wrote(ts[i], cs[i], tab)
  }

  ghost predicate Written(fdt: Fdt, rs: seq<Entry>, ts: seq<Token>, cs: seq<Call>)
    reads fdt, fdt.buf
  {
    Open(fdt) && Reserved(Head(fdt), rs) && Struct(fdt) == EncAll(ts) && AllWrote(ts, cs, Table(fdt))
  }

  /** The unfinished blob holds what these calls described, and nothing else. */
  ghost predicate Described(fdt: Fdt, rs: seq<Entry>, cs: seq<Call>)
    reads fdt, fdt.buf
  {
    exists ts :: Written(fdt, rs, ts, cs)
  }

  /** Calls after fdt_finish are refused by their header check. */
  ghost predicate Progress(fdt: Fdt, rs: seq<Entry>, cs: seq<Call>)
    reads fdt, fdt.buf
  {
    fdt.magic == FDT_SW_MAGIC ==> Described(fdt, rs, cs)
  }

  lemma DescribedOpen(fdt: Fdt, rs: seq<Entry>, cs: seq<Call>)
    requires Described(fdt, rs, cs)
    ensures Open(fdt) && |Head(fdt)| == RSV_AT + 16 * |rs|
  {
  }

  /** The blob with one token more. */
  lemma Extended(fdt: Fdt, rs: seq<Entry>, ts: seq<Token>, cs: seq<Call>, t: Token, c: Call)
    requires Open(fdt) && Reserved(Head(fdt), rs) && Struct(fdt) == EncAll(ts) + Enc(t)
    requires AllWrote(ts, cs, Table(fdt)) && Wrote(t, c, Table(fdt))
    ensures Described(fdt, rs, cs + [c])
  {
    hide Enc, EncAll, Wrote, Reserved, Open, Fdt.Mem;
    EncAllConcat(ts, [t]);
    EncOne(t);
    assert Written(fdt, rs, ts + [t], cs + [c]);
  }

  // ---- fdt_create, fdt_add_reservemap_entry -----------------------------------------------------------

  /** Before the reservation map is finished: these entries, no structure and no strings. */
  ghost predicate Reserving(fdt: Fdt, rs: seq<Entry>)
    reads fdt, fdt.buf
  {
    && fdt.magic == FDT_SW_MAGIC && fdt.version == LAST_SUPPORTED_VERSION
    && fdt.lastCompVersion == FIRST_SUPPORTED_VERSION && fdt.offMemRsvmap == RSV_AT
    && fdt.offDtStrings == fdt.totalSize <= fdt.buf.Length < 0x8000_0000
    && fdt.sizeDtStruct == 0 && fdt.sizeDtStrings == 0 && fdt.offDtStruct == RSV_AT + 16 * |rs|
    && (rs != [] ==> fdt.offDtStruct <= fdt.totalSize && Reserved(fdt.Mem()[..fdt.offDtStruct], rs))
  }

  lemma ReservingDescribed(fdt: Fdt, rs: seq<Entry>)
    requires Reserving(fdt, rs) && rs != []
    ensures Described(fdt, rs, []) && Table(fdt) == [] && Gap(fdt) == fdt.totalSize - RSV_AT - 16 * |rs|
  {
    SizeNil();
    assert Written(fdt, rs, [], []);
  }

  /** fdt_create */
  method Create(fdt: Fdt, bufsize: nat) returns (err: int)
    requires bufsize <= fdt.buf.Length < 0x8000_0000
    modifies fdt, fdt.buf
    ensures err == if bufsize < HEADER_SIZE then ERR_NOSPACE else 0
    ensures err != 0 ==> unchanged(fdt) && unchanged(fdt.buf)
    ensures err == 0 ==> Reserving(fdt, []) && fdt.totalSize == bufsize
  {
    if bufsize < HEADER_SIZE {
      return ERR_NOSPACE;
    }
    forall i | 0 <= i < bufsize {
      fdt.buf[i] := 0;
    }
    fdt.bootCpuidPhys, fdt.sizeDtStrings, fdt.sizeDtStruct := 0, 0, 0;
    fdt.magic := FDT_SW_MAGIC;
    fdt.version := LAST_SUPPORTED_VERSION;
    fdt.lastCompVersion := FIRST_SUPPORTED_VERSION;
    fdt.totalSize := bufsize;
    fdt.offMemRsvmap := (HEADER_SIZE + 15) / 16 * 16;
    fdt.offDtStruct := fdt.offMemRsvmap;
    fdt.offDtStrings := bufsize;
    err := 0;
  }

  /** One more entry behind the others. */
  lemma ReservedMore(m: seq<byte>, m2: seq<byte>, rs: seq<Entry>, e: Entry)
    requires RSV_AT + 16 * |rs| + 16 <= |m| && (rs != [] ==> Reserved(m[..RSV_AT + 16 * |rs|], rs))
    requires Overwritten(m, m2, RSV_AT + 16 * |rs|, BE64(e.address) + BE64(e.size))
    ensures |m2| == |m| && Reserved(m2[..RSV_AT + 16 * |rs| + 16], rs + [e])
  {
    hide EntryAt, BE64, Overwritten;
    var o, d := RSV_AT + 16 * |rs|, BE64(e.address) + BE64(e.size);
    OverHere(m, m2, o, d);
    var h := m2[..o + 16];
    Slice(m2, 0, o + 16, o, o + 16);
    StoredEntry(h, o, e);
    forall i | 0 <= i < |rs|
      ensures EntryAt(h, RSV_AT + 16 * i) == rs[i]
    {
      var a := RSV_AT + 16 * i;
      OverKeeps(m, m2, o, d, a, a + 16);
      Slice(m2, 0, o + 16, a, a + 16);
      Slice(m, 0, o, a, a + 16);
      EntrySame(h, a, m[..o], a);
    }
  }

  /** fdt_add_reservemap_entry */
  method AddReservemapEntry(fdt: Fdt, address: u64, size: u64, ghost rs: seq<Entry>, ghost cs: seq<Call>) returns (err: int)
    requires fdt.magic == FDT_SW_MAGIC ==> if cs == [] then Reserving(fdt, rs) else Described(fdt, rs, cs)
    modifies fdt`offDtStruct, fdt.buf
    ensures err == if fdt.magic != FDT_SW_MAGIC then ERR_BADMAGIC else if cs != [] then ERR_BADSTATE
                   else if RSV_AT + 16 * |rs| + 16 > fdt.totalSize then ERR_NOSPACE else 0
    ensures err != 0 ==> unchanged(fdt) && unchanged(fdt.buf)
    ensures err == 0 ==> Reserving(fdt, rs + [Entry(address, size)])
  {
    hide BE64, EntryAt, Reserved, Overwritten;
    if fdt.magic != FDT_SW_MAGIC {
      return ERR_BADMAGIC;
    }
    StructStarted(fdt, rs, cs);
    if fdt.sizeDtStruct != 0 {
      return ERR_BADSTATE;
    }
    var offset := fdt.offDtStruct;
    if offset + RESERVE_ENTRY_SIZE > fdt.totalSize {
      return ERR_NOSPACE;
    }
    ghost var m := fdt.Mem();
    MemcpyTo(fdt, offset, BE64(address) + BE64(size));
    OverwrittenIs(m, fdt.Mem(), offset, BE64(address) + BE64(size));
    ReservedMore(m, fdt.Mem(), rs, Entry(address, size));
    fdt.offDtStruct := offset + RESERVE_ENTRY_SIZE;
    err := 0;
  }

  lemma OverwrittenIs(m: seq<byte>, m2: seq<byte>, o: nat, d: seq<byte>)
    requires o + |d| <= |m| && m2 == m[..o] + d + m[o + |d|..]
    ensures Overwritten(m, m2, o, d)
  {
  }

  lemma StructStarted(fdt: Fdt, rs: seq<Entry>, cs: seq<Call>)
    requires if cs == [] then Reserving(fdt, rs) else Described(fdt, rs, cs)
    ensures fdt.sizeDtStruct == 0 <==> cs == []
  {
    if cs != [] {
      var ts :| Written(fdt, rs, ts, cs);
      hide Enc, Wrote;
      assert ts != [];
    }
  }

  /** fdt_finish_reservemap */
  method FinishReservemap(fdt: Fdt, ghost rs: seq<Entry>, ghost cs: seq<Call>) returns (err: int)
    requires fdt.magic == FDT_SW_MAGIC ==> if cs == [] then Reserving(fdt, rs) else Described(fdt, rs, cs)
    modifies fdt`offDtStruct, fdt.buf
    ensures err == if fdt.magic != FDT_SW_MAGIC then ERR_BADMAGIC else if cs != [] then ERR_BADSTATE
                   else if RSV_AT + 16 * |rs| + 16 > fdt.totalSize then ERR_NOSPACE else 0
    ensures err != 0 ==> unchanged(fdt) && unchanged(fdt.buf)
    ensures err == 0 ==> Described(fdt, rs + [Entry(0, 0)], []) && Table(fdt) == []
    ensures err == 0 ==> Gap(fdt) == fdt.totalSize - RSV_AT - 16 * (|rs| + 1)
  {
    hide Described, Reserved;
    err := AddReservemapEntry(fdt, 0, 0, rs, cs);
    if err == 0 {
      ReservingDescribed(fdt, rs + [Entry(0, 0)]);
    }
  }

  // ---- _fdt_grab_space and stores into it ------------------------------------------------------------

  /** _fdt_grab_space: the offset of the room, or a negative number when there is not enough. */
  method GrabSpace(fdt: Fdt, len: nat) returns (offset: int)
    requires Open(fdt)
    modifies fdt`sizeDtStruct
    ensures if len > old(Gap(fdt)) then offset < 0 && unchanged(fdt)
            else offset == old(fdt.sizeDtStruct) && fdt.sizeDtStruct == offset + len
    ensures Open(fdt) && Head(fdt) == old(Head(fdt)) && Table(fdt) == old(Table(fdt))
    ensures old(Struct(fdt)) <= Struct(fdt) && |Struct(fdt)| == fdt.sizeDtStruct
  {
    offset := fdt.sizeDtStruct;
    var spaceleft := fdt.totalSize - fdt.offDtStruct - fdt.sizeDtStrings;
    if offset + len > spaceleft {
      return -1;
    }
    fdt.sizeDtStruct := offset + len;
  }

  /** A store into the structure block. */
  method Store(fdt: Fdt, o: nat, d: seq<byte>)
    requires Open(fdt) && o + |d| <= fdt.sizeDtStruct
    modifies fdt.buf
    ensures Open(fdt) && Head(fdt) == old(Head(fdt)) && Table(fdt) == old(Table(fdt))
    ensures Overwritten(old(Struct(fdt)), Struct(fdt), o, d)
  {
    hide Overwritten, Fdt.Mem;
    ghost var m := fdt.Mem();
    MemcpyTo(fdt, fdt.offDtStruct + o, d);
    PutInside(m, fdt.Mem(), fdt.offDtStruct, fdt.sizeDtStruct, o, d);
    PutOutside(m, fdt.Mem(), fdt.offDtStruct + o, d, fdt.offDtStruct, fdt.totalSize - fdt.sizeDtStrings, fdt.totalSize);
  }

  // ---- fdt_begin_node, fdt_end_node ---------------------------------------------------------------------

  /** What has been stored at the end of the block is the new node's token. */
  lemma BeginStored(s: seq<byte>, s1: seq<byte>, s2: seq<byte>, s3: seq<byte>, name: Name) returns (pad: Pad)
    requires s <= s1 && |s1| == |s| + 4 + Align4(|name| + 1)
    requires Overwritten(s1, s2, |s|, BE32(FDT_BEGIN_NODE)) && Overwritten(s2, s3, |s| + 4, name + [0])
    ensures s3 == s + Enc(Begin(name, pad))
  {
    hide Overwritten, BE32, Enc, Align4;
    var o, b := |s|, BE32(FDT_BEGIN_NODE);
    OverHere(s1, s2, o, b);
    OverHere(s2, s3, o + 4, name + [0]);
    OverKeeps(s1, s2, o, b, 0, o);
    OverKeeps(s2, s3, o + 4, name + [0], 0, o);
    OverKeeps(s2, s3, o + 4, name + [0], o, o + 4);
    var e := s3[o..];
    Slice(s3, o, |s3|, 0, 4);
    Slice(s3, o, |s3|, 4, 4 + |name| + 1);
    assert e == s3[o..|s3|];
    pad := BeginBytes(e, name);
    assert s3 == s3[0..o] + e;
  }

  /** fdt_begin_node */
  method BeginNode(fdt: Fdt, name: Name, ghost rs: seq<Entry>, ghost cs: seq<Call>) returns (err: int)
    requires Progress(fdt, rs, cs)
    modifies fdt`sizeDtStruct, fdt.buf
    ensures err == if fdt.magic != FDT_SW_MAGIC then ERR_BADMAGIC
                   else if CallSize(BeginCall(name)) > old(Gap(fdt)) then ERR_NOSPACE else 0
    ensures err != 0 ==> unchanged(fdt) && unchanged(fdt.buf)
    ensures err == 0 ==> Described(fdt, rs, cs + [BeginCall(name)]) && Table(fdt) == old(Table(fdt))
    ensures err == 0 ==> Gap(fdt) == old(Gap(fdt)) - CallSize(BeginCall(name))
  {
    hide Reserved, EncAll, Enc, BE32, Overwritten, Fdt.Mem, Align4, AllWrote;
    if fdt.magic != FDT_SW_MAGIC {
      return ERR_BADMAGIC;
    }
    ghost var ts :| Written(fdt, rs, ts, cs);
    ghost var s := Struct(fdt);
    var nh := GrabSpace(fdt, 4 + Align4(|name| + 1));
    if nh < 0 {
      return ERR_NOSPACE;
    }
    ghost var s1 := Struct(fdt);
    FourBytes(FDT_BEGIN_NODE);
    Align4Up(|name| + 1);
    Store(fdt, nh, BE32(FDT_BEGIN_NODE));
    ghost var s2 := Struct(fdt);
    Store(fdt, nh + 4, name + [0]);
    ghost var pad := BeginStored(s, s1, s2, Struct(fdt), name);
    Extended(fdt, rs, ts, cs, Begin(name, pad), BeginCall(name));
    err := 0;
  }

  lemma FourBytes(n: u32)
    ensures |BE32(n)| == 4
  {
  }

  /** The bytes a call takes in the structure block. */
  function CallSize(c: Call): nat {
    match c
    case BeginCall(name) => 4 + Align4(|name| + 1)
    case PropCall(_, val) => 12 + Align4(|val|)
    case EndCall => 4
  }

  lemma EndStored(s: seq<byte>, s1: seq<byte>, s2: seq<byte>, t: Token)
    requires t.EndNode? || t.End?
    requires s <= s1 && |s1| == |s| + 4 && Overwritten(s1, s2, |s|, BE32(Tag(t)))
    ensures s2 == s + Enc(t)
  {
    FourBytes(Tag(t));
    BareTag(t);
    hide Overwritten, BE32, Enc, Tag;
    OverHere(s1, s2, |s|, BE32(Tag(t)));
    OverKeeps(s1, s2, |s|, BE32(Tag(t)), 0, |s|);
    assert s2 == s2[0..|s|] + s2[|s|..|s| + 4];
  }

  /** fdt_end_node */
  method EndNodeCall(fdt: Fdt, ghost rs: seq<Entry>, ghost cs: seq<Call>) returns (err: int)
    requires Progress(fdt, rs, cs)
    modifies fdt`sizeDtStruct, fdt.buf
    ensures err == if fdt.magic != FDT_SW_MAGIC then ERR_BADMAGIC
                   else if CallSize(EndCall) > old(Gap(fdt)) then ERR_NOSPACE else 0
    ensures err != 0 ==> unchanged(fdt) && unchanged(fdt.buf)
    ensures err == 0 ==> Described(fdt, rs, cs + [EndCall]) && Table(fdt) == old(Table(fdt))
    ensures err == 0 ==> Gap(fdt) == old(Gap(fdt)) - CallSize(EndCall)
  {
    hide Reserved, EncAll, Enc, BE32, Overwritten, Fdt.Mem, AllWrote;
    if fdt.magic != FDT_SW_MAGIC {
      return ERR_BADMAGIC;
    }
    ghost var ts :| Written(fdt, rs, ts, cs);
    ghost var s := Struct(fdt);
    var en := GrabSpace(fdt, TAGSIZE);
    if en < 0 {
      return ERR_NOSPACE;
    }
    ghost var s1 := Struct(fdt);
    FourBytes(FDT_END_NODE);
    Store(fdt, en, BE32(FDT_END_NODE));
    EndStored(s, s1, Struct(fdt), EndNode);
    Extended(fdt, rs, ts, cs, EndNode, EndCall);
    err := 0;
  }

  // ---- strings ------------------------------------------------------------------------------------------

  /** The table once it holds `s`: a new string goes in front of the others. */
  ghost function Pushed(tab: seq<byte>, s: Name): seq<byte> {
    if Interned(tab, s) then tab else s + [0] + tab
  }

  /** Growing a table at its front leaves every string of it where it was, seen from the end. */
  lemma BelowGrown(tab: seq<byte>, more: seq<byte>, k: int, name: Name)
    requires Below(tab, k, name)
    ensures Below(more + tab, k, name)
  {
    var t, p := more + tab, |tab| - k;
    var z := NulFrom(tab, p);
    assert forall i :: 0 <= i < |tab| ==> t[|more| + i] == tab[i];
    assert forall i :: |more| + p <= i < |more| + z ==> t[i] == tab[i - |more|];
    NulFromUnique(t, |more| + p, |more| + z);
    assert t[|more| + p..|more| + z] == tab[p..z];
  }

  lemma AllWroteGrown(ts: seq<Token>, cs: seq<Call>, tab: seq<byte>, more: seq<byte>)
    requires AllWrote(ts, cs, tab)
    ensures AllWrote(ts, cs, more + tab)
  {
    hide Below;
    forall i | 0 <= i < |ts|
      ensures Wrote(ts[i], cs[i], more + tab)
    {
      assert Wrote(ts[i], cs[i], tab);
      if cs[i].PropCall? {
        BelowGrown(tab, more, WRAP - ts[i].nameoff, cs[i].name);
      }
    }
  }

  /** A string that stands in a table, seen from the end. */
  lemma HeldBelow(tab: seq<byte>, p: nat, s: Name)
    requires HoldsString(tab, p, s)
    ensures Below(tab, |tab| - p, s)
  {
    CStrStored(tab, p, s);
  }

  /** A new string below the others. */
  method PushString(fdt: Fdt, s: Name)
    requires Open(fdt) && |s| + 1 <= Gap(fdt)
    modifies fdt`sizeDtStrings, fdt.buf
    ensures Open(fdt) && Head(fdt) == old(Head(fdt)) && Struct(fdt) == old(Struct(fdt))
    ensures Table(fdt) == s + [0] + old(Table(fdt))
  {
    hide Fdt.Mem;
    var d, at := s + [0], fdt.totalSize - fdt.sizeDtStrings - |s| - 1;
    ghost var m := fdt.Mem();
    MemcpyTo(fdt, at, d);
    OverwrittenIs(m, fdt.Mem(), at, d);
    PushedBytes(m, fdt.Mem(), fdt.offDtStruct, fdt.offDtStruct + fdt.sizeDtStruct, at, d, fdt.totalSize);
    fdt.sizeDtStrings := fdt.sizeDtStrings + |s| + 1;
  }

  lemma PushedBytes(m: seq<byte>, m2: seq<byte>, st: nat, top: nat, at: nat, d: seq<byte>, total: nat)
    requires st <= top <= at && at + |d| <= total <= |m| && Overwritten(m, m2, at, d)
    ensures |m2| == |m| && m2[..st] == m[..st] && m2[st..top] == m[st..top]
    ensures m2[at..total] == d + m[at + |d|..total]
  {
    hide Overwritten;
    OverHere(m, m2, at, d);
    OverKeeps(m, m2, at, d, 0, st);
    OverKeeps(m, m2, at, d, st, top);
    OverKeeps(m, m2, at, d, at + |d|, total);
    SliceJoin(m2, at, at + |d|, total);
    assert m2[..st] == m2[0..st] && m[..st] == m[0..st];
  }

  /** The test for room in _fdt_find_add_string: totalsize is unsigned, so the sum wraps around. */
  predicate Refused(total: nat, strs: nat, len: nat, top: nat) {
    (total - strs - len) % WRAP < top
  }

  /** A string that would start in front of the buffer, and is stored all the same. */
  predicate Overrun(total: nat, strs: nat, len: nat, top: nat) {
    strs + len > total && !Refused(total, strs, len, top)
  }

  /** The test is right about the room there is exactly when no string is stored in front of the buffer; and one
      is when the strings would be longer than the whole buffer. */
  lemma RefusedExactly(total: nat, strs: nat, len: nat, top: nat)
    requires top + strs <= total < WRAP
    ensures (Refused(total, strs, len, top) <==> top + strs + len > total) <==> !Overrun(total, strs, len, top)
    ensures len <= WRAP ==> (Overrun(total, strs, len, top) <==> strs + len > total)
  {
    if strs + len > total && len <= WRAP {
      WrapsOnce(total - strs - len);
    }
  }

  lemma WrapsOnce(n: int)
    requires 0 < -n <= WRAP
    ensures n % WRAP == n + WRAP
  {
  }

  /** _fdt_find_add_string: how far before the end of the buffer the string now starts, as a negative number, or
      0 when the test finds no room for it. When the string starts in front of the buffer, `outside`, the
      number is returned as well, but what the store does is not part of the model. */
  method FindAddString(fdt: Fdt, s: Name) returns (r: int, outside: bool)
    requires Open(fdt)
    modifies fdt`sizeDtStrings, fdt.buf
    ensures outside <==> !Interned(old(Table(fdt)), s) && old(Overrun(fdt.totalSize, fdt.sizeDtStrings, |s| + 1, fdt.offDtStruct + fdt.sizeDtStruct))
    ensures outside ==> -r == old(fdt.sizeDtStrings) + |s| + 1
    ensures !outside ==> Open(fdt) && Head(fdt) == old(Head(fdt)) && Struct(fdt) == old(Struct(fdt))
    ensures !outside ==> (r == 0 <==> !Interned(old(Table(fdt)), s) && |s| + 1 > old(Gap(fdt)))
    ensures r == 0 ==> unchanged(fdt) && unchanged(fdt.buf)
    ensures r != 0 && !outside ==> Table(fdt) == Pushed(old(Table(fdt)), s) && Below(Table(fdt), -r, s)
  {
    hide HoldsString, Below, Refused;
    outside := false;
    ghost var tab := Table(fdt);
    var p := FindIn(fdt.buf, fdt.totalSize - fdt.sizeDtStrings, fdt.sizeDtStrings, s, tab);
    if p >= 0 {
      HeldBelow(tab, p, s);
      BelowRange(tab, |tab| - p, s);
      return p - fdt.sizeDtStrings, false;
    }
    var len := |s| + 1;
    var tabSize: int := fdt.sizeDtStrings;
    var offset := -tabSize - len;
    var structTop := fdt.offDtStruct + fdt.sizeDtStruct;
    RefusedExactly(fdt.totalSize, fdt.sizeDtStrings, len, structTop);
    if Refused(fdt.totalSize, fdt.sizeDtStrings, len, structTop) {
      return 0, false;
    }
    if fdt.totalSize + offset < 0 {
      return offset, true;
    }
    PushString(fdt, s);
    FrontString(tab, s);
    r := offset;
  }

  lemma BelowRange(tab: seq<byte>, k: int, s: Name)
    requires Below(tab, k, s)
    ensures 0 < k <= |tab|
  {
  }

  lemma FrontString(tab: seq<byte>, s: Name)
    ensures Below(s + [0] + tab, |tab| + |s| + 1, s)
  {
    var t := s + [0] + tab;
    assert t[0..0 + |s| + 1] == s + [0];
    CStrStored(t, 0, s);
  }

  // ---- fdt_property ---------------------------------------------------------------------------------------

  /** What a call takes: its token and, the first time, the name of a property. */
  ghost function CallNeeds(tab: seq<byte>, c: Call): nat {
    CallSize(c) + if c.PropCall? && !Interned(tab, c.name) then |c.name| + 1 else 0
  }

  ghost function TableAfter(tab: seq<byte>, c: Call): seq<byte> {
    if c.PropCall? then Pushed(tab, c.name) else tab
  }

  /** A call whose name goes in front of the buffer; the structure block ends at `top`. */
  ghost predicate CallOverruns(total: nat, tab: seq<byte>, top: nat, c: Call) {
    c.PropCall? && !Interned(tab, c.name) && Overrun(total, |tab|, |c.name| + 1, top)
  }

  /** A run in which there is room for everything up to a name that goes in front of the buffer. */
  ghost predicate Overruns(total: nat, tab: seq<byte>, top: nat, cs: seq<Call>)
    decreases |cs|
  {
    cs != [] &&
    (CallOverruns(total, tab, top, cs[0]) ||
     (top + |tab| + CallNeeds(tab, cs[0]) <= total && Overruns(total, TableAfter(tab, cs[0]), top + CallSize(cs[0]), cs[1..])))
  }

  /** The room that calls take, one after the other. */
  ghost function Needs(tab: seq<byte>, cs: seq<Call>): nat
    decreases |cs|
  {
    if cs == [] then 0 else CallNeeds(tab, cs[0]) + Needs(TableAfter(tab, cs[0]), cs[1..])
  }

  lemma TableGrows(tab: seq<byte>, c: Call)
    ensures |TableAfter(tab, c)| == |tab| + CallNeeds(tab, c) - CallSize(c)
  {
    hide Interned;
  }

  /** There is no room for such a run. */
  lemma {:induction false} OverrunsNeeds(total: nat, tab: seq<byte>, top: nat, cs: seq<Call>)
    requires Overruns(total, tab, top, cs)
    ensures top + |tab| + Needs(tab, cs) > total
    decreases |cs|
  {
    hide Interned, Refused, CallSize;
    if !CallOverruns(total, tab, top, cs[0]) {
      TableGrows(tab, cs[0]);
      OverrunsNeeds(total, TableAfter(tab, cs[0]), top + CallSize(cs[0]), cs[1..]);
    }
  }

  /** The bytes of all names, each with its terminator. */
  function NameBytes(cs: seq<Call>): nat
    decreases |cs|
  {
    if cs == [] then 0 else (if cs[0].PropCall? then |cs[0].name| + 1 else 0) + NameBytes(cs[1..])
  }

  /** What a caller can see to: when all names fit into the buffer, none goes in front of it. */
  lemma {:induction false} NamesFit(total: nat, tab: seq<byte>, top: nat, cs: seq<Call>)
    requires |tab| + NameBytes(cs) <= total
    ensures !Overruns(total, tab, top, cs)
    decreases |cs|
  {
    hide Interned, Refused, CallSize;
    if cs != [] {
      TableGrows(tab, cs[0]);
      NamesFit(total, TableAfter(tab, cs[0]), top + CallSize(cs[0]), cs[1..]);
    }
  }

  /** A property's header and value stored in fresh room. */
  lemma PropStored(s: seq<byte>, s1: seq<byte>, s2: seq<byte>, s3: seq<byte>, s4: seq<byte>, s5: seq<byte>, nameoff: u32, val: Data)
    returns (pad: Pad)
    requires s <= s1 && |s1| == |s| + 12 + Align4(|val|)
    requires Overwritten(s1, s2, |s|, BE32(FDT_PROP)) && Overwritten(s2, s3, |s| + 8, BE32(nameoff))
    requires Overwritten(s3, s4, |s| + 4, BE32(|val|)) && Overwritten(s4, s5, |s| + 12, val)
    ensures s5 == s + Enc(Prop(nameoff, val, pad))
  {
    var o := |s|;
    Align4Up(|val|);
    hide Overwritten, BE32, Enc, Align4, Opened;
    assert s1[..o] == s && s[..o] == s && s1[o + 12 + Align4(|val|)..] == s[o..];
    FreshRoom(s, s1, 12 + Align4(|val|));
    AddOpens(s, s1, s2, s3, s4, o, nameoff, |val|);
    OpenedParts(s, s4, nameoff, |val|);
    OverHere(s4, s5, o + 12, val);
    OverKeeps(s4, s5, o + 12, val, o + 12 + Align4(|val|), |s4|);
    pad := FillProp(s, s4, s5, o, 0, nameoff, val);
    assert s[..o] + Enc(Prop(nameoff, val, pad)) + s[o..] == s + Enc(Prop(nameoff, val, pad));
  }

  lemma FreshRoom(s: seq<byte>, s1: seq<byte>, n: nat)
    requires s <= s1 && |s1| == |s| + n
    ensures Respliced(s, s1, |s|, 0, n)
  {
  }

  lemma OpenedParts(s: seq<byte>, s2: seq<byte>, nameoff: u32, len: u32)
    requires Opened(s, s2, |s|, 0, nameoff, len)
    ensures |s2| == |s| + 12 + Align4(len)
  {
  }

  /** fdt_property: on failure nothing has been described, though the name may already be in the table. */
  method Property(fdt: Fdt, name: Name, val: Data, ghost rs: seq<Entry>, ghost cs: seq<Call>) returns (err: int, outside: bool)
    requires Progress(fdt, rs, cs)
    modifies fdt`sizeDtStruct, fdt`sizeDtStrings, fdt.buf
    ensures old(fdt.magic != FDT_SW_MAGIC) ==> err == ERR_BADMAGIC && !outside && unchanged(fdt) && unchanged(fdt.buf)
    ensures old(fdt.magic == FDT_SW_MAGIC) ==>
      (outside <==> CallOverruns(fdt.totalSize, old(Table(fdt)), old(fdt.offDtStruct + fdt.sizeDtStruct), PropCall(name, val)))
    ensures fdt.magic == FDT_SW_MAGIC && !outside ==>
      && err == (if CallNeeds(old(Table(fdt)), PropCall(name, val)) > old(Gap(fdt)) then ERR_NOSPACE else 0)
      && Described(fdt, rs, if err == 0 then cs + [PropCall(name, val)] else cs)
      && (Table(fdt) == old(Table(fdt)) || Table(fdt) == Pushed(old(Table(fdt)), name))
      && (err == 0 ==> Table(fdt) == Pushed(old(Table(fdt)), name))
      && (err == 0 ==> Gap(fdt) == old(Gap(fdt)) - CallNeeds(old(Table(fdt)), PropCall(name, val)))
  {
    hide Reserved, EncAll, Enc, Fdt.Mem, Align4, AllWrote, Below, Interned, Refused;
    outside := false;
    if fdt.magic != FDT_SW_MAGIC {
      return ERR_BADMAGIC, false;
    }
    ghost var ts :| Written(fdt, rs, ts, cs);
    ghost var s, tab := Struct(fdt), Table(fdt);
    var nameoff;
    nameoff, outside := FindAddString(fdt, name);
    if nameoff == 0 {
      return ERR_NOSPACE, false;
    }
    if outside {
      // what follows depends on the header, which the name has overwritten
      err := *;
      return;
    }
    NamesKept(fdt, rs, ts, cs, s, tab, name);
    err := PutProperty(fdt, nameoff, name, val, rs, ts, cs);
  }

  /** The second half of fdt_property: the token, once the name is in the table. */
  method PutProperty(fdt: Fdt, nameoff: int, name: Name, val: Data, ghost rs: seq<Entry>, ghost ts: seq<Token>, ghost cs: seq<Call>)
    returns (err: int)
    requires Written(fdt, rs, ts, cs) && Below(Table(fdt), -nameoff, name)
    modifies fdt`sizeDtStruct, fdt.buf
    ensures err == if CallSize(PropCall(name, val)) > old(Gap(fdt)) then ERR_NOSPACE else 0
    ensures Described(fdt, rs, if err == 0 then cs + [PropCall(name, val)] else cs) && Table(fdt) == old(Table(fdt))
    ensures err == 0 ==> Gap(fdt) == old(Gap(fdt)) - CallSize(PropCall(name, val))
  {
    hide Reserved, EncAll, Enc, BE32, Overwritten, Fdt.Mem, Align4, AllWrote, Below;
    ghost var s := Struct(fdt);
    BelowRange(Table(fdt), -nameoff, name);
    var prop := GrabSpace(fdt, 12 + Align4(|val|));
    if prop < 0 {
      assert Written(fdt, rs, ts, cs);
      return ERR_NOSPACE;
    }
    StoreProp(fdt, prop, nameoff + WRAP, val, s);
    ghost var pad := StoredPad(s, Struct(fdt), nameoff + WRAP, val);
    Extended(fdt, rs, ts, cs, Prop(nameoff + WRAP, val, pad), PropCall(name, val));
    err := 0;
  }

  /** The table has at most grown: what had been written still stands for the same. */
  lemma NamesKept(fdt: Fdt, rs: seq<Entry>, ts: seq<Token>, cs: seq<Call>, s: seq<byte>, tab: seq<byte>, name: Name)
    requires Open(fdt) && Reserved(Head(fdt), rs) && Struct(fdt) == s == EncAll(ts)
    requires AllWrote(ts, cs, tab) && Table(fdt) == Pushed(tab, name)
    ensures Written(fdt, rs, ts, cs)
  {
    hide Reserved, EncAll, AllWrote, Interned, Open;
    AllWroteGrown(ts, cs, tab, name + [0]);
  }

  ghost predicate PropAt(s: seq<byte>, s2: seq<byte>, nameoff: u32, val: Data) {
    exists pad :: s2 == s + Enc(Prop(nameoff, val, pad))
  }

  lemma StoredPad(s: seq<byte>, s2: seq<byte>, nameoff: u32, val: Data) returns (pad: Pad)
    requires PropAt(s, s2, nameoff, val)
    ensures s2 == s + Enc(Prop(nameoff, val, pad))
  {
    pad :| s2 == s + Enc(Prop(nameoff, val, pad));
  }

  /** The stores of fdt_property. */
  method StoreProp(fdt: Fdt, prop: nat, nameoff: u32, val: Data, ghost s: seq<byte>)
    requires Open(fdt) && s <= Struct(fdt) && prop == |s| && fdt.sizeDtStruct == prop + 12 + Align4(|val|)
    modifies fdt.buf
    ensures Open(fdt) && Head(fdt) == old(Head(fdt)) && Table(fdt) == old(Table(fdt))
    ensures PropAt(s, Struct(fdt), nameoff, val)
  {
    hide EncAll, Enc, BE32, Overwritten, Fdt.Mem, Align4;
    FourBytes(FDT_PROP);
    FourBytes(nameoff);
    FourBytes(|val|);
    Align4Up(|val|);
    ghost var s1 := Struct(fdt);
    Store(fdt, prop, BE32(FDT_PROP));
    ghost var s2 := Struct(fdt);
    Store(fdt, prop + 8, BE32(nameoff));
    ghost var s3 := Struct(fdt);
    Store(fdt, prop + 4, BE32(|val|));
    ghost var s4 := Struct(fdt);
    Store(fdt, prop + 12, val);
    ghost var pad := PropStored(s, s1, s2, s3, s4, Struct(fdt), nameoff, val);
  }

  // ---- the tree that calls describe ---------------------------------------------------------------------

  function PropCalls(ps: seq<T.Property>): (r: seq<Call>)
    ensures |r| == |ps| && forall i :: 0 <= i < |ps| ==> r[i] == PropCall(ps[i].name, ps[i].val)
  {
    seq(|ps|, i requires 0 <= i < |ps| => PropCall(ps[i].name, ps[i].val))
  }

  function KidCalls(ks: seq<T.Tree>): seq<Call>
    decreases ks
  {
    if ks == [] then [] else Calls(ks[0]) + KidCalls(ks[1..])
  }

  /** The properly nested calls that describe a tree. */
  function Calls(t: T.Tree): (r: seq<Call>)
    ensures |r| >= 2
    decreases t
  {
    [BeginCall(t.name)] + PropCalls(t.props) + KidCalls(t.kids) + [EndCall]
  }

  /** The finished token of a call: its name is found by an ordinary offset. */
  ghost predicate Says(t: Token, c: Call, tab: seq<byte>) {
    match c
    case BeginCall(name) => t.Begin? && t.name == name
    case PropCall(name, val) => t.Prop? && t.data == val && StringAt(tab, t.nameoff) && CStr(tab, t.nameoff) == name
    case EndCall => t.EndNode?
  }

  ghost predicate AllSay(ts: seq<Token>, cs: seq<Call>, tab: seq<byte>) {
    |ts| == |cs| && forall i :: 0 <= i < |ts| ==> Says(ts[i], cs[i], tab)
  }

  lemma SaySplit(ts: seq<Token>, a: seq<Call>, b: seq<Call>, tab: seq<byte>)
    requires AllSay(ts, a + b, tab)
    ensures |ts| == |a| + |b| && AllSay(ts[..|a|], a, tab) && AllSay(ts[|a|..], b, tab)
  {
    hide Says;
    assert forall i :: 0 <= i < |b| ==> ts[|a|..][i] == ts[|a| + i] && (a + b)[|a| + i] == b[i];
  }

  lemma PropFor(t: Token, q: T.Property, tab: seq<byte>) returns (p: CProp)
    requires Says(t, PropCall(q.name, q.val), tab)
    ensures p.nops == 0 && PTok(p) == t && DenProp(p, tab) == q
  {
    hide StringAt, CStr;
    p := CProp(0, t.nameoff, t.data, t.pad);
  }

  lemma {:induction false} PropsFor(ps: seq<T.Property>, ts: seq<Token>, tab: seq<byte>) returns (cps: seq<CProp>)
    requires AllSay(ts, PropCalls(ps), tab)
    ensures PToks(cps) == ts && DenProps(cps, tab) == ps
    decreases |ps|
  {
    hide Says, DenProp, PTok, AllSay, PToks, DenProps, PropCalls;
    PropCallsIs(ps);
    if ps == [] {
      cps := [];
      NoneSaid(ts, tab);
      NoProps(tab);
    } else {
      var c := PropCall(ps[0].name, ps[0].val);
      SaySplit(ts, [c], PropCalls(ps[1..]), tab);
      SaysOne(ts[..1], c, tab);
      var p := PropFor(ts[0], ps[0], tab);
      var rest := PropsFor(ps[1..], ts[1..], tab);
      cps := [p] + rest;
      PropsCons(p, rest, tab);
      assert ts == [PTok(p)] + ts[1..];
      assert ps == [DenProp(p, tab)] + ps[1..];
    }
  }

  lemma PropCallsIs(ps: seq<T.Property>)
    ensures PropCalls(ps) == if ps == [] then [] else [PropCall(ps[0].name, ps[0].val)] + PropCalls(ps[1..])
  {
  }

  lemma NoProps(tab: seq<byte>)
    ensures PToks([]) == [] && DenProps([], tab) == []
  {
  }

  lemma PropsCons(p: CProp, rest: seq<CProp>, tab: seq<byte>)
    requires p.nops == 0
    ensures PToks([p] + rest) == [PTok(p)] + PToks(rest)
    ensures DenProps([p] + rest, tab) == [DenProp(p, tab)] + DenProps(rest, tab)
  {
    hide PTok, DenProp;
    assert ([p] + rest)[1..] == rest && Nops(0) == [];
  }

  lemma NoneSaid(ts: seq<Token>, tab: seq<byte>)
    requires AllSay(ts, [], tab)
    ensures ts == []
  {
  }

  /** The node whose tokens the calls have left: there is one, and it denotes the tree described. */
  lemma {:induction false} NodeFor(t: T.Tree, ts: seq<Token>, tab: seq<byte>) returns (c: Cst)
    requires AllSay(ts, Calls(t), tab)
    ensures Toks(c) == ts && Den(c, tab) == t && c.lead == 0
    decreases t
  {
    hide PToks, KToks, DenProps, DenKids, AllSay;
    var b, p, k, e := [BeginCall(t.name)], PropCalls(t.props), KidCalls(t.kids), [EndCall];
    assert Calls(t) == b + p + k + e;
    SaySplit(ts, b + p + k, e, tab);
    var n, m := 1 + |p|, |b + p + k|;
    SaySplit(ts[..m], b + p, k, tab);
    SaySplit(ts[..m][..n], b, p, tab);
    SaysOne(ts[..m][..n][..1], b[0], tab);
    SaysOne(ts[m..], EndCall, tab);
    var props := PropsFor(t.props, ts[..m][..n][1..], tab);
    var kids := KidsFor(t.kids, ts[..m][n..], tab);
    c := Cst(0, t.name, ts[0].pad, props, kids, 0);
    ToksDef(c);
    assert Nops(0) == [];
    assert ts == [ts[0]] + ts[..m][..n][1..] + ts[..m][n..] + [ts[m]];
  }

  lemma SaysOne(ts: seq<Token>, c: Call, tab: seq<byte>)
    requires AllSay(ts, [c], tab)
    ensures |ts| == 1 && Says(ts[0], c, tab)
  {
    assert [c][0] == c;
  }

  lemma {:induction false} KidsFor(ks: seq<T.Tree>, ts: seq<Token>, tab: seq<byte>) returns (cks: seq<Cst>)
    requires AllSay(ts, KidCalls(ks), tab)
    ensures KToks(cks) == ts && DenKids(cks, tab) == ks
    decreases ks
  {
    hide Toks, Den, Calls, Says;
    if ks == [] {
      cks := [];
    } else {
      var n := |Calls(ks[0])|;
      SaySplit(ts, Calls(ks[0]), KidCalls(ks[1..]), tab);
      var first := NodeFor(ks[0], ts[..n], tab);
      var rest := KidsFor(ks[1..], ts[n..], tab);
      cks := [first] + rest;
      assert Nops(0) == [] && cks[1..] == rest;
      assert ts == ts[..n] + ts[n..];
    }
  }

  // ---- fdt_finish -------------------------------------------------------------------------------------------

  /** A name offset counted from the start of the table. */
  function Reloc(t: Token, n: nat): (r: Token)
    ensures r.Prop? <==> t.Prop?
  {
    if t.Prop? then t.(nameoff := (t.nameoff + n) % WRAP) else t
  }

  function RelocAll(ts: seq<Token>, n: nat): (r: seq<Token>)
    ensures |r| == |ts| && forall i :: 0 <= i < |ts| ==> r[i] == Reloc(ts[i], n)
  {
    seq(|ts|, i requires 0 <= i < |ts| => Reloc(ts[i], n))
  }

  lemma RelocSays(ts: seq<Token>, cs: seq<Call>, tab: seq<byte>)
    requires AllWrote(ts, cs, tab) && |tab| < 0x8000_0000
    ensures AllSay(RelocAll(ts, |tab|), cs, tab) && Named(RelocAll(ts, |tab|), tab)
    ensures forall i :: 0 <= i < |ts| ==> !ts[i].End?
  {
    hide StringAt, CStr;
    forall i | 0 <= i < |ts|
      ensures Says(Reloc(ts[i], |tab|), cs[i], tab) && !ts[i].End?
      ensures ts[i].Prop? ==> StringAt(tab, Reloc(ts[i], |tab|).nameoff)
    {
      assert Wrote(ts[i], cs[i], tab);
    }
  }

  /** The name offset of a property token overwritten. */
  lemma RelocToken(s: seq<byte>, s2: seq<byte>, done: seq<Token>, t: Token, rest: seq<Token>, x: u32)
    requires s == EncAll(done + [t] + rest) && t.Prop? && Overwritten(s, s2, Size(done) + 8, BE32(x))
    ensures s2 == EncAll(done + [t.(nameoff := x)] + rest)
  {
    var u := t.(nameoff := x);
    var h, g := EncHeads(t, x);
    FourBytes(x);
    FourBytes(t.nameoff);
    EncAll3(done, [t], rest);
    EncAll3(done, [u], rest);
    EncOne(t);
    EncOne(u);
    hide EncAll, Enc, BE32;
    MiddleOver(s, s2, EncAll(done), h, BE32(t.nameoff), BE32(x), g, EncAll(rest));
  }

  lemma MiddleOver(s: seq<byte>, s2: seq<byte>, a: seq<byte>, h: seq<byte>, x: seq<byte>, y: seq<byte>, g: seq<byte>, z: seq<byte>)
    requires s == a + (h + x + g) + z && |x| == |y| && Overwritten(s, s2, |a| + |h|, y)
    ensures s2 == a + (h + y + g) + z
  {
    var n := |a| + |h|;
    assert s[..n] == a + h;
    assert s[n + |y|..] == g + z;
  }

  lemma EncHeads(t: Token, x: u32) returns (h: seq<byte>, g: seq<byte>)
    requires t.Prop?
    ensures |h| == 8 && Enc(t) == h + BE32(t.nameoff) + g && Enc(t.(nameoff := x)) == h + BE32(x) + g
  {
    h, g := BE32(FDT_PROP) + BE32(|t.data|), Padded(t.data, t.pad);
    hide BE32, Padded;
    assert Enc(t) == h + BE32(t.nameoff) + g;
    assert Enc(t.(nameoff := x)) == h + BE32(x) + g;
  }

  /** What fdt_finish leaves before the header is completed: the strings stand behind the structure block. */
  ghost predicate Joined(fdt: Fdt, head: seq<byte>, tab: seq<byte>)
    reads fdt, fdt.buf
  {
    && fdt.magic == FDT_SW_MAGIC && fdt.version == LAST_SUPPORTED_VERSION
    && fdt.lastCompVersion == FIRST_SUPPORTED_VERSION && fdt.offMemRsvmap == RSV_AT
    && Apart(fdt) && fdt.offDtStrings == fdt.offDtStruct + fdt.sizeDtStruct
    && fdt.Strs() == tab && |head| == fdt.offDtStruct && fdt.Mem()[..fdt.offDtStruct] == head
  }

  /** The strings moved behind the structure block. */
  method MoveStrings(fdt: Fdt)
    requires Open(fdt)
    modifies fdt`offDtStrings, fdt.buf
    ensures Joined(fdt, old(Head(fdt)), old(Table(fdt))) && fdt.S() == old(Struct(fdt))
  {
    hide Moved, Fdt.Mem;
    var oldStrOffset := fdt.totalSize - fdt.sizeDtStrings;
    var newStrOffset := fdt.offDtStruct + fdt.sizeDtStruct;
    ghost var m := fdt.Mem();
    MoveBytes(fdt, newStrOffset, oldStrOffset, fdt.sizeDtStrings);
    JoinedBytes(m, fdt.Mem(), fdt.offDtStruct, newStrOffset, oldStrOffset, fdt.sizeDtStrings);
    fdt.offDtStrings := newStrOffset;
  }

  lemma JoinedBytes(m: seq<byte>, m2: seq<byte>, st: nat, top: nat, at: nat, n: nat)
    requires st <= top && Moved(m, m2, top, at, n)
    ensures |m2| == |m| && m2[..st] == m[..st] && m2[st..top] == m[st..top] && m2[top..top + n] == m[at..at + n]
  {
    SubEqual(m2, 0, m, 0, top, 0, st);
    SubEqual(m2, 0, m, 0, top, st, top);
  }

  /** The offset of one property's name. */
  method FixOne(fdt: Fdt, o: nat, ghost head: seq<byte>, ghost tab: seq<byte>)
    requires Joined(fdt, head, tab) && o + 12 <= |fdt.S()|
    modifies fdt.buf
    ensures Joined(fdt, head, tab)
    ensures Overwritten(old(fdt.S()), fdt.S(), o + 8, BE32((Word(old(fdt.S()), o + 8) + |tab|) % WRAP))
  {
    hide BE32, Word, Fdt.Mem, Overwritten;
    var nameoff := fdt.U32At(o + 8);
    FourBytes((nameoff + fdt.sizeDtStrings) % WRAP);
    PutStruct(fdt, o + 8, BE32((nameoff + fdt.sizeDtStrings) % WRAP));
  }

  lemma JoinedLayout(fdt: Fdt, head: seq<byte>, tab: seq<byte>)
    requires Joined(fdt, head, tab)
    ensures fdt.Layout()
  {
  }

  /** The loop of fdt_finish: every name offset becomes that of the same string in the moved table. */
  method FixNames(fdt: Fdt, ghost head: seq<byte>, ghost tab: seq<byte>, ghost ts: seq<Token>) returns (nextOffset: int)
    requires Joined(fdt, head, tab) && fdt.Layout() && fdt.S() == EncAll(ts + [End]) && forall i :: 0 <= i < |ts| ==> !ts[i].End?
    modifies fdt.buf
    ensures nextOffset >= 0 && Joined(fdt, head, tab) && fdt.Layout() && fdt.S() == EncAll(RelocAll(ts, |tab|) + [End])
  {
    hide EncAll, Enc, BE32, ReadTag, Overwritten, Fdt.Mem, Word, Joined, Fdt.S, Fdt.Layout, RelocAll, Reloc;
    var offset := 0;
    ghost var i := 0;
    var tag;
    SizeNil();
    assert RelocAll(ts[..0], |tab|) + ts[0..] + [End] == ts + [End] && RelocAll(ts[..0], |tab|) == [];
    NextHere(fdt.S(), ts, 0, |tab|);
    tag, nextOffset := NextTag(fdt, offset);
    while tag != FDT_END
      invariant i <= |ts| && Joined(fdt, head, tab) && fdt.Layout()
      invariant fdt.S() == EncAll(RelocAll(ts[..i], |tab|) + ts[i..] + [End])
      invariant offset == Size(RelocAll(ts[..i], |tab|)) && TagResult(tag, nextOffset) == ReadTag(fdt.S(), offset)
      invariant i == |ts| <==> tag == FDT_END
      decreases |ts| - i
    {
      ghost var s := fdt.S();
      NextHere(s, ts, i, |tab|);
      if tag == FDT_PROP {
        FixHere(s, ts, i, |tab|);
        FixOne(fdt, offset, head, tab);
        JoinedLayout(fdt, head, tab);
      }
      FixedHere(s, fdt.S(), ts, i, |tab|);
      offset := nextOffset;
      i := i + 1;
      NextHere(fdt.S(), ts, i, |tab|);
      tag, nextOffset := NextTag(fdt, offset);
    }
    NextHere(fdt.S(), ts, i, |tab|);
    assert ts[..i] == ts && ts[i..] == [];
    assert RelocAll(ts, |tab|) + [] + [End] == RelocAll(ts, |tab|) + [End];
  }

  /** fdt_next_tag in the middle of the loop. */
  lemma NextHere(s: seq<byte>, ts: seq<Token>, i: nat, n: nat)
    requires i <= |ts| && s == EncAll(RelocAll(ts[..i], n) + ts[i..] + [End])
    requires forall i :: 0 <= i < |ts| ==> !ts[i].End?
    ensures var t, done := if i < |ts| then ts[i] else End, RelocAll(ts[..i], n);
      ReadTag(s, Size(done)) == TagResult(Tag(t), Size(done) + |Enc(t)|) && (Tag(t) == FDT_END <==> i == |ts|)
  {
    hide EncAll, Enc, ReadTag, Reloc;
    var done, t := RelocAll(ts[..i], n), if i < |ts| then ts[i] else End;
    var after := if i < |ts| then ts[i + 1..] + [End] else [];
    assert done + ts[i..] + [End] == done + [t] + after;
    NextTagInBlock(s, done, t, after);
    TokenInBlock(s, done, t, after);
  }

  /** The name offset of the property at hand. */
  lemma FixHere(s: seq<byte>, ts: seq<Token>, i: nat, n: nat)
    requires i < |ts| && s == EncAll(RelocAll(ts[..i], n) + ts[i..] + [End]) && ts[i].Prop?
    ensures var o := Size(RelocAll(ts[..i], n)); o + 12 <= |s| && Word(s, o + 8) == ts[i].nameoff
  {
    hide EncAll, Enc, ReadTag, Reloc, Word;
    var done, after := RelocAll(ts[..i], n), ts[i + 1..] + [End];
    assert done + ts[i..] + [End] == done + [ts[i]] + after;
    TokenInBlock(s, done, ts[i], after);
    PropInBlock(s, Size(done), ts[i].nameoff, ts[i].data, ts[i].pad);
  }

  /** One token further. */
  lemma FixedHere(s: seq<byte>, s2: seq<byte>, ts: seq<Token>, i: nat, n: nat)
    requires i < |ts| && s == EncAll(RelocAll(ts[..i], n) + ts[i..] + [End])
    requires if ts[i].Prop? then Overwritten(s, s2, Size(RelocAll(ts[..i], n)) + 8, BE32((ts[i].nameoff + n) % WRAP)) else s2 == s
    ensures s2 == EncAll(RelocAll(ts[..i + 1], n) + ts[i + 1..] + [End])
    ensures Size(RelocAll(ts[..i + 1], n)) == Size(RelocAll(ts[..i], n)) + |Enc(ts[i])|
  {
    hide EncAll, Enc, ReadTag, Word, BE32, Overwritten;
    var done, after, t := RelocAll(ts[..i], n), ts[i + 1..] + [End], Reloc(ts[i], n);
    assert done + ts[i..] + [End] == done + [ts[i]] + after;
    if t.Prop? {
      RelocToken(s, s2, done, ts[i], after, t.nameoff);
    }
    assert RelocAll(ts[..i + 1], n) == done + [t];
    assert done + [t] + ts[i + 1..] + [End] == done + [t] + after;
    EncAllConcat(done, [t]);
    EncOne(t);
    RelocLength(ts[i], n);
  }

  lemma RelocLength(t: Token, n: nat)
    ensures |Enc(Reloc(t, n))| == |Enc(t)|
  {
    if t.Prop? {
      EncProp(t.nameoff, t.data, t.pad);
      EncProp(Reloc(t, n).nameoff, t.data, t.pad);
    }
  }

  /** A finished blob: exactly what was described, in no more room than it needs. */
  ghost predicate Finished(fdt: Fdt, rs: seq<Entry>, cs: seq<Call>)
    reads fdt, fdt.buf
  {
    && fdt.CheckHeader() == 0 && fdt.version == 17 && fdt.Layout()
    && fdt.offMemRsvmap == RSV_AT && fdt.offDtStruct == RSV_AT + 16 * |rs|
    && fdt.offDtStrings == fdt.offDtStruct + fdt.sizeDtStruct && fdt.totalSize == fdt.offDtStrings + fdt.sizeDtStrings
    && Reserved(fdt.Mem()[..fdt.offDtStruct], rs)
    && exists ts :: SaysIn(fdt.S(), ts, cs, fdt.Strs())
  }

  /** The structure block is these tokens and the end marker, and they say what the calls said. */
  ghost predicate SaysIn(s: seq<byte>, ts: seq<Token>, cs: seq<Call>, tab: seq<byte>) {
    s == EncAll(ts + [End]) && AllSay(ts, cs, tab)
  }

  /** fdt_finish */
  method Finish(fdt: Fdt, ghost rs: seq<Entry>, ghost cs: seq<Call>) returns (err: int)
    requires Progress(fdt, rs, cs)
    modifies fdt, fdt.buf
    ensures err == if old(fdt.magic) != FDT_SW_MAGIC then ERR_BADMAGIC else if 4 > old(Gap(fdt)) then ERR_NOSPACE else 0
    ensures err != 0 ==> unchanged(fdt) && unchanged(fdt.buf)
    ensures err == 0 ==> Finished(fdt, rs, cs) && fdt.Strs() == old(Table(fdt))
    ensures err == 0 ==> fdt.totalSize == old(fdt.totalSize - Gap(fdt)) + 4
  {
    hide Reserved, EncAll, Enc, BE32, Overwritten, Fdt.Mem, AllWrote, AllSay;
    if fdt.magic != FDT_SW_MAGIC {
      return ERR_BADMAGIC;
    }
    ghost var ts :| Written(fdt, rs, ts, cs);
    ghost var s, head, tab := Struct(fdt), Head(fdt), Table(fdt);
    var end := GrabSpace(fdt, 4);
    if end < 0 {
      return ERR_NOSPACE;
    }
    ghost var s1 := Struct(fdt);
    FourBytes(FDT_END);
    Store(fdt, end, BE32(FDT_END));
    EndStored(s, s1, Struct(fdt), End);
    EncAllConcat(ts, [End]);
    EncOne(End);
    RelocSays(ts, cs, tab);
    MoveStrings(fdt);
    var nextOffset := FixNames(fdt, head, tab, ts);
    if nextOffset < 0 {
      return nextOffset;
    }
    Complete(fdt, head, tab, rs, cs, RelocAll(ts, |tab|));
    err := 0;
  }

  /** The header of the finished blob. */
  method Complete(fdt: Fdt, ghost head: seq<byte>, ghost tab: seq<byte>, ghost rs: seq<Entry>, ghost cs: seq<Call>, ghost ts: seq<Token>)
    requires Joined(fdt, head, tab) && Reserved(head, rs) && SaysIn(fdt.S(), ts, cs, tab)
    modifies fdt`totalSize, fdt`magic
    ensures Finished(fdt, rs, cs) && fdt.Strs() == tab && fdt.totalSize == fdt.offDtStruct + fdt.sizeDtStruct + |tab|
  {
    hide SaysIn, EntryAt;
    ghost var s := fdt.S();
    fdt.totalSize := fdt.offDtStrings + fdt.sizeDtStrings;
    fdt.magic := FDT_MAGIC;
    assert SaysIn(fdt.S(), ts, cs, fdt.Strs()) by {
      assert fdt.S() == s && fdt.Strs() == tab;
    }
  }

  /** Properly nested calls: the finished blob decodes to the tree they describe. */
  lemma FinishedTree(fdt: Fdt, rs: seq<Entry>, t: T.Tree) returns (c: Cst)
    requires Finished(fdt, rs, Calls(t))
    ensures Whole(fdt, c) && TreeOf(fdt, c) == t
  {
    hide Reserved, EncAll, Toks, Den, AllSay, Calls, Fdt.Mem;
    var ts :| SaysIn(fdt.S(), ts, Calls(t), fdt.Strs());
    c := NodeFor(t, ts, fdt.Strs());
    assert [] + Toks(c) + [End] == ts + [End];
    SayNamed(ts, Calls(t), fdt.Strs());
  }

  lemma SayNamed(ts: seq<Token>, cs: seq<Call>, tab: seq<byte>)
    requires AllSay(ts, cs, tab)
    ensures Named(ts + [End], tab)
  {
    hide StringAt, CStr;
    forall i | 0 <= i < |ts + [End]| && (ts + [End])[i].Prop?
      ensures StringAt(tab, (ts + [End])[i].nameoff)
    {
      assert Says(ts[i], cs[i], tab);
    }
  }

  /** A map that has been finished is read back as the entries added. */
  lemma FinishedMap(fdt: Fdt, es: seq<Entry>, cs: seq<Call>)
    requires Finished(fdt, es + [Entry(0, 0)], cs) && forall i :: 0 <= i < |es| ==> es[i].size != 0
    ensures Reserves(fdt, es) && RsvInFront(fdt, es) && Ready(fdt)
  {
    hide EntryAt, SaysIn;
    var n, m, st := |es|, fdt.Mem(), fdt.offDtStruct;
    var b, rs := RsvBlock(fdt, n), es + [Entry(0, 0)];
    forall i | 0 <= i <= n
      ensures EntryAt(b, 16 * i) == rs[i]
    {
      assert m[..st] == m[0..st];
      Slice(m, 0, st, RSV_AT + 16 * i, RSV_AT + 16 * i + 16);
      Slice(m, RSV_AT, st, 16 * i, 16 * i + 16);
      EntrySame(b, 16 * i, m[..st], RSV_AT + 16 * i);
    }
  }

  // ---- whole runs -------------------------------------------------------------------------------------------

  /** The size of the blob that these entries and calls make. */
  ghost function Needed(es: seq<Entry>, cs: seq<Call>): nat {
    RSV_AT + 16 * (|es| + 1) + Needs([], cs) + 4
  }

  /** A buffer of 72 bytes holds an empty map and the root's BEGIN_NODE. A property with a name of 72 bytes is
      not refused. */
  lemma NameInFront(name: Name, val: Data)
    requires |name| == 72
    ensures Overruns(72, [], RSV_AT + 16, [BeginCall([]), PropCall(name, val)])
    ensures Needed([], [BeginCall([]), PropCall(name, val)]) > 72
  {
    var b, p := BeginCall([]), PropCall(name, val);
    assert [b, p][1..] == [p] && [b, p][0] == b && [p][0] == p;
    assert CallNeeds([], b) == 8 && TableAfter([], b) == [];
    RefusedExactly(72, 0, 73, 72);
    assert CallOverruns(72, [], 72, p);
    assert Overruns(72, [], 72, [p]);
    OverrunsNeeds(72, [], 64, [b, p]);
  }

  /** Any one of the three calls. */
  method Perform(fdt: Fdt, c: Call, ghost rs: seq<Entry>, ghost cs: seq<Call>) returns (err: int, outside: bool)
    requires fdt.magic == FDT_SW_MAGIC && Described(fdt, rs, cs)
    modifies fdt`sizeDtStruct, fdt`sizeDtStrings, fdt.buf
    ensures outside <==> CallOverruns(fdt.totalSize, old(Table(fdt)), old(fdt.offDtStruct + fdt.sizeDtStruct), c)
    ensures !outside ==> Open(fdt) && err == if CallNeeds(old(Table(fdt)), c) > old(Gap(fdt)) then ERR_NOSPACE else 0
    ensures !outside && err == 0 ==>
      && Described(fdt, rs, cs + [c]) && Table(fdt) == TableAfter(old(Table(fdt)), c)
      && Gap(fdt) == old(Gap(fdt)) - CallNeeds(old(Table(fdt)), c)
  {
    hide Written, Interned, Fdt.Mem, Refused;
    outside := false;
    match c {
      case BeginCall(name) => err := BeginNode(fdt, name, rs, cs);
      case PropCall(name, val) => err, outside := Property(fdt, name, val, rs, cs);
      case EndCall => err := EndNodeCall(fdt, rs, cs);
    }
    if !outside {
      DescribedOpen(fdt, rs, if err == 0 then cs + [c] else cs);
    }
  }

  lemma NoCalls(total: nat, tab: seq<byte>, top: nat)
    ensures Needs(tab, []) == 0 && !Overruns(total, tab, top, [])
  {
  }

  /** A run, by its first call. */
  lemma FirstCall(total: nat, tab: seq<byte>, top: nat, cs: seq<Call>)
    requires cs != []
    ensures Needs(tab, cs) == CallNeeds(tab, cs[0]) + Needs(TableAfter(tab, cs[0]), cs[1..])
    ensures CallOverruns(total, tab, top, cs[0]) ==> Overruns(total, tab, top, cs)
    ensures !CallOverruns(total, tab, top, cs[0]) && top + |tab| + CallNeeds(tab, cs[0]) > total ==> !Overruns(total, tab, top, cs)
    ensures !CallOverruns(total, tab, top, cs[0]) && top + |tab| + CallNeeds(tab, cs[0]) <= total ==>
      (Overruns(total, tab, top, cs) <==> Overruns(total, TableAfter(tab, cs[0]), top + CallSize(cs[0]), cs[1..]))
  {
    hide CallNeeds, TableAfter, CallOverruns, CallSize;
  }

  /** The calls of a run, up to the first that fails or goes in front of the buffer. */
  method PerformAll(fdt: Fdt, calls: seq<Call>, ghost rs: seq<Entry>) returns (err: int, outside: bool)
    requires fdt.magic == FDT_SW_MAGIC && Described(fdt, rs, [])
    modifies fdt`sizeDtStruct, fdt`sizeDtStrings, fdt.buf
    ensures outside <==> Overruns(fdt.totalSize, old(Table(fdt)), old(fdt.offDtStruct + fdt.sizeDtStruct), calls)
    ensures !outside ==> Open(fdt) && err == if Needs(old(Table(fdt)), calls) > old(Gap(fdt)) then ERR_NOSPACE else 0
    ensures !outside && err == 0 ==> Described(fdt, rs, calls) && Gap(fdt) == old(Gap(fdt)) - Needs(old(Table(fdt)), calls)
  {
    hide Described, CallNeeds, TableAfter, Fdt.Mem, CallOverruns, CallSize, Needs, Overruns, Table;
    err, outside := 0, false;
    assert calls[..0] == [] && calls[0..] == calls;
    DescribedOpen(fdt, rs, []);
    var i := 0;
    while i < |calls|
      invariant i <= |calls| && err == 0 && !outside && Open(fdt) && fdt.magic == FDT_SW_MAGIC && Described(fdt, rs, calls[..i])
      invariant Gap(fdt) - Needs(Table(fdt), calls[i..]) == old(Gap(fdt)) - Needs(old(Table(fdt)), calls)
      invariant Overruns(fdt.totalSize, Table(fdt), fdt.offDtStruct + fdt.sizeDtStruct, calls[i..])
           <==> Overruns(fdt.totalSize, old(Table(fdt)), old(fdt.offDtStruct + fdt.sizeDtStruct), calls)
    {
      assert calls[i..][0] == calls[i] && calls[i..][1..] == calls[i + 1..];
      assert calls[..i + 1] == calls[..i] + [calls[i]];
      FirstCall(fdt.totalSize, Table(fdt), fdt.offDtStruct + fdt.sizeDtStruct, calls[i..]);
      TableGrows(Table(fdt), calls[i]);
      err, outside := Perform(fdt, calls[i], rs, calls[..i]);
      if err != 0 || outside {
        return;
      }
      i := i + 1;
    }
    assert calls[..i] == calls && calls[i..] == [];
    NoCalls(fdt.totalSize, Table(fdt), fdt.offDtStruct + fdt.sizeDtStruct);
  }

  /** The entries of a map, up to the first that fails, and its end. */
  method ReserveAll(fdt: Fdt, es: seq<Entry>) returns (err: int)
    requires Reserving(fdt, []) && forall i :: 0 <= i < |es| ==> es[i].size != 0
    modifies fdt`offDtStruct, fdt.buf
    ensures err == if RSV_AT + 16 * (|es| + 1) > fdt.totalSize then ERR_NOSPACE else 0
    ensures err == 0 ==> Described(fdt, es + [Entry(0, 0)], []) && Table(fdt) == []
    ensures err == 0 ==> Gap(fdt) == fdt.totalSize - RSV_AT - 16 * (|es| + 1)
  {
    hide Reserving, Described, Fdt.Mem;
    assert es[..0] == [];
    SwMagic(fdt, es[..0]);
    var i := 0;
    while i < |es|
      invariant i <= |es| && Reserving(fdt, es[..i]) && fdt.magic == FDT_SW_MAGIC
    {
      assert es[..i + 1] == es[..i] + [Entry(es[i].address, es[i].size)];
      err := AddReservemapEntry(fdt, es[i].address, es[i].size, es[..i], []);
      if err != 0 {
        return;
      }
      i := i + 1;
    }
    assert es[..i] == es;
    err := FinishReservemap(fdt, es, []);
  }

  lemma SwMagic(fdt: Fdt, rs: seq<Entry>)
    requires Reserving(fdt, rs)
    ensures fdt.magic == FDT_SW_MAGIC
  {
  }

  /** Runs in which a name goes in front of the buffer; there is no room for them. */
  ghost predicate GoesOutside(bufsize: nat, es: seq<Entry>, calls: seq<Call>) {
    RSV_AT + 16 * (|es| + 1) <= bufsize && Overruns(bufsize, [], RSV_AT + 16 * (|es| + 1), calls)
  }

  /** The room contract of a run, and where it ends. */
  lemma OutsideNoRoom(bufsize: nat, es: seq<Entry>, calls: seq<Call>)
    ensures GoesOutside(bufsize, es, calls) ==> Needed(es, calls) > bufsize
    ensures NameBytes(calls) <= bufsize ==> !GoesOutside(bufsize, es, calls)
  {
    hide Overruns, Needs;
    if GoesOutside(bufsize, es, calls) {
      OverrunsNeeds(bufsize, [], RSV_AT + 16 * (|es| + 1), calls);
    }
    if NameBytes(calls) <= bufsize {
      NamesFit(bufsize, [], RSV_AT + 16 * (|es| + 1), calls);
    }
  }

  /** A whole run of the sequential writer, for any reservation map and any calls. When no name goes in front of
      the buffer, it succeeds exactly when the buffer has room for the blob, and the blob then is what was
      described, not a byte longer. */
  method Build(fdt: Fdt, bufsize: nat, es: seq<Entry>, calls: seq<Call>) returns (err: int, outside: bool)
    requires bufsize <= fdt.buf.Length < 0x8000_0000 && forall i :: 0 <= i < |es| ==> es[i].size != 0
    modifies fdt, fdt.buf
    ensures outside <==> GoesOutside(bufsize, es, calls)
    ensures outside ==> Needed(es, calls) > bufsize
    ensures !outside ==> err == if Needed(es, calls) > bufsize then ERR_NOSPACE else 0
    ensures !outside && err == 0 ==>
      Finished(fdt, es + [Entry(0, 0)], calls) && Reserves(fdt, es) && fdt.totalSize == Needed(es, calls)
  {
    hide Described, Finished, Reserving, Reserves, Needs, Overruns, Fdt.Mem;
    outside := false;
    OutsideNoRoom(bufsize, es, calls);
    err := Create(fdt, bufsize);
    if err != 0 {
      return;
    }
    SwMagic(fdt, []);
    err := ReserveAll(fdt, es);
    if err != 0 {
      return;
    }
    DescribedOpen(fdt, es + [Entry(0, 0)], []);
    err, outside := PerformAll(fdt, calls, es + [Entry(0, 0)]);
    if err != 0 || outside {
      return;
    }
    err := Finish(fdt, es + [Entry(0, 0)], calls);
    if err == 0 {
      FinishedMap(fdt, es, calls);
    }
  }

  /** A tree written call by call: the blob decodes to it. */
  method WriteTree(fdt: Fdt, bufsize: nat, es: seq<Entry>, t: T.Tree) returns (err: int, outside: bool, ghost c: Cst)
    requires bufsize <= fdt.buf.Length < 0x8000_0000 && forall i :: 0 <= i < |es| ==> es[i].size != 0
    modifies fdt, fdt.buf
    ensures outside <==> GoesOutside(bufsize, es, Calls(t))
    ensures outside ==> Needed(es, Calls(t)) > bufsize
    ensures !outside ==> err == if Needed(es, Calls(t)) > bufsize then ERR_NOSPACE else 0
    ensures !outside && err == 0 ==>
      Whole(fdt, c) && TreeOf(fdt, c) == t && Reserves(fdt, es) && fdt.totalSize == Needed(es, Calls(t))
  {
    hide Finished, Reserves, Needs, Whole, Fdt.Mem, Overruns;
    c := Cst(0, [], [0, 0, 0], [], [], 0);
    err, outside := Build(fdt, bufsize, es, Calls(t));
    if err == 0 && !outside {
      c := FinishedTree(fdt, es + [Entry(0, 0)], t);
    }
  }

  // ---- fdt_resize -------------------------------------------------------------------------------------------

  /** fdt_resize in the buffer that holds the blob. The check leaves the structure block out of account: what
      was described survives exactly when there is room for that too. */
  method Resize(fdt: Fdt, bufsize: nat, ghost rs: seq<Entry>, ghost cs: seq<Call>) returns (err: int)
    requires Progress(fdt, rs, cs) && bufsize <= fdt.buf.Length
    modifies fdt`totalSize, fdt`offDtStrings, fdt.buf
    ensures err == if fdt.magic != FDT_SW_MAGIC then ERR_BADMAGIC
                   else if fdt.offDtStruct + fdt.sizeDtStrings > bufsize then ERR_NOSPACE else 0
    ensures err != 0 ==> unchanged(fdt) && unchanged(fdt.buf)
    ensures err == 0 ==> (Described(fdt, rs, cs) <==> fdt.offDtStruct + fdt.sizeDtStruct + fdt.sizeDtStrings <= bufsize)
    ensures err == 0 ==> fdt.totalSize == bufsize && (Described(fdt, rs, cs) ==> Table(fdt) == old(Table(fdt)))
  {
    hide Reserved, EncAll, AllWrote, Fdt.Mem;
    if fdt.magic != FDT_SW_MAGIC {
      return ERR_BADMAGIC;
    }
    ghost var ts :| Written(fdt, rs, ts, cs);
    if fdt.offDtStruct + fdt.sizeDtStrings > bufsize {
      return ERR_NOSPACE;
    }
    MoveTail(fdt, bufsize);
    if fdt.offDtStruct + fdt.sizeDtStruct + fdt.sizeDtStrings <= bufsize {
      assert Written(fdt, rs, ts, cs);
    }
    err := 0;
  }

  /** A blob of 72 bytes that holds an empty map and the root's BEGIN_NODE, resized to 64: that is accepted, and the
      structure block has no room left. */
  method ResizeLoses(fdt: Fdt) returns (err: int)
    requires 72 <= fdt.buf.Length < 0x8000_0000
    modifies fdt, fdt.buf
    ensures err == 0 && fdt.totalSize == 64 && !Described(fdt, [Entry(0, 0)], [BeginCall([])])
  {
    hide Reserving, Described, Reserved, EncAll, AllWrote, Fdt.Mem;
    err := Create(fdt, 72);
    SwMagic(fdt, []);
    assert [] + [Entry(0, 0)] == [Entry(0, 0)];
    err := FinishReservemap(fdt, [], []);
    DescribedOpen(fdt, [Entry(0, 0)], []);
    err := BeginNode(fdt, [], [Entry(0, 0)], []);
    assert [] + [BeginCall([])] == [BeginCall([])];
    DescribedOpen(fdt, [Entry(0, 0)], [BeginCall([])]);
    err := Resize(fdt, 64, [Entry(0, 0)], [BeginCall([])]);
  }

  /** The moves of fdt_resize inside one buffer. */
  method MoveTail(fdt: Fdt, bufsize: nat)
    requires Open(fdt) && fdt.offDtStruct + fdt.sizeDtStrings <= bufsize <= fdt.buf.Length
    modifies fdt`totalSize, fdt`offDtStrings, fdt.buf
    ensures fdt.totalSize == bufsize && fdt.offDtStrings == bufsize
    ensures fdt.offDtStruct + fdt.sizeDtStruct + fdt.sizeDtStrings <= bufsize ==>
      Open(fdt) && Head(fdt) == old(Head(fdt)) && Struct(fdt) == old(Struct(fdt)) && Table(fdt) == old(Table(fdt))
  {
    hide Moved, Fdt.Mem;
    var tailSize := fdt.sizeDtStrings;
    ghost var m, st, top, src := fdt.Mem(), fdt.offDtStruct, fdt.offDtStruct + fdt.sizeDtStruct, fdt.totalSize - fdt.sizeDtStrings;
    MoveBytes(fdt, bufsize - tailSize, fdt.totalSize - tailSize, tailSize);
    if top + tailSize <= bufsize {
      TailMoved(m, fdt.Mem(), st, top, bufsize - tailSize, src, tailSize);
    }
    SetEnd(fdt, bufsize);
  }

  method MoveBytes(fdt: Fdt, dst: nat, src: nat, n: nat)
    requires dst + n <= fdt.buf.Length && src + n <= fdt.buf.Length
    modifies fdt.buf
    ensures Moved(old(fdt.Mem()), fdt.Mem(), dst, src, n)
  {
    Memmove(fdt.buf, dst, src, n);
  }

  method SetEnd(fdt: Fdt, bufsize: nat)
    modifies fdt`totalSize, fdt`offDtStrings
    ensures fdt.totalSize == bufsize && fdt.offDtStrings == bufsize && fdt.Mem() == old(fdt.Mem())
  {
    fdt.offDtStrings := bufsize;
    fdt.totalSize := bufsize;
  }

  lemma TailMoved(m: seq<byte>, m2: seq<byte>, st: nat, top: nat, dst: nat, src: nat, n: nat)
    requires st <= top <= dst && Moved(m, m2, dst, src, n)
    ensures |m2| == |m| && m2[..st] == m[..st] && m2[st..top] == m[st..top] && m2[dst..dst + n] == m[src..src + n]
  {
    SubEqual(m2, 0, m, 0, dst, 0, st);
    SubEqual(m2, 0, m, 0, dst, st, top);
  }
}
