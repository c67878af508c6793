/** libfdt/fdt_rw.c and fdt_ro.c: the memory reservation map, and laying the blocks of a blob out
    afresh (Devicetree Specification, sections 5.3 and 5.6). */
module MemRsv {
  import opened Bytes
  import opened StructBlock
  import opened Concrete
  import opened FdtBase
  import opened BlockEdit
  import opened Paths
  import opened Lookup
  import T = Tree

  // ---- the map as bytes --------------------------------------------------------------------------

  type u64 = x: int | 0 <= x < 0x1_0000_0000_0000_0000

  datatype Entry = Entry(address: u64, size: u64)

  function BE64(n: u64): (r: seq<byte>)
    ensures |r| == 8
  {
    BE32(n / 0x1_0000_0000) + BE32(n % 0x1_0000_0000)
  }

  function Dword(s: seq<byte>, o: nat): u64
    requires o + 8 <= |s|
  {
    0x1_0000_0000 * Word(s, o) + Word(s, o + 4)
  }

  lemma DwordAt(s: seq<byte>, o: nat, n: u64)
    requires o + 8 <= |s| && s[o..o + 8] == BE64(n)
    ensures Dword(s, o) == n
  {
    hide Word, BE32;
    var a, b := BE32(n / 0x1_0000_0000), BE32(n % 0x1_0000_0000);
    Slice(s, o, o + 8, 0, 4);
    Slice(s, o, o + 8, 4, 8);
    assert (a + b)[0..4] == a && (a + b)[4..8] == b;
    WordAt(s, o, n / 0x1_0000_0000);
    WordAt(s, o + 4, n % 0x1_0000_0000);
  }

  function EntryAt(s: seq<byte>, o: nat): Entry
    requires o + 16 <= |s|
  {
    Entry(Dword(s, o), Dword(s, o + 8))
  }

  /** The block is a reservation map of these entries: a size of 0 ends it. */
  predicate Lists(s: seq<byte>, es: seq<Entry>) {
    && |s| == 16 * (|es| + 1)
    && (forall i :: 0 <= i < |es| ==> es[i].size != 0 && EntryAt(s, 16 * i) == es[i])
    && EntryAt(s, 16 * |es|).size == 0
  }

  lemma EntrySame(s: seq<byte>, a: nat, t: seq<byte>, b: nat)
    requires a + 16 <= |s| && b + 16 <= |t| && s[a..a + 16] == t[b..b + 16]
    ensures EntryAt(s, a) == EntryAt(t, b)
  {
    var u := s[a..a + 16];
    assert forall k {:trigger u[k]} :: 0 <= k < 16 ==> s[a + k] == u[k] == t[b..b + 16][k] == t[b + k];
    assert u[0] == s[a] && u[1] == s[a + 1] && u[2] == s[a + 2] && u[3] == s[a + 3];
    assert u[4] == s[a + 4] && u[5] == s[a + 5] && u[6] == s[a + 6] && u[7] == s[a + 7];
    assert u[8] == s[a + 8] && u[9] == s[a + 9] && u[10] == s[a + 10] && u[11] == s[a + 11];
    assert u[12] == s[a + 12] && u[13] == s[a + 13] && u[14] == s[a + 14] && u[15] == s[a + 15];
  }

  /** A map lists one sequence of entries at most. */
  lemma ListsUnique(s: seq<byte>, es: seq<Entry>, fs: seq<Entry>)
    requires Lists(s, es) && Lists(s, fs)
    ensures es == fs
  {
    hide EntryAt;
  }

  // ---- the map of a blob ---------------------------------------------------------------------------

  /** Where the map stands, `n` entries and the end. */
  predicate RsvFits(fdt: Fdt, n: nat)
    reads fdt
  {
    fdt.offMemRsvmap + 16 * (n + 1) <= fdt.buf.Length
  }

  function RsvBlock(fdt: Fdt, n: nat): seq<byte>
    requires RsvFits(fdt, n)
    reads fdt, fdt.buf
  {
    fdt.Mem()[fdt.offMemRsvmap..fdt.offMemRsvmap + 16 * (n + 1)]
  }

  /** The reservation map of the blob is `es`. */
  ghost predicate Reserves(fdt: Fdt, es: seq<Entry>)
    reads fdt, fdt.buf
  {
    RsvFits(fdt, |es|) && Lists(RsvBlock(fdt, |es|), es)
  }

  lemma EntryHere(fdt: Fdt, es: seq<Entry>, i: nat)
    requires Reserves(fdt, es) && i <= |es|
    ensures fdt.offMemRsvmap + 16 * i + 16 <= |fdt.Mem()|
    ensures i < |es| ==> EntryAt(fdt.Mem(), fdt.offMemRsvmap + 16 * i) == es[i] && es[i].size != 0
    ensures i == |es| ==> EntryAt(fdt.Mem(), fdt.offMemRsvmap + 16 * i).size == 0
  {
    hide EntryAt, Fdt.Mem;
    var o := fdt.offMemRsvmap;
    Slice(fdt.Mem(), o, o + 16 * (|es| + 1), 16 * i, 16 * i + 16);
    EntrySame(RsvBlock(fdt, |es|), 16 * i, fdt.Mem(), o + 16 * i);
  }

  /** fdt_num_mem_rsv. */
  method NumMemRsv(fdt: Fdt, ghost es: seq<Entry>) returns (n: nat)
    requires Reserves(fdt, es)
    ensures n == |es|
  {
    hide Reserves, EntryAt, Fdt.Mem;
    n := 0;
    EntryHere(fdt, es, 0);
    while EntryAt(fdt.Mem(), fdt.offMemRsvmap + 16 * n).size != 0
      invariant n <= |es| && fdt.offMemRsvmap + 16 * n + 16 <= |fdt.Mem()|
      decreases |es| - n
    {
      EntryHere(fdt, es, n);
      n := n + 1;
      EntryHere(fdt, es, n);
    }
    EntryHere(fdt, es, n);
  }

  /** The whole blob: reserve map, tree and strings, with the map in front of the structure block. */
  ghost predicate Holds(fdt: Fdt, es: seq<Entry>, c: Cst)
    reads fdt, fdt.buf
  {
    Reserves(fdt, es) && Whole(fdt, c)
  }

  ghost predicate RsvInFront(fdt: Fdt, es: seq<Entry>)
    reads fdt
  {
    fdt.offMemRsvmap + 16 * (|es| + 1) <= fdt.offDtStruct
  }

  /** The bytes `s`, with the names in `tab`, start with the node `c` and the end marker. */
  ghost predicate Encodes(s: seq<byte>, tab: seq<byte>, c: Cst) {
    EncAll([] + Toks(c) + [End]) <= s && Named([] + Toks(c) + [End], tab)
  }

  lemma WholeSame(fdt: Fdt, c: Cst, s: seq<byte>, tab: seq<byte>)
    requires Encodes(s, tab, c) && fdt.Layout() && fdt.S() == s && fdt.Strs() == tab
    ensures Whole(fdt, c) && TreeOf(fdt, c) == Den(c, tab)
  {
    hide EncAll, Toks, Named, Den, Fdt.S, Fdt.Strs, Fdt.Layout;
  }

  lemma WholeBytes(fdt: Fdt, c: Cst)
    requires Whole(fdt, c)
    ensures fdt.Layout() && Encodes(fdt.S(), fdt.Strs(), c)
  {
    hide EncAll, Toks, Named, Fdt.S, Fdt.Strs, Fdt.Layout;
  }

  // ---- adding and removing entries -------------------------------------------------------------------

  /** The map after a splice at entry `i`, as bytes. */
  lemma ListsInserted(s: seq<byte>, es: seq<Entry>, e: Entry, s2: seq<byte>)
    requires Lists(s, es) && e.size != 0
    requires |s2| == |s| + 16 && s2[..|s| - 16] == s[..|s| - 16] && s2[|s|..] == s[|s| - 16..]
    requires s2[|s| - 16..|s|] == BE64(e.address) + BE64(e.size)
    ensures Lists(s2, es + [e])
  {
    hide EntryAt, BE64;
    var n := |es|;
    forall i | 0 <= i < n
      ensures EntryAt(s2, 16 * i) == es[i]
    {
      assert s2[0..16 * n] == s[0..16 * n];
      SubEqual(s2, 0, s, 0, 16 * n, 16 * i, 16 * i + 16);
      EntrySame(s2, 16 * i, s, 16 * i);
    }
    StoredEntry(s2, 16 * n, e);
    assert s2[16 * n + 16..16 * n + 32] == s[16 * n..16 * n + 16];
    EntrySame(s2, 16 * n + 16, s, 16 * n);
  }

  lemma StoredEntry(s: seq<byte>, o: nat, e: Entry)
    requires o + 16 <= |s| && s[o..o + 16] == BE64(e.address) + BE64(e.size)
    ensures EntryAt(s, o) == e
  {
    hide BE64, Dword;
    var a, b := BE64(e.address), BE64(e.size);
    Slice(s, o, o + 16, 0, 8);
    Slice(s, o, o + 16, 8, 16);
    assert (a + b)[0..8] == a && (a + b)[8..16] == b;
    DwordAt(s, o, e.address);
    DwordAt(s, o + 8, e.size);
  }

  lemma ListsRemoved(s: seq<byte>, es: seq<Entry>, k: nat, s2: seq<byte>)
    requires Lists(s, es) && k < |es|
    requires |s2| == |s| - 16 && s2[..16 * k] == s[..16 * k] && s2[16 * k..] == s[16 * k + 16..]
    ensures Lists(s2, T.RemoveAt(es, k))
  {
    hide EntryAt;
    var n := |es|;
    forall i | 0 <= i < n
      ensures EntryAt(s2, 16 * i) == EntryAt(s, if i < k then 16 * i else 16 * i + 16)
    {
      if i < k {
        assert s2[0..16 * k] == s[0..16 * k];
        SubEqual(s2, 0, s, 0, 16 * k, 16 * i, 16 * i + 16);
        EntrySame(s2, 16 * i, s, 16 * i);
      } else {
        SubEqualTail(s2, 16 * k, s, 16 * k + 16, 16 * (i - k), 16 * (i - k) + 16);
        EntrySame(s2, 16 * i, s, 16 * i + 16);
      }
    }
  }

  /** The two offsets after _fdt_splice_mem_rsv. */
  method ShiftBlocks(fdt: Fdt, delta: int, ghost s: seq<byte>, ghost tab: seq<byte>)
    requires 0 <= fdt.offDtStruct + delta && 0 <= fdt.offDtStrings + delta && fdt.version == 17
    requires fdt.offDtStruct + delta + fdt.sizeDtStruct <= fdt.totalSize <= fdt.buf.Length < 0x8000_0000
    requires fdt.offDtStrings + delta + fdt.sizeDtStrings <= fdt.totalSize
    requires fdt.Mem()[fdt.offDtStruct + delta..fdt.offDtStruct + delta + fdt.sizeDtStruct] == s
    requires fdt.Mem()[fdt.offDtStrings + delta..fdt.offDtStrings + delta + fdt.sizeDtStrings] == tab
    modifies fdt`offDtStruct, fdt`offDtStrings
    ensures fdt.offDtStruct == old(fdt.offDtStruct) + delta && fdt.offDtStrings == old(fdt.offDtStrings) + delta
    ensures fdt.Mem() == old(fdt.Mem()) && fdt.Layout() && fdt.S() == s && fdt.Strs() == tab
  {
    fdt.offDtStruct := fdt.offDtStruct + delta;
    fdt.offDtStrings := fdt.offDtStrings + delta;
  }

  /** _fdt_splice_mem_rsv: the entries before `p`, the ones after the splice, and the two other blocks
      keep their bytes. */
  method SpliceMemRsv(fdt: Fdt, p: nat, oldN: nat, newN: nat) returns (err: int)
    requires Ready(fdt) && fdt.offMemRsvmap <= p && p + 16 * oldN <= fdt.offDtStruct
    modifies fdt`offDtStruct, fdt`offDtStrings, fdt.buf
    ensures err == if 16 * newN - 16 * oldN > old(Room(fdt)) then ERR_NOSPACE else 0
    ensures err != 0 ==> unchanged(fdt) && unchanged(fdt.buf)
    ensures err == 0 ==>
      && fdt.Layout() && fdt.S() == old(fdt.S()) && fdt.Strs() == old(fdt.Strs())
      && fdt.offDtStruct == old(fdt.offDtStruct) + 16 * newN - 16 * oldN
      && Room(fdt) == old(Room(fdt)) - (16 * newN - 16 * oldN)
      && Moved(old(fdt.Mem()), fdt.Mem(), p + 16 * newN, p + 16 * oldN,
               old(fdt.offDtStrings + fdt.sizeDtStrings) - p - 16 * oldN)
      && fdt.version == 17
  {
    hide Moved, Fdt.Mem, Fdt.S, Fdt.Strs;
    ghost var s, tab := fdt.S(), fdt.Strs();
    ghost var m, st, size, str, end := fdt.Mem(), fdt.offDtStruct, fdt.sizeDtStruct, fdt.offDtStrings, fdt.offDtStrings + fdt.sizeDtStrings;
    BlocksOf(fdt);
    err := Splice(fdt, p, 16 * oldN, 16 * newN);
    if err == 0 {
      MovedBlocks(m, fdt.Mem(), p, 16 * oldN, 16 * newN, end, st, size, str);
      ShiftBlocks(fdt, 16 * newN - 16 * oldN, s, tab);
    }
  }

  lemma MovedBlock(m: seq<byte>, m2: seq<byte>, p: nat, oldLen: nat, newLen: nat, end: nat, a: nat, b: nat)
    requires p + oldLen <= a <= b <= end <= |m| && Moved(m, m2, p + newLen, p + oldLen, end - p - oldLen)
    ensures |m2| == |m| && b - oldLen + newLen <= |m| && m2[a - oldLen + newLen..b - oldLen + newLen] == m[a..b]
  {
    var n := p + oldLen;
    SubEqual(m2, p + newLen, m, n, end - n, a - n, b - n);
  }

  lemma MovedBlocks(m: seq<byte>, m2: seq<byte>, p: nat, oldLen: nat, newLen: nat, end: nat, st: nat, size: nat, str: nat)
    requires p + oldLen <= st && st + size <= str <= end <= |m| && Moved(m, m2, p + newLen, p + oldLen, end - p - oldLen)
    ensures var d := newLen - oldLen;
      |m2| == |m| && end + d <= |m| && m2[st + d..st + d + size] == m[st..st + size] && m2[str + d..end + d] == m[str..end]
  {
    hide Moved;
    MovedBlock(m, m2, p, oldLen, newLen, end, st, st + size);
    MovedBlock(m, m2, p, oldLen, newLen, end, str, end);
  }

  /** What the edits of the map keep: the tree and the strings. */
  twostate predicate TreeKept(fdt: Fdt, c: Cst)
    reads fdt, fdt.buf
  {
    && old(fdt.Layout()) && fdt.Layout() && Whole(fdt, c) && TreeOf(fdt, c) == old(TreeOf(fdt, c))
    && fdt.Strs() == old(fdt.Strs())
    && fdt.magic == old(fdt.magic) && fdt.lastCompVersion == old(fdt.lastCompVersion) && fdt.bootCpuidPhys == old(fdt.bootCpuidPhys)
    && fdt.CheckHeader() == old(fdt.CheckHeader())
  }

  /** The map as it stands in memory. */
  lemma RsvBytes(fdt: Fdt, es: seq<Entry>)
    requires Reserves(fdt, es)
    ensures fdt.offMemRsvmap + 16 * (|es| + 1) <= |fdt.Mem()|
    ensures Lists(fdt.Mem()[fdt.offMemRsvmap..fdt.offMemRsvmap + 16 * (|es| + 1)], es)
  {
  }

  lemma RsvFrom(fdt: Fdt, es: seq<Entry>)
    requires fdt.offMemRsvmap + 16 * (|es| + 1) <= |fdt.Mem()|
    requires Lists(fdt.Mem()[fdt.offMemRsvmap..fdt.offMemRsvmap + 16 * (|es| + 1)], es)
    ensures Reserves(fdt, es)
  {
  }

  /** fdt_add_mem_rsv: the new entry is the last one; an entry of size 0 would end the map where it
      stands, so it does not show. */
  method AddMemRsv(fdt: Fdt, address: u64, size: u64, ghost es: seq<Entry>, ghost c: Cst) returns (err: int)
    requires Holds(fdt, es, c) && RsvInFront(fdt, es)
    modifies fdt, fdt.buf
    ensures TreeKept(fdt, c) && fdt.totalSize == old(fdt.totalSize)
    ensures err == if old(RwHeader(fdt)) != 0 then old(RwHeader(fdt)) else if 16 > old(Room(fdt)) then ERR_NOSPACE else 0
    ensures Reserves(fdt, if err == 0 && size != 0 then es + [Entry(address, size)] else es)
    ensures RsvInFront(fdt, if err == 0 then es + [Entry(address, size)] else es)
  {
    hide Moved, Fdt.Mem, Fdt.S, Fdt.Strs, Reserves, Whole, BE64, Encodes, Den, Lists;
    WholeBytes(fdt, c);
    RsvBytes(fdt, es);
    ghost var s, tab, m, o, n := fdt.S(), fdt.Strs(), fdt.Mem(), fdt.offMemRsvmap, |es|;
    err := RwCheckHeader(fdt);
    RsvFrom(fdt, es);
    WholeSame(fdt, c, s, tab);
    if err != 0 {
      return;
    }
    var num := NumMemRsv(fdt, es);
    var re := fdt.offMemRsvmap + 16 * num;
    ghost var end := fdt.offDtStrings + fdt.sizeDtStrings;
    err := SpliceMemRsv(fdt, re, 0, 1);
    if err != 0 {
      return;
    }
    ghost var m1 := fdt.Mem();
    PutOutsideBlocks(fdt, re, BE64(address) + BE64(size));
    WholeSame(fdt, c, s, tab);
    AddedMap(m, m1, fdt.Mem(), o, n, end, Entry(address, size), es);
    RsvFrom(fdt, if size != 0 then es + [Entry(address, size)] else es);
  }

  /** A store in front of the structure block. */
  method PutOutsideBlocks(fdt: Fdt, at: nat, d: seq<byte>)
    requires fdt.Layout() && at + |d| <= fdt.offDtStruct <= fdt.offDtStrings
    modifies fdt.buf
    ensures fdt.Layout() && fdt.S() == old(fdt.S()) && fdt.Strs() == old(fdt.Strs())
    ensures |fdt.Mem()| == |old(fdt.Mem())|
    ensures fdt.Mem() == old(fdt.Mem())[..at] + d + old(fdt.Mem())[at + |d|..]
  {
    hide Fdt.Mem;
    ghost var m := fdt.Mem();
    BlocksOf(fdt);
    MemcpyTo(fdt, at, d);
    BlocksOf(fdt);
    PutElse(m, fdt.Mem(), at, d, fdt.offDtStruct, fdt.offDtStruct + fdt.Limit());
    PutElse(m, fdt.Mem(), at, d, fdt.offDtStrings, fdt.offDtStrings + fdt.sizeDtStrings);
  }

  lemma PutElse(m: seq<byte>, m2: seq<byte>, at: nat, d: seq<byte>, a: nat, b: nat)
    requires at + |d| <= a <= b <= |m| && m2 == m[..at] + d + m[at + |d|..]
    ensures |m2| == |m| && m2[a..b] == m[a..b]
  {
    PutStretches(m, m2, at, d);
    var q := at + |d|;
    SubEqual(m2, q, m, q, |m| - q, a - q, b - q);
  }

  /** The memory around the new entry. */
  lemma AddedBytes(m: seq<byte>, m1: seq<byte>, m2: seq<byte>, o: nat, n: nat, end: nat, d: seq<byte>)
    requires o + 16 * (n + 1) <= end <= |m| && |d| == 16
    requires Moved(m, m1, o + 16 * n + 16, o + 16 * n, end - o - 16 * n)
    requires |m2| == |m1| && m2 == m1[..o + 16 * n] + d + m1[o + 16 * n + 16..]
    ensures |m2| == |m| && o + 16 * (n + 2) <= |m2|
    ensures m2[o..o + 16 * n] == m[o..o + 16 * n] && m2[o + 16 * n..o + 16 * n + 16] == d
    ensures m2[o + 16 * n + 16..o + 16 * n + 32] == m[o + 16 * n..o + 16 * n + 16]
  {
    var p := o + 16 * n;
    PutStretches(m1, m2, p, d);
    assert m1[0..p + 16] == m[0..p + 16];
    SubEqual(m1, 0, m, 0, p + 16, o, p);
    SubEqual(m2, 0, m1, 0, p, o, p);
    SubEqual(m1, p + 16, m, p, end - p, 0, 16);
    SubEqual(m2, p + 16, m1, p + 16, |m1| - p - 16, 0, 16);
  }

  lemma AddedMap(m: seq<byte>, m1: seq<byte>, m2: seq<byte>, o: nat, n: nat, end: nat, e: Entry, es: seq<Entry>)
    requires n == |es| && o + 16 * (n + 1) <= end <= |m| && Lists(m[o..o + 16 * (n + 1)], es)
    requires Moved(m, m1, o + 16 * n + 16, o + 16 * n, end - o - 16 * n)
    requires |m2| == |m1| && m2 == m1[..o + 16 * n] + (BE64(e.address) + BE64(e.size)) + m1[o + 16 * n + 16..]
    ensures |m2| == |m| && o + 16 * (n + 2) <= |m2|
    ensures e.size != 0 ==> Lists(m2[o..o + 16 * (n + 2)], es + [e])
    ensures e.size == 0 ==> Lists(m2[o..o + 16 * (n + 1)], es)
  {
    hide BE64, Lists, Moved;
    var p := o + 16 * n;
    AddedBytes(m, m1, m2, o, n, end, BE64(e.address) + BE64(e.size));
    Slice(m, o, p + 16, 0, 16 * n);
    Slice(m, o, p + 16, 16 * n, 16 * n + 16);
    if e.size != 0 {
      Slice(m2, o, p + 32, 0, 16 * n);
      Slice(m2, o, p + 32, 16 * n, 16 * n + 16);
      Slice(m2, o, p + 32, 16 * n + 16, 16 * n + 32);
      ListsInserted(m[o..p + 16], es, e, m2[o..p + 32]);
    } else {
      Slice(m2, o, p + 16, 0, 16 * n);
      Slice(m2, o, p + 16, 16 * n, 16 * n + 16);
      ListsEnded(m[o..p + 16], es, e, m2[o..p + 16]);
    }
  }

  lemma ListsEnded(s: seq<byte>, es: seq<Entry>, e: Entry, s2: seq<byte>)
    requires Lists(s, es) && e.size == 0 && |s2| == |s| && s2[0..|s| - 16] == s[0..|s| - 16]
    requires s2[|s| - 16..|s|] == BE64(e.address) + BE64(e.size)
    ensures Lists(s2, es)
  {
    hide EntryAt, BE64;
    var n := |es|;
    forall i | 0 <= i < n
      ensures EntryAt(s2, 16 * i) == es[i]
    {
      SubEqual(s2, 0, s, 0, 16 * n, 16 * i, 16 * i + 16);
      EntrySame(s2, 16 * i, s, 16 * i);
    }
    StoredEntry(s2, 16 * n, e);
  }

  /** fdt_del_mem_rsv. */
  method DelMemRsv(fdt: Fdt, n: nat, ghost es: seq<Entry>, ghost c: Cst) returns (err: int)
    requires Holds(fdt, es, c) && RsvInFront(fdt, es)
    modifies fdt, fdt.buf
    ensures TreeKept(fdt, c) && fdt.totalSize == old(fdt.totalSize)
    ensures err == if old(RwHeader(fdt)) != 0 then old(RwHeader(fdt)) else if n >= |es| then ERR_NOTFOUND else 0
    ensures err == 0 ==> n < |es|
    ensures var es2 := if err == 0 then T.RemoveAt(es, n) else es;
      Reserves(fdt, es2) && RsvInFront(fdt, es2)
  {
    hide Moved, Fdt.Mem, Fdt.S, Fdt.Strs, Reserves, Whole, Encodes, Den, Lists;
    WholeBytes(fdt, c);
    RsvBytes(fdt, es);
    ghost var s, tab, m, o := fdt.S(), fdt.Strs(), fdt.Mem(), fdt.offMemRsvmap;
    err := RwCheckHeader(fdt);
    RsvFrom(fdt, es);
    WholeSame(fdt, c, s, tab);
    if err != 0 {
      return;
    }
    var num := NumMemRsv(fdt, es);
    if n >= num {
      return ERR_NOTFOUND;
    }
    ghost var end := fdt.offDtStrings + fdt.sizeDtStrings;
    err := SpliceMemRsv(fdt, fdt.offMemRsvmap + 16 * n, 1, 0);
    WholeSame(fdt, c, s, tab);
    RemovedMap(m, fdt.Mem(), o, n, end, es);
    RsvFrom(fdt, T.RemoveAt(es, n));
  }

  lemma RemovedMap(m: seq<byte>, m2: seq<byte>, o: nat, k: nat, end: nat, es: seq<Entry>)
    requires k < |es| && o + 16 * (|es| + 1) <= end <= |m| && Lists(m[o..o + 16 * (|es| + 1)], es)
    requires Moved(m, m2, o + 16 * k, o + 16 * k + 16, end - o - 16 * k - 16)
    ensures |m2| == |m| && Lists(m2[o..o + 16 * |es|], T.RemoveAt(es, k))
  {
    hide Lists, T.RemoveAt;
    var n, p := |es|, o + 16 * k;
    assert m2[0..p] == m[0..p];
    SubEqual(m2, 0, m, 0, p, o, p);
    SubEqual(m2, p, m, p + 16, end - p - 16, 0, 16 * (n - k));
    var s, s2 := m[o..o + 16 * (n + 1)], m2[o..o + 16 * n];
    Slice(m, o, o + 16 * (n + 1), 0, 16 * k);
    Slice(m, o, o + 16 * (n + 1), 16 * k + 16, 16 * (n + 1));
    Slice(m2, o, o + 16 * n, 0, 16 * k);
    Slice(m2, o, o + 16 * n, 16 * k, 16 * n);
    ListsRemoved(s, es, k, s2);
  }
}
