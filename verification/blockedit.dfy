/** libfdt/fdt_rw.c, the splices: opening and closing gaps inside a blob whose blocks stand in
    the order reserve map, structure, strings. */
module BlockEdit {
  import opened Bytes
  import opened StructBlock
  import opened Concrete
  import opened FdtBase

  const RESERVE_ENTRY_SIZE: nat := 16

  // ---- memory ----------------------------------------------------------------------------

  /** `m2` is the memory `m` after `n` bytes have been copied from `src` to `dst`. */
  predicate Moved(m: seq<byte>, m2: seq<byte>, dst: nat, src: nat, n: nat) {
    && |m2| == |m| && dst + n <= |m| && src + n <= |m|
    && m2[..dst] == m[..dst] && m2[dst..dst + n] == m[src..src + n] && m2[dst + n..] == m[dst + n..]
  }

  method Memmove(m: array<byte>, dst: nat, src: nat, n: nat)
    requires dst + n <= m.Length && src + n <= m.Length
    modifies m
    ensures Moved(old(m[..]), m[..], dst, src, n)
  {
    ghost var a := m[..];
    forall i | 0 <= i < n {
      m[dst + i] := m[src + i];
    }
    MovedIs(a, m[..], dst, src, n);
  }

  lemma MovedIs(m: seq<byte>, m2: seq<byte>, dst: nat, src: nat, n: nat)
    requires |m2| == |m| && dst + n <= |m| && src + n <= |m|
    requires forall j :: dst <= j < dst + n ==> m2[j] == m[src + (j - dst)]
    requires forall j :: 0 <= j < dst || dst + n <= j < |m| ==> m2[j] == m[j]
    ensures Moved(m, m2, dst, src, n)
  {
    var b := m2[dst..dst + n];
    forall k | 0 <= k < n
      ensures b[k] == m[src..src + n][k]
    {
      var j := dst + k;
      assert m2[j] == m[src + (j - dst)];
    }
  }

  method Memcpy(m: array<byte>, dst: nat, d: seq<byte>)
    requires dst + |d| <= m.Length
    modifies m
    ensures m[..] == old(m[..])[..dst] + d + old(m[..])[dst + |d|..]
  {
    forall i | 0 <= i < |d| {
      m[dst + i] := d[i];
    }
  }

  // ---- order of the blocks -----------------------------------------------------------------

  /** _fdt_blocks_misordered. */
  predicate BlocksMisordered(fdt: Fdt, memRsvSize: nat, structSize: nat)
    reads fdt
  {
    || fdt.offMemRsvmap < HEADER_SIZE
    || fdt.offDtStruct < fdt.offMemRsvmap + memRsvSize
    || fdt.offDtStrings < fdt.offDtStruct + structSize
    || fdt.totalSize < fdt.offDtStrings + fdt.sizeDtStrings
  }

  /** What _fdt_rw_check_header answers. */
  function RwHeader(fdt: Fdt): int
    reads fdt
  {
    if fdt.CheckHeader() != 0 then fdt.CheckHeader()
    else if fdt.version < 17 then ERR_BADVERSION
    else if BlocksMisordered(fdt, RESERVE_ENTRY_SIZE, fdt.sizeDtStruct) then ERR_BADLAYOUT
    else 0
  }

  /** A blob the read-write functions work on, once its header has been checked. */
  ghost predicate Ready(fdt: Fdt)
    reads fdt
  {
    fdt.Layout() && fdt.version == 17 && !BlocksMisordered(fdt, RESERVE_ENTRY_SIZE, fdt.sizeDtStruct)
  }

  lemma ReadySize(fdt: Fdt)
    requires Ready(fdt)
    ensures |fdt.S()| == fdt.sizeDtStruct
  {
  }

  method RwCheckHeader(fdt: Fdt) returns (err: int)
    requires fdt.Layout()
    modifies fdt`version
    ensures err == old(RwHeader(fdt))
    ensures err != 0 ==> unchanged(fdt)
    ensures err == 0 ==> Ready(fdt)
    ensures fdt.Layout() && fdt.S() == old(fdt.S()) && fdt.Strs() == old(fdt.Strs())
  {
    err := RwHeader(fdt);
    if err == 0 && fdt.version > 17 {
      fdt.version := 17;
    }
  }

  /** Bytes left between the data and the end of the blob. */
  function Room(fdt: Fdt): int
    reads fdt
  {
    fdt.totalSize - (fdt.offDtStrings + fdt.sizeDtStrings)
  }

  /** The part of the blob no structure or string edit touches: where the blob and its blocks
      start, its size, and everything in front of the structure block (the reserve map). */
  twostate predicate HeadKept(fdt: Fdt)
    requires old(fdt.Layout()) && fdt.Layout()
    reads fdt, fdt.buf
  {
    && fdt.magic == old(fdt.magic) && fdt.totalSize == old(fdt.totalSize)
    && fdt.offMemRsvmap == old(fdt.offMemRsvmap) && fdt.offDtStruct == old(fdt.offDtStruct)
    && fdt.lastCompVersion == old(fdt.lastCompVersion) && fdt.bootCpuidPhys == old(fdt.bootCpuidPhys)
    && fdt.Mem()[..fdt.offDtStruct] == old(fdt.Mem()[..fdt.offDtStruct])
  }

  // ---- _fdt_splice ---------------------------------------------------------------------------

  /** Makes the `oldLen` bytes at `p` into `newLen` bytes, moving everything up to the end of the
      strings block; the contents of the new stretch are left over. */
  method Splice(fdt: Fdt, p: nat, oldLen: nat, newLen: nat) returns (err: int)
    requires fdt.Layout()
    modifies fdt.buf
    ensures var end := fdt.offDtStrings + fdt.sizeDtStrings;
      if p + oldLen > end then err == ERR_BADOFFSET
      else if end - oldLen + newLen > fdt.totalSize then err == ERR_NOSPACE
      else err == 0 && Moved(old(fdt.Mem()), fdt.Mem(), p + newLen, p + oldLen, end - p - oldLen)
    ensures err != 0 ==> unchanged(fdt.buf)
  {
    var end := fdt.offDtStrings + fdt.sizeDtStrings;
    if p + oldLen > end {
      return ERR_BADOFFSET;
    }
    if end - oldLen + newLen > fdt.totalSize {
      return ERR_NOSPACE;
    }
    Memmove(fdt.buf, p + newLen, p + oldLen, end - p - oldLen);
    err := 0;
  }

  /** `s2` is `s` with the stretch at `o` replaced by one of another length; a stretch that grows
      keeps the bytes it had. */
  predicate Respliced(s: seq<byte>, s2: seq<byte>, o: nat, oldLen: nat, newLen: nat) {
    && o + oldLen <= |s| && |s2| == |s| - oldLen + newLen
    && s2[..o] == s[..o]
    && s2[o + newLen..] == s[o + oldLen..]
    && (oldLen <= newLen ==> s2[o..o + oldLen] == s[o..o + oldLen])
  }

  /** _fdt_splice_struct, at offset `o` of the structure block. */
  method SpliceStruct(fdt: Fdt, o: nat, oldLen: nat, newLen: nat) returns (err: int)
    requires Ready(fdt) && o + oldLen <= fdt.sizeDtStruct
    modifies fdt`sizeDtStruct, fdt`offDtStrings, fdt.buf
    ensures err == if newLen - oldLen > old(Room(fdt)) then ERR_NOSPACE else 0
    ensures err != 0 ==> unchanged(fdt) && unchanged(fdt.buf)
    ensures Ready(fdt) && HeadKept(fdt)
    ensures fdt.Strs() == old(fdt.Strs())
    ensures err == 0 ==>
      && Room(fdt) == old(Room(fdt)) - (newLen - oldLen)
      && Respliced(old(fdt.S()), fdt.S(), o, oldLen, newLen)
  {
    hide Respliced, Moved, Fdt.Mem;
    BlocksOf(fdt);
    err := SpliceBytes(fdt, o, oldLen, newLen);
    if err == 0 {
      SetStructSize(fdt, newLen - oldLen);
    }
  }

  /** The bytes of both blocks after the splice, where the header is about to say that they are. */
  method SpliceBytes(fdt: Fdt, o: nat, oldLen: nat, newLen: nat) returns (err: int)
    requires Ready(fdt) && o + oldLen <= fdt.sizeDtStruct
    modifies fdt.buf
    ensures err == if newLen - oldLen > Room(fdt) then ERR_NOSPACE else 0
    ensures err != 0 ==> unchanged(fdt.buf)
    ensures err == 0 ==>
      var m, m2, st, str, size := old(fdt.Mem()), fdt.Mem(), fdt.offDtStruct, fdt.offDtStrings, fdt.sizeDtStruct;
      && |m2| == |m| && m2[..st] == m[..st] && str + fdt.sizeDtStrings + newLen - oldLen <= |m|
      && Respliced(m[st..st + size], m2[st..st + size - oldLen + newLen], o, oldLen, newLen)
      && m2[str - oldLen + newLen..str + fdt.sizeDtStrings - oldLen + newLen] == m[str..str + fdt.sizeDtStrings]
  {
    hide Respliced, Moved, Fdt.Mem;
    ghost var m, size, str, end := fdt.Mem(), fdt.sizeDtStruct, fdt.offDtStrings, fdt.offDtStrings + fdt.sizeDtStrings;
    err := Splice(fdt, fdt.offDtStruct + o, oldLen, newLen);
    if err == 0 {
      ghost var m2 := fdt.Mem();
      SpliceInside(m, m2, o, oldLen, newLen, end, fdt.offDtStruct, size, size - oldLen + newLen);
      SpliceOutside(m, m2, fdt.offDtStruct + o, oldLen, newLen, end, fdt.offDtStruct, str, str - oldLen + newLen, end - oldLen + newLen);
    }
  }

  /** The header after a splice: the size of the structure block and the place of the strings. */
  method SetStructSize(fdt: Fdt, delta: int)
    requires fdt.version == 17 && 0 <= fdt.sizeDtStruct + delta && 0 <= fdt.offDtStrings + delta
    modifies fdt`sizeDtStruct, fdt`offDtStrings
    ensures fdt.sizeDtStruct == old(fdt.sizeDtStruct) + delta
    ensures fdt.offDtStrings == old(fdt.offDtStrings) + delta
    ensures fdt.Mem() == old(fdt.Mem())
    ensures fdt.Layout() ==>
      && fdt.S() == fdt.Mem()[fdt.offDtStruct..fdt.offDtStruct + old(fdt.sizeDtStruct) + delta]
      && fdt.Strs() == fdt.Mem()[old(fdt.offDtStrings) + delta..old(fdt.offDtStrings) + fdt.sizeDtStrings + delta]
  {
    fdt.sizeDtStruct := fdt.sizeDtStruct + delta;
    fdt.offDtStrings := fdt.offDtStrings + delta;
  }

  /** The blocks of a blob as stretches of its memory. */
  lemma BlocksOf(fdt: Fdt)
    requires fdt.Layout()
    ensures fdt.S() == fdt.Mem()[fdt.offDtStruct..fdt.offDtStruct + fdt.Limit()]
    ensures fdt.Strs() == fdt.Mem()[fdt.offDtStrings..fdt.offDtStrings + fdt.sizeDtStrings]
  {
  }

  /** The structure block after a splice of the memory `m` into `m2` inside it. */
  lemma SpliceInside(m: seq<byte>, m2: seq<byte>, o: nat, oldLen: nat, newLen: nat, end: nat, st: nat, size: nat, size2: nat)
    requires o + oldLen <= size && st + size <= end <= |m|
    requires size2 == size - oldLen + newLen
    requires Moved(m, m2, st + o + newLen, st + o + oldLen, end - (st + o) - oldLen)
    ensures |m2| == |m| && st + size2 <= |m| && Respliced(m[st..st + size], m2[st..st + size2], o, oldLen, newLen)
  {
    hide Moved;
    MovedParts(m, m2, st + o, oldLen, newLen, end, st, st + size);
    Window(m, m2, st, size, size2, 0, o, 0);
    Window(m, m2, st, size, size2, o + oldLen, size, o + newLen);
    if oldLen <= newLen {
      Window(m, m2, st, size, size2, o, o + oldLen, o);
    }
  }

  lemma MovedParts(m: seq<byte>, m2: seq<byte>, p: nat, oldLen: nat, newLen: nat, end: nat, a: nat, b: nat)
    requires a <= p && p + oldLen <= b <= end <= |m|
    requires Moved(m, m2, p + newLen, p + oldLen, end - p - oldLen)
    ensures |m2| == |m| && b + newLen - oldLen <= |m|
    ensures m2[a..p] == m[a..p] && m2[p + newLen..b + newLen - oldLen] == m[p + oldLen..b]
    ensures oldLen <= newLen ==> m2[p..p + oldLen] == m[p..p + oldLen]
  {
    var n := p + oldLen;
    assert m2[0..p + newLen] == m[0..p + newLen];
    SubEqual(m2, 0, m, 0, p + newLen, a, p);
    SubEqual(m2, p + newLen, m, n, end - n, 0, b - n);
    if oldLen <= newLen {
      SubEqual(m2, 0, m, 0, p + newLen, p, n);
    }
  }

  lemma Window(m: seq<byte>, m2: seq<byte>, st: nat, size: nat, size2: nat, a: nat, b: nat, a2: nat)
    requires st + size <= |m| && st + size2 <= |m2| && a <= b <= size && a2 + b - a <= size2
    requires m2[st + a2..st + a2 + (b - a)] == m[st + a..st + b]
    ensures m2[st..st + size2][a2..a2 + (b - a)] == m[st..st + size][a..b]
  {
    Slice(m, st, st + size, a, b);
    Slice(m2, st, st + size2, a2, a2 + (b - a));
  }

  /** What stands before and after the structure block. */
  lemma SpliceOutside(m: seq<byte>, m2: seq<byte>, p: nat, oldLen: nat, newLen: nat, end: nat, st: nat, str: nat, str2: nat, end2: nat)
    requires st <= p && p + oldLen <= str <= end <= |m| && end2 <= |m|
    requires str2 == str - oldLen + newLen && end2 == end - oldLen + newLen
    requires Moved(m, m2, p + newLen, p + oldLen, end - p - oldLen)
    ensures |m2| == |m| && m2[..st] == m[..st] && m2[str2..end2] == m[str..end]
  {
    var n := p + oldLen;
    assert m2[0..p + newLen] == m[0..p + newLen];
    SubEqual(m2, 0, m, 0, p + newLen, 0, st);
    SubEqual(m2, p + newLen, m, n, end - n, str - n, end - n);
  }

  method MemcpyTo(fdt: Fdt, at: nat, d: seq<byte>)
    requires at + |d| <= fdt.buf.Length
    modifies fdt.buf
    ensures fdt.Mem() == old(fdt.Mem())[..at] + d + old(fdt.Mem())[at + |d|..]
  {
    Memcpy(fdt.buf, at, d);
  }

  /** The structure block can be written without touching the strings. */
  ghost predicate Apart(fdt: Fdt)
    reads fdt
  {
    && fdt.Layout() && fdt.version >= 17
    && (fdt.offDtStruct + fdt.sizeDtStruct <= fdt.offDtStrings || fdt.offDtStrings + fdt.sizeDtStrings <= fdt.offDtStruct)
  }

  /** memcpy into the structure block. */
  method PutStruct(fdt: Fdt, o: nat, d: seq<byte>)
    requires Apart(fdt) && o + |d| <= fdt.sizeDtStruct
    modifies fdt.buf
    ensures fdt.Layout() && HeadKept(fdt)
    ensures fdt.Strs() == old(fdt.Strs())
    ensures Overwritten(old(fdt.S()), fdt.S(), o, d)
  {
    hide Overwritten, Fdt.Mem;
    ghost var m := fdt.Mem();
    MemcpyTo(fdt, fdt.offDtStruct + o, d);
    PutInside(m, fdt.Mem(), fdt.offDtStruct, fdt.Limit(), o, d);
    PutOutside(m, fdt.Mem(), fdt.offDtStruct + o, d, fdt.offDtStruct, fdt.offDtStrings, fdt.offDtStrings + fdt.sizeDtStrings);
  }

  /** `s2` is `s` with `d` written over it at `o`. */
  predicate Overwritten(s: seq<byte>, s2: seq<byte>, o: nat, d: seq<byte>) {
    o + |d| <= |s| && s2 == s[..o] + d + s[o + |d|..]
  }

  lemma PutInside(m: seq<byte>, m2: seq<byte>, st: nat, size: nat, o: nat, d: seq<byte>)
    requires o + |d| <= size && st + size <= |m|
    requires m2 == m[..st + o] + d + m[st + o + |d|..]
    ensures |m2| == |m| && Overwritten(m[st..st + size], m2[st..st + size], o, d)
  {
    var p, q := st + o, st + o + |d|;
    PutStretches(m, m2, p, d);
    SubEqual(m2, 0, m, 0, p, st, p);
    SubEqual(m2, q, m, q, |m| - q, 0, st + size - q);
    SliceJoin(m2, st, p, q);
    SliceJoin(m2, st, q, st + size);
    Slice(m, st, st + size, 0, o);
    Slice(m, st, st + size, o + |d|, size);
  }

  lemma PutOutside(m: seq<byte>, m2: seq<byte>, p: nat, d: seq<byte>, st: nat, str: nat, end: nat)
    requires st <= p && p + |d| <= |m| && str <= end <= |m|
    requires p + |d| <= str || end <= p
    requires m2 == m[..p] + d + m[p + |d|..]
    ensures |m2| == |m| && m2[..st] == m[..st] && m2[str..end] == m[str..end]
  {
    var q := p + |d|;
    PutStretches(m, m2, p, d);
    SubEqual(m2, 0, m, 0, p, 0, st);
    if end <= p {
      SubEqual(m2, 0, m, 0, p, str, end);
    } else {
      SubEqual(m2, q, m, q, |m| - q, str - q, end - q);
    }
  }

  lemma PutStretches(m: seq<byte>, m2: seq<byte>, p: nat, d: seq<byte>)
    requires p + |d| <= |m| && m2 == m[..p] + d + m[p + |d|..]
    ensures |m2| == |m|
    ensures m2[0..p] == m[0..p] && m2[p..p + |d|] == d && m2[p + |d|..|m|] == m[p + |d|..|m|]
  {
  }

  // ---- strings -------------------------------------------------------------------------------

  /** `s` and its terminator stand at `p` of the table. */
  predicate HoldsString(tab: seq<byte>, p: int, s: seq<byte>) {
    0 <= p && p + |s| + 1 <= |tab| && tab[p..p + |s| + 1] == s + [0]
  }

  ghost predicate Interned(tab: seq<byte>, s: Name) {
    exists p: nat :: HoldsString(tab, p, s)
  }

  /** The table once it holds `s`: a new string goes behind the others. */
  ghost function TableWith(tab: seq<byte>, s: Name): (r: seq<byte>)
    ensures |tab| <= |r|
  {
    if Interned(tab, s) then tab else tab + s + [0]
  }

  /** _fdt_find_string: where the string first stands in a table, or a negative number. */
  method FindIn(m: array<byte>, at: nat, tabSize: nat, s: Name, ghost tab: seq<byte>) returns (r: int)
    requires at + tabSize <= m.Length && tab == m[..][at..at + tabSize]
    ensures r >= 0 ==> HoldsString(tab, r, s)
    ensures forall q :: 0 <= q && (r < 0 || q < r) ==> !HoldsString(tab, q, s)
  {
    var len := |s| + 1;
    var p := 0;
    while p <= tabSize - len
      invariant 0 <= p
      invariant forall q :: 0 <= q < p ==> !HoldsString(tab, q, s)
      decreases tabSize - p
    {
      Slice(m[..], at, at + tabSize, p, p + len);
      if m[..][at + p..at + p + len] == s + [0] {
        return p;
      }
      p := p + 1;
    }
    r := -1;
  }

  /** _fdt_find_string on the strings block. */
  method FindString(fdt: Fdt, s: Name) returns (r: int)
    requires fdt.Layout()
    ensures r >= 0 ==> HoldsString(fdt.Strs(), r, s)
    ensures forall q :: 0 <= q && (r < 0 || q < r) ==> !HoldsString(fdt.Strs(), q, s)
  {
    hide HoldsString;
    r := FindIn(fdt.buf, fdt.offDtStrings, fdt.sizeDtStrings, s, fdt.Strs());
  }

  /** _fdt_splice_string followed by the memcpy of the new string. */
  method AddString(fdt: Fdt, s: Name) returns (err: int)
    requires Ready(fdt)
    modifies fdt`sizeDtStrings, fdt.buf
    ensures err == if |s| + 1 > old(Room(fdt)) then ERR_NOSPACE else 0
    ensures err != 0 ==> unchanged(fdt) && unchanged(fdt.buf)
    ensures Ready(fdt) && HeadKept(fdt) && fdt.S() == old(fdt.S())
    ensures err == 0 ==> fdt.Strs() == old(fdt.Strs()) + s + [0] && Room(fdt) == old(Room(fdt)) - (|s| + 1)
  {
    hide Moved, Fdt.Mem, Overwritten;
    ghost var m, st, size, str, end := fdt.Mem(), fdt.offDtStruct, fdt.Limit(), fdt.offDtStrings, fdt.offDtStrings + fdt.sizeDtStrings;
    var at := fdt.offDtStrings + fdt.sizeDtStrings;
    err := Splice(fdt, at, 0, |s| + 1);
    if err == 0 {
      ghost var m1 := fdt.Mem();
      MemcpyTo(fdt, at, s + [0]);
      AddKeeps(m, m1, fdt.Mem(), st, size, str, end, s + [0]);
      SetStringsSize(fdt, |s| + 1);
    }
  }

  method SetStringsSize(fdt: Fdt, delta: nat)
    modifies fdt`sizeDtStrings
    ensures fdt.sizeDtStrings == old(fdt.sizeDtStrings) + delta
    ensures fdt.Mem() == old(fdt.Mem())
  {
    fdt.sizeDtStrings := fdt.sizeDtStrings + delta;
  }

  lemma AddKeeps(m: seq<byte>, m1: seq<byte>, m2: seq<byte>, st: nat, size: nat, str: nat, end: nat, d: seq<byte>)
    requires st + size <= str <= end && end + |d| <= |m|
    requires Moved(m, m1, end + |d|, end, 0)
    requires m2 == m1[..end] + d + m1[end + |d|..]
    ensures |m2| == |m| && m2[..st] == m[..st]
    ensures m2[st..st + size] == m[st..st + size]
    ensures m2[str..end + |d|] == m[str..end] + d
  {
    assert m1[0..end + |d|] == m[0..end + |d|];
    SubEqual(m1, 0, m, 0, end + |d|, 0, end);
    assert m2[0..end] == m1[0..end] == m[0..end];
    SubEqual(m2, 0, m, 0, end, 0, st);
    SubEqual(m2, 0, m, 0, end, st, st + size);
    SubEqual(m2, 0, m, 0, end, str, end);
    assert m2[end..end + |d|] == d;
    SliceJoin(m2, str, end, end + |d|);
  }

  lemma Held(tab: seq<byte>, p: nat, s: Name)
    requires HoldsString(tab, p, s)
    ensures Interned(tab, s) && p < |tab| && StringAt(tab, p) && CStr(tab, p) == s
  {
    CStrStored(tab, p, s);
  }

  lemma NotHeld(tab: seq<byte>, s: Name)
    requires forall q :: 0 <= q ==> !HoldsString(tab, q, s)
    ensures !Interned(tab, s)
  {
  }

  /** _fdt_find_add_string: an offset at which the string now stands, or the error. */
  method FindAddString(fdt: Fdt, s: Name) returns (r: int)
    requires Ready(fdt)
    modifies fdt`sizeDtStrings, fdt.buf
    ensures Ready(fdt) && HeadKept(fdt) && fdt.S() == old(fdt.S())
    ensures r >= 0 ==> r < 0x8000_0000 && StringAt(fdt.Strs(), r) && CStr(fdt.Strs(), r) == s
    ensures if |TableWith(old(fdt.Strs()), s)| - |old(fdt.Strs())| > old(Room(fdt))
            then r == ERR_NOSPACE && fdt.Strs() == old(fdt.Strs()) else r >= 0 && fdt.Strs() == TableWith(old(fdt.Strs()), s)
    ensures Room(fdt) == old(Room(fdt)) - (|fdt.Strs()| - |old(fdt.Strs())|)
  {
    hide Fdt.Mem, StringAt, CStr, HoldsString, Interned;
    r := FindString(fdt, s);
    if r >= 0 {
      Held(fdt.Strs(), r, s);
      return r;
    }
    var at := fdt.sizeDtStrings;
    NotHeld(fdt.Strs(), s);
    ghost var tab := fdt.Strs();
    var err := AddString(fdt, s);
    if err != 0 {
      return err;
    }
    assert tab + s + [0] == tab + (s + [0]);
    assert fdt.Strs()[at..at + |s| + 1] == s + [0];
    CStrStored(fdt.Strs(), at, s);
    r := at;
  }
}
