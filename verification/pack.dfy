/** libfdt/fdt_rw.c: fdt_pack and fdt_open_into. */
module Packing {
  import opened Bytes
  import opened StructBlock
  import opened Concrete
  import opened FdtBase
  import opened BlockEdit
  import opened Paths
  import opened Lookup
  import opened MemRsv
  import T = Tree

  const RSV_START: nat := 40

  /** The three blocks of a blob as stretches of a memory. */
  predicate BlocksIn(m: seq<byte>, rsv: nat, rs: seq<byte>, st: nat, ss: seq<byte>, str: nat, tab: seq<byte>) {
    && rsv + |rs| <= |m| && m[rsv..rsv + |rs|] == rs
    && st + |ss| <= |m| && m[st..st + |ss|] == ss
    && str + |tab| <= |m| && m[str..str + |tab|] == tab
  }

  /** A stretch of one memory copied to another place of a second one. */
  predicate Put(m: seq<byte>, m2: seq<byte>, dst: nat, from: seq<byte>, src: nat, n: nat) {
    dst + n <= |m| && src + n <= |from| && m2 == m[..dst] + from[src..src + n] + m[dst + n..]
  }

  /** memmove from one memory to another, or inside one. */
  method Copy(to: array<byte>, dst: nat, from: array<byte>, src: nat, n: nat)
    requires dst + n <= to.Length && src + n <= from.Length
    modifies to
    ensures to[..] == old(to[..])[..dst] + old(from[..])[src..src + n] + old(to[..])[dst + n..]
  {
    forall i | 0 <= i < n {
      to[dst + i] := from[src + i];
    }
  }

  method CopyBlock(to: Fdt, dst: nat, from: Fdt, src: nat, n: nat)
    requires dst + n <= to.buf.Length && src + n <= from.buf.Length
    modifies to.buf
    ensures Put(old(to.Mem()), to.Mem(), dst, old(from.Mem()), src, n)
  {
    Copy(to.buf, dst, from.buf, src, n);
  }

  /** The stretch written, and one that lies beside it. */
  lemma PutKeeps(m: seq<byte>, m2: seq<byte>, dst: nat, from: seq<byte>, src: nat, n: nat, a: nat, b: nat)
    requires Put(m, m2, dst, from, src, n) && a <= b <= |m| && (b <= dst || dst + n <= a)
    ensures |m2| == |m| && dst + n <= |m| && m2[dst..dst + n] == from[src..src + n] && m2[a..b] == m[a..b]
  {
    var d := from[src..src + n];
    PutStretches(m, m2, dst, d);
    if b <= dst {
      SubEqual(m2, 0, m, 0, dst, a, b);
    } else {
      SubEqual(m2, dst + n, m, dst + n, |m| - dst - n, a - dst - n, b - dst - n);
    }
  }

  /** Three blocks moved towards the front of the memory they stand in, or into another memory: none
      is written over before it has been moved. */
  lemma ThreePut(m: seq<byte>, f1: seq<byte>, f2: seq<byte>, m0: seq<byte>, m1: seq<byte>, m2: seq<byte>, m3: seq<byte>,
                 rsv: nat, rn: nat, st: nat, sn: nat, str: nat, tn: nat)
    requires rsv + rn <= |m| && st + sn <= |m| && str + tn <= |m|
    requires Put(m0, m1, RSV_START, m, rsv, rn)
    requires Put(m1, m2, RSV_START + rn, f1, st, sn)
    requires Put(m2, m3, RSV_START + rn + sn, f2, str, tn)
    requires (f1 == m && f2 == m) || (m0 == m && f1 == m1 && f2 == m2 && RSV_START <= rsv && rsv + rn <= st && st + sn <= str)
    ensures BlocksIn(m3, RSV_START, m[rsv..rsv + rn], RSV_START + rn, m[st..st + sn], RSV_START + rn + sn, m[str..str + tn])
  {
    hide Put;
    var o0, o1, o2 := RSV_START, RSV_START + rn, RSV_START + rn + sn;
    PutSizes(m0, m1, o0, m, rsv, rn);
    PutSizes(m1, m2, o1, f1, st, sn);
    PutSizes(m2, m3, o2, f2, str, tn);
    if f1 != m || f2 != m {
      PutKeeps(m0, m1, o0, m, rsv, rn, st, st + sn);
      PutKeeps(m0, m1, o0, m, rsv, rn, str, str + tn);
      PutKeeps(m1, m2, o1, f1, st, sn, str, str + tn);
    }
    PutKeeps(m0, m1, o0, m, rsv, rn, o0, o0);
    PutKeeps(m1, m2, o1, f1, st, sn, o0, o1);
    PutKeeps(m2, m3, o2, f2, str, tn, o0, o1);
    PutKeeps(m2, m3, o2, f2, str, tn, o1, o2);
  }

  lemma PutSizes(m: seq<byte>, m2: seq<byte>, dst: nat, from: seq<byte>, src: nat, n: nat)
    requires Put(m, m2, dst, from, src, n)
    ensures |m2| == |m| && dst + n <= |m| && src + n <= |from|
  {
  }

  /** Blocks that are already in place stay there, byte for byte, with everything around them. */
  lemma PutInPlace(m: seq<byte>, m2: seq<byte>, dst: nat, n: nat)
    requires Put(m, m2, dst, m, dst, n)
    ensures m2 == m
  {
    assert m == m[..dst] + m[dst..dst + n] + m[dst + n..];
  }

  /** _fdt_packblocks: the blocks, one right after the other behind the header. */
  method PackBlocks(from: Fdt, to: Fdt, rsvSize: nat, structSize: nat)
    requires from.offMemRsvmap + rsvSize <= from.buf.Length && from.offDtStruct + structSize <= from.buf.Length
    requires from.offDtStrings + from.sizeDtStrings <= from.buf.Length
    requires RSV_START + rsvSize + structSize + from.sizeDtStrings <= to.buf.Length
    requires (from != to && from.buf != to.buf) ||
             (from == to && RSV_START <= from.offMemRsvmap && from.offMemRsvmap + rsvSize <= from.offDtStruct
              && from.offDtStruct + structSize <= from.offDtStrings)
    modifies to`offMemRsvmap, to`offDtStruct, to`sizeDtStruct, to`offDtStrings, to`sizeDtStrings, to.buf
    ensures to.offMemRsvmap == RSV_START && to.offDtStruct == RSV_START + rsvSize && to.sizeDtStruct == structSize
    ensures to.offDtStrings == RSV_START + rsvSize + structSize && to.sizeDtStrings == old(from.sizeDtStrings)
    ensures var m := old(from.Mem());
      BlocksIn(to.Mem(), to.offMemRsvmap, m[old(from.offMemRsvmap)..old(from.offMemRsvmap) + rsvSize],
               to.offDtStruct, m[old(from.offDtStruct)..old(from.offDtStruct) + structSize],
               to.offDtStrings, m[old(from.offDtStrings)..old(from.offDtStrings) + old(from.sizeDtStrings)])
    ensures from == to && old(to.offMemRsvmap) == RSV_START && old(to.offDtStruct) == to.offDtStruct && old(to.offDtStrings) == to.offDtStrings ==>
              to.Mem() == old(to.Mem())
  {
    hide Fdt.Mem, BlocksIn, Put;
    ghost var m0, m := to.Mem(), from.Mem();
    ghost var rsv, st, str, n := from.offMemRsvmap, from.offDtStruct, from.offDtStrings, from.sizeDtStrings;
    var rsvOff := RSV_START;
    var structOff := rsvOff + rsvSize;
    var stringsOff := structOff + structSize;
    CopyBlock(to, rsvOff, from, from.offMemRsvmap, rsvSize);
    ghost var m1, f1 := to.Mem(), from.Mem();
    to.offMemRsvmap := rsvOff;
    CopyBlock(to, structOff, from, from.offDtStruct, structSize);
    ghost var m2, f2 := to.Mem(), from.Mem();
    to.offDtStruct := structOff;
    to.sizeDtStruct := structSize;
    CopyBlock(to, stringsOff, from, from.offDtStrings, from.sizeDtStrings);
    ghost var m3 := to.Mem();
    to.offDtStrings := stringsOff;
    to.sizeDtStrings := from.sizeDtStrings;
    ThreePut(m, f1, f2, m0, m1, m2, m3, rsv, rsvSize, st, structSize, str, n);
    if from == to && rsv == rsvOff && st == structOff && str == stringsOff {
      PutInPlace(m0, m1, rsvOff, rsvSize);
      PutInPlace(m1, m2, structOff, structSize);
      PutInPlace(m2, m3, stringsOff, n);
    }
  }

  /** A blob whose memory holds the three blocks where its header says. */
  lemma BlocksHold(out: Fdt, es: seq<Entry>, c: Cst, rs: seq<byte>, ss: seq<byte>, tab: seq<byte>)
    requires out.Layout() && out.version == 17 && Lists(rs, es) && Encodes(ss, tab, c)
    requires |ss| == out.sizeDtStruct && |tab| == out.sizeDtStrings
    requires BlocksIn(out.Mem(), out.offMemRsvmap, rs, out.offDtStruct, ss, out.offDtStrings, tab)
    ensures Holds(out, es, c) && TreeOf(out, c) == Den(c, tab) && out.Strs() == tab && out.S() == ss
  {
    hide Lists, Encodes, Den, EntryAt, Fdt.Mem;
    BlocksOf(out);
    RsvSize(rs, es);
    WholeSame(out, c, ss, tab);
    RsvFrom(out, es);
  }

  lemma RsvSize(rs: seq<byte>, es: seq<Entry>)
    requires Lists(rs, es)
    ensures |rs| == 16 * (|es| + 1)
  {
  }

  /** The blob with its blocks back to back: nothing in front, between or behind them. */
  ghost predicate Packed(fdt: Fdt, es: seq<Entry>)
    reads fdt
  {
    && fdt.offMemRsvmap == RSV_START && fdt.offDtStruct == RSV_START + 16 * (|es| + 1)
    && fdt.offDtStrings == fdt.offDtStruct + fdt.sizeDtStruct
    && fdt.totalSize == fdt.offDtStrings + fdt.sizeDtStrings
  }

  /** fdt_pack, once the header has been checked. */
  method PackReady(fdt: Fdt, ghost es: seq<Entry>, ghost c: Cst)
    requires Ready(fdt) && Holds(fdt, es, c) && RsvInFront(fdt, es)
    modifies fdt`offMemRsvmap, fdt`offDtStruct, fdt`sizeDtStruct, fdt`offDtStrings, fdt`sizeDtStrings, fdt`totalSize, fdt.buf
    ensures Ready(fdt) && Holds(fdt, es, c) && Packed(fdt, es) && fdt.totalSize <= old(fdt.totalSize)
    ensures fdt.sizeDtStruct == old(fdt.sizeDtStruct)
    ensures fdt.S() == old(fdt.S()) && fdt.Strs() == old(fdt.Strs()) && TreeOf(fdt, c) == old(TreeOf(fdt, c))
    ensures old(Packed(fdt, es)) ==> fdt.Mem() == old(fdt.Mem()) && fdt.totalSize == old(fdt.totalSize)
  {
    hide Fdt.Mem, Fdt.S, Fdt.Strs, Reserves, Whole, Encodes, Den, Lists, BlocksIn;
    WholeBytes(fdt, c);
    RsvBytes(fdt, es);
    BlocksOf(fdt);
    ghost var s, tab, m := fdt.S(), fdt.Strs(), fdt.Mem();
    ghost var rs := m[fdt.offMemRsvmap..fdt.offMemRsvmap + 16 * (|es| + 1)];
    WholeSame(fdt, c, s, tab);
    var num := NumMemRsv(fdt, es);
    PackBlocks(fdt, fdt, (num + 1) * RESERVE_ENTRY_SIZE, fdt.sizeDtStruct);
    fdt.totalSize := fdt.offDtStrings + fdt.sizeDtStrings;
    BlocksHold(fdt, es, c, rs, s, tab);
  }

  /** fdt_pack: the same map, tree and strings in the least space; packing again changes nothing. */
  method PackInPlace(fdt: Fdt, ghost es: seq<Entry>, ghost c: Cst) returns (err: int)
    requires Holds(fdt, es, c) && RsvInFront(fdt, es)
    modifies fdt, fdt.buf
    ensures err == old(RwHeader(fdt))
    ensures TreeKept(fdt, c) && Reserves(fdt, es) && RsvInFront(fdt, es)
    ensures err == 0 ==> Packed(fdt, es) && Ready(fdt) && fdt.S() == old(fdt.S())
    ensures err == 0 ==> fdt.totalSize <= old(fdt.totalSize)
    ensures err == 0 && old(Packed(fdt, es)) ==> fdt.Mem() == old(fdt.Mem()) && fdt.totalSize == old(fdt.totalSize)
  {
    hide Fdt.Mem, Fdt.S, Fdt.Strs, Reserves, Whole, Encodes, Den, Lists;
    WholeBytes(fdt, c);
    RsvBytes(fdt, es);
    ghost var s, tab := fdt.S(), fdt.Strs();
    err := RwCheckHeader(fdt);
    RsvFrom(fdt, es);
    WholeSame(fdt, c, s, tab);
    if err == 0 {
      PackReady(fdt, es, c);
    }
  }

  // ---- fdt_open_into -----------------------------------------------------------------------------------

  /** Size of the structure block of a blob whose header does not record it: the loop runs up to and
      over the end marker. */
  method StructSize(fdt: Fdt, ghost c: Cst) returns (size: int)
    requires Whole(fdt, c)
    ensures size == Size(Toks(c) + [End])
  {
    hide EncAll, Enc, Toks, ReadTag, Named, Fdt.S, Fdt.Strs, Fdt.Mem;
    ghost var ts := Toks(c) + [End];
    ghost var a, b := [], ts;
    SizeNil();
    ToksNoEnd(c);
    assert [] + Toks(c) + [End] == ts;
    size := 0;
    while true
      invariant a + b == ts && b != [] && size == Size(a)
      invariant forall i :: 0 <= i < |b| ==> (b[i].End? <==> i == |b| - 1)
      decreases |b|
    {
      TagHere(fdt, a, b);
      var tag, next := NextTag(fdt, size);
      size := next;
      if tag == FDT_END {
        assert a + [b[0]] == ts;
        return;
      }
      assert forall i :: 0 <= i < |b[1..]| ==> b[1..][i] == b[i + 1];
      a, b := a + [b[0]], b[1..];
    }
  }

  lemma {:induction false} ToksNoEnd(c: Cst)
    ensures forall i :: 0 <= i < |Toks(c)| ==> !Toks(c)[i].End?
    decreases c, 0
  {
    hide PToks, KToks, Nops, Toks;
    ToksDef(c);
    PToksNoEnd(c.props);
    KToksNoEnd(c.kids);
    assert forall i :: 0 <= i < c.tail ==> Nops(c.tail)[i] == Nop;
  }

  lemma PToksNoEnd(ps: seq<CProp>)
    ensures forall i :: 0 <= i < |PToks(ps)| ==> !PToks(ps)[i].End?
  {
  }

  lemma {:induction false} KToksNoEnd(ks: seq<Cst>)
    ensures forall i :: 0 <= i < |KToks(ks)| ==> !KToks(ks)[i].End?
    decreases ks, 1
  {
    hide Toks;
    if ks != [] {
      ToksNoEnd(ks[0]);
      KToksNoEnd(ks[1..]);
    }
  }

  /** What the copy must be: a blob of the same contents, laid out for editing, as large as asked for. */
  ghost predicate OpenedBlob(out: Fdt, bufsize: nat, es: seq<Entry>, c: Cst, t: T.Tree, tab: seq<byte>)
    reads out, out.buf
  {
    && Holds(out, es, c) && RsvInFront(out, es) && TreeOf(out, c) == t && out.Strs() == tab
    && out.totalSize == bufsize && Ready(out)
  }

  /** fdt_move: the whole blob, header included. */
  method MoveInto(fdt: Fdt, out: Fdt, bufsize: nat) returns (err: int)
    requires fdt.Layout() && fdt.CheckHeader() == 0 && fdt != out && fdt.buf != out.buf && bufsize <= out.buf.Length
    modifies out, out.buf
    ensures err == if fdt.totalSize > bufsize then ERR_NOSPACE else 0
    ensures err != 0 ==> unchanged(out) && unchanged(out.buf)
    ensures err == 0 ==>
      && out.magic == fdt.magic && out.totalSize == fdt.totalSize && out.offDtStruct == fdt.offDtStruct
      && out.offDtStrings == fdt.offDtStrings && out.offMemRsvmap == fdt.offMemRsvmap && out.version == fdt.version
      && out.lastCompVersion == fdt.lastCompVersion && out.bootCpuidPhys == fdt.bootCpuidPhys
      && out.sizeDtStrings == fdt.sizeDtStrings && out.sizeDtStruct == fdt.sizeDtStruct
      && out.Mem()[..fdt.totalSize] == fdt.Mem()[..fdt.totalSize]
  {
    hide Fdt.Mem, Put;
    if fdt.totalSize > bufsize {
      return ERR_NOSPACE;
    }
    ghost var m0 := out.Mem();
    CopyBlock(out, 0, fdt, 0, fdt.totalSize);
    PutKeeps(m0, out.Mem(), 0, fdt.Mem(), 0, fdt.totalSize, 0, 0);
    out.magic, out.totalSize, out.offDtStruct, out.offDtStrings := fdt.magic, fdt.totalSize, fdt.offDtStruct, fdt.offDtStrings;
    out.offMemRsvmap, out.version, out.lastCompVersion := fdt.offMemRsvmap, fdt.version, fdt.lastCompVersion;
    out.bootCpuidPhys, out.sizeDtStrings, out.sizeDtStruct := fdt.bootCpuidPhys, fdt.sizeDtStrings, fdt.sizeDtStruct;
    err := 0;
  }

  /** The bytes of the node without what may stand after the end marker. */
  lemma EncodesPart(s: seq<byte>, tab: seq<byte>, c: Cst, n: nat)
    requires Encodes(s, tab, c) && Size(Toks(c) + [End]) <= n <= |s|
    ensures Encodes(s[..n], tab, c)
  {
    hide EncAll, Toks, Named;
    var e := EncAll([] + Toks(c) + [End]);
    assert [] + Toks(c) + [End] == Toks(c) + [End];
    assert s[..n][..|e|] == s[..|e|];
  }

  /** The source blob, by its three blocks. */
  ghost predicate Source(fdt: Fdt, es: seq<Entry>, c: Cst, rs: seq<byte>, ss: seq<byte>, tab: seq<byte>)
    reads fdt, fdt.buf
  {
    && fdt.Layout() && Lists(rs, es) && |rs| == 16 * (|es| + 1) && Encodes(ss, tab, c) && |tab| == fdt.sizeDtStrings
    && BlocksIn(fdt.Mem(), fdt.offMemRsvmap, rs, fdt.offDtStruct, ss, fdt.offDtStrings, tab)
    && fdt.offMemRsvmap + |rs| <= fdt.totalSize && fdt.offDtStruct + |ss| <= fdt.totalSize
  }

  lemma SomeStruct(s: seq<byte>, tab: seq<byte>, c: Cst)
    requires Encodes(s, tab, c)
    ensures |s| >= 4
  {
    hide EncAll, Toks, Named;
    assert 4 * |[] + Toks(c) + [End]| <= |EncAll([] + Toks(c) + [End])|;
  }

  /** The blocks are in order already: the blob is copied as it is. */
  method OpenMoved(fdt: Fdt, out: Fdt, bufsize: nat, rsvSize: nat, structSize: nat,
                   ghost es: seq<Entry>, ghost c: Cst, ghost rs: seq<byte>, ghost ss: seq<byte>, ghost tab: seq<byte>)
    returns (err: int)
    requires Source(fdt, es, c, rs, ss, tab) && fdt != out && fdt.buf != out.buf && bufsize <= out.buf.Length < 0x8000_0000
    requires fdt.CheckHeader() == 0 && rsvSize == |rs| && structSize == |ss| && !BlocksMisordered(fdt, rsvSize, structSize)
    modifies out, out.buf
    ensures err == if fdt.totalSize > bufsize then ERR_NOSPACE else 0
    ensures err != 0 ==> unchanged(out) && unchanged(out.buf)
    ensures err == 0 ==> OpenedBlob(out, bufsize, es, c, Den(c, tab), tab) && out.bootCpuidPhys == fdt.bootCpuidPhys
    ensures err == 0 ==> out.CheckHeader() == 0
  {
    hide Fdt.Mem, Fdt.S, Fdt.Strs, Reserves, Whole, Encodes, Den, Lists, BlocksIn;
    ghost var m := fdt.Mem();
    SomeStruct(ss, tab, c);
    err := MoveInto(fdt, out, bufsize);
    if err != 0 {
      return;
    }
    out.version := 17;
    out.sizeDtStruct := structSize;
    out.totalSize := bufsize;
    MovedBlocks(m, out.Mem(), fdt.totalSize, fdt.offMemRsvmap, rs, fdt.offDtStruct, ss, fdt.offDtStrings, tab);
    BlocksHold(out, es, c, rs, ss, tab);
  }

  /** The blocks have to be put in order. */
  method OpenPacked(fdt: Fdt, out: Fdt, bufsize: nat, rsvSize: nat, structSize: nat,
                    ghost es: seq<Entry>, ghost c: Cst, ghost rs: seq<byte>, ghost ss: seq<byte>, ghost tab: seq<byte>)
    returns (err: int)
    requires Source(fdt, es, c, rs, ss, tab) && fdt != out && fdt.buf != out.buf && bufsize <= out.buf.Length < 0x8000_0000
    requires rsvSize == |rs| && structSize == |ss|
    modifies out, out.buf
    ensures err == if RSV_START + |rs| + |ss| + |tab| > bufsize then ERR_NOSPACE else 0
    ensures err != 0 ==> unchanged(out) && unchanged(out.buf)
    ensures err == 0 ==> OpenedBlob(out, bufsize, es, c, Den(c, tab), tab) && out.bootCpuidPhys == fdt.bootCpuidPhys
    ensures err == 0 ==> out.CheckHeader() == 0
  {
    hide Fdt.Mem, Fdt.S, Fdt.Strs, Reserves, Whole, Encodes, Den, Lists;
    var newsize := RSV_START + rsvSize + structSize + fdt.sizeDtStrings;
    if bufsize < newsize {
      return ERR_NOSPACE;
    }
    PackBlocks(fdt, out, rsvSize, structSize);
    out.magic := FDT_MAGIC;
    out.totalSize := bufsize;
    out.version := 17;
    out.lastCompVersion := 16;
    out.bootCpuidPhys := fdt.bootCpuidPhys;
    BlocksHold(out, es, c, rs, ss, tab);
    err := 0;
  }

  /** What fdt_open_into needs: the whole blob where its blocks are in order, however far apart; or
      the blocks one behind the other. */
  ghost function OpenedSize(fdt: Fdt, es: seq<Entry>, c: Cst): nat
    requires fdt.Layout()
    reads fdt, fdt.buf
  {
    var rsvSize, structSize := 16 * (|es| + 1), if fdt.version < 17 then Size(Toks(c) + [End]) else fdt.sizeDtStruct;
    if !BlocksMisordered(fdt, rsvSize, structSize) then fdt.totalSize
    else RSV_START + rsvSize + structSize + |fdt.Strs()|
  }

  /** fdt_open_into, from one memory into another: whatever the order of the blocks was. */
  method OpenInto(fdt: Fdt, out: Fdt, bufsize: nat, ghost es: seq<Entry>, ghost c: Cst) returns (err: int)
    requires Holds(fdt, es, c) && fdt != out && fdt.buf != out.buf && bufsize <= out.buf.Length < 0x8000_0000
    requires fdt.offMemRsvmap + 16 * (|es| + 1) <= fdt.totalSize
    modifies out, out.buf
    ensures fdt.Layout()
    ensures fdt.CheckHeader() != 0 ==> err == fdt.CheckHeader()
    ensures fdt.CheckHeader() == 0 ==> err == if OpenedSize(fdt, es, c) > bufsize then ERR_NOSPACE else 0
    ensures err != 0 ==> unchanged(out) && unchanged(out.buf)
    ensures err == 0 ==> OpenedBlob(out, bufsize, es, c, TreeOf(fdt, c), fdt.Strs())
    ensures err == 0 ==> out.bootCpuidPhys == fdt.bootCpuidPhys && out.CheckHeader() == 0
  {
    hide Fdt.Mem, Fdt.S, Fdt.Strs, Reserves, Whole, Encodes, Den, Lists, EncAll, Toks, Source, OpenedBlob, Fdt.Layout;
    if fdt.CheckHeader() != 0 {
      WholeBytes(fdt, c);
      return fdt.CheckHeader();
    }
    var num := NumMemRsv(fdt, es);
    var rsvSize := (num + 1) * RESERVE_ENTRY_SIZE;
    var structSize: int := fdt.sizeDtStruct;
    if fdt.version < 17 {
      structSize := StructSize(fdt, c);
    }
    ghost var rs, ss, tab := SourceBlocks(fdt, es, c, structSize);
    if !BlocksMisordered(fdt, rsvSize, structSize) {
      err := OpenMoved(fdt, out, bufsize, rsvSize, structSize, es, c, rs, ss, tab);
    } else {
      err := OpenPacked(fdt, out, bufsize, rsvSize, structSize, es, c, rs, ss, tab);
    }
  }

  lemma SourceBlocks(fdt: Fdt, es: seq<Entry>, c: Cst, n: nat) returns (rs: seq<byte>, ss: seq<byte>, tab: seq<byte>)
    requires Holds(fdt, es, c) && fdt.offMemRsvmap + 16 * (|es| + 1) <= fdt.totalSize
    requires if fdt.version < 17 then n == Size(Toks(c) + [End]) else n == fdt.sizeDtStruct
    ensures fdt.Layout() && Source(fdt, es, c, rs, ss, tab)
    ensures |rs| == 16 * (|es| + 1) && |ss| == n <= |fdt.S()| && tab == fdt.Strs()
  {
    hide Fdt.Mem, Fdt.S, Fdt.Strs, Reserves, Whole, Encodes, Den, Lists, EncAll, Toks;
    WholeBytes(fdt, c);
    RsvBytes(fdt, es);
    BlocksOf(fdt);
    var m, s := fdt.Mem(), fdt.S();
    rs, tab := m[fdt.offMemRsvmap..fdt.offMemRsvmap + 16 * (|es| + 1)], fdt.Strs();
    EncodesSize(s, tab, c);
    EncodesPart(s, tab, c, n);
    Slice(m, fdt.offDtStruct, fdt.offDtStruct + fdt.Limit(), 0, n);
    ss := s[..n];
    assert ss == s[0..n];
  }

  lemma EncodesSize(s: seq<byte>, tab: seq<byte>, c: Cst)
    requires Encodes(s, tab, c)
    ensures Size(Toks(c) + [End]) <= |s|
  {
    hide EncAll, Toks, Named;
    assert [] + Toks(c) + [End] == Toks(c) + [End];
  }

  lemma MovedBlocks(m: seq<byte>, m2: seq<byte>, total: nat, rsv: nat, rs: seq<byte>, st: nat, ss: seq<byte>, str: nat, tab: seq<byte>)
    requires total <= |m| && total <= |m2| && m2[..total] == m[..total] && BlocksIn(m, rsv, rs, st, ss, str, tab)
    requires rsv + |rs| <= total && st + |ss| <= total && str + |tab| <= total
    ensures BlocksIn(m2, rsv, rs, st, ss, str, tab)
  {
    assert m2[0..total] == m[0..total];
    SubEqual(m2, 0, m, 0, total, rsv, rsv + |rs|);
    SubEqual(m2, 0, m, 0, total, st, st + |ss|);
    SubEqual(m2, 0, m, 0, total, str, str + |tab|);
  }
}
