/** dtc's flattree.c: dt_to_blob. The header, the reservation map, the structure block, the strings and the
    padding that the user has asked for, and where the header says that they are. */
module DtBlob {
  import opened Bytes
  import opened StructBlock
  import opened Concrete
  import opened FdtBase
  import opened BlockEdit
  import opened PropEdit
  import opened Paths
  import opened MemRsv
  import F = Flattree
  import IO = FlatIo
  import FL = FlatLink
  import L = Livetree
  import T = Tree

  // ---- versions ----------------------------------------------------------------------------------------

  datatype Version = V1 | V2 | V3 | V16 | V17

  function Number(v: Version): u32 {
    match v case V1 => 1 case V2 => 2 case V3 => 3 case V16 => 16 case V17 => 17
  }

  function LastComp(v: Version): u32 {
    if v.V16? || v.V17? then 16 else 1
  }

  function HeaderSize(v: Version): nat {
    match v case V1 => 28 case V2 => 32 case V3 => 36 case V16 => 36 case V17 => 40
  }

  /** FTF_FULLPATH, FTF_VARALIGN and FTF_NAMEPROPS go together. */
  predicate Old(v: Version) {
    v.V1? || v.V2? || v.V3?
  }

  predicate HasCpu(v: Version) { !v.V1? }
  predicate HasStringsSize(v: Version) { v.V3? || v.V16? || v.V17? }
  predicate HasStructSize(v: Version) { v.V17? }

  // ---- sizes ----------------------------------------------------------------------------------------------

  datatype Padding = Padding(minSize: int, padSize: int, alignSize: nat)

  predicate PowerOfTwo(n: nat) {
    n == 1 || (n > 1 && n % 2 == 0 && PowerOfTwo(n / 2))
  }

  /** The multiple that the user may ask for; ALIGN masks bits, which rounds up to powers of two only. */
  predicate Allowed(p: Padding) {
    p.alignSize == 0 || PowerOfTwo(p.alignSize)
  }

  function AlignUp(n: nat, a: nat): nat
    requires a > 0
  {
    (n + a - 1) / a * a
  }

  lemma AlignUpIs(n: nat, a: nat)
    requires a > 0
    ensures n <= AlignUp(n, a) < n + a && AlignUp(n, a) % a == 0
  {
    var q := (n + a - 1) / a;
    assert n + a - 1 == q * a + (n + a - 1) % a;
    Multiple(q, a);
  }

  lemma Multiple(q: nat, a: nat)
    requires a > 0
    ensures q * a % a == 0
  {
    var d, r := q * a / a, q * a % a;
    assert q * a == d * a + r;
    assert (q - d) * a == r;
    AtLeast(q - d, a);
  }

  lemma AtLeast(k: int, a: int)
    requires a >= 0
    ensures k >= 1 ==> k * a >= a
    ensures k <= -1 ==> k * a <= -a
  {
    if k >= 1 {
      assert k * a == (k - 1) * a + a;
    } else if k <= -1 {
      assert k * a == (k + 1) * a - a;
    }
  }

  function RsvAt(v: Version): nat {
    (HeaderSize(v) + 7) / 8 * 8
  }

  /** What the blob takes without padding. */
  function Used(v: Version, entries: nat, dt: nat, str: nat): nat {
    RsvAt(v) + 16 * (entries + 1) + dt + str
  }

  /** The size that the user has asked for: padding, or a least size; then a multiple. */
  function Target(used: nat, p: Padding): nat {
    var base := if p.padSize > 0 then used + p.padSize else if p.minSize > used then p.minSize else used;
    if p.alignSize > 0 then AlignUp(base, p.alignSize) else base
  }

  /** The least size and the multiple are kept; padding comes on top of what is used. */
  lemma TargetIs(used: nat, p: Padding)
    ensures used <= Target(used, p)
    ensures p.padSize <= 0 ==> Target(used, p) >= p.minSize
    ensures p.padSize > 0 ==> Target(used, p) >= used + p.padSize
    ensures p.alignSize > 0 ==> Target(used, p) % p.alignSize == 0
    ensures var least := if p.padSize > 0 then used + p.padSize else if p.minSize > used then p.minSize else used;
      Target(used, p) < least + if p.alignSize > 0 then p.alignSize else 1
  {
    if p.alignSize > 0 {
      AlignUpIs(if p.padSize > 0 then used + p.padSize else if p.minSize > used then p.minSize else used, p.alignSize);
    }
  }

  // ---- the header --------------------------------------------------------------------------------------------

  function BytesOf(ws: seq<u32>): (r: seq<byte>)
    ensures |r| == 4 * |ws|
  {
    if ws == [] then [] else BE32(ws[0]) + BytesOf(ws[1..])
  }

  lemma {:induction false} BytesOfAt(ws: seq<u32>, i: nat)
    requires i < |ws|
    ensures BytesOf(ws)[4 * i..4 * i + 4] == BE32(ws[i])
    decreases i
  {
    hide BE32;
    FourLong(ws[0]);
    var a, b := BE32(ws[0]), BytesOf(ws[1..]);
    if i == 0 {
      assert (a + b)[0..4] == a;
    } else {
      BytesOfAt(ws[1..], i - 1);
      assert (a + b)[4 * i..4 * i + 4] == b[4 * (i - 1)..4 * (i - 1) + 4];
    }
  }

  lemma FourLong(n: u32)
    ensures |BE32(n)| == 4
  {
  }

  const UNSET: u32 := 0xffff_ffff

  /** make_fdt_header, and the total size that dt_to_blob sets. */
  function Header(v: Version, entries: nat, dt: nat, str: nat, cpu: u32, total: u32): (r: seq<u32>)
    requires Used(v, entries, dt, str) < 0x8000_0000
    ensures |r| == 10
  {
    var o := RsvAt(v) + 16 * (entries + 1);
    [FDT_MAGIC, total, o, o + dt, RsvAt(v), Number(v), LastComp(v),
     if HasCpu(v) then cpu else UNSET,
     if HasStringsSize(v) then str else UNSET,
     if HasStructSize(v) then dt else UNSET]
  }

  // ---- the blob --------------------------------------------------------------------------------------------

  function EntryBytes(rs: seq<Entry>): (r: seq<byte>)
    ensures |r| == 16 * |rs|
  {
    if rs == [] then [] else EntryBytes(rs[..|rs| - 1]) + (BE64(rs[|rs| - 1].address) + BE64(rs[|rs| - 1].size))
  }

  function Repeat(e: Entry, n: nat): seq<Entry> {
    seq(n, _ => e)
  }

  const NONE: Entry := Entry(0, 0)

  /** flatten_reserve_list */
  method FlattenReserveList(rs: seq<Entry>, extra: nat, d: IO.Buffer)
    modifies d
    ensures d.bytes == old(d.bytes) + EntryBytes(rs + Repeat(NONE, extra))
  {
    hide BE64;
    assert old(d.bytes) == old(d.bytes) + [];
    assert rs[..0] + Repeat(NONE, 0) == [];
    var i := 0;
    while i < |rs|
      invariant i <= |rs| && d.bytes == old(d.bytes) + EntryBytes(rs[..i])
    {
      assert rs[..i + 1][..i] == rs[..i];
      Assoc(old(d.bytes), EntryBytes(rs[..i]), BE64(rs[i].address) + BE64(rs[i].size));
      d.Append(BE64(rs[i].address) + BE64(rs[i].size));
      i := i + 1;
    }
    assert rs[..i] == rs + Repeat(NONE, 0);
    var j := 0;
    while j < extra
      invariant j <= extra && d.bytes == old(d.bytes) + EntryBytes(rs + Repeat(NONE, j))
    {
      assert (rs + Repeat(NONE, j + 1))[..|rs| + j] == rs + Repeat(NONE, j);
      Assoc(old(d.bytes), EntryBytes(rs + Repeat(NONE, j)), BE64(0) + BE64(0));
      d.Append(BE64(0) + BE64(0));
      j := j + 1;
    }
  }

  lemma Assoc(a: seq<byte>, b: seq<byte>, c: seq<byte>)
    ensures a + b + c == a + (b + c)
  {
  }

  /** A blob as dt_to_blob puts it together. */
  function Blob(v: Version, hdr: seq<byte>, rsv: seq<byte>, dt: seq<byte>, str: seq<byte>, pad: nat): seq<byte>
    requires |hdr| == HeaderSize(v)
  {
    hdr + Zeros(RsvAt(v) - |hdr|) + rsv + Zeros(16) + dt + str + Zeros(pad)
  }

  /** The fields of the header as they stand in the blob. */
  predicate HeaderStands(blob: seq<byte>, ws: seq<u32>, n: nat) {
    n <= |ws| && 4 * n <= |blob| && forall i :: 0 <= i < n ==> blob[4 * i..4 * i + 4] == BE32(ws[i])
  }

  predicate Stands(blob: seq<byte>, o: nat, d: seq<byte>) {
    o + |d| <= |blob| && blob[o..o + |d|] == d
  }

  /** What the header of a blob says is where it says: the fields that the version has, the blocks at their offsets,
      the map with its end, and the size of the whole. */
  ghost predicate Describes(blob: seq<byte>, v: Version, rs: seq<Entry>, dt: seq<byte>, str: seq<byte>, cpu: u32) {
    && Used(v, |rs|, |dt|, |str|) <= |blob| < 0x8000_0000
    && HeaderStands(blob, Header(v, |rs|, |dt|, |str|, cpu, |blob|), HeaderSize(v) / 4)
    && RsvAt(v) % 8 == 0 && HeaderSize(v) <= RsvAt(v)
    && Stands(blob, RsvAt(v), EntryBytes(rs) + Zeros(16))
    && Stands(blob, RsvAt(v) + 16 * (|rs| + 1), dt)
    && Stands(blob, RsvAt(v) + 16 * (|rs| + 1) + |dt|, str)
  }

  /** The header word by word, in numbers: what a reader of the format finds at the offsets of section 5.2 of the
      Devicetree Specification. */
  lemma HeaderSays(blob: seq<byte>, v: Version, rs: seq<Entry>, dt: seq<byte>, str: seq<byte>, cpu: u32)
    requires Describes(blob, v, rs, dt, str, cpu)
    ensures |blob| >= 28 && Word(blob, 0) == 0xd00dfeed && Word(blob, 4) == |blob|
    ensures Stands(blob, Word(blob, 8), dt) && Stands(blob, Word(blob, 12), str) && Stands(blob, Word(blob, 16), EntryBytes(rs) + Zeros(16))
    ensures Word(blob, 16) % 8 == 0
    ensures var n, c := Word(blob, 20), Word(blob, 24);
      match v
      case V1 => n == 1 && c == 1 && Word(blob, 16) >= 28
      case V2 => n == 2 && c == 1 && Word(blob, 16) >= 32 && Word(blob, 28) == cpu
      case V3 => n == 3 && c == 1 && Word(blob, 16) >= 36 && Word(blob, 28) == cpu && Word(blob, 32) == |str|
      case V16 => n == 16 && c == 16 && Word(blob, 16) >= 36 && Word(blob, 28) == cpu && Word(blob, 32) == |str|
      case V17 => n == 17 && c == 16 && Word(blob, 16) >= 40 && Word(blob, 28) == cpu && Word(blob, 32) == |str| && Word(blob, 36) == |dt|
  {
    hide Word, BE32, Stands, HeaderStands, EntryBytes;
    var ws, n := Header(v, |rs|, |dt|, |str|, cpu, |blob|), HeaderSize(v) / 4;
    HeaderWord(blob, ws, n, 0);
    HeaderWord(blob, ws, n, 1);
    HeaderWord(blob, ws, n, 2);
    HeaderWord(blob, ws, n, 3);
    HeaderWord(blob, ws, n, 4);
    HeaderWord(blob, ws, n, 5);
    HeaderWord(blob, ws, n, 6);
    if !v.V1? {
      HeaderWord(blob, ws, n, 7);
    }
    if !v.V1? && !v.V2? {
      HeaderWord(blob, ws, n, 8);
    }
    if v.V17? {
      HeaderWord(blob, ws, n, 9);
    }
  }

  lemma HeaderWord(blob: seq<byte>, ws: seq<u32>, n: nat, i: nat)
    requires HeaderStands(blob, ws, n) && i < n
    ensures 4 * i + 4 <= |blob| && Word(blob, 4 * i) == ws[i]
  {
    hide Word, BE32;
    WordAt(blob, 4 * i, ws[i]);
  }

  lemma StandsAt(a: seq<byte>, d: seq<byte>, b: seq<byte>)
    ensures Stands(a + d + b, |a|, d)
  {
  }

  lemma BlobDescribes(v: Version, rs: seq<Entry>, dt: seq<byte>, str: seq<byte>, cpu: u32, pad: nat)
    requires Used(v, |rs|, |dt|, |str|) + pad < 0x8000_0000
    ensures var total := Used(v, |rs|, |dt|, |str|) + pad;
      var hdr := BytesOf(Header(v, |rs|, |dt|, |str|, cpu, total))[..HeaderSize(v)];
      var blob := Blob(v, hdr, EntryBytes(rs), dt, str, pad);
      |blob| == total && Describes(blob, v, rs, dt, str, cpu)
  {
    hide Header, EntryBytes, BytesOf, BE32, Stands, HeaderStands, Zeros;
    var total := Used(v, |rs|, |dt|, |str|) + pad;
    var ws := Header(v, |rs|, |dt|, |str|, cpu, total);
    var hdr := BytesOf(ws)[..HeaderSize(v)];
    Regroup(hdr, Zeros(RsvAt(v) - |hdr|), EntryBytes(rs), Zeros(16), dt, str, Zeros(pad));
    HeaderBytesStand(ws, HeaderSize(v), Blob(v, hdr, EntryBytes(rs), dt, str, pad));
  }

  lemma Regroup(a: seq<byte>, b: seq<byte>, c: seq<byte>, d: seq<byte>, e: seq<byte>, f: seq<byte>, g: seq<byte>)
    ensures var s := a + b + c + d + e + f + g;
      && s[..|a|] == a && Stands(s, |a| + |b|, c + d)
      && Stands(s, |a| + |b| + |c| + |d|, e) && Stands(s, |a| + |b| + |c| + |d| + |e|, f)
  {
    hide Stands;
    var s := a + b + c + d + e + f + g;
    assert s == (a + b) + (c + d) + (e + f + g);
    StandsAt(a + b, c + d, e + f + g);
    assert s == (a + b + c + d) + e + (f + g);
    StandsAt(a + b + c + d, e, f + g);
    StandsAt(a + b + c + d + e, f, g);
  }

  lemma HeaderBytesStand(ws: seq<u32>, n: nat, blob: seq<byte>)
    requires n % 4 == 0 && n <= 4 * |ws| && n <= |blob| && blob[..n] == BytesOf(ws)[..n]
    ensures HeaderStands(blob, ws, n / 4)
  {
    hide BE32, BytesOf;
    forall i | 0 <= i < n / 4
      ensures blob[4 * i..4 * i + 4] == BE32(ws[i])
    {
      HeaderWordStands(ws, n, blob, i);
    }
  }

  lemma HeaderWordStands(ws: seq<u32>, n: nat, blob: seq<byte>, i: nat)
    requires 4 * i + 4 <= n <= 4 * |ws| && n <= |blob| && blob[..n] == BytesOf(ws)[..n]
    ensures blob[4 * i..4 * i + 4] == BE32(ws[i])
  {
    hide BE32, BytesOf;
    BytesOfAt(ws, i);
    assert blob[0..0 + n] == blob[..n] == BytesOf(ws)[..n] == BytesOf(ws)[0..0 + n];
    SubEqual(blob, 0, BytesOf(ws), 0, n, 4 * i, 4 * i + 4);
  }

  /** The padding of dt_to_blob, worked out in its three steps. */
  method PadLength(used: nat, p: Padding) returns (padlen: int)
    requires Allowed(p)
    ensures padlen >= 0 && used + padlen == Target(used, p)
  {
    padlen := 0;
    if p.minSize > 0 {
      padlen := p.minSize - used;
      if padlen < 0 {
        padlen := 0;
      }
    }
    if p.padSize > 0 {
      padlen := p.padSize;
    }
    if p.alignSize > 0 {
      padlen := AlignUp(used + padlen, p.alignSize) - used;
    }
    TargetIs(used, p);
  }

  /** dt_to_blob: for every version and padding, a blob whose header describes it, exactly as long as asked. */
  method DtToBlob(tree: L.LTree, rs: seq<Entry>, extra: nat, cpu: u32, v: Version, p: Padding) returns (blob: seq<byte>)
    requires !tree.deleted && Allowed(p)
    requires var f := F.Flatten(IO.Live(tree), Old(v)); Target(Used(v, |rs| + extra, |f.dt|, |f.str|), p) < 0x8000_0000
    ensures var f := F.Flatten(IO.Live(tree), Old(v));
      && Describes(blob, v, rs + Repeat(NONE, extra), f.dt, f.str, cpu)
      && |blob| == Target(Used(v, |rs| + extra, |f.dt|, |f.str|), p)
  {
    hide F.EmitNode, BE32, Describes, Header, EntryBytes, BytesOf, Target, Blob, RsvAt;
    ghost var f := F.Flatten(IO.Live(tree), Old(v));
    var dtbuf := new IO.Buffer();
    var strbuf := new IO.Buffer();
    var reservebuf := new IO.Buffer();
    IO.FlattenTree(tree, F.ROOT, dtbuf, strbuf, Old(v));
    dtbuf.Append(BE32(FDT_END));
    FlattenReserveList(rs, extra, reservebuf);
    assert dtbuf.bytes == f.dt && strbuf.bytes == f.str;
    ghost var all := rs + Repeat(NONE, extra);
    assert [] + EntryBytes(all) == EntryBytes(all);
    var used := Used(v, |rs| + extra, |dtbuf.bytes|, |strbuf.bytes|);
    TargetIs(used, p);
    var padlen := PadLength(used, p);
    var ws := Header(v, |rs| + extra, |dtbuf.bytes|, |strbuf.bytes|, cpu, used + padlen);
    BlobDescribes(v, all, f.dt, f.str, cpu, padlen);
    blob := Assemble(v, BytesOf(ws)[..HeaderSize(v)], reservebuf.bytes, dtbuf.bytes, strbuf.bytes, padlen);
  }

  /** The pieces of the blob, one behind the other. */
  method Assemble(v: Version, hdr: seq<byte>, rsv: seq<byte>, dt: seq<byte>, str: seq<byte>, padlen: nat) returns (blob: seq<byte>)
    requires |hdr| == HeaderSize(v)
    ensures blob == Blob(v, hdr, rsv, dt, str, padlen)
  {
    hide Zeros;
    var out := new IO.Buffer();
    out.Append(hdr);
    out.AppendAlign(8);
    assert out.bytes == hdr + Zeros(RsvAt(v) - |hdr|);
    out.Append(rsv);
    out.AppendZeroes(16);
    out.Append(dt);
    out.Append(str);
    blob := out.bytes;
    if padlen > 0 {
      out.AppendZeroes(padlen);
      blob := out.bytes;
    } else {
      NoZeros();
    }
  }

  lemma NoZeros()
    ensures Zeros(0) == []
  {
  }

  // ---- what libfdt makes of it ---------------------------------------------------------------------------------

  /** The blob in memory, its header fields read from its first bytes; a field that the version does not have is
      whatever stands there. */
  ghost predicate Loaded(fdt: Fdt, blob: seq<byte>)
    reads fdt, fdt.buf
  {
    && fdt.Mem() == blob && |blob| >= 40
    && fdt.magic == Word(blob, 0) && fdt.totalSize == Word(blob, 4) && fdt.offDtStruct == Word(blob, 8)
    && fdt.offDtStrings == Word(blob, 12) && fdt.offMemRsvmap == Word(blob, 16) && fdt.version == Word(blob, 20)
    && fdt.lastCompVersion == Word(blob, 24) && fdt.bootCpuidPhys == Word(blob, 28)
    && fdt.sizeDtStrings == Word(blob, 32) && fdt.sizeDtStruct == Word(blob, 36)
  }

  lemma FieldIs(blob: seq<byte>, ws: seq<u32>, n: nat, i: nat)
    requires HeaderStands(blob, ws, n) && i < n
    ensures Word(blob, 4 * i) == ws[i]
  {
    WordAt(blob, 4 * i, ws[i]);
  }

  /** The fields that version 16 and 17 have. */
  lemma LoadedFields(fdt: Fdt, blob: seq<byte>, v: Version, rs: seq<Entry>, dt: seq<byte>, str: seq<byte>, cpu: u32)
    requires Loaded(fdt, blob) && Describes(blob, v, rs, dt, str, cpu)
    ensures var o := RsvAt(v) + 16 * (|rs| + 1);
      && fdt.magic == FDT_MAGIC && fdt.totalSize == |blob| && fdt.offDtStruct == o && fdt.offDtStrings == o + |dt|
      && fdt.offMemRsvmap == RsvAt(v) && fdt.version == Number(v) && fdt.lastCompVersion == LastComp(v)
      && (v.V16? || v.V17? ==> fdt.sizeDtStrings == |str| && fdt.bootCpuidPhys == cpu)
      && (v.V17? ==> fdt.sizeDtStruct == |dt|)
  {
    hide Word, BE32, Stands, EntryBytes, HeaderStands;
    var ws, n := Header(v, |rs|, |dt|, |str|, cpu, |blob|), HeaderSize(v) / 4;
    FieldIs(blob, ws, n, 0);
    FieldIs(blob, ws, n, 1);
    FieldIs(blob, ws, n, 2);
    FieldIs(blob, ws, n, 3);
    FieldIs(blob, ws, n, 4);
    FieldIs(blob, ws, n, 5);
    FieldIs(blob, ws, n, 6);
    if v.V16? || v.V17? {
      FieldIs(blob, ws, n, 7);
      FieldIs(blob, ws, n, 8);
    }
    if v.V17? {
      FieldIs(blob, ws, n, 9);
    }
  }

  /** libfdt accepts what dtc writes in versions 16 and 17, and reads the tree that was written; it refuses the
      older versions. */
  lemma LibfdtReads(fdt: Fdt, blob: seq<byte>, v: Version, rs: seq<Entry>, t: T.Tree, cpu: u32) returns (c: Cst)
    requires var f := F.Flatten(t, Old(v)); Loaded(fdt, blob) && Describes(blob, v, rs, f.dt, f.str, cpu)
    ensures fdt.CheckHeader() == if Old(v) then ERR_BADVERSION else 0
    ensures !Old(v) ==> Whole(fdt, c) && TreeOf(fdt, c) == t
    ensures v.V17? ==> Ready(fdt)
  {
    hide F.Flatten, Whole, Den, Loaded, Describes, Fdt.Mem;
    var f := F.Flatten(t, Old(v));
    LoadedFields(fdt, blob, v, rs, f.dt, f.str, cpu);
    DescribedBlocks(blob, v, rs, f.dt, f.str, cpu);
    c := Cst(0, [], [0, 0, 0], [], [], 0);
    if !Old(v) {
      BlocksLoaded(fdt, blob, v, rs, f.dt, f.str);
      c := FL.DtcWritesWhatLibfdtReads(fdt, t);
    }
  }

  lemma DescribedBlocks(blob: seq<byte>, v: Version, rs: seq<Entry>, dt: seq<byte>, str: seq<byte>, cpu: u32)
    requires Describes(blob, v, rs, dt, str, cpu)
    ensures Used(v, |rs|, |dt|, |str|) <= |blob| < 0x8000_0000
    ensures Stands(blob, RsvAt(v) + 16 * (|rs| + 1), dt) && Stands(blob, RsvAt(v) + 16 * (|rs| + 1) + |dt|, str)
    ensures RsvAt(v) >= 32 && (v.V16? || v.V17? ==> RsvAt(v) == 40)
  {
    hide HeaderStands, EntryBytes, Stands;
  }

  lemma BlocksLoaded(fdt: Fdt, blob: seq<byte>, v: Version, rs: seq<Entry>, dt: seq<byte>, str: seq<byte>)
    requires Loaded(fdt, blob) && Used(v, |rs|, |dt|, |str|) <= |blob| < 0x8000_0000 && !Old(v)
    requires Stands(blob, RsvAt(v) + 16 * (|rs| + 1), dt) && Stands(blob, RsvAt(v) + 16 * (|rs| + 1) + |dt|, str)
    requires fdt.totalSize == |blob| && fdt.offDtStruct == RsvAt(v) + 16 * (|rs| + 1) && fdt.offDtStrings == fdt.offDtStruct + |dt|
    requires fdt.version == Number(v) && fdt.sizeDtStrings == |str| && (v.V17? ==> fdt.sizeDtStruct == |dt|)
    ensures fdt.Layout() && dt <= fdt.S() && fdt.Strs() == str
  {
    hide Word, Fdt.Mem;
    LoadedMem(fdt, blob);
    BlocksOf(fdt);
    var o := fdt.offDtStruct;
    Slice(blob, o, o + fdt.Limit(), 0, |dt|);
  }

  /** The map that libfdt finds: the entries, when none of them has size 0. */
  lemma LibfdtReserves(fdt: Fdt, blob: seq<byte>, v: Version, rs: seq<Entry>, extra: nat, dt: seq<byte>, str: seq<byte>, cpu: u32)
    requires Loaded(fdt, blob) && Describes(blob, v, rs + Repeat(NONE, extra), dt, str, cpu)
    requires forall i :: 0 <= i < |rs| ==> rs[i].size != 0
    ensures Reserves(fdt, rs)
  {
    hide BE64, Word, Fdt.Mem, HeaderStands;
    var all := rs + Repeat(NONE, extra);
    LoadedFields(fdt, blob, v, all, dt, str, cpu);
    var o, n := RsvAt(v), 16 * (|rs| + 1);
    var whole := EntryBytes(all) + Zeros(16);
    var b := blob[o..o + n];
    forall i | 0 <= i <= |rs|
      ensures EntryAt(b, 16 * i) == if i < |all| then all[i] else NONE
    {
      EntryInBytes(all, i);
      EntryStands(blob, o, whole, n, 16 * i, if i < |all| then all[i] else NONE);
    }
    LoadedMem(fdt, blob);
  }

  /** An entry in a block that stands in a blob, read out of any stretch that starts there and holds it. */
  lemma EntryStands(blob: seq<byte>, o: nat, d: seq<byte>, n: nat, p: nat, e: Entry)
    requires Stands(blob, o, d) && p + 16 <= |d| && p + 16 <= n && o + n <= |blob|
    requires d[p..p + 16] == BE64(e.address) + BE64(e.size)
    ensures EntryAt(blob[o..o + n], p) == e
  {
    hide EntryAt, BE64;
    var b, bs := blob[o..o + n], BE64(e.address) + BE64(e.size);
    Slice(blob, o, o + |d|, p, p + 16);
    Slice(blob, o, o + n, p, p + 16);
    assert b[p..p + 16] == bs;
    StoredEntry(b, p, e);
  }

  lemma LoadedMem(fdt: Fdt, blob: seq<byte>)
    requires Loaded(fdt, blob)
    ensures fdt.Mem() == blob && fdt.buf.Length == |blob|
  {
  }

  lemma {:induction false} EntryInBytes(rs: seq<Entry>, i: nat)
    requires i <= |rs|
    ensures var e := if i < |rs| then rs[i] else NONE;
      (EntryBytes(rs) + Zeros(16))[16 * i..16 * i + 16] == BE64(e.address) + BE64(e.size)
    decreases |rs|
  {
    hide BE64;
    var s := EntryBytes(rs) + Zeros(16);
    if i == |rs| {
      assert s[16 * i..16 * i + 16] == Zeros(16);
      ZeroEntry();
    } else {
      var n := |rs| - 1;
      var init := rs[..n];
      if i == n {
        assert s[16 * n..16 * n + 16] == BE64(rs[n].address) + BE64(rs[n].size);
      } else {
        EntryInBytes(init, i);
        assert s[16 * i..16 * i + 16] == EntryBytes(init)[16 * i..16 * i + 16];
        assert (EntryBytes(init) + Zeros(16))[16 * i..16 * i + 16] == EntryBytes(init)[16 * i..16 * i + 16];
      }
    }
  }

  lemma ZeroEntry()
    ensures Zeros(16) == BE64(0) + BE64(0)
  {
  }
}
