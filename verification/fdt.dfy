/** libfdt/fdt.c: the blob in memory, its header checks, and the scans every other part of
    libfdt is built from. */
module FdtBase {
  import opened Bytes
  import opened StructBlock
  import opened Concrete
  import opened Walking

  const FDT_MAGIC: u32 := 0xd00d_feed
  const FDT_SW_MAGIC: u32 := 0x2ff2_0112
  const FIRST_SUPPORTED_VERSION: u32 := 16
  const LAST_SUPPORTED_VERSION: u32 := 17
  const HEADER_SIZE: nat := 40

  const ERR_NOTFOUND: int := -1
  const ERR_EXISTS: int := -2
  const ERR_NOSPACE: int := -3
  const ERR_BADOFFSET: int := -4
  const ERR_BADPATH: int := -5
  const ERR_BADPHANDLE: int := -6
  const ERR_BADSTATE: int := -7
  const ERR_BADMAGIC: int := -9
  const ERR_BADVERSION: int := -10
  const ERR_BADLAYOUT: int := -12
  const ERR_INTERNAL: int := -13
  const ERR_BADOVERLAY: int := -16
  const ERR_NOPHANDLES: int := -17

  /** A flattened tree: the memory that holds it and the fields of its header. */
  class Fdt {
    const buf: array<byte>
    var magic: u32
    var totalSize: nat
    var offDtStruct: nat
    var offDtStrings: nat
    var offMemRsvmap: nat
    var version: u32
    var lastCompVersion: u32
    var bootCpuidPhys: u32
    var sizeDtStrings: nat
    var sizeDtStruct: nat

    constructor (memory: array<byte>)
      ensures buf == memory
    {
      buf := memory;
      magic, version, lastCompVersion, bootCpuidPhys := 0, 0, 0, 0;
      totalSize, offDtStruct, offDtStrings, offMemRsvmap, sizeDtStrings, sizeDtStruct := 0, 0, 0, 0, 0, 0;
    }

    /** How far the structure block may be read; versions before 17 do not record its size. */
    function Limit(): int
      reads this
    {
      if version >= 17 then sizeDtStruct else totalSize - offDtStruct
    }

    /** The header describes blocks that lie in the memory. */
    predicate Layout()
      reads this
    {
      && totalSize <= buf.Length < 0x8000_0000
      && 0 <= Limit() && offDtStruct + Limit() <= totalSize
      && offDtStrings + sizeDtStrings <= totalSize
    }

    /** The whole memory. */
    function Mem(): (m: seq<byte>)
      reads buf
      ensures |m| == buf.Length
    {
      buf[..]
    }

    /** The structure block. */
    function S(): seq<byte>
      requires Layout()
      reads this, buf
    {
      Mem()[offDtStruct..offDtStruct + Limit()]
    }

    /** The strings block. */
    function Strs(): seq<byte>
      requires Layout()
      reads this, buf
    {
      Mem()[offDtStrings..offDtStrings + sizeDtStrings]
    }

    /** The structure block starts with these tokens, and their names are in the strings block. */
    ghost predicate Holds(ts: seq<Token>)
      reads this, buf
    {
      && Layout()
      && EncAll(ts) <= S()
      && Named(ts, Strs())
    }

    /** fdt_offset_ptr returns a pointer (and not NULL). */
    predicate Ptr(off: int, len: nat)
      requires Layout()
      reads this, buf
      ensures Ptr(off, len) <==> InBlock(S(), off, len)
    {
      && 0 <= off
      && offDtStruct + off + len <= totalSize
      && (version >= 17 ==> off + len <= sizeDtStruct)
    }

    /** A cell of the structure block. */
    function U32At(off: nat): (r: u32)
      requires Layout() && InBlock(S(), off, 4)
      reads this, buf
      ensures r == Word(S(), off)
    {
      var a := offDtStruct + off;
      assert S()[off] == buf[a] && S()[off + 1] == buf[a + 1] && S()[off + 2] == buf[a + 2] && S()[off + 3] == buf[a + 3];
      Word(buf[a..a + 4], 0)
    }

    /** fdt_check_header. */
    function CheckHeader(): int
      reads this
    {
      if magic == FDT_MAGIC then
        if version < FIRST_SUPPORTED_VERSION || lastCompVersion > LAST_SUPPORTED_VERSION
        then ERR_BADVERSION else 0
      else if magic == FDT_SW_MAGIC then
        if sizeDtStruct == 0 then ERR_BADSTATE else 0
      else ERR_BADMAGIC
    }
  }

  lemma HoldsLayout(fdt: Fdt, ts: seq<Token>)
    requires fdt.Holds(ts)
    ensures fdt.Layout()
  {
  }

  /** A token list that fdt_next_node cannot run past. */
  predicate Ended(ts: seq<Token>) {
    ts != [] && ts[|ts| - 1] == End
  }

  method NextTag(fdt: Fdt, startOffset: int) returns (tag: u32, nextOffset: int)
    requires fdt.Layout()
    ensures TagResult(tag, nextOffset) == ReadTag(fdt.S(), startOffset)
  {
    var offset := startOffset;
    nextOffset := ERR_TRUNCATED;
    if !fdt.Ptr(offset, 4) {
      return FDT_END, nextOffset;
    }
    tag := fdt.U32At(offset);
    offset := offset + TAGSIZE;
    nextOffset := ERR_BADSTRUCTURE;
    if tag == FDT_BEGIN_NODE {
      ghost var z := NulFrom(fdt.S(), offset);
      var p := true;
      var c: byte := 1;
      while p && c != 0
        invariant startOffset + 4 <= offset
        invariant p && c != 0 ==> offset <= z
        invariant !p ==> z == |fdt.S()|
        invariant p && c == 0 ==> z < |fdt.S()| && offset == z + 1
        decreases p, |fdt.S()| + 1 - offset, c
      {
        p := fdt.Ptr(offset, 1);
        if p {
          assert fdt.S()[offset] == fdt.buf[fdt.offDtStruct + offset];
          c := fdt.buf[fdt.offDtStruct + offset];
        }
        offset := offset + 1;
      }
      if !p {
        return FDT_END, nextOffset;
      }
    } else if tag == FDT_PROP {
      if !fdt.Ptr(offset, 4) {
        return FDT_END, nextOffset;
      }
      var len := fdt.U32At(offset);
      offset := offset + 8 + len;
    } else if tag != FDT_END && tag != FDT_END_NODE && tag != FDT_NOP {
      return FDT_END, nextOffset;
    }
    if !fdt.Ptr(startOffset, offset - startOffset) {
      return FDT_END, nextOffset;
    }
    nextOffset := Align4(offset);
  }

  /** _fdt_check_node_offset as a function of the block. */
  function NodeCheck(s: seq<byte>, offset: int): int {
    if offset < 0 || offset % 4 != 0 || ReadTag(s, offset).tag != FDT_BEGIN_NODE
    then ERR_BADOFFSET else ReadTag(s, offset).next
  }

  function PropCheck(s: seq<byte>, offset: int): int {
    if offset < 0 || offset % 4 != 0 || ReadTag(s, offset).tag != FDT_PROP
    then ERR_BADOFFSET else ReadTag(s, offset).next
  }

  method CheckNodeOffset(fdt: Fdt, offset: int) returns (r: int)
    requires fdt.Layout()
    ensures r == NodeCheck(fdt.S(), offset)
  {
    if offset < 0 || offset % TAGSIZE != 0 {
      return ERR_BADOFFSET;
    }
    var tag, next := NextTag(fdt, offset);
    return if tag != FDT_BEGIN_NODE then ERR_BADOFFSET else next;
  }

  method CheckPropOffset(fdt: Fdt, offset: int) returns (r: int)
    requires fdt.Layout()
    ensures r == PropCheck(fdt.S(), offset)
  {
    if offset < 0 || offset % TAGSIZE != 0 {
      return ERR_BADOFFSET;
    }
    var tag, next := NextTag(fdt, offset);
    return if tag != FDT_PROP then ERR_BADOFFSET else next;
  }

  /** The offset is that of the node whose tokens start `rest`, or one that libfdt rejects. */
  ghost predicate NodeOrBad(fdt: Fdt, offset: int, done: seq<Token>, rest: seq<Token>)
    requires fdt.Layout()
    reads fdt, fdt.buf
  {
    NodeCheck(fdt.S(), offset) < 0 || (rest != [] && rest[0].Begin? && offset == Size(done))
  }

  /** fdt_next_tag at the first token of `rest`. */
  lemma TagHere(fdt: Fdt, done: seq<Token>, rest: seq<Token>)
    requires rest != [] && fdt.Holds(done + rest)
    ensures ReadTag(fdt.S(), Size(done)) == TagResult(Tag(rest[0]), Size(done + [rest[0]]))
    ensures Size(done + [rest[0]]) == Size(done) + |Enc(rest[0])|
    ensures done + rest == (done + [rest[0]]) + rest[1..]
  {
    hide EncAll, Enc, Named, ReadTag;
    assert done + rest == done + [rest[0]] + rest[1..];
    NextTagInBlock(fdt.S(), done, rest[0], rest[1..]);
    TokenInBlock(fdt.S(), done, rest[0], rest[1..]);
  }

  /** The answer of fdt_next_node, for the walk it continues. */
  ghost predicate Answers(s: Step, r: int, depth: int) {
    match s
    case Found(v) => r == v.off && depth == v.depth
    case Left(off) => r == off && depth < 0
    case Over => r == ERR_NOTFOUND
  }

  /** Where fdt_next_node starts scanning: at the very first tag, or after the tag at `offset`. */
  ghost function ScanFrom(offset: int, depth: int, counted: bool, done: seq<Token>, rest: seq<Token>): Step {
    if offset < 0 || rest == [] then Scan(done + rest, 0, depth, counted)
    else Scan(rest[1..], Size(done) + |Enc(rest[0])|, depth, counted)
  }

  /** The loop of fdt_next_node, from the tag at `start`. */
  method NextNodeFrom(fdt: Fdt, start: nat, depth: int, counted: bool, ghost done: seq<Token>, ghost rest: seq<Token>)
    returns (r: int, d: int)
    requires fdt.Holds(done + rest) && Ended(rest) && start == Size(done)
    ensures Answers(Scan(rest, start, depth, counted), r, d)
  {
    hide EncAll, Enc, ReadTag, Named;
    d := depth;
    var next: int := start;
    ghost var a, b := done, rest;
    while true
      invariant a + b == done + rest && Ended(b) && next == Size(a)
      invariant Scan(b, next, d, counted) == Scan(rest, start, depth, counted)
      decreases |b|
    {
      var here := next;
      TagHere(fdt, a, b);
      var tag;
      tag, next := NextTag(fdt, here);
      if tag == FDT_BEGIN_NODE {
        return here, d + 1;
      } else if tag == FDT_END_NODE {
        d := d - 1;
        if counted && d < 0 {
          return next, d;
        }
      } else if tag == FDT_END {
        return ERR_NOTFOUND, d;
      }
      a, b := a + [b[0]], b[1..];
    }
  }

  method NextNode(fdt: Fdt, offset: int, depth: int, counted: bool, ghost done: seq<Token>, ghost rest: seq<Token>)
    returns (r: int, d: int)
    requires fdt.Holds(done + rest) && Ended(rest)
    requires offset >= 0 ==> NodeOrBad(fdt, offset, done, rest)
    ensures offset >= 0 && NodeCheck(fdt.S(), offset) < 0 ==> r == ERR_BADOFFSET && d == depth
    ensures offset < 0 || NodeCheck(fdt.S(), offset) >= 0 ==>
              Answers(ScanFrom(offset, depth, counted, done, rest), r, d)
  {
    hide EncAll, Enc, ReadTag, Named, Scan;
    if offset >= 0 {
      var next := CheckNodeOffset(fdt, offset);
      if next < 0 {
        return next, depth;
      }
      TagHere(fdt, done, rest);
      r, d := NextNodeFrom(fdt, next, depth, counted, done + [rest[0]], rest[1..]);
    } else {
      SizeNil();
      assert [] + (done + rest) == done + rest;
      r, d := NextNodeFrom(fdt, 0, depth, counted, [], done + rest);
    }
  }

  /** One step of a walk: the next visit is at `r`, or the walk is over. */
  ghost predicate Stepped(a: seq<Token>, b: seq<Token>, counted: bool, w: Trail, r: int, d: int,
                          a2: seq<Token>, b2: seq<Token>)
  {
    if w.visits == [] then !w.end.Found? && Answers(w.end, r, d)
    else
      && r == w.visits[0].off && d == w.visits[0].depth && b2 == w.visits[0].rest
      && a2 + b2 == a + b && Ended(b2) && r == Size(a2) && |b2| < |b|
      && Cursor(a2, b2, d, counted, After(w))
  }

  lemma StepFound(a: seq<Token>, b: seq<Token>, depth: int, counted: bool, w: Trail) returns (a2: seq<Token>)
    requires Cursor(a, b, depth, counted, w) && Ended(b)
    requires Scan(b[1..], Size(a) + |Enc(b[0])|, depth, counted).Found?
    ensures var v := Scan(b[1..], Size(a) + |Enc(b[0])|, depth, counted).v;
      && (counted && depth >= 0 ==> v.depth >= 1)
      && w.visits != [] && Stepped(a, b, counted, w, v.off, v.depth, a2, v.rest)
  {
    hide EncAll, Enc, Scan, Walk, Cursor, After;
    CursorBegin(a, b, depth, counted, w);
    a2 := NextVisit(a, b, depth, counted, w);
    if depth >= 0 {
      ScanDepth(b[1..], Size(a) + |Enc(b[0])|, depth);
    }
    EndedSuffix(a2, Scan(b[1..], Size(a) + |Enc(b[0])|, depth, counted).v.rest, a, b);
  }

  lemma StepIs(a: seq<Token>, b: seq<Token>, depth: int, counted: bool, w: Trail, r: int, d: int)
    returns (a2: seq<Token>, b2: seq<Token>)
    requires Cursor(a, b, depth, counted, w) && Ended(b)
    requires Answers(Scan(b[1..], Size(a) + |Enc(b[0])|, depth, counted), r, d)
    ensures Stepped(a, b, counted, w, r, d, a2, b2)
    ensures counted && depth >= 0 && w.visits != [] ==> d >= 1
  {
    hide EncAll, Enc, Scan, Walk, Cursor, After;
    CursorBegin(a, b, depth, counted, w);
    var s := Scan(b[1..], Size(a) + |Enc(b[0])|, depth, counted);
    a2, b2 := a, b;
    if s.Found? {
      a2 := StepFound(a, b, depth, counted, w);
      b2 := s.v.rest;
      assert Answers(s, r, d);
    } else {
      var c := NextVisit(a, b, depth, counted, w);
    }
  }

  lemma EndedSuffix(a2: seq<Token>, b2: seq<Token>, a: seq<Token>, b: seq<Token>)
    requires a2 + b2 == a + b && b2 != [] && Ended(b)
    ensures Ended(b2)
  {
    assert (a2 + b2)[|a2 + b2| - 1] == (a + b)[|a + b| - 1];
  }

  /** fdt_next_node from a visited node: the next visit of the walk, or how the walk ends. */
  method NextNodeOfWalk(fdt: Fdt, offset: nat, depth: int, counted: bool,
                        ghost a: seq<Token>, ghost b: seq<Token>, ghost w: Trail)
    returns (r: int, d: int, ghost a2: seq<Token>, ghost b2: seq<Token>)
    requires fdt.Holds(a + b) && Ended(b) && offset == Size(a)
    requires Cursor(a, b, depth, counted, w)
    ensures Stepped(a, b, counted, w, r, d, a2, b2)
    ensures counted && depth >= 0 && w.visits != [] ==> d >= 1
  {
    hide EncAll, Enc, Scan, Walk, Named, ReadTag, Cursor, Stepped;
    CursorBegin(a, b, depth, counted, w);
    TagHere(fdt, a, b);
    r, d := NextNode(fdt, offset, depth, counted, a, b);
    a2, b2 := StepIs(a, b, depth, counted, w, r, d);
  }
}
