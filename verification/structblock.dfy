/** The structure block as a list of tagged tokens, their bytes, and fdt_next_tag as a function
    of those bytes (Devicetree Specification, section 5.4). */
module StructBlock {
  import opened Bytes

  const FDT_BEGIN_NODE: u32 := 1
  const FDT_END_NODE: u32 := 2
  const FDT_PROP: u32 := 3
  const FDT_NOP: u32 := 4
  const FDT_END: u32 := 9

  const ERR_TRUNCATED: int := -8
  const ERR_BADSTRUCTURE: int := -11

  /** A node or property name: any bytes but NUL. */
  type Name = s: seq<byte> | NoNul(s) witness []

  /** A property value, short enough for its length to be a C int. */
  type Data = s: seq<byte> | |s| < 0x8000_0000 witness []

  /** Bytes that may stand in an alignment gap; as many of them are used as the gap needs. libfdt
      leaves whatever was there, so they carry no meaning but they are part of the block. */
  type Pad = s: seq<byte> | |s| == 3 witness [0, 0, 0]

  datatype Token =
    | Begin(name: Name, pad: Pad)
    | EndNode
    | Prop(nameoff: u32, data: Data, pad: Pad)
    | Nop
    | End

  function Tag(t: Token): (r: u32) {
    match t
    case Begin(_, _) => FDT_BEGIN_NODE
    case EndNode => FDT_END_NODE
    case Prop(_, _, _) => FDT_PROP
    case Nop => FDT_NOP
    case End => FDT_END
  }

  function Padded(d: seq<byte>, pad: Pad): (r: seq<byte>)
    ensures |r| == Align4(|d|)
  {
    d + pad[..Align4(|d|) - |d|]
  }

  /** The bytes of one token. */
  function Enc(t: Token): (r: seq<byte>)
    ensures |r| >= 4 && |r| % 4 == 0
    ensures r[..4] == BE32(Tag(t))
  {
    BE32(Tag(t)) +
    match t
    case Begin(name, pad) => Padded(name + [0], pad)
    case Prop(nameoff, data, pad) => BE32(|data|) + BE32(nameoff) + Padded(data, pad)
    case _ => []
  }

  /** The tags and what follows them, as section 5.4 of the Devicetree Specification has it. */
  lemma TokenBytes(t: Token)
    ensures match t
      case Begin(name, pad) => [0, 0, 0, 1] + name + [0] <= Enc(t) && |Enc(t)| == Align4(4 + |name| + 1)
      case EndNode => Enc(t) == [0, 0, 0, 2]
      case Prop(nameoff, data, pad) =>
        [0, 0, 0, 3] + BE32(|data|) + BE32(nameoff) + data <= Enc(t) && |Enc(t)| == Align4(12 + |data|)
      case Nop => Enc(t) == [0, 0, 0, 4]
      case End => Enc(t) == [0, 0, 0, 9]
  {
    hide BE32, Enc;
    SmallNumbers();
    match t
    case Begin(name, pad) =>
      BeginStarts(name, pad);
    case Prop(nameoff, data, pad) =>
      PropStarts(nameoff, data, pad);
    case _ =>
      BareTag(t);
  }

  lemma SmallNumbers()
    ensures BE32(1) == [0, 0, 0, 1] && BE32(2) == [0, 0, 0, 2] && BE32(3) == [0, 0, 0, 3] && BE32(4) == [0, 0, 0, 4] && BE32(9) == [0, 0, 0, 9]
  {
  }

  lemma BeginStarts(name: Name, pad: Pad)
    ensures var r := Enc(Begin(name, pad)); BE32(1) + name + [0] <= r && |r| == Align4(4 + |name| + 1)
  {
    hide BE32;
    Align4Shift(4, |name| + 1);
    assert Enc(Begin(name, pad)) == BE32(1) + name + [0] + pad[..Align4(|name + [0]|) - |name + [0]|];
  }

  lemma PropStarts(nameoff: u32, data: Data, pad: Pad)
    ensures var r := Enc(Prop(nameoff, data, pad)); BE32(3) + BE32(|data|) + BE32(nameoff) + data <= r && |r| == Align4(12 + |data|)
  {
    hide BE32;
    Align4Shift(12, |data|);
    assert Enc(Prop(nameoff, data, pad)) == BE32(3) + BE32(|data|) + BE32(nameoff) + data + pad[..Align4(|data|) - |data|];
  }

  lemma BareTag(t: Token)
    requires t.EndNode? || t.Nop? || t.End?
    ensures Enc(t) == BE32(Tag(t)) && |Enc(t)| == 4
  {
  }

  function EncAll(ts: seq<Token>): (r: seq<byte>)
    ensures |r| % 4 == 0
    ensures 4 * |ts| <= |r|
  {
    hide Enc;
    if ts == [] then [] else
    var first, rest := Enc(ts[0]), EncAll(ts[1..]);
    FourTimes(|first|, |rest|);
    first + rest
  }

  lemma FourTimes(a: nat, b: nat)
    requires a % 4 == 0 && b % 4 == 0
    ensures (a + b) % 4 == 0
  {
  }

  /** Length in bytes of a run of tokens. */
  function Size(ts: seq<Token>): (r: nat)
    ensures r % 4 == 0
    ensures 4 * |ts| <= r
  {
    |EncAll(ts)|
  }

  lemma {:induction false} EncAllConcat(a: seq<Token>, b: seq<Token>)
    ensures EncAll(a + b) == EncAll(a) + EncAll(b)
    ensures Size(a + b) == Size(a) + Size(b)
  {
    if a == [] {
      assert a + b == b;
    } else {
      calc {
        EncAll(a + b);
        { assert (a + b)[1..] == a[1..] + b; }
        Enc(a[0]) + EncAll(a[1..] + b);
        { EncAllConcat(a[1..], b); }
        Enc(a[0]) + (EncAll(a[1..]) + EncAll(b));
        (Enc(a[0]) + EncAll(a[1..])) + EncAll(b);
        EncAll(a) + EncAll(b);
      }
    }
  }

  lemma SizeNil()
    ensures EncAll([]) == [] && Size([]) == 0
  {
  }

  lemma EncOne(t: Token)
    ensures EncAll([t]) == Enc(t)
  {
    assert [t][1..] == [];
  }

  /** The three parts of a run of tokens, as bytes. */
  lemma EncAll3(a: seq<Token>, b: seq<Token>, c: seq<Token>)
    ensures EncAll(a + b + c) == EncAll(a) + EncAll(b) + EncAll(c)
    ensures Size(a + b + c) == Size(a) + Size(b) + Size(c)
  {
    EncAllConcat(a + b, c);
    EncAllConcat(a, b);
  }

  // ---- fdt_next_tag ----------------------------------------------------------------------

  datatype TagResult = TagResult(tag: u32, next: int)

  /** fdt_offset_ptr: `len` bytes at `off` lie inside the structure block `s`. */
  predicate InBlock(s: seq<byte>, off: int, len: nat) {
    0 <= off && off + len <= |s|
  }

  /** What fdt_next_tag answers on the structure block `s`, whatever its bytes are. */
  function ReadTag(s: seq<byte>, off: int): (r: TagResult)
    ensures r.next < 0 ==> r.tag == FDT_END
    ensures r.next >= 0 ==> r.next > off && InBlock(s, off, 4)
  {
    if !InBlock(s, off, 4) then TagResult(FDT_END, ERR_TRUNCATED)
    else
      var tag := Word(s, off);
      if tag == FDT_BEGIN_NODE then
        var z := NulFrom(s, off + 4);
        if z == |s| then TagResult(FDT_END, ERR_BADSTRUCTURE)
        else TagResult(tag, Align4(z + 1))
      else if tag == FDT_PROP then
        if !InBlock(s, off + 4, 4) then TagResult(FDT_END, ERR_BADSTRUCTURE)
        else
          var len := Word(s, off + 4);
          if !InBlock(s, off, 12 + len) then TagResult(FDT_END, ERR_BADSTRUCTURE)
          else TagResult(tag, Align4(off + 12 + len))
      else if tag == FDT_END_NODE || tag == FDT_NOP || tag == FDT_END then
        TagResult(tag, Align4(off + 4))
      else TagResult(FDT_END, ERR_BADSTRUCTURE)
  }

  /** Field by field, the bytes of a property token (struct fdt_property). */
  lemma EncProp(nameoff: u32, data: Data, pad: Pad)
    ensures var e := Enc(Prop(nameoff, data, pad));
      && |e| == 12 + Align4(|data|)
      && e[..4] == BE32(FDT_PROP) && e[4..8] == BE32(|data|) && e[8..12] == BE32(nameoff)
      && e[12..] == Padded(data, pad) && e[12..12 + |data|] == data
  {
    var a, b, c, d := BE32(FDT_PROP), BE32(|data|), BE32(nameoff), Padded(data, pad);
    var e := Enc(Prop(nameoff, data, pad));
    assert e == a + (b + c + d);
    assert e[4..] == b + c + d;
    assert (b + c + d)[..4] == b && (b + c + d)[4..8] == c && (b + c + d)[8..] == d;
    assert e[4..8] == e[4..][..4] && e[8..12] == e[4..][4..8] && e[12..] == e[4..][8..];
    assert e[12..12 + |data|] == d[..|data|];
  }

  /** The fields of a property token that stands inside a block. */
  lemma PropInBlock(s: seq<byte>, o: nat, nameoff: u32, data: Data, pad: Pad)
    requires InBlock(s, o, |Enc(Prop(nameoff, data, pad))|)
    requires s[o..o + |Enc(Prop(nameoff, data, pad))|] == Enc(Prop(nameoff, data, pad))
    ensures InBlock(s, o, 12 + |data|)
    ensures Word(s, o + 4) == |data| && Word(s, o + 8) == nameoff
    ensures s[o + 12..o + 12 + |data|] == data
  {
    EncProp(nameoff, data, pad);
    var n := |Enc(Prop(nameoff, data, pad))|;
    hide Enc, Word;
    Slice(s, o, o + n, 4, 8);
    Slice(s, o, o + n, 8, 12);
    Slice(s, o, o + n, 12, 12 + |data|);
    WordAt(s, o + 4, |data|);
    WordAt(s, o + 8, nameoff);
  }

  lemma NextTagBegin(s: seq<byte>, o: nat, name: Name, pad: Pad)
    requires o % 4 == 0
    requires o + 4 + Align4(|name| + 1) <= |s|
    requires s[o..o + 4] == BE32(FDT_BEGIN_NODE)
    requires s[o + 4..o + 4 + Align4(|name| + 1)] == Padded(name + [0], pad)
    ensures ReadTag(s, o) == TagResult(FDT_BEGIN_NODE, o + 4 + Align4(|name| + 1))
  {
    WordAt(s, o, FDT_BEGIN_NODE);
    var p := s[o + 4..o + 4 + Align4(|name| + 1)];
    assert p[..|name| + 1] == name + [0];
    assert forall i :: 0 <= i <= |name| ==> s[o + 4 + i] == p[i] == (name + [0])[i];
    NulFromUnique(s, o + 4, o + 4 + |name|);
    Align4Shift(o + 4, |name| + 1);
  }

  lemma NextTagProp(s: seq<byte>, o: nat, len: u32)
    requires o % 4 == 0
    requires o + 12 + Align4(len) <= |s|
    requires s[o..o + 4] == BE32(FDT_PROP)
    requires s[o + 4..o + 8] == BE32(len)
    ensures ReadTag(s, o) == TagResult(FDT_PROP, o + 12 + Align4(len))
  {
    WordAt(s, o, FDT_PROP);
    WordAt(s, o + 4, len);
    Align4Shift(o + 12, len);
  }

  lemma NextTagBare(s: seq<byte>, o: nat, tag: u32)
    requires o % 4 == 0 && o + 4 <= |s| && s[o..o + 4] == BE32(tag)
    requires tag == FDT_END_NODE || tag == FDT_NOP || tag == FDT_END
    ensures ReadTag(s, o) == TagResult(tag, o + 4)
  {
    WordAt(s, o, tag);
    hide BE32, Word;
  }

  /** At the start of a token fdt_next_tag reads that token and steps to the next one. */
  lemma NextTagAt(s: seq<byte>, o: nat, t: Token)
    requires o % 4 == 0 && o + |Enc(t)| <= |s|
    requires s[o..o + |Enc(t)|] == Enc(t)
    ensures ReadTag(s, o) == TagResult(Tag(t), o + |Enc(t)|)
  {
    hide ReadTag, BE32, Word;
    var n := |Enc(t)|;
    Slice(s, o, o + n, 0, 4);
    match t {
      case Begin(name, pad) =>
        Slice(s, o, o + n, 4, n);
        NextTagBegin(s, o, name, pad);
      case Prop(nameoff, data, pad) =>
        EncProp(nameoff, data, pad);
        Slice(s, o, o + n, 4, 8);
        NextTagProp(s, o, |data|);
      case _ =>
        BareTag(t);
        NextTagBare(s, o, Tag(t));
    }
  }

  /** Where a token of a whole block stands. */
  lemma TokenInBlock(s: seq<byte>, done: seq<Token>, t: Token, after: seq<Token>)
    requires EncAll(done + [t] + after) <= s
    ensures InBlock(s, Size(done), |Enc(t)|)
    ensures s[Size(done)..Size(done) + |Enc(t)|] == Enc(t)
    ensures Size(done + [t]) == Size(done) + |Enc(t)|
  {
    EncAll3(done, [t], after);
    EncAllConcat(done, [t]);
    EncOne(t);
    var d, e := EncAll(done), Enc(t);
    assert (d + e + EncAll(after))[|d|..|d| + |e|] == e;
  }

  /** fdt_next_tag at a token of a whole block. */
  lemma NextTagInBlock(s: seq<byte>, done: seq<Token>, t: Token, after: seq<Token>)
    requires EncAll(done + [t] + after) <= s
    ensures ReadTag(s, Size(done)) == TagResult(Tag(t), Size(done + [t]))
  {
    TokenInBlock(s, done, t, after);
    NextTagAt(s, Size(done), t);
  }
}
