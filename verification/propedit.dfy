/** The bytes of one property while it is being written: what the splice and the stores of
    fdt_rw.c leave in the structure block. */
module PropEdit {
  import opened Bytes
  import opened StructBlock
  import opened BlockEdit

  lemma OverKeeps(s: seq<byte>, s2: seq<byte>, o: nat, d: seq<byte>, a: nat, b: nat)
    requires Overwritten(s, s2, o, d) && a <= b <= |s| && (b <= o || o + |d| <= a)
    ensures |s2| == |s| && s2[a..b] == s[a..b]
  {
    if b <= o {
      assert s2[0..o] == s[0..o];
      SubEqual(s2, 0, s, 0, o, a, b);
    } else {
      var q := o + |d|;
      assert s2[q..] == s[q..];
      SubEqualTail(s2, q, s, q, a - q, b - q);
    }
  }

  lemma OverHere(s: seq<byte>, s2: seq<byte>, o: nat, d: seq<byte>)
    requires Overwritten(s, s2, o, d)
    ensures |s2| == |s| && s2[o..o + |d|] == d
    ensures s2[..o] == s[..o] && s2[o + |d|..] == s[o + |d|..]
  {
  }

  lemma RespliceBefore(s: seq<byte>, s2: seq<byte>, o: nat, oldLen: nat, newLen: nat, a: nat, b: nat)
    requires Respliced(s, s2, o, oldLen, newLen) && a <= b <= o
    ensures s2[a..b] == s[a..b]
  {
    assert s2[0..o] == s[0..o];
    SubEqual(s2, 0, s, 0, o, a, b);
  }

  /** `s2` is `s` with `oldSize` bytes at `o` replaced by room for a property of `len` bytes whose
      header is already written. */
  predicate Opened(s: seq<byte>, s2: seq<byte>, o: nat, oldSize: nat, nameoff: u32, len: u32) {
    && o + oldSize <= |s| && |s2| == |s| - oldSize + 12 + Align4(len)
    && s2[..o] == s[..o]
    && s2[o..o + 4] == BE32(FDT_PROP) && s2[o + 4..o + 8] == BE32(len) && s2[o + 8..o + 12] == BE32(nameoff)
    && s2[o + 12 + Align4(len)..] == s[o + oldSize..]
  }

  /** The gap bytes as the pad of a token. */
  function PadOf(gap: seq<byte>): Pad
    requires |gap| <= 3
  {
    gap + [0, 0, 0][..3 - |gap|]
  }

  /** The stretch of the block that a property takes is the encoding of its token. */
  lemma PropBytes(e: seq<byte>, nameoff: u32, data: Data) returns (pad: Pad)
    requires |e| == 12 + Align4(|data|)
    requires e[..4] == BE32(FDT_PROP) && e[4..8] == BE32(|data|) && e[8..12] == BE32(nameoff)
    requires e[12..12 + |data|] == data
    ensures e == Enc(Prop(nameoff, data, pad))
  {
    var gap := e[12 + |data|..];
    pad := PadOf(gap);
    assert Padded(data, pad) == data + gap;
    assert e == e[..4] + (e[4..8] + e[8..12] + (e[12..12 + |data|] + gap));
  }

  /** Storing the value completes the property. */
  lemma FillProp(s: seq<byte>, s2: seq<byte>, s3: seq<byte>, o: nat, oldSize: nat, nameoff: u32, data: Data) returns (pad: Pad)
    requires Opened(s, s2, o, oldSize, nameoff, |data|)
    requires |s3| == |s2| && s3[..o + 12] == s2[..o + 12]
    requires s3[o + 12 + Align4(|data|)..] == s2[o + 12 + Align4(|data|)..]
    requires s3[o + 12..o + 12 + |data|] == data
    ensures s3 == s[..o] + Enc(Prop(nameoff, data, pad)) + s[o + oldSize..]
  {
    Align4Up(|data|);
    var n := 12 + Align4(|data|);
    var e := s3[o..o + n];
    hide BE32, Enc, Align4;
    HeadStays(s2, s3, o, n, |data|);
    pad := PropBytes(e, nameoff, data);
    hide Opened;
    assert s3[o + n..] == s[o + oldSize..] && s3[..o] == s[..o];
    CutThree(s3, o, n);
  }

  /** The header of a property, and what stands before it, after the value has been stored. */
  lemma HeadStays(s2: seq<byte>, s3: seq<byte>, o: nat, n: nat, len: nat)
    requires 12 + len <= n && o + n <= |s2| == |s3| && s3[..o + 12] == s2[..o + 12]
    ensures var e := s3[o..o + n];
      && s3[..o] == s2[..o] && e[..4] == s2[o..o + 4] && e[4..8] == s2[o + 4..o + 8] && e[8..12] == s2[o + 8..o + 12]
      && e[12..12 + len] == s3[o + 12..o + 12 + len]
  {
    assert s3[..o] == s3[..o + 12][..o] && s2[..o] == s2[..o + 12][..o];
    HeadCell(s2, s3, o, n, 0);
    HeadCell(s2, s3, o, n, 4);
    HeadCell(s2, s3, o, n, 8);
    assert s3[o..o + n][..4] == s3[o..o + n][0..4];
    Slice(s3, o, o + n, 12, 12 + len);
  }

  lemma HeadCell(s2: seq<byte>, s3: seq<byte>, o: nat, n: nat, a: nat)
    requires a + 4 <= 12 <= n && o + n <= |s2| == |s3| && s3[..o + 12] == s2[..o + 12]
    ensures s3[o..o + n][a..a + 4] == s2[o + a..o + a + 4]
  {
    assert s3[0..0 + o + 12] == s3[..o + 12] && s2[0..0 + o + 12] == s2[..o + 12];
    SubEqual(s3, 0, s2, 0, o + 12, o + a, o + a + 4);
    Slice(s3, o, o + n, a, a + 4);
  }

  lemma CutThree(s: seq<byte>, o: nat, n: nat)
    requires o + n <= |s|
    ensures s == s[..o] + s[o..o + n] + s[o + n..]
  {
  }

  /** Growing or shrinking the value of an existing property. */
  lemma ResizeOpens(s: seq<byte>, s1: seq<byte>, s2: seq<byte>, o: nat, oldLen: u32, nameoff: u32, len: u32)
    requires o + 12 + Align4(oldLen) <= |s|
    requires s[o..o + 4] == BE32(FDT_PROP) && s[o + 8..o + 12] == BE32(nameoff)
    requires Respliced(s, s1, o + 12, Align4(oldLen), Align4(len))
    requires Overwritten(s1, s2, o + 4, BE32(len))
    ensures Opened(s, s2, o, 12 + Align4(oldLen), nameoff, len)
    ensures oldLen <= len ==> s2[o + 12..o + 12 + oldLen] == s[o + 12..o + 12 + oldLen]
  {
    hide Align4, BE32;
    var A, B := Align4(oldLen), Align4(len);
    RespliceBefore(s, s1, o + 12, A, B, 0, o);
    RespliceBefore(s, s1, o + 12, A, B, o, o + 4);
    RespliceBefore(s, s1, o + 12, A, B, o + 8, o + 12);
    OverHere(s1, s2, o + 4, BE32(len));
    OverKeeps(s1, s2, o + 4, BE32(len), 0, o);
    OverKeeps(s1, s2, o + 4, BE32(len), o, o + 4);
    OverKeeps(s1, s2, o + 4, BE32(len), o + 8, o + 12);
    OverKeeps(s1, s2, o + 4, BE32(len), o + 12 + B, |s1|);
    if oldLen <= len {
      Align4Mono(oldLen, len);
      SubEqual(s1, o + 12, s, o + 12, A, 0, oldLen);
      OverKeeps(s1, s2, o + 4, BE32(len), o + 12, o + 12 + oldLen);
    }
  }

  lemma Align4Mono(a: nat, b: nat)
    requires a <= b
    ensures Align4(a) <= Align4(b)
  {
  }

  /** Making room for a new property and writing its header. */
  lemma AddOpens(s: seq<byte>, s1: seq<byte>, s2: seq<byte>, s3: seq<byte>, s4: seq<byte>, o: nat, nameoff: u32, len: u32)
    requires o <= |s| && Respliced(s, s1, o, 0, 12 + Align4(len))
    requires Overwritten(s1, s2, o, BE32(FDT_PROP))
    requires Overwritten(s2, s3, o + 8, BE32(nameoff))
    requires Overwritten(s3, s4, o + 4, BE32(len))
    ensures Opened(s, s4, o, 0, nameoff, len)
  {
    hide Align4, BE32;
    var t, x, l := BE32(FDT_PROP), BE32(nameoff), BE32(len);
    var n := o + 12 + Align4(len);
    OverHere(s1, s2, o, t);
    OverHere(s2, s3, o + 8, x);
    OverHere(s3, s4, o + 4, l);
    OverKeeps(s1, s2, o, t, 0, o);
    OverKeeps(s2, s3, o + 8, x, 0, o);
    OverKeeps(s3, s4, o + 4, l, 0, o);
    OverKeeps(s2, s3, o + 8, x, o, o + 4);
    OverKeeps(s3, s4, o + 4, l, o, o + 4);
    OverKeeps(s3, s4, o + 4, l, o + 8, o + 12);
    OverKeeps(s1, s2, o, t, n, |s1|);
    OverKeeps(s2, s3, o + 8, x, n, |s1|);
    OverKeeps(s3, s4, o + 4, l, n, |s1|);
    assert s4[0..o] == s1[0..o] && s4[n..|s4|] == s1[n..|s1|];
    assert s4[..o] == s4[0..o] && s1[..o] == s1[0..o] && s4[n..] == s4[n..|s4|] && s1[n..] == s1[n..|s1|];
  }

  /** The stretch of the block that a BEGIN_NODE takes is the encoding of its token. */
  lemma BeginBytes(e: seq<byte>, name: Name) returns (pad: Pad)
    requires |e| == 4 + Align4(|name| + 1)
    requires e[..4] == BE32(FDT_BEGIN_NODE) && e[4..4 + |name| + 1] == name + [0]
    ensures e == Enc(Begin(name, pad))
  {
    var gap := e[4 + |name| + 1..];
    pad := PadOf(gap);
    assert Padded(name + [0], pad) == name + [0] + gap;
    assert e == e[..4] + (e[4..4 + |name| + 1] + gap);
  }

  /** The name of a node resized and overwritten. */
  lemma Renamed(s: seq<byte>, s1: seq<byte>, s2: seq<byte>, o: nat, was: Name, name: Name) returns (pad: Pad)
    requires o + 4 + Align4(|was| + 1) <= |s| && s[o..o + 4] == BE32(FDT_BEGIN_NODE)
    requires Respliced(s, s1, o + 4, Align4(|was| + 1), Align4(|name| + 1))
    requires Overwritten(s1, s2, o + 4, name + [0])
    ensures s2 == s[..o] + Enc(Begin(name, pad)) + s[o + 4 + Align4(|was| + 1)..]
  {
    Align4Up(|name| + 1);
    ResplicedTail(s, s1, o + 4, Align4(|was| + 1), Align4(|name| + 1));
    hide Enc, Align4, BE32, Overwritten, Respliced;
    var A, B, d := Align4(|was| + 1), Align4(|name| + 1), name + [0];
    var n := o + 4 + B;
    RespliceBefore(s, s1, o + 4, A, B, 0, o);
    RespliceBefore(s, s1, o + 4, A, B, o, o + 4);
    OverHere(s1, s2, o + 4, d);
    OverKeeps(s1, s2, o + 4, d, 0, o);
    OverKeeps(s1, s2, o + 4, d, o, o + 4);
    OverKeeps(s1, s2, o + 4, d, n, |s1|);
    var e := s2[o..n];
    Slice(s2, o, n, 0, 4);
    Slice(s2, o, n, 4, 4 + |d|);
    assert e[..4] == e[0..4];
    pad := BeginBytes(e, name);
    assert s2[..o] == s2[0..o] && s[..o] == s[0..o] && s2[n..] == s2[n..|s2|] && s1[n..] == s1[n..|s1|];
    assert o + B + 4 == n && s2[o..o + (n - o)] == e;
    CutThree(s2, o, n - o);
  }

  lemma ResplicedTail(s: seq<byte>, s1: seq<byte>, o: nat, a: nat, b: nat)
    requires Respliced(s, s1, o, a, b)
    ensures |s1| == |s| - a + b && o + a <= |s| && s1[o + b..] == s[o + a..]
  {
  }

  lemma OverTwice(s: seq<byte>, s1: seq<byte>, s2: seq<byte>, o: nat, d: seq<byte>, e: seq<byte>)
    requires Overwritten(s, s1, o, d) && Overwritten(s1, s2, o + |d|, e)
    ensures Overwritten(s, s2, o, d + e)
  {
    var q := o + |d| + |e|;
    assert s1[..o + |d|] == s[..o] + d;
    assert s1[o + |d|..] == s[o + |d|..];
    assert s1[q..] == s[q..] by {
      SubEqualTail(s1, o + |d|, s, o + |d|, |e|, |s| - (o + |d|));
    }
    assert s2 == (s[..o] + d) + e + s[q..];
  }

  lemma OverInside(s: seq<byte>, s1: seq<byte>, s2: seq<byte>, o: nat, d: seq<byte>, k: nat, e: seq<byte>)
    requires Overwritten(s, s1, o, d) && k + |e| <= |d| && Overwritten(s1, s2, o + k, e)
    ensures Overwritten(s, s2, o, d[..k] + e + d[k + |e|..])
  {
    assert s1[..o + k] == s[..o] + d[..k];
    assert s1[o + k + |e|..] == d[k + |e|..] + s[o + |d|..];
    assert s2 == s[..o] + (d[..k] + e + d[k + |e|..]) + s[o + |d|..];
  }

  function Zeros(n: nat): (r: seq<byte>)
    ensures |r| == n
  {
    seq(n, _ => 0)
  }

  /** The bytes of an empty node with a zero-filled gap. */
  lemma EmptyNodeBytes(name: Name)
    ensures var A := Align4(|name| + 1);
      EncAll([Begin(name, [0, 0, 0]), EndNode]) ==
        BE32(FDT_BEGIN_NODE) + (name + Zeros(A)[|name|..]) + BE32(FDT_END_NODE)
  {
    var A, b := Align4(|name| + 1), Begin(name, [0, 0, 0]);
    assert [b, EndNode] == [b] + [EndNode];
    EncAllConcat([b], [EndNode]);
    EncOne(b);
    EncOne(EndNode);
    BareTag(EndNode);
    assert Padded(name + [0], [0, 0, 0]) == name + Zeros(A)[|name|..];
  }

  /** An empty node stored into the room made for it. */
  lemma NodeStored(s: seq<byte>, s1: seq<byte>, s2: seq<byte>, s3: seq<byte>, s4: seq<byte>, s5: seq<byte>, o: nat, name: Name)
    requires o <= |s| && Respliced(s, s1, o, 0, 8 + Align4(|name| + 1))
    requires Overwritten(s1, s2, o, BE32(FDT_BEGIN_NODE))
    requires Overwritten(s2, s3, o + 4, Zeros(Align4(|name| + 1)))
    requires Overwritten(s3, s4, o + 4, name)
    requires Overwritten(s4, s5, o + 4 + Align4(|name| + 1), BE32(FDT_END_NODE))
    ensures s5 == s[..o] + EncAll([Begin(name, [0, 0, 0]), EndNode]) + s[o..]
  {
    hide EncAll, BE32, Align4, Overwritten;
    var A, b, e := Align4(|name| + 1), BE32(FDT_BEGIN_NODE), BE32(FDT_END_NODE);
    var z := Zeros(A);
    EmptyNodeBytes(name);
    OverTwice(s1, s2, s3, o, b, z);
    OverInside(s1, s3, s4, o, b + z, 4, name);
    var d := b + (name + z[|name|..]);
    assert (b + z)[..4] + name + (b + z)[4 + |name|..] == d;
    OverTwice(s1, s4, s5, o, d, e);
    OverHere(s1, s5, o, d + e);
    assert s5 == s5[..o] + (d + e) + s5[o + |d + e|..];
  }
}
