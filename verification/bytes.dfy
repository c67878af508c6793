/** Bytes, big-endian cells, alignment and NUL-terminated strings: the vocabulary shared by
    every model of the flattened format (Devicetree Specification, chapter 5). */
module Bytes {

  type byte = x: int | 0 <= x < 256
  type u32 = x: int | 0 <= x < 0x1_0000_0000

  const TAGSIZE: nat := 4
  const NO_PHANDLE: u32 := 0xffff_ffff

  // ---- alignment -------------------------------------------------------------------------

  /** FDT_ALIGN(x, 4). */
  function Align4(n: nat): (r: nat)
    ensures n <= r < n + 4 && r % 4 == 0
  {
    (n + 3) / 4 * 4
  }

  lemma Align4Up(n: nat)
    ensures n <= Align4(n)
  {
  }

  lemma Align4Shift(a: nat, n: nat)
    requires a % 4 == 0
    ensures Align4(a + n) == a + Align4(n)
  {
  }

  // ---- cells -----------------------------------------------------------------------------

  /** The four bytes of a cell, most significant first. */
  function BE32(n: u32): (r: seq<byte>)
    ensures |r| == 4
  {
    [n / 0x100_0000, n / 0x1_0000 % 256, n / 0x100 % 256, n % 256]
  }

  function Word(s: seq<byte>, off: nat): (r: u32)
    requires off + 4 <= |s|
  {
    0x100_0000 * (s[off] as int) + 0x1_0000 * (s[off + 1] as int) + 0x100 * (s[off + 2] as int) + s[off + 3]
  }

  lemma WordOfBE32(n: u32)
    ensures Word(BE32(n), 0) == n
  {
    var a, b, c := n / 0x100, n / 0x1_0000, n / 0x100_0000;
    assert n == a * 0x100 + n % 0x100;
    assert a == b * 0x100 + a % 0x100;
    assert b == c * 0x100 + b % 0x100;
  }

  lemma MostSignificantFirst(n: u32)
    ensures var b := BE32(n);
      n == 0x100_0000 * (b[0] as int) + 0x1_0000 * (b[1] as int) + 0x100 * (b[2] as int) + b[3]
  {
    WordOfBE32(n);
  }

  lemma BE32OfWord(s: seq<byte>)
    requires |s| == 4
    ensures BE32(Word(s, 0)) == s
  {
    var n := Word(s, 0);
    assert n / 0x100 == 0x1_0000 * (s[0] as int) + 0x100 * (s[1] as int) + s[2];
    assert n / 0x1_0000 == 0x100 * (s[0] as int) + s[1];
    assert n / 0x100_0000 == s[0];
  }

  /** A cell that stands at an offset inside a longer run of bytes. */
  lemma WordAt(s: seq<byte>, off: nat, n: u32)
    requires off + 4 <= |s|
    requires s[off..off + 4] == BE32(n)
    ensures Word(s, off) == n
  {
    WordOfBE32(n);
    var t := s[off..off + 4];
    assert t[0] == s[off] && t[1] == s[off + 1] && t[2] == s[off + 2] && t[3] == s[off + 3];
  }

  /** A slice of a slice. */
  lemma Slice<T>(s: seq<T>, a: nat, b: nat, c: nat, d: nat)
    requires a <= b <= |s| && c <= d <= b - a
    ensures s[a..b][c..d] == s[a + c..a + d]
  {
    var x, y := s[a..b][c..d], s[a + c..a + d];
    assert forall i :: 0 <= i < d - c ==> x[i] == s[a..b][c + i] == s[a + (c + i)] == y[i];
  }

  /** Equal stretches stay equal when both are narrowed in the same way. */
  lemma SubEqual<T>(s: seq<T>, a: nat, t: seq<T>, b: nat, n: nat, from: nat, to: nat)
    requires a + n <= |s| && b + n <= |t| && s[a..a + n] == t[b..b + n]
    requires from <= to <= n
    ensures s[a + from..a + to] == t[b + from..b + to]
  {
    Slice(s, a, a + n, from, to);
    Slice(t, b, b + n, from, to);
  }

  lemma SubEqualTail<T>(s: seq<T>, a: nat, t: seq<T>, b: nat, from: nat, to: nat)
    requires a <= |s| && b <= |t| && s[a..] == t[b..] && from <= to <= |s| - a
    ensures s[a + from..a + to] == t[b + from..b + to]
  {
    assert s[a..] == s[a..a + (|s| - a)] && t[b..] == t[b..b + (|s| - a)];
    SubEqual(s, a, t, b, |s| - a, from, to);
  }

  /** A slice cut in two. */
  lemma SliceJoin<T>(s: seq<T>, a: nat, b: nat, c: nat)
    requires a <= b <= c <= |s|
    ensures s[a..c] == s[a..b] + s[b..c]
  {
  }

  lemma SubArray(m: array<byte>, a: nat, b: nat, c: nat, d: nat)
    requires a <= b <= m.Length && c <= d <= b - a
    ensures m[a..b][c..d] == m[a + c..a + d]
  {
    var s := m[..];
    assert s[a..b] == m[a..b] && s[a + c..a + d] == m[a + c..a + d];
    Slice(s, a, b, c, d);
  }

  // ---- strings ---------------------------------------------------------------------------

  predicate NoNul(s: seq<byte>) {
    forall i :: 0 <= i < |s| ==> s[i] != 0
  }

  /** Index of the first NUL at or after `off`, or |s| when there is none. */
  function NulFrom(s: seq<byte>, off: nat): (r: nat)
    requires off <= |s|
    ensures off <= r <= |s|
    ensures forall i :: off <= i < r ==> s[i] != 0
    ensures r < |s| ==> s[r] == 0
    decreases |s| - off
  {
    if off == |s| || s[off] == 0 then off else NulFrom(s, off + 1)
  }

  lemma NulFromUnique(s: seq<byte>, off: nat, r: nat)
    requires off <= r < |s|
    requires s[r] == 0 && forall i :: off <= i < r ==> s[i] != 0
    ensures NulFrom(s, off) == r
  {
  }

  /** An offset at which a table holds a NUL-terminated string. */
  predicate StringAt(tab: seq<byte>, off: nat) {
    off <= |tab| && NulFrom(tab, off) < |tab|
  }

  /** The string that starts at `off`. */
  function CStr(tab: seq<byte>, off: nat): (r: seq<byte>)
    requires StringAt(tab, off)
    ensures NoNul(r)
  {
    tab[off..NulFrom(tab, off)]
  }

  /** Growing a table at its end leaves every string of it alone. */
  lemma CStrAppend(tab: seq<byte>, more: seq<byte>, off: nat)
    requires StringAt(tab, off)
    ensures StringAt(tab + more, off) && CStr(tab + more, off) == CStr(tab, off)
  {
    NulFromUnique(tab + more, off, NulFrom(tab, off));
  }

  /** A string stored with its terminator reads back as itself. */
  lemma CStrStored(tab: seq<byte>, off: nat, s: seq<byte>)
    requires NoNul(s) && off + |s| < |tab|
    requires tab[off..off + |s| + 1] == s + [0]
    ensures StringAt(tab, off) && CStr(tab, off) == s
  {
    assert forall i :: off <= i <= off + |s| ==> tab[i] == (s + [0])[i - off];
    NulFromUnique(tab, off, off + |s|);
  }

  // ---- text constants --------------------------------------------------------------------

  function Ascii(s: string): (r: seq<byte>)
    requires forall i :: 0 <= i < |s| ==> s[i] as int < 256
    ensures |r| == |s|
    ensures forall i :: 0 <= i < |s| ==> r[i] == s[i] as int
  {
    seq(|s|, i requires 0 <= i < |s| => s[i] as int)
  }
}
