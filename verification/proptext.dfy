/** dtc's treesource.c, util.c and data.c: a property value printed as source text, and that text read back. */
module PropText {
  import opened Bytes
  import opened StructBlock

  datatype Option<+A> = None | Some(value: A)

  const QUOTE: byte := 34
  const BACKSLASH: byte := 92
  const COMMA: byte := 44
  const SPACE: byte := 32
  const SEMICOLON: byte := 59
  const LESS: byte := 60
  const GREATER: byte := 62
  const OPEN: byte := 91
  const CLOSE: byte := 93

  predicate IsPrint(c: byte) {
    32 <= c < 127
  }

  /** isstring: printable, one of the escapes from \a to \r, or the end of a string. */
  predicate IsString(c: byte) {
    IsPrint(c) || c == 0 || 7 <= c <= 13
  }

  // ---- writing ------------------------------------------------------------------------------------------

  function EscapeLetter(c: byte): byte
    requires 7 <= c <= 13
  {
    [97, 98, 116, 110, 118, 102, 114][c - 7]
  }

  function HexDigit(n: nat): byte
    requires n < 16
  {
    if n < 10 then 48 + n else 87 + n
  }

  /** One byte inside a string. */
  function Escaped(c: byte): seq<byte> {
    if 7 <= c <= 13 then [BACKSLASH, EscapeLetter(c)]
    else if c == BACKSLASH || c == QUOTE then [BACKSLASH, c]
    else if c == 0 then [QUOTE, COMMA, SPACE, QUOTE]
    else if IsPrint(c) then [c]
    else [BACKSLASH, 120, HexDigit(c / 16), HexDigit(c % 16)]
  }

  function EscapedAll(s: seq<byte>): seq<byte> {
    if s == [] then [] else EscapedAll(s[..|s| - 1]) + Escaped(s[|s| - 1])
  }

  function Hex(n: nat): (r: seq<byte>)
    ensures r != []
  {
    if n < 16 then [HexDigit(n)] else Hex(n / 16) + [HexDigit(n % 16)]
  }

  function CellText(n: nat): seq<byte> {
    [48, 120] + Hex(n)
  }

  function CellsText(s: seq<byte>): seq<byte>
    requires |s| % 4 == 0 && s != []
    decreases |s|
  {
    CellText(Word(s, 0)) + if |s| == 4 then [] else [SPACE] + CellsText(s[4..])
  }

  function ByteText(c: byte): seq<byte> {
    [HexDigit(c / 16), HexDigit(c % 16)]
  }

  function BytesText(s: seq<byte>): seq<byte>
    requires s != []
  {
    ByteText(s[0]) + if |s| == 1 then [] else [SPACE] + BytesText(s[1..])
  }

  /** The number of NULs. */
  function Nuls(s: seq<byte>): nat {
    if s == [] then 0 else Nuls(s[..|s| - 1]) + if s[|s| - 1] == 0 then 1 else 0
  }

  predicate Strings(s: seq<byte>) {
    s != [] && s[|s| - 1] == 0 && (forall i :: 0 <= i < |s| ==> IsString(s[i])) && Nuls(s) < |s| - Nuls(s)
  }

  /** What write_propval prints between " = " and the semicolon, for a value without labels. */
  function ValueText(s: seq<byte>): seq<byte>
    requires s != []
  {
    if Strings(s) then [QUOTE] + EscapedAll(s[..|s| - 1]) + [QUOTE]
    else if |s| % 4 == 0 then [LESS] + CellsText(s) + [GREATER]
    else [OPEN] + BytesText(s) + [CLOSE]
  }

  lemma {:induction false} NulsAre(s: seq<byte>)
    ensures Nuls(s) == multiset(s)[0 as byte]
    decreases |s|
  {
    if s != [] {
      NulsAre(s[..|s| - 1]);
      assert s == s[..|s| - 1] + [s[|s| - 1]];
    }
  }

  /** Which form a value takes: that of strings when it ends in a NUL, has bytes of strings only, and more others than
      NULs; else that of cells when it is made of cells; else that of bytes. */
  lemma FormIs(s: seq<byte>)
    requires s != []
    ensures var strings := s[|s| - 1] == 0 && (forall i :: 0 <= i < |s| ==> s[i] == 0 || 7 <= s[i] <= 13 || 32 <= s[i] <= 126)
                           && 2 * multiset(s)[0 as byte] < |s|;
      ValueText(s)[0] == if strings then 34 else if |s| % 4 == 0 then 60 else 91
  {
    hide EscapedAll, CellsText, BytesText, Nuls;
    NulsAre(s);
  }

  /** write_propval_string */
  method WriteString(s: seq<byte>) returns (text: seq<byte>)
    requires s != [] && s[|s| - 1] == 0
    ensures text == [QUOTE] + EscapedAll(s[..|s| - 1]) + [QUOTE]
  {
    hide EscapedAll;
    text := [QUOTE];
    assert s[..0] == [];
    NothingEscaped();
    var i := 0;
    while i < |s| - 1
      invariant i <= |s| - 1 && text == [QUOTE] + EscapedAll(s[..i])
    {
      EscapedNext(s, i);
      var c := s[i];
      ghost var before := text;
      if 7 <= c <= 13 {
        text := text + [BACKSLASH, EscapeLetter(c)];
      } else if c == BACKSLASH || c == QUOTE {
        text := text + [BACKSLASH, c];
      } else if c == 0 {
        text := text + [QUOTE, COMMA, SPACE] + [QUOTE];
      } else if IsPrint(c) {
        text := text + [c];
      } else {
        text := text + [BACKSLASH, 120] + ByteText(c);
      }
      assert text == before + Escaped(c);
      i := i + 1;
    }
    text := text + [QUOTE];
  }

  lemma NothingEscaped()
    ensures EscapedAll([]) == []
  {
  }

  lemma EscapedNext(s: seq<byte>, i: nat)
    requires i < |s|
    ensures EscapedAll(s[..i + 1]) == EscapedAll(s[..i]) + Escaped(s[i])
  {
    hide Escaped;
    assert s[..i + 1][..i] == s[..i];
  }

  /** write_propval_cells */
  method WriteCells(s: seq<byte>) returns (text: seq<byte>)
    requires s != [] && |s| % 4 == 0
    ensures text == [LESS] + CellsText(s) + [GREATER]
  {
    hide Hex, Word, CellText;
    text := [LESS];
    var cp := 0;
    assert s[0..] == s;
    while true
      invariant cp < |s| && cp % 4 == 0 && text + CellsText(s[cp..]) == [LESS] + CellsText(s)
      decreases |s| - cp
    {
      SameWord(s, cp);
      assert s[cp..][4..] == s[cp + 4..];
      text := text + CellText(Word(s, cp));
      cp := cp + 4;
      if cp >= |s| {
        break;
      }
      text := text + [SPACE];
    }
    text := text + [GREATER];
  }

  lemma SameWord(s: seq<byte>, o: nat)
    requires o + 4 <= |s|
    ensures Word(s[o..], 0) == Word(s, o)
  {
  }

  /** write_propval_bytes */
  method WriteBytes(s: seq<byte>) returns (text: seq<byte>)
    requires s != []
    ensures text == [OPEN] + BytesText(s) + [CLOSE]
  {
    hide ByteText;
    text := [OPEN];
    var bp := 0;
    assert s[0..] == s;
    while true
      invariant bp < |s| && text + BytesText(s[bp..]) == [OPEN] + BytesText(s)
      decreases |s| - bp
    {
      assert s[bp..][1..] == s[bp + 1..];
      text := text + ByteText(s[bp]);
      bp := bp + 1;
      if bp >= |s| {
        break;
      }
      text := text + [SPACE];
    }
    text := text + [CLOSE];
  }

  /** write_propval: the value's text up to the semicolon. */
  method WritePropval(s: seq<byte>) returns (text: seq<byte>)
    ensures text == if s == [] then [] else [SPACE, 61, SPACE] + ValueText(s)
  {
    hide Hex, CellsText, BytesText, EscapedAll;
    if s == [] {
      return [];
    }
    var notString, nuls := 0, 0;
    var i := 0;
    assert s[..0] == [];
    while i < |s|
      invariant i <= |s| && nuls == Nuls(s[..i])
      invariant notString == 0 <==> forall j :: 0 <= j < i ==> IsString(s[j])
      invariant notString >= 0
    {
      assert s[..i + 1][..i] == s[..i];
      if !IsString(s[i]) {
        notString := notString + 1;
      }
      if s[i] == 0 {
        nuls := nuls + 1;
      }
      i := i + 1;
    }
    assert s[..i] == s;
    var body;
    if s[|s| - 1] == 0 && notString == 0 && nuls < |s| - nuls {
      body := WriteString(s);
    } else if |s| % 4 == 0 {
      body := WriteCells(s);
    } else {
      body := WriteBytes(s);
    }
    text := [SPACE, 61, SPACE] + body;
  }

  // ---- reading --------------------------------------------------------------------------------------------

  predicate Blank(c: byte) {
    c == SPACE || 9 <= c <= 13
  }

  function SkipBlanks(s: seq<byte>): (r: seq<byte>)
    ensures |r| <= |s|
  {
    if s != [] && Blank(s[0]) then SkipBlanks(s[1..]) else s
  }

  /** The string token of the lexer: where its closing quote stands. */
  function Closing(s: seq<byte>): (r: Option<nat>)
    ensures r.Some? ==> r.value < |s|
  {
    if s == [] then None
    else if s[0] == QUOTE then Some(0)
    else if s[0] == BACKSLASH then
      if |s| < 2 || s[1] == 10 then None
      else match Closing(s[2..]) case None => None case Some(n) => Some(n + 2)
    else match Closing(s[1..]) case None => None case Some(n) => Some(n + 1)
  }

  predicate IsOctal(c: byte) { 48 <= c <= 55 }
  predicate IsHex(c: byte) { 48 <= c <= 57 || 97 <= c <= 102 || 65 <= c <= 70 }

  function HexVal(c: byte): nat
    requires IsHex(c)
  {
    if c <= 57 then c - 48 else if c <= 70 then c - 55 else c - 87
  }

  /** How many of the first `max` bytes are octal digits, or hexadecimal ones. */
  function Run(s: seq<byte>, max: nat, hex: bool): (n: nat)
    ensures n <= |s| && n <= max && forall i :: 0 <= i < n ==> if hex then IsHex(s[i]) else IsOctal(s[i])
  {
    if max == 0 || s == [] || !(if hex then IsHex(s[0]) else IsOctal(s[0])) then 0 else 1 + Run(s[1..], max - 1, hex)
  }

  function OctalValue(s: seq<byte>): nat
    requires forall i :: 0 <= i < |s| ==> IsOctal(s[i])
  {
    if s == [] then 0 else
      assert IsOctal(s[|s| - 1]);
      8 * OctalValue(s[..|s| - 1]) + (s[|s| - 1] as int - 48)
  }

  function HexValue(s: seq<byte>): nat
    requires forall i :: 0 <= i < |s| ==> IsHex(s[i])
  {
    if s == [] then 0 else 16 * HexValue(s[..|s| - 1]) + HexVal(s[|s| - 1])
  }

  /** What strtol skips or takes as a sign. */
  predicate LeadsNumber(c: byte) {
    Blank(c) || c == 43 || c == 45
  }

  /** get_hex_char: strtol on two bytes of a text that ends in NUL. One digit may stand behind a blank or a sign. */
  function GetHex(s: seq<byte>): (r: Option<(byte, nat)>)
    ensures r.Some? ==> 1 <= r.value.1 <= |s|
  {
    if s == [] then None
    else if IsHex(s[0]) then
      if |s| > 1 && IsHex(s[1]) then Some((16 * HexVal(s[0]) + HexVal(s[1]), 2)) else Some((HexVal(s[0]), 1))
    else if |s| > 1 && LeadsNumber(s[0]) && IsHex(s[1]) then
      Some((if s[0] == 45 then (256 - HexVal(s[1])) % 256 else HexVal(s[1]), 2))
    else None
  }

  /** get_escape_char: the byte that an escape stands for, and how much of the text it takes. At the end of the
      text that is its NUL. */
  function GetEscape(s: seq<byte>): (r: Option<(byte, nat)>)
    ensures r.Some? ==> 1 <= r.value.1 <= if s == [] then 1 else |s|
  {
    if s == [] then Some((0, 1)) else
    var c := s[0];
    if c == 97 then Some((7, 1)) else if c == 98 then Some((8, 1)) else if c == 116 then Some((9, 1))
    else if c == 110 then Some((10, 1)) else if c == 118 then Some((11, 1)) else if c == 102 then Some((12, 1))
    else if c == 114 then Some((13, 1))
    else if IsOctal(c) then var n := Run(s, 3, false); Some((OctalValue(s[..n]) % 256, n))
    else if c == 120 then
      match GetHex(s[1..]) case None => None case Some((val, n)) => Some((val, 1 + n))
    else Some((c, 1))
  }

  /** data_copy_escape_string on the first `len` bytes of a text, without the NUL that it adds. An escape that
      begins in front of `len` may read on behind it. */
  function Unescaped(s: seq<byte>, len: nat): Option<seq<byte>>
    requires len <= |s|
    decreases |s|
  {
    if len == 0 then Some([])
    else if s[0] != BACKSLASH then Before([s[0]], Unescaped(s[1..], len - 1))
    else
      match GetEscape(s[1..])
      case None => None
      case Some((c, n)) => if 1 + n >= len then Some([c]) else Before([c], Unescaped(s[1 + n..], len - 1 - n))
  }

  function Before(d: seq<byte>, r: Option<seq<byte>>): Option<seq<byte>> {
    match r case None => None case Some(rest) => Some(d + rest)
  }

  lemma BeforeBefore(d: seq<byte>, e: seq<byte>, r: Option<seq<byte>>)
    ensures Before(d, Before(e, r)) == Before(d + e, r) && Before([], r) == r
  {
    if r.Some? {
      assert d + (e + r.value) == d + e + r.value && [] + r.value == r.value;
    }
  }

  /** Half way through the text. */
  predicate Copied(s: seq<byte>, len: nat, d: seq<byte>, i: nat)
    requires len <= |s|
  {
    Unescaped(s, len) == if i < len then Before(d, Unescaped(s[i..], len - i)) else Some(d)
  }

  lemma CopiedPlain(s: seq<byte>, len: nat, d: seq<byte>, i: nat)
    requires i < len <= |s| && s[i] != BACKSLASH && Copied(s, len, d, i)
    ensures Copied(s, len, d + [s[i]], i + 1)
  {
    assert s[i..][1..] == s[i + 1..] && [s[i]] + [] == [s[i]];
    BeforeBefore(d, [s[i]], Unescaped(s[i + 1..], len - i - 1));
  }

  lemma CopiedEscape(s: seq<byte>, len: nat, d: seq<byte>, i: nat)
    requires i < len <= |s| && s[i] == BACKSLASH && Copied(s, len, d, i)
    ensures var e := GetEscape(s[i + 1..]);
      if e.None? then Unescaped(s, len).None? else Copied(s, len, d + [e.value.0], i + 1 + e.value.1)
  {
    hide GetEscape;
    var e := GetEscape(s[i + 1..]);
    assert s[i..][1..] == s[i + 1..];
    if e.Some? && i + 1 + e.value.1 < len {
      assert s[i..][1 + e.value.1..] == s[i + 1 + e.value.1..];
      BeforeBefore(d, [e.value.0], Unescaped(s[i + 1 + e.value.1..], len - i - 1 - e.value.1));
    }
  }

  lemma CopiedNothing(s: seq<byte>, len: nat)
    requires len <= |s|
    ensures Copied(s, len, [], 0)
  {
    assert s[0..] == s;
    if len > 0 {
      BeforeBefore([], [], Unescaped(s, len));
    }
  }

  /** data_copy_escape_string */
  method CopyEscapeString(s: seq<byte>, len: nat) returns (r: Option<seq<byte>>)
    requires len <= |s|
    ensures if Unescaped(s, len).None? then r.None? else r == Some(Unescaped(s, len).value + [0])
  {
    hide GetEscape, Before, Unescaped;
    var d: seq<byte> := [];
    var i := 0;
    CopiedNothing(s, len);
    while i < len
      invariant Copied(s, len, d, i)
    {
      var c := s[i];
      if c == BACKSLASH {
        CopiedEscape(s, len, d, i);
        var e := GetEscape(s[i + 1..]);
        if e.None? {
          return None;
        }
        d := d + [e.value.0];
        i := i + 1 + e.value.1;
      } else {
        CopiedPlain(s, len, d, i);
        d := d + [c];
        i := i + 1;
      }
    }
    r := Some(d + [0]);
  }

  /** The cells up to the closing bracket. */
  function ReadCells(s: seq<byte>): (r: Option<(seq<byte>, seq<byte>)>)
    ensures r.Some? ==> |r.value.1| < |s|
    decreases |s|
  {
    var t := SkipBlanks(s);
    if t == [] then None
    else if t[0] == GREATER then Some(([], t[1..]))
    else if |t| < 3 || t[0] != 48 || t[1] != 120 then None
    else
      var n := Run(t[2..], |t|, true);
      var v := HexValue(t[2..2 + n]);
      if n == 0 || v >= 0x1_0000_0000 then None else
      match ReadCells(t[2 + n..])
      case None => None
      case Some((d, rest)) => Some((BE32(v) + d, rest))
  }

  /** The bytes up to the closing bracket. */
  function ReadBytes(s: seq<byte>): (r: Option<(seq<byte>, seq<byte>)>)
    ensures r.Some? ==> |r.value.1| < |s|
    decreases |s|
  {
    var t := SkipBlanks(s);
    if t == [] then None
    else if t[0] == CLOSE then Some(([], t[1..]))
    else if |t| < 2 || !IsHex(t[0]) || !IsHex(t[1]) then None
    else
      match ReadBytes(t[2..])
      case None => None
      case Some((d, rest)) => Some(([16 * HexVal(t[0]) + HexVal(t[1])] + d, rest))
  }

  /** One part of a value: a string, cells or bytes. */
  function ReadItem(s: seq<byte>): (r: Option<(seq<byte>, seq<byte>)>)
    ensures r.Some? ==> |r.value.1| < |s|
  {
    if s == [] then None
    else if s[0] == QUOTE then
      match Closing(s[1..])
      case None => None
      case Some(n) => match Unescaped(s[1..2 + n], n) case None => None case Some(d) => Some((d + [0], s[2 + n..]))
    else if s[0] == LESS then ReadCells(s[1..])
    else if s[0] == OPEN then ReadBytes(s[1..])
    else None
  }

  /** Parts between commas, joined by data_merge, up to the semicolon. */
  function ReadItems(s: seq<byte>): Option<(seq<byte>, seq<byte>)>
    decreases |s|
  {
    match ReadItem(SkipBlanks(s))
    case None => None
    case Some((d, rest)) =>
      var t := SkipBlanks(rest);
      if t == [] then None
      else if t[0] == SEMICOLON then Some((d, t[1..]))
      else if t[0] != COMMA then None
      else match ReadItems(t[1..]) case None => None case Some((e, end)) => Some((d + e, end))
  }

  /** What follows the name of a property: its value, or nothing, and a semicolon. */
  function ReadValue(s: seq<byte>): Option<(seq<byte>, seq<byte>)> {
    var t := SkipBlanks(s);
    if t == [] then None
    else if t[0] == SEMICOLON then Some(([], t[1..]))
    else if t[0] == 61 then ReadItems(t[1..])
    else None
  }

  // ---- there and back -----------------------------------------------------------------------------------------

  lemma {:induction false} EscapedConcat(a: seq<byte>, b: seq<byte>)
    ensures EscapedAll(a + b) == EscapedAll(a) + EscapedAll(b)
    decreases |b|
  {
    hide Escaped;
    if b == [] {
      assert a + b == a;
    } else {
      var n := |b| - 1;
      assert (a + b)[..|a| + n] == a + b[..n];
      EscapedConcat(a, b[..n]);
    }
  }

  lemma EscapedOne(c: byte)
    ensures EscapedAll([c]) == Escaped(c)
  {
    assert [c][..0] == [];
  }

  lemma PlainReads(c: byte, rest: seq<byte>, m: nat)
    requires c != QUOTE && c != BACKSLASH && m <= |rest|
    ensures var s := [c] + rest;
      && (Closing(s) == match Closing(rest) case None => None case Some(n) => Some(n + 1))
      && Unescaped(s, 1 + m) == Before([c], Unescaped(rest, m))
  {
    assert ([c] + rest)[1..] == rest;
  }

  lemma PairReads(e: byte, c: byte, rest: seq<byte>, m: nat)
    requires e != 10 && GetEscape([e] + rest) == Some((c, 1)) && m <= |rest|
    ensures var s := [BACKSLASH, e] + rest;
      && (Closing(s) == match Closing(rest) case None => None case Some(n) => Some(n + 2))
      && Unescaped(s, 2 + m) == Before([c], Unescaped(rest, m))
  {
    hide GetEscape;
    var s := [BACKSLASH, e] + rest;
    assert s[2..] == rest && s[1..] == [e] + rest && [c] + [] == [c];
  }

  /** Two hexadecimal digits behind `\x` are the byte. */
  lemma HexEscape(c: byte, rest: seq<byte>)
    ensures GetEscape([120, HexDigit(c / 16), HexDigit(c % 16)] + rest) == Some((c, 3))
  {
    var s := [120, HexDigit(c / 16), HexDigit(c % 16)] + rest;
    assert s[1..][0] == HexDigit(c / 16) && s[1..][1] == HexDigit(c % 16);
    hide Run, OctalValue;
  }

  lemma HexEscapeReads(c: byte, rest: seq<byte>, m: nat)
    requires m <= |rest|
    ensures var s := [BACKSLASH, 120, HexDigit(c / 16), HexDigit(c % 16)] + rest;
      && (Closing(s) == match Closing(rest) case None => None case Some(n) => Some(n + 4))
      && Unescaped(s, 4 + m) == Before([c], Unescaped(rest, m))
  {
    HexEscape(c, rest);
    hide GetEscape;
    var h, l := HexDigit(c / 16), HexDigit(c % 16);
    var s := [BACKSLASH, 120, h, l] + rest;
    assert s[1..] == [120, h, l] + rest && s[4..] == rest && [c] + [] == [c];
    assert s[2..] == [h] + ([l] + rest);
    PlainReads(h, [l] + rest, 0);
    PlainReads(l, rest, 0);
  }

  lemma EscapeShape(c: byte, rest: seq<byte>)
    requires c != 0
    ensures if c == QUOTE || c == BACKSLASH || 7 <= c <= 13
            then var e := if c <= 13 then EscapeLetter(c) else c;
                 Escaped(c) == [BACKSLASH, e] && e != 10 && GetEscape([e] + rest) == Some((c, 1))
            else Escaped(c) == if IsPrint(c) then [c] else [BACKSLASH, 120, HexDigit(c / 16), HexDigit(c % 16)]
  {
    hide Run, OctalValue;
  }

  /** Any byte but NUL, written inside a string, is scanned and read back. */
  lemma EscapeReads(c: byte, rest: seq<byte>, m: nat)
    requires c != 0 && m <= |rest|
    ensures var s := Escaped(c) + rest;
      && (Closing(s) == match Closing(rest) case None => None case Some(n) => Some(n + |Escaped(c)|))
      && Unescaped(s, |Escaped(c)| + m) == Before([c], Unescaped(rest, m))
  {
    EscapeShape(c, rest);
    hide Escaped, Closing, Unescaped, GetEscape, Before, EscapeLetter;
    if c == QUOTE || c == BACKSLASH || 7 <= c <= 13 {
      PairReads(Escaped(c)[1], c, rest, m);
    } else if IsPrint(c) {
      PlainReads(c, rest, m);
    } else {
      HexEscapeReads(c, rest, m);
    }
  }

  lemma {:induction false} StringReads(x: seq<byte>, rest: seq<byte>)
    requires 0 !in x
    ensures Closing(EscapedAll(x) + [QUOTE] + rest) == Some(|EscapedAll(x)|)
    ensures Unescaped(EscapedAll(x) + [QUOTE] + rest, |EscapedAll(x)|) == Some(x)
    decreases |x|
  {
    hide Escaped, Closing, Unescaped;
    if x == [] {
      assert [] + [QUOTE] + rest == [QUOTE] + rest;
      EmptyString(rest);
    } else {
      var c, y := x[0], x[1..];
      assert x == [c] + y;
      EscapedConcat([c], y);
      EscapedOne(c);
      StringReads(y, rest);
      EscapeReads(c, EscapedAll(y) + [QUOTE] + rest, |EscapedAll(y)|);
      assert EscapedAll(x) + [QUOTE] + rest == Escaped(c) + (EscapedAll(y) + [QUOTE] + rest);
    }
  }

  lemma EmptyString(rest: seq<byte>)
    ensures Closing([QUOTE] + rest) == Some(0) && Unescaped([QUOTE] + rest, 0) == Some([]) && EscapedAll([]) == []
  {
  }

  lemma NotBlank(s: seq<byte>)
    requires s == [] || !Blank(s[0])
    ensures SkipBlanks(s) == s
  {
  }

  lemma OneBlank(s: seq<byte>)
    requires s == [] || !Blank(s[0])
    ensures SkipBlanks([SPACE] + s) == s
  {
    assert ([SPACE] + s)[1..] == s;
  }

  /** One string of a value, with what follows it. */
  lemma StringItem(x: seq<byte>, rest: seq<byte>)
    requires 0 !in x
    ensures ReadItem([QUOTE] + EscapedAll(x) + [QUOTE] + rest) == Some((x + [0], rest))
  {
    hide Closing, Unescaped, EscapedAll, ReadItem;
    StringReads(x, rest);
    StringReads(x, []);
    var e := EscapedAll(x);
    assert e + [QUOTE] + [] == e + [QUOTE];
    Quoted(e, rest);
    ReadString([QUOTE] + e + [QUOTE] + rest, |e|, x);
  }

  lemma Quoted(e: seq<byte>, rest: seq<byte>)
    ensures var s := [QUOTE] + e + [QUOTE] + rest;
      && |s| == |e| + |rest| + 2 && s[0] == QUOTE && s[1..] == e + [QUOTE] + rest
      && s[1..2 + |e|] == e + [QUOTE] && s[2 + |e|..] == rest
  {
  }

  lemma ReadString(s: seq<byte>, n: nat, x: seq<byte>)
    requires 2 + n <= |s| && s[0] == QUOTE && Closing(s[1..]) == Some(n) && Unescaped(s[1..2 + n], n) == Some(x)
    ensures ReadItem(s) == Some((x + [0], s[2 + n..]))
  {
    hide Closing, Unescaped, ReadCells, ReadBytes;
  }

  lemma ReadBracket(s: seq<byte>)
    requires s != []
    ensures s[0] == LESS ==> ReadItem(s) == ReadCells(s[1..])
    ensures s[0] == OPEN ==> ReadItem(s) == ReadBytes(s[1..])
  {
    hide Closing, Unescaped, ReadCells, ReadBytes;
  }

  /** A string list. */
  lemma {:induction false} StringsRead(b: seq<byte>, more: seq<byte>)
    requires forall i :: 0 <= i < |b| ==> IsString(b[i])
    ensures ReadItems([QUOTE] + EscapedAll(b) + [QUOTE, SEMICOLON] + more) == Some((b + [0], more))
    decreases |b|
  {
    hide ReadItem, EscapedAll, IsString;
    var k := NulFrom(b, 0);
    var x := b[..k];
    var e := EscapedAll(x);
    var s := [QUOTE] + EscapedAll(b) + [QUOTE, SEMICOLON] + more;
    NotBlank(s);
    if k == |b| {
      assert x == b;
      StringItem(x, [SEMICOLON] + more);
      assert s == [QUOTE] + e + [QUOTE] + ([SEMICOLON] + more);
      NotBlank([SEMICOLON] + more);
      assert ([SEMICOLON] + more)[1..] == more;
    } else {
      var y := b[k + 1..];
      var next := [QUOTE] + EscapedAll(y) + [QUOTE, SEMICOLON] + more;
      assert b == x + [0] + y;
      EscapedConcat(x + [0], y);
      EscapedConcat(x, [0]);
      EscapedOne(0);
      var rest := [COMMA, SPACE] + next;
      StringItem(x, rest);
      assert s == [QUOTE] + e + [QUOTE] + rest;
      NotBlank(rest);
      assert rest[1..] == [SPACE] + next;
      StringsRead(y, more);
      ReadItemsBlank(next);
      assert x + [0] + (y + [0]) == b + [0];
    }
  }

  lemma ReadItemsBlank(next: seq<byte>)
    requires next != [] && !Blank(next[0])
    ensures ReadItems([SPACE] + next) == ReadItems(next)
  {
    hide ReadItem;
    OneBlank(next);
    NotBlank(next);
  }

  // ---- cells and bytes -----------------------------------------------------------------------------------------

  lemma DigitReads(n: nat)
    requires n < 16
    ensures IsHex(HexDigit(n)) && HexVal(HexDigit(n)) == n
  {
  }

  lemma {:induction false} HexReads(n: nat)
    ensures (forall i :: 0 <= i < |Hex(n)| ==> IsHex(Hex(n)[i])) && HexValue(Hex(n)) == n
    decreases n
  {
    hide HexDigit, IsHex, HexVal;
    DigitReads(n % 16);
    if n >= 16 {
      HexReads(n / 16);
      assert Hex(n)[..|Hex(n)| - 1] == Hex(n / 16);
    } else {
      assert Hex(n)[..0] == [];
    }
  }

  lemma {:induction false} RunIs(d: seq<byte>, rest: seq<byte>, max: nat)
    requires (forall i :: 0 <= i < |d| ==> IsHex(d[i])) && |d| <= max && (rest == [] || !IsHex(rest[0]))
    ensures Run(d + rest, max, true) == |d|
    decreases |d|
  {
    if d == [] {
      assert d + rest == rest;
    } else {
      assert (d + rest)[1..] == d[1..] + rest;
      RunIs(d[1..], rest, max - 1);
    }
  }

  /** One cell, and what follows it. */
  lemma CellReads(v: u32, rest: seq<byte>)
    requires rest != [] && !IsHex(rest[0])
    ensures ReadCells(CellText(v) + rest) == match ReadCells(rest) case None => None case Some((d, r)) => Some((BE32(v) + d, r))
  {
    hide Hex, HexValue, BE32, IsHex;
    var h := Hex(v);
    var t := CellText(v) + rest;
    HexReads(v);
    NotBlank(t);
    assert t[2..] == h + rest;
    RunIs(h, rest, |t|);
    assert t[2..2 + |h|] == h && t[2 + |h|..] == rest;
  }

  lemma CellsBlank(s: seq<byte>)
    requires s != [] && !Blank(s[0])
    ensures ReadCells([SPACE] + s) == ReadCells(s)
  {
    OneBlank(s);
    NotBlank(s);
  }

  lemma {:induction false} CellsRead(s: seq<byte>, rest: seq<byte>)
    requires s != [] && |s| % 4 == 0
    ensures ReadCells(CellsText(s) + [GREATER] + rest) == Some((s, rest))
    decreases |s|
  {
    hide BE32, Word, CellText, ReadCells;
    var v := Word(s, 0);
    CellIs(s);
    if |s| == 4 {
      assert CellsText(s) + [GREATER] + rest == CellText(v) + ([GREATER] + rest);
      CellReads(v, [GREATER] + rest);
      CellsEnd(rest);
      assert s == BE32(v) + [];
    } else {
      var next := CellsText(s[4..]) + [GREATER] + rest;
      assert CellsText(s) + [GREATER] + rest == CellText(v) + ([SPACE] + next);
      CellReads(v, [SPACE] + next);
      CellsStart(s[4..]);
      CellsBlank(next);
      CellsRead(s[4..], rest);
      assert s == BE32(v) + s[4..];
    }
  }

  lemma CellIs(s: seq<byte>)
    requires |s| >= 4
    ensures s[..4] == BE32(Word(s, 0))
  {
    BE32OfWord(s[..4]);
    assert Word(s[..4], 0) == Word(s, 0);
  }

  lemma CellsEnd(rest: seq<byte>)
    ensures ReadCells([GREATER] + rest) == Some(([], rest))
  {
    NotBlank([GREATER] + rest);
    assert ([GREATER] + rest)[1..] == rest;
  }

  lemma CellsStart(s: seq<byte>)
    requires s != [] && |s| % 4 == 0
    ensures CellsText(s) != [] && CellsText(s)[0] == 48
  {
    hide Hex;
  }

  lemma ByteReads(c: byte, rest: seq<byte>)
    ensures ReadBytes(ByteText(c) + rest) == match ReadBytes(rest) case None => None case Some((d, r)) => Some(([c] + d, r))
  {
    var t := ByteText(c) + rest;
    DigitReads(c / 16);
    DigitReads(c % 16);
    DigitNotBlank(c / 16);
    NotBlank(t);
    assert t[2..] == rest;
  }

  lemma DigitNotBlank(n: nat)
    requires n < 16
    ensures !Blank(HexDigit(n)) && HexDigit(n) != CLOSE
  {
  }

  lemma {:induction false} BytesRead(s: seq<byte>, rest: seq<byte>)
    requires s != []
    ensures ReadBytes(BytesText(s) + [CLOSE] + rest) == Some((s, rest))
    decreases |s|
  {
    hide ByteText, ReadBytes;
    if |s| == 1 {
      assert BytesText(s) + [CLOSE] + rest == ByteText(s[0]) + ([CLOSE] + rest);
      ByteReads(s[0], [CLOSE] + rest);
      BytesEnd(rest);
      assert s == [s[0]] + [];
    } else {
      var next := BytesText(s[1..]) + [CLOSE] + rest;
      assert BytesText(s) + [CLOSE] + rest == ByteText(s[0]) + ([SPACE] + next);
      ByteReads(s[0], [SPACE] + next);
      BytesStart(s[1..]);
      BytesBlank(next);
      BytesRead(s[1..], rest);
      assert s == [s[0]] + s[1..];
    }
  }

  lemma BytesEnd(rest: seq<byte>)
    ensures ReadBytes([CLOSE] + rest) == Some(([], rest))
  {
    NotBlank([CLOSE] + rest);
    assert ([CLOSE] + rest)[1..] == rest;
  }

  lemma BytesStart(s: seq<byte>)
    requires s != []
    ensures BytesText(s) != [] && !Blank(BytesText(s)[0])
  {
    DigitNotBlank(s[0] / 16);
  }

  lemma BytesBlank(s: seq<byte>)
    requires s != [] && !Blank(s[0])
    ensures ReadBytes([SPACE] + s) == ReadBytes(s)
  {
    OneBlank(s);
    NotBlank(s);
  }

  /** Whichever of the three forms a value is printed in, it is read back as the same bytes. */
  lemma ValueRoundTrip(s: seq<byte>, more: seq<byte>)
    ensures var text := if s == [] then [] else [SPACE, 61, SPACE] + ValueText(s);
      ReadValue(text + [SEMICOLON] + more) == Some((s, more))
  {
    hide ReadItem, ReadItems, ValueText;
    if s == [] {
      assert [] + [SEMICOLON] + more == [SEMICOLON] + more;
      NotBlank([SEMICOLON] + more);
      assert ([SEMICOLON] + more)[1..] == more;
    } else {
      var v := ValueText(s) + [SEMICOLON] + more;
      var text := [SPACE, 61, SPACE] + ValueText(s) + [SEMICOLON] + more;
      assert text == [SPACE] + ([61, SPACE] + v);
      OneBlank([61, SPACE] + v);
      assert ([61, SPACE] + v)[1..] == [SPACE] + v;
      TextStarts(s);
      ReadItemsBlank(v);
      TextReads(s, more);
    }
  }

  lemma TextStarts(s: seq<byte>)
    requires s != []
    ensures ValueText(s) != [] && !Blank(ValueText(s)[0])
  {
    hide CellsText, BytesText, EscapedAll, Strings;
  }

  lemma TextReads(s: seq<byte>, more: seq<byte>)
    requires s != []
    ensures ReadItems(ValueText(s) + [SEMICOLON] + more) == Some((s, more))
  {
    hide CellsText, BytesText, EscapedAll, ReadItems, Strings;
    var v := ValueText(s) + [SEMICOLON] + more;
    if Strings(s) {
      var b := s[..|s| - 1];
      StringsAre(s);
      StringsRead(b, more);
      assert v == [QUOTE] + EscapedAll(b) + [QUOTE, SEMICOLON] + more;
    } else if |s| % 4 == 0 {
      CellsCase(s, more);
    } else {
      BytesCase(s, more);
    }
  }

  lemma CellsCase(s: seq<byte>, more: seq<byte>)
    requires s != [] && |s| % 4 == 0
    ensures ReadItems([LESS] + CellsText(s) + [GREATER] + [SEMICOLON] + more) == Some((s, more))
  {
    hide CellsText, ReadCells, ReadItem, ReadItems;
    var v := [LESS] + CellsText(s) + [GREATER] + [SEMICOLON] + more;
    CellsRead(s, [SEMICOLON] + more);
    assert v[1..] == CellsText(s) + [GREATER] + ([SEMICOLON] + more);
    ReadBracket(v);
    LastItem(v, s, more);
  }

  lemma BytesCase(s: seq<byte>, more: seq<byte>)
    requires s != []
    ensures ReadItems([OPEN] + BytesText(s) + [CLOSE] + [SEMICOLON] + more) == Some((s, more))
  {
    hide BytesText, ReadBytes, ReadItem, ReadItems;
    var v := [OPEN] + BytesText(s) + [CLOSE] + [SEMICOLON] + more;
    BytesRead(s, [SEMICOLON] + more);
    assert v[1..] == BytesText(s) + [CLOSE] + ([SEMICOLON] + more);
    ReadBracket(v);
    LastItem(v, s, more);
  }

  lemma StringsAre(s: seq<byte>)
    requires Strings(s)
    ensures s != [] && s == s[..|s| - 1] + [0] && forall i :: 0 <= i < |s| ==> IsString(s[i])
  {
  }

  /** An item with the semicolon behind it. */
  lemma LastItem(v: seq<byte>, d: seq<byte>, more: seq<byte>)
    requires v != [] && !Blank(v[0]) && ReadItem(v) == Some((d, [SEMICOLON] + more))
    ensures ReadItems(v) == Some((d, more))
  {
    hide ReadItem;
    NotBlank(v);
    NotBlank([SEMICOLON] + more);
    assert ([SEMICOLON] + more)[1..] == more;
  }
}
