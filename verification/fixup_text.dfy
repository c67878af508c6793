/** The text of `__fixups__`: what dtc's livetree.c writes is what libfdt's fdt_overlay.c reads. */
module FixupText {
  import opened Bytes
  import opened StructBlock
  import opened Results
  import opened FdtBase
  import opened Naming
  import opened Overlay
  import T = Tree

  /** The "%u" of printf. */
  function Digits(n: nat): (r: seq<byte>)
    ensures r != [] && forall i :: 0 <= i < |r| ==> IsDigit(r[i])
  {
    if n < 10 then [48 + n] else Digits(n / 10) + [48 + n % 10]
  }

  /** An entry as add_fixup_entry prints it. */
  function Print(f: Fixup): Name {
    f.path + [COLON] + f.name + [COLON] + Digits(f.poffset)
  }

  /** The value of a property that add_fixup_entry has been called for with these entries. */
  function PrintAll(fs: seq<Fixup>): seq<byte> {
    if fs == [] then [] else Print(fs[0]) + [0] + PrintAll(fs[1..])
  }

  // ---- numbers ---------------------------------------------------------------------------------

  lemma {:induction false} DecimalDigits(n: nat)
    ensures Decimal(Digits(n)) == n
  {
    var r := Digits(n);
    if n < 10 {
      assert r[..0] == [];
      assert Decimal([]) == 0;
    } else {
      assert r[..|r| - 1] == Digits(n / 10);
      DecimalDigits(n / 10);
    }
  }

  lemma OffsetRoundTrip(n: u32)
    ensures ParseOffset(Digits(n)) == Ok(n)
  {
    var d := Digits(n);
    DecimalDigits(n);
    hide Decimal, Digits;
    assert IsDigit(d[0]);
    assert SkipSpace(d) == d;
  }

  // ---- one entry ---------------------------------------------------------------------------------

  lemma {:induction false} IndexOfFirst(a: seq<byte>, b: seq<byte>, x: byte)
    ensures IndexOf(a + [x] + b, x) <= |a|
    ensures IndexOf(a + [x] + b, x) == |a| <==> x !in a
  {
    var s := a + [x] + b;
    if a == [] {
      assert s[0] == x;
    } else {
      assert s[1..] == a[1..] + [x] + b;
      IndexOfFirst(a[1..], b, x);
    }
  }

  /** An entry is read back as it was written exactly when neither path nor name holds a colon and the
      name is not empty. */
  lemma EntryRoundTrip(f: Fixup)
    ensures ParseFixup(Print(f)) == Ok(f) <==> COLON !in f.path && COLON !in f.name && f.name != []
  {
    hide ParseOffset, Digits, Decimal;
    var d := Digits(f.poffset);
    var tail := f.name + [COLON] + d;
    var s := Print(f);
    assert s == f.path + [COLON] + tail;
    IndexOfFirst(f.path, tail, COLON);
    OffsetRoundTrip(f.poffset);
    var n := IndexOf(s, COLON);
    if n == |f.path| {
      assert s[..n] == f.path && s[n + 1..] == tail;
      IndexOfFirst(f.name, d, COLON);
      var m := IndexOf(tail, COLON);
      if m == |f.name| {
        assert tail[..m] == f.name && tail[m + 1..] == d;
      }
    }
  }

  // ---- lists -------------------------------------------------------------------------------------

  predicate Writable(f: Fixup) {
    COLON !in f.path && COLON !in f.name && f.name != []
  }

  /** Fixups carried out in order. */
  ghost function FixupEach(b: T.Tree, o: T.Tree, symbols: Result<Path>, fs: seq<Fixup>, symbol: Name): Result<T.Tree>
    requires symbols.Ok? ==> T.HasPath(b, symbols.value)
    decreases |fs|
  {
    if fs == [] then Ok(o) else
    match FixupOne(b, o, symbols, fs[0], symbol)
    case Err(e) => Err(e)
    case Ok(o1) => FixupEach(b, o1, symbols, fs[1..], symbol)
  }

  lemma NulAfter(s: Name, rest: seq<byte>)
    ensures NulFrom(s + [0] + rest, 0) == |s|
  {
    var t := s + [0] + rest;
    assert t[|s|] == 0 && forall i :: 0 <= i < |s| ==> t[i] == s[i];
    NulFromUnique(t, 0, |s|);
  }

  /** The loop of overlay_fixup_phandle, on what dtc writes: the same entries in the same order. */
  lemma {:induction false} ListRoundTrip(b: T.Tree, o: T.Tree, symbols: Result<Path>, fs: seq<Fixup>, symbol: Name)
    requires symbols.Ok? ==> T.HasPath(b, symbols.value)
    requires fs != [] && forall i :: 0 <= i < |fs| ==> Writable(fs[i])
    ensures FixupList(b, o, symbols, PrintAll(fs), symbol) == FixupEach(b, o, symbols, fs, symbol)
    decreases |fs|
  {
    hide FixupOne, Print, ParseFixup;
    var s, rest := Print(fs[0]), PrintAll(fs[1..]);
    var val := PrintAll(fs);
    assert Writable(fs[0]);
    EntryRoundTrip(fs[0]);
    NulAfter(s, rest);
    assert val == s + [0] + rest;
    assert val[..|s|] == s && val[|s| + 1..] == rest;
    var r := FixupOne(b, o, symbols, fs[0], symbol);
    if r.Ok? {
      if fs[1..] == [] {
        assert rest == [];
        assert FixupEach(b, r.value, symbols, [], symbol) == Ok(r.value);
      } else {
        assert rest != [];
        ListRoundTrip(b, r.value, symbols, fs[1..], symbol);
      }
    }
  }
}
