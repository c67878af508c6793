/** dtc's data.c: bytes with markers on them. A marker says that a reference or a label belongs at an
    offset; edits keep every marker on the byte it was put on. */
module Markers {
  import opened Bytes
  import opened StructBlock

  datatype Kind = RefPhandle | RefPath | LabelHere

  datatype Marker = Marker(kind: Kind, offset: nat, ref: Name)

  /** struct data */
  datatype Value = Value(bytes: seq<byte>, markers: seq<Marker>)

  const EMPTY: Value := Value([], [])

  /** The bytes that belong to a marker: a phandle reference has a cell. */
  function Width(k: Kind): nat {
    if k == RefPhandle then 4 else 0
  }

  /** Markers stand in order, none of them inside the cell of an earlier one, and all of them in the value. */
  predicate Sound(d: Value) {
    && (forall i, j :: 0 <= i < j < |d.markers| ==> d.markers[i].offset + Width(d.markers[i].kind) <= d.markers[j].offset)
    && (forall i :: 0 <= i < |d.markers| ==> d.markers[i].offset + Width(d.markers[i].kind) <= |d.bytes|)
  }

  function Shifted(ms: seq<Marker>, n: nat): (r: seq<Marker>)
    ensures |r| == |ms| && forall i :: 0 <= i < |ms| ==> r[i] == ms[i].(offset := ms[i].offset + n)
  {
    seq(|ms|, i requires 0 <= i < |ms| => ms[i].(offset := ms[i].offset + n))
  }

  function Merged(a: Value, b: Value): Value {
    Value(a.bytes + b.bytes, a.markers + Shifted(b.markers, |a.bytes|))
  }

  /** data_merge */
  method Merge(a: Value, b: Value) returns (r: Value)
    ensures r == Merged(a, b)
  {
    var ms := b.markers;
    var i := 0;
    while i < |ms|
      invariant i <= |ms| == |b.markers|
      invariant forall j :: 0 <= j < |ms| ==> ms[j] == if j < i then Shifted(b.markers, |a.bytes|)[j] else b.markers[j]
    {
      ms := ms[i := ms[i].(offset := ms[i].offset + |a.bytes|)];
      i := i + 1;
    }
    assert ms == Shifted(b.markers, |a.bytes|);
    r := Value(a.bytes + b.bytes, a.markers + ms);
  }

  /** data_add_marker followed by data_append_integer, as for a phandle reference in a cell list. */
  function WithReference(d: Value, ref: Name): Value {
    Value(d.bytes + BE32(NO_PHANDLE), d.markers + [Marker(RefPhandle, |d.bytes|, ref)])
  }

  /** data_add_marker, for a path or a label. */
  function WithMarker(d: Value, kind: Kind, ref: Name): Value
    requires kind != RefPhandle
  {
    d.(markers := d.markers + [Marker(kind, |d.bytes|, ref)])
  }

  /** What the parser builds is sound. */
  lemma BuiltSound(a: Value, b: Value, kind: Kind, ref: Name, more: seq<byte>)
    requires Sound(a) && Sound(b)
    ensures Sound(EMPTY) && Sound(Merged(a, b)) && Sound(WithReference(a, ref)) && Sound(a.(bytes := a.bytes + more))
    ensures kind != RefPhandle ==> Sound(WithMarker(a, kind, ref))
  {
    hide BE32, Sound;
    MergedSound(a, b);
    ReferenceSound(a, ref);
    MarkerSound(a, kind, ref, more);
  }

  lemma MergedSound(a: Value, b: Value)
    requires Sound(a) && Sound(b)
    ensures Sound(Merged(a, b))
  {
    var r := Merged(a, b);
    forall i, j | 0 <= i < j < |r.markers|
      ensures r.markers[i].offset + Width(r.markers[i].kind) <= r.markers[j].offset
    {
      if i >= |a.markers| {
        var x, y := b.markers[i - |a.markers|], b.markers[j - |a.markers|];
        assert x.offset + Width(x.kind) <= y.offset;
      }
    }
  }

  lemma ReferenceSound(a: Value, ref: Name)
    requires Sound(a)
    ensures Sound(WithReference(a, ref))
  {
  }

  lemma MarkerSound(a: Value, kind: Kind, ref: Name, more: seq<byte>)
    requires Sound(a)
    ensures Sound(EMPTY) && Sound(a.(bytes := a.bytes + more)) && (kind != RefPhandle ==> Sound(WithMarker(a, kind, ref)))
  {
  }

  /** Every marker of the second value is on the byte it was on. */
  lemma MergedBytes(a: Value, b: Value, i: nat, n: nat)
    requires i < |b.markers| && b.markers[i].offset + n <= |b.bytes|
    ensures var r, o := Merged(a, b), b.markers[i].offset;
      var m := r.markers[|a.markers| + i];
      m.ref == b.markers[i].ref && m.kind == b.markers[i].kind && r.bytes[m.offset..m.offset + n] == b.bytes[o..o + n]
  {
    var r, o := Merged(a, b), b.markers[i].offset;
    assert r.bytes[|a.bytes| + o..|a.bytes| + o + n] == b.bytes[o..o + n];
  }

  function Inserted(d: Value, i: nat, text: seq<byte>): Value
    requires i < |d.markers| && d.markers[i].offset <= |d.bytes|
  {
    var o := d.markers[i].offset;
    Value(d.bytes[..o] + text + d.bytes[o..], d.markers[..i + 1] + Shifted(d.markers[i + 1..], |text|))
  }

  /** data_insert_at_marker */
  method InsertAtMarker(d: Value, i: nat, text: seq<byte>) returns (r: Value)
    requires i < |d.markers| && d.markers[i].offset <= |d.bytes|
    ensures r == Inserted(d, i, text)
  {
    var o := d.markers[i].offset;
    var ms := d.markers;
    var j := i + 1;
    while j < |ms|
      invariant i < j <= |ms| == |d.markers|
      invariant forall x :: 0 <= x < |ms| ==> ms[x] == if i < x < j then Shifted(d.markers, |text|)[x] else d.markers[x]
    {
      ms := ms[j := ms[j].(offset := ms[j].offset + |text|)];
      j := j + 1;
    }
    assert ms == d.markers[..i + 1] + Shifted(d.markers[i + 1..], |text|);
    r := Value(d.bytes[..o] + text + d.bytes[o..], ms);
  }
}
