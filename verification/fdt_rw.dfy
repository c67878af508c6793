/** libfdt/fdt_rw.c: editing one property or node of a blob in place. */
module FdtRw {
  import opened Bytes
  import opened StructBlock
  import opened Concrete
  import opened Walking
  import opened FdtBase
  import opened Focus
  import opened FdtRo
  import opened BlockEdit
  import opened PropEdit
  import opened NodeEdit
  import opened TokenEdit
  import opened FdtWip
  import opened EditRoom
  import T = Tree

  // ---- fdt_setprop ---------------------------------------------------------------------------

  /** The property `p` at `o` of `s` has been given room for `len` bytes. */
  predicate Resized(s: seq<byte>, s2: seq<byte>, o: nat, p: CProp, len: u32) {
    && Opened(s, s2, o, |Enc(PTok(p))|, p.nameoff, len)
    && (|p.data| <= len ==> o + 12 + |p.data| <= |s2| && s2[o + 12..o + 12 + |p.data|] == p.data)
  }

  lemma ResizeDone(s: seq<byte>, s1: seq<byte>, s2: seq<byte>, o: nat, p: CProp, len: u32)
    requires TokenAt(s, o, PTok(p))
    requires Respliced(s, s1, o + 12, Align4(|p.data|), Align4(len))
    requires Overwritten(s1, s2, o + 4, BE32(len))
    ensures Resized(s, s2, o, p, len)
  {
    hide Enc, Align4, BE32, Respliced, Overwritten, Opened;
    EncProp(p.nameoff, p.data, p.pad);
    var n := |Enc(PTok(p))|;
    Slice(s, o, o + n, 0, 4);
    Slice(s, o, o + n, 8, 12);
    Slice(s, o, o + n, 12, 12 + |p.data|);
    ResizeOpens(s, s1, s2, o, |p.data|, p.nameoff, len);
    OpenedSize(s, s2, o, n, p.nameoff, len);
  }

  /** _fdt_resize_property. */
  method ResizeProperty(fdt: Fdt, nodeOffset: int, name: Name, len: nat, ghost pre: seq<Token>, ghost n: Cst, ghost post: seq<Token>)
    returns (err: int, prop: int)
    requires Ready(fdt) && Focused(fdt, pre, n, post) && AtNode(fdt, nodeOffset, pre) && len < 0x8000_0000
    modifies fdt`sizeDtStruct, fdt`offDtStrings, fdt.buf
    ensures Ready(fdt) && HeadKept(fdt) && fdt.Strs() == old(fdt.Strs())
    ensures err != 0 ==> fdt.S() == old(fdt.S()) && Room(fdt) == old(Room(fdt))
    ensures NodeCheck(old(fdt.S()), nodeOffset) < 0 ==> err == ERR_BADOFFSET
    ensures NodeCheck(old(fdt.S()), nodeOffset) >= 0 ==>
      var i := T.FindProp(DenProps(n.props, old(fdt.Strs())), name);
      if i == |n.props| then err == ERR_NOTFOUND else
      var p := n.props[i];
      && Answered(fdt, err, ResizeRoom(old(Gap(fdt)), |p.data|, len))
      && (err == 0 ==> prop == PropOff(pre, n, i) && Resized(old(fdt.S()), fdt.S(), prop, p, len))
  {
    hide EncAll, Enc, Toks, Named, Align4, BE32, Resized, T.FindProp, PropOff, DenProps, Fdt.Mem, Fdt.S, Fdt.Strs, TokenAt, ReadTag;
    var oldLen;
    prop, oldLen := GetProperty(fdt, nodeOffset, name, pre, n, post);
    if prop < 0 {
      return oldLen, prop;
    }
    err := ResizeAt(fdt, prop, oldLen, len, pre, n, post, T.FindProp(DenProps(n.props, fdt.Strs()), name));
  }

  /** The splice of a property's value and the store of its new length. */
  method ResizeAt(fdt: Fdt, prop: nat, oldLen: nat, len: nat, ghost pre: seq<Token>, ghost n: Cst, ghost post: seq<Token>, ghost i: nat)
    returns (err: int)
    requires Ready(fdt) && Focused(fdt, pre, n, post)
    requires i < |n.props| && prop == PropOff(pre, n, i) && oldLen == |n.props[i].data|
    modifies fdt`sizeDtStruct, fdt`offDtStrings, fdt.buf
    ensures Ready(fdt) && HeadKept(fdt) && fdt.Strs() == old(fdt.Strs())
    ensures Answered(fdt, err, ResizeRoom(old(Gap(fdt)), oldLen, len))
    ensures err != 0 ==> fdt.S() == old(fdt.S()) && Room(fdt) == old(Room(fdt))
    ensures err == 0 ==> len < 0x8000_0000 && Resized(old(fdt.S()), fdt.S(), prop, n.props[i], len)
  {
    hide EncAll, Enc, Toks, Named, Align4, BE32, Respliced, Overwritten, Resized, PropOff, Fdt.Mem, Fdt.S, Fdt.Strs, TokenAt, ReadTag;
    ghost var s := fdt.S();
    ReadySize(fdt);
    PropHere(fdt, pre, n, post, i);
    TokenAtSize(s, prop, n.props[i]);
    err := SpliceStruct(fdt, prop + 12, Align4(oldLen), Align4(len));
    if err == 0 {
      ghost var s1 := fdt.S();
      ReadySize(fdt);
      RespliceSize(s, s1, prop + 12, Align4(oldLen), Align4(len));
      PutStruct(fdt, prop + 4, BE32(len));
      ResizeDone(s, s1, fdt.S(), prop, n.props[i], len);
    }
  }

  lemma RespliceSize(s: seq<byte>, s2: seq<byte>, o: nat, oldLen: nat, newLen: nat)
    requires Respliced(s, s2, o, oldLen, newLen)
    ensures |s2| == |s| - oldLen + newLen && o + oldLen <= |s|
  {
  }

  lemma OpenedSize(s: seq<byte>, s2: seq<byte>, o: nat, oldSize: nat, nameoff: u32, len: u32)
    requires Opened(s, s2, o, oldSize, nameoff, len)
    ensures o + 12 + Align4(len) <= |s2|
  {
  }

  /** _fdt_add_property: a new first property, its value not yet written. */
  method AddProperty(fdt: Fdt, nodeOffset: int, name: Name, len: nat, ghost pre: seq<Token>, ghost n: Cst, ghost post: seq<Token>)
    returns (err: int, prop: int, nameoff: int)
    requires Ready(fdt) && Focused(fdt, pre, n, post) && AtNode(fdt, nodeOffset, pre) && len < 0x8000_0000
    modifies fdt`sizeDtStruct, fdt`offDtStrings, fdt`sizeDtStrings, fdt.buf
    ensures Ready(fdt) && HeadKept(fdt) && Grown(old(fdt.Strs()), fdt.Strs())
    ensures err != 0 ==> fdt.S() == old(fdt.S())
    ensures NodeCheck(old(fdt.S()), nodeOffset) < 0 ==> err == ERR_BADOFFSET
    ensures NodeCheck(old(fdt.S()), nodeOffset) >= 0 ==>
      && Answered(fdt, err, AddPropRoom(old(Gap(fdt)), name, len))
      && (err == 0 ==>
          && prop == Size(pre + HeadTo(n, 0)) && 0 <= nameoff < 0x8000_0000
          && StringAt(fdt.Strs(), nameoff) && CStr(fdt.Strs(), nameoff) == name
          && Opened(old(fdt.S()), fdt.S(), prop, 0, nameoff, len))
  {
    hide EncAll, Enc, Toks, Named, Align4, BE32, Respliced, Overwritten, Opened, PropOff, StringAt, CStr, ReadTag, Size, HeadTo, Fdt.Mem;
    prop, nameoff := 0, 0;
    var next := CheckNodeOffset(fdt, nodeOffset);
    if next < 0 {
      return next, prop, nameoff;
    }
    AtBegin(fdt, pre, n, post);
    HeadInBlock(fdt, pre, n, post);
    ghost var s := fdt.S();
    nameoff := FindAddString(fdt, name);
    if nameoff < 0 {
      return nameoff, prop, nameoff;
    }
    prop := next;
    err := SpliceStruct(fdt, prop, 0, 12 + Align4(len));
    if err == 0 {
      PutPropHeader(fdt, prop, nameoff, len, s);
    }
  }

  /** The three fields of struct fdt_property, stored into fresh room. */
  method PutPropHeader(fdt: Fdt, o: nat, nameoff: u32, len: u32, ghost s: seq<byte>)
    requires Ready(fdt) && Respliced(s, fdt.S(), o, 0, 12 + Align4(len))
    modifies fdt.buf
    ensures Ready(fdt) && HeadKept(fdt) && fdt.Strs() == old(fdt.Strs())
    ensures Opened(s, fdt.S(), o, 0, nameoff, len)
  {
    hide Align4, BE32, Respliced, Overwritten, Opened, Fdt.Mem;
    ghost var s1 := fdt.S();
    RespliceSize(s, s1, o, 0, 12 + Align4(len));
    PutStruct(fdt, o, BE32(FDT_PROP));
    ghost var s2 := fdt.S();
    PutStruct(fdt, o + 8, BE32(nameoff));
    ghost var s3 := fdt.S();
    PutStruct(fdt, o + 4, BE32(len));
    AddOpens(s, s1, s2, s3, fdt.S(), o, nameoff, len);
  }

  lemma HeadInBlock(fdt: Fdt, pre: seq<Token>, n: Cst, post: seq<Token>)
    requires Focused(fdt, pre, n, post)
    ensures Size(pre + HeadTo(n, 0)) <= |fdt.S()|
  {
    hide EncAll, Toks, Named, HeadTo, TailFrom;
    AfterHead(pre, n, post, 0);
    EncAllConcat(pre + HeadTo(n, 0), TailFrom(n, 0) + post);
  }

  /** Storing (the rest of) the value completes the property. */
  lemma StoreDone(s: seq<byte>, s2: seq<byte>, s3: seq<byte>, o: nat, oldSize: nat, nameoff: u32, data: Data, k: nat)
    returns (pad: Pad)
    requires Opened(s, s2, o, oldSize, nameoff, |data|) && k <= |data|
    requires s2[o + 12..o + 12 + k] == data[..k]
    requires Overwritten(s2, s3, o + 12 + k, data[k..])
    ensures s3 == s[..o] + Enc(Prop(nameoff, data, pad)) + s[o + oldSize..]
  {
    hide Enc, Align4, BE32;
    Align4Up(|data|);
    var d, n := data[k..], o + 12 + Align4(|data|);
    OverHere(s2, s3, o + 12 + k, d);
    OverKeeps(s2, s3, o + 12 + k, d, 0, o + 12);
    OverKeeps(s2, s3, o + 12 + k, d, o + 12, o + 12 + k);
    OverKeeps(s2, s3, o + 12 + k, d, n, |s2|);
    SliceJoin(s3, o + 12, o + 12 + k, o + 12 + |data|);
    assert data == data[..k] + data[k..];
    pad := FillProp(s, s2, s3, o, oldSize, nameoff, data);
  }

  lemma OverNothing(s: seq<byte>, o: nat)
    requires o <= |s|
    ensures Overwritten(s, s, o, [])
  {
  }

  /** A property whose value has been stored, at the level of the blob. */
  lemma ReplacedFocus(fdt: Fdt, s: seq<byte>, s2: seq<byte>, pre: seq<Token>, n: Cst, post: seq<Token>,
                      i: nat, name: Name, data: Data, k: nat) returns (n2: Cst)
    requires Ready(fdt) && Ended(post)
    requires EncAll(pre + Toks(n) + post) <= s && Named(pre + Toks(n) + post, fdt.Strs())
    requires i < |n.props| && i == T.FindProp(DenProps(n.props, fdt.Strs()), name)
    requires TokenAt(s, PropOff(pre, n, i), PTok(n.props[i])) && StringAt(fdt.Strs(), n.props[i].nameoff)
    requires Resized(s, s2, PropOff(pre, n, i), n.props[i], |data|)
    requires k <= |data| && PropOff(pre, n, i) + 12 + k <= |s2|
    requires s2[PropOff(pre, n, i) + 12..PropOff(pre, n, i) + 12 + k] == data[..k]
    requires Overwritten(s2, fdt.S(), PropOff(pre, n, i) + 12 + k, data[k..])
    ensures Focused(fdt, pre, n2, post)
    ensures Den(n2, fdt.Strs()) == T.SetProp(Den(n, fdt.Strs()), name, data)
  {
    hide EncAll, Enc, Toks, Named, Den, T.SetProp, T.FindProp, PropOff, Opened, Overwritten, StringAt;
    var was, o := n.props[i], PropOff(pre, n, i);
    var pad := StoreDone(s, s2, fdt.S(), o, |Enc(PTok(was))|, was.nameoff, data, k);
    var p := CProp(was.nops, was.nameoff, data, pad);
    n2 := n.(props := n.props[i := p]);
    ReplacedInBlock(s, fdt.S(), pre, n, post, i, p);
    NamedReplaced(pre, n, post, i, p, fdt.Strs());
    DenReplaceProp(n, i, p, fdt.Strs(), name);
  }

  lemma PrependedFocus(fdt: Fdt, s: seq<byte>, s2: seq<byte>, pre: seq<Token>, n: Cst, post: seq<Token>,
                       nameoff: u32, name: Name, data: Data) returns (n2: Cst)
    requires Ready(fdt) && Ended(post)
    requires EncAll(pre + Toks(n) + post) <= s && Named(pre + Toks(n) + post, fdt.Strs())
    requires T.FindProp(DenProps(n.props, fdt.Strs()), name) == |n.props|
    requires StringAt(fdt.Strs(), nameoff) && CStr(fdt.Strs(), nameoff) == name
    requires Opened(s, s2, Size(pre + HeadTo(n, 0)), 0, nameoff, |data|)
    requires Overwritten(s2, fdt.S(), Size(pre + HeadTo(n, 0)) + 12, data)
    ensures Focused(fdt, pre, n2, post)
    ensures Den(n2, fdt.Strs()) == T.SetProp(Den(n, fdt.Strs()), name, data)
  {
    hide EncAll, Enc, Toks, Named, Den, T.SetProp, T.FindProp, HeadTo, Overwritten, StringAt, CStr, Fdt.S, Fdt.Strs, Fdt.Mem, Align4, DenProps;
    var o := Size(pre + HeadTo(n, 0));
    OpenedRoom(s, s2, o, CProp(0, 0, [], [0, 0, 0]), nameoff, |data|);
    assert data[0..] == data;
    assert s2[o + 12..o + 12 + 0] == data[..0];
    var pad := StoreDone(s, s2, fdt.S(), o, 0, nameoff, data, 0);
    var p := CProp(0, nameoff, data, pad);
    n2 := n.(props := [p] + n.props);
    PrependedInBlock(s, fdt.S(), pre, n, post, p);
    NamedPrepended(pre, n, post, p, fdt.Strs());
    DenPrependProp(n, p, fdt.Strs(), name);
  }

  lemma OpenedRoom(s: seq<byte>, s2: seq<byte>, o: nat, p: CProp, nameoff: u32, len: u32)
    requires Resized(s, s2, o, p, len) || Opened(s, s2, o, 0, nameoff, len)
    ensures o + 12 + len <= |s2|
  {
  }

  /** After a failed edit the focus is what it was, up to strings added to the table. */
  lemma FailedEdit(fdt: Fdt, tab: seq<byte>, pre: seq<Token>, n: Cst, post: seq<Token>)
    requires fdt.Layout() && Ended(post)
    requires EncAll(pre + Toks(n) + post) <= fdt.S()
    requires Named(pre + Toks(n) + post, tab) && Named(Toks(n), tab) && Grown(tab, fdt.Strs())
    ensures Focused(fdt, pre, n, post) && Den(n, fdt.Strs()) == Den(n, tab)
  {
    hide EncAll, Toks, Named, Den, Grown;
    FocusGrown(pre + Toks(n) + post, n, tab, fdt.Strs());
  }

  /** What every edit of one node answers and keeps. */
  twostate predicate EditFrame(fdt: Fdt, nodeOffset: int, err: int)
    requires old(fdt.Layout()) && fdt.Layout()
    reads fdt, fdt.buf
  {
    && HeadKept(fdt) && Grown(old(fdt.Strs()), fdt.Strs())
    && (err != 0 ==> fdt.S() == old(fdt.S()))
    && (old(RwHeader(fdt)) != 0 ==> err == old(RwHeader(fdt)) == RwHeader(fdt) && fdt.CheckHeader() == old(fdt.CheckHeader()))
    && (old(RwHeader(fdt)) == 0 ==> Ready(fdt))
    && (old(RwHeader(fdt)) == 0 && NodeCheck(old(fdt.S()), nodeOffset) < 0 ==> err == ERR_BADOFFSET)
  }

  /** Room for `len` bytes of value stands at `prop`: in place of property `i` of the node in focus
      or, when there is no such property, as a new first one. */
  ghost predicate RoomMade(tab: seq<byte>, s: seq<byte>, s2: seq<byte>, pre: seq<Token>, n: Cst, i: nat,
                           prop: int, nameoff: int, name: Name, len: u32)
  {
    && prop >= 0 && prop + 12 + len <= |s2|
    && if i < |n.props| then prop == PropOff(pre, n, i) && Resized(s, s2, prop, n.props[i], len)
       else
         && prop == Size(pre + HeadTo(n, 0)) && 0 <= nameoff < 0x8000_0000
         && StringAt(tab, nameoff) && CStr(tab, nameoff) == name
         && Opened(s, s2, prop, 0, nameoff, len)
  }

  /** The part fdt_setprop and fdt_appendprop share: resize the property, or add it. */
  method MakeRoom(fdt: Fdt, nodeOffset: int, name: Name, len: nat, ghost pre: seq<Token>, ghost n: Cst, ghost post: seq<Token>)
    returns (err: int, prop: int, ghost nameoff: int)
    requires Ready(fdt) && Focused(fdt, pre, n, post) && AtNode(fdt, nodeOffset, pre) && len < 0x8000_0000
    modifies fdt`sizeDtStruct, fdt`offDtStrings, fdt`sizeDtStrings, fdt.buf
    ensures Ready(fdt) && HeadKept(fdt) && Grown(old(fdt.Strs()), fdt.Strs())
    ensures err != 0 ==> fdt.S() == old(fdt.S())
    ensures NodeCheck(old(fdt.S()), nodeOffset) < 0 ==> err == ERR_BADOFFSET
    ensures NodeCheck(old(fdt.S()), nodeOffset) >= 0 ==>
              Answered(fdt, err, PropRoom(old(Gap(fdt)), DenProps(n.props, old(fdt.Strs())), name, len))
    ensures err == 0 ==> RoomMade(fdt.Strs(), old(fdt.S()), fdt.S(), pre, n, T.FindProp(DenProps(n.props, old(fdt.Strs())), name),
                                  prop, nameoff, name, len)
  {
    hide EncAll, Enc, Toks, Named, T.FindProp, PropOff, Opened, StringAt, CStr, Fdt.Mem, Fdt.S, Fdt.Strs, Align4, HeadTo, Resized, DenProps, ReadTag;
    ghost var s, i := fdt.S(), T.FindProp(DenProps(n.props, fdt.Strs()), name);
    FocusParts(fdt, pre, n, post);
    ghost var tab := fdt.Strs();
    err, prop := ResizeProperty(fdt, nodeOffset, name, len, pre, n, post);
    nameoff := 0;
    if err == ERR_NOTFOUND {
      FailedEdit(fdt, tab, pre, n, post);
      err, prop, nameoff := AddProperty(fdt, nodeOffset, name, len, pre, n, post);
      if err == 0 {
        OpenedRoom(s, fdt.S(), prop, CProp(0, 0, [], [0, 0, 0]), nameoff, len);
      }
    } else if err == 0 {
      OpenedRoom(s, fdt.S(), prop, n.props[i], 0, len);
    }
  }

  /** The value stored into the room made for it. */
  lemma RoomFilled(fdt: Fdt, tab: seq<byte>, s: seq<byte>, s2: seq<byte>, pre: seq<Token>, n: Cst, post: seq<Token>,
                   prop: int, nameoff: int, name: Name, data: Data, k: nat) returns (n2: Cst)
    requires Ready(fdt) && Ended(post) && EncAll(pre + Toks(n) + post) <= s
    requires Named(pre + Toks(n) + post, tab) && Named(Toks(n), tab) && Grown(tab, fdt.Strs())
    requires RoomMade(fdt.Strs(), s, s2, pre, n, T.FindProp(DenProps(n.props, tab), name), prop, nameoff, name, |data|)
    requires var i := T.FindProp(DenProps(n.props, tab), name);
      i < |n.props| ==> TokenAt(s, PropOff(pre, n, i), PTok(n.props[i])) && StringAt(fdt.Strs(), n.props[i].nameoff)
    requires k <= |data| && s2[prop + 12..prop + 12 + k] == data[..k]
    requires T.FindProp(DenProps(n.props, tab), name) == |n.props| ==> k == 0
    requires Overwritten(s2, fdt.S(), prop + 12 + k, data[k..])
    ensures Focused(fdt, pre, n2, post)
    ensures Den(n2, fdt.Strs()) == T.SetProp(Den(n, tab), name, data)
  {
    hide EncAll, Enc, Toks, Named, T.SetProp, T.FindProp, PropOff, Opened, Overwritten, StringAt, CStr, Fdt.S, Fdt.Strs, HeadTo, Resized, TokenAt, DenProps;
    var i := T.FindProp(DenProps(n.props, tab), name);
    FocusGrown(pre + Toks(n) + post, n, tab, fdt.Strs());
    assert DenProps(n.props, tab) == Den(n, tab).props == Den(n, fdt.Strs()).props == DenProps(n.props, fdt.Strs());
    if i < |n.props| {
      n2 := ReplacedFocus(fdt, s, s2, pre, n, post, i, name, data, k);
    } else {
      assert data[0..] == data;
      n2 := PrependedFocus(fdt, s, s2, pre, n, post, nameoff, name, data);
    }
  }

  /** memcpy of `d`, the value `data` from byte `k` on, into the room made for it. */
  method FillRoom(fdt: Fdt, prop: nat, k: nat, d: seq<byte>, ghost data: Data, ghost tab: seq<byte>, ghost s: seq<byte>,
                  ghost pre: seq<Token>, ghost n: Cst, ghost post: seq<Token>, ghost nameoff: int, ghost name: Name)
    returns (ghost n2: Cst)
    requires Ready(fdt) && Ended(post) && EncAll(pre + Toks(n) + post) <= s
    requires Named(pre + Toks(n) + post, tab) && Named(Toks(n), tab) && Grown(tab, fdt.Strs())
    requires RoomMade(fdt.Strs(), s, fdt.S(), pre, n, T.FindProp(DenProps(n.props, tab), name), prop, nameoff, name, |data|)
    requires var i := T.FindProp(DenProps(n.props, tab), name);
      i < |n.props| ==> TokenAt(s, PropOff(pre, n, i), PTok(n.props[i])) && StringAt(tab, n.props[i].nameoff)
    requires k <= |data| && data[k..] == d && prop + 12 + k <= |fdt.S()| && fdt.S()[prop + 12..prop + 12 + k] == data[..k]
    requires T.FindProp(DenProps(n.props, tab), name) == |n.props| ==> k == 0
    modifies fdt.buf
    ensures Ready(fdt) && HeadKept(fdt) && fdt.Strs() == old(fdt.Strs())
    ensures Focused(fdt, pre, n2, post)
    ensures Den(n2, fdt.Strs()) == T.SetProp(Den(n, tab), name, data)
  {
    hide EncAll, Enc, Toks, Named, Den, T.SetProp, T.FindProp, PropOff, Overwritten, StringAt, Fdt.Mem, Fdt.S, Fdt.Strs, Align4, HeadTo, TokenAt, DenProps, Resized, Opened, CStr;
    ghost var s2, i := fdt.S(), T.FindProp(DenProps(n.props, tab), name);
    if i < |n.props| {
      StringGrown(tab, fdt.Strs(), n.props[i].nameoff);
    }
    ReadySize(fdt);
    OverNothing(s2, prop + 12 + k);
    if |d| != 0 {
      PutStruct(fdt, prop + 12 + k, d);
    }
    n2 := RoomFilled(fdt, tab, s, s2, pre, n, post, prop, nameoff, name, data, k);
  }

  lemma RoomFacts(fdt: Fdt, pre: seq<Token>, n: Cst, post: seq<Token>, i: nat)
    requires Focused(fdt, pre, n, post)
    ensures i < |n.props| ==>
      && TokenAt(fdt.S(), PropOff(pre, n, i), PTok(n.props[i])) && StringAt(fdt.Strs(), n.props[i].nameoff)
      && PropertyAt(fdt.S(), PropOff(pre, n, i), n.props[i].nameoff, n.props[i].data)
  {
    hide EncAll, Enc, Toks, Named, PropOff, StringAt, TokenAt, PropertyAt;
    if i < |n.props| {
      PropFields(fdt, pre, n, post, i);
      PropHere(fdt, pre, n, post, i);
    }
  }

  /** fdt_setprop: the node in focus becomes SetProp of itself, and nothing else changes; on an
      error nothing but the string table may have grown. */
  method SetProp(fdt: Fdt, nodeOffset: int, name: Name, val: Data, ghost pre: seq<Token>, ghost n: Cst, ghost post: seq<Token>)
    returns (err: int, ghost n2: Cst)
    requires Focused(fdt, pre, n, post) && AtNode(fdt, nodeOffset, pre)
    modifies fdt, fdt.buf
    ensures fdt.Layout() && EditFrame(fdt, nodeOffset, err)
    ensures NodeCheck(old(fdt.S()), nodeOffset) >= 0 ==>
              Answered(fdt, err, PropRoom(old(SpaceOf(fdt)), Den(n, old(fdt.Strs())).props, name, |val|))
    ensures Focused(fdt, pre, n2, post)
    ensures Den(n2, fdt.Strs()) ==
            if err == 0 then T.SetProp(Den(n, old(fdt.Strs())), name, val) else Den(n, old(fdt.Strs()))
  {
    hide EncAll, Enc, Toks, Named, Den, T.SetProp, T.FindProp, PropOff, Overwritten, StringAt, Fdt.Mem, Fdt.S, Fdt.Strs, Align4, HeadTo, TokenAt, DenProps, ReadTag, PropertyAt, Resized, Opened, CStr, PropRoom;
    n2 := n;
    ghost var s, tab, i := fdt.S(), fdt.Strs(), T.FindProp(DenProps(n.props, fdt.Strs()), name);
    FocusParts(fdt, pre, n, post);
    RoomFacts(fdt, pre, n, post, i);
    DenDef(n, tab);
    PropRoomShut(SpaceOf(fdt), DenProps(n.props, tab), name, |val|);
    err := RwCheckHeader(fdt);
    if err != 0 {
      FailedEdit(fdt, tab, pre, n, post);
      return;
    }
    FailedEdit(fdt, tab, pre, n, post);
    var prop;
    ghost var nameoff;
    err, prop, nameoff := MakeRoom(fdt, nodeOffset, name, |val|, pre, n, post);
    if err != 0 {
      FailedEdit(fdt, tab, pre, n, post);
      return;
    }
    n2 := FillRoom(fdt, prop, 0, val, val, tab, s, pre, n, post, nameoff, name);
  }

  lemma StringGrown(tab: seq<byte>, tab2: seq<byte>, off: nat)
    requires StringAt(tab, off) && Grown(tab, tab2)
    ensures StringAt(tab2, off)
  {
    assert tab2 == tab + tab2[|tab|..];
    CStrAppend(tab, tab2[|tab|..], off);
  }

  /** fdt_appendprop where the property is there: its value grows at the end. */
  method ExtendValue(fdt: Fdt, prop: nat, oldLen: nat, name: Name, val: Data, ghost pre: seq<Token>, ghost n: Cst, ghost post: seq<Token>, ghost i: nat)
    returns (err: int, ghost n2: Cst)
    requires Ready(fdt) && Focused(fdt, pre, n, post)
    requires i < |n.props| && i == T.FindProp(DenProps(n.props, fdt.Strs()), name)
    requires prop == PropOff(pre, n, i) && oldLen == |n.props[i].data|
    modifies fdt`sizeDtStruct, fdt`offDtStrings, fdt.buf
    ensures Ready(fdt) && HeadKept(fdt) && fdt.Strs() == old(fdt.Strs())
    ensures Answered(fdt, err, ResizeRoom(old(Gap(fdt)), oldLen, oldLen + |val|))
    ensures err != 0 ==> fdt.S() == old(fdt.S()) && n2 == n
    ensures Focused(fdt, pre, n2, post)
    ensures err == 0 ==>
      && |n.props[i].data + val| < 0x8000_0000
      && Den(n2, fdt.Strs()) == T.SetProp(Den(n, fdt.Strs()), name, n.props[i].data + val)
  {
    hide EncAll, Enc, Toks, Named, Den, T.SetProp, T.FindProp, PropOff, StringAt, Fdt.Mem, Fdt.S, Fdt.Strs, Align4, HeadTo, TokenAt, DenProps, PropertyAt, Opened, CStr;
    n2 := n;
    ghost var s, tab := fdt.S(), fdt.Strs();
    FocusParts(fdt, pre, n, post);
    RoomFacts(fdt, pre, n, post, i);
    err := ResizeAt(fdt, prop, oldLen, oldLen + |val|, pre, n, post, i);
    if err != 0 {
      FailedEdit(fdt, tab, pre, n, post);
      return;
    }
    OpenedRoom(s, fdt.S(), prop, n.props[i], 0, oldLen + |val|);
    n2 := FillRoom(fdt, prop, oldLen, val, n.props[i].data + val, tab, s, pre, n, post, 0, name);
  }

  /** fdt_appendprop where the property is new. */
  method AppendNew(fdt: Fdt, nodeOffset: int, name: Name, val: Data, ghost pre: seq<Token>, ghost n: Cst, ghost post: seq<Token>)
    returns (err: int, ghost n2: Cst)
    requires Ready(fdt) && Focused(fdt, pre, n, post) && AtNode(fdt, nodeOffset, pre)
    requires NodeCheck(fdt.S(), nodeOffset) >= 0 ==> T.FindProp(DenProps(n.props, fdt.Strs()), name) == |n.props|
    modifies fdt`sizeDtStruct, fdt`offDtStrings, fdt`sizeDtStrings, fdt.buf
    ensures Ready(fdt) && HeadKept(fdt) && Grown(old(fdt.Strs()), fdt.Strs())
    ensures if NodeCheck(old(fdt.S()), nodeOffset) < 0 then err == ERR_BADOFFSET
            else Answered(fdt, err, AddPropRoom(old(Gap(fdt)), name, |val|))
    ensures err != 0 ==> fdt.S() == old(fdt.S())
    ensures Focused(fdt, pre, n2, post)
    ensures Den(n2, fdt.Strs()) ==
            if err == 0 then T.SetProp(Den(n, old(fdt.Strs())), name, val) else Den(n, old(fdt.Strs()))
  {
    hide EncAll, Enc, Toks, Named, Den, T.SetProp, T.FindProp, PropOff, StringAt, Fdt.Mem, Fdt.S, Fdt.Strs, Align4, HeadTo, TokenAt, DenProps, Opened, Resized, CStr, AddPropRoom;
    n2 := n;
    ghost var s, tab := fdt.S(), fdt.Strs();
    FocusParts(fdt, pre, n, post);
    var prop, nameoff;
    err, prop, nameoff := AddProperty(fdt, nodeOffset, name, |val|, pre, n, post);
    if err != 0 {
      FailedEdit(fdt, tab, pre, n, post);
      return;
    }
    OpenedRoom(s, fdt.S(), prop, CProp(0, 0, [], [0, 0, 0]), nameoff, |val|);
    assert val[..0] == [];
    n2 := FillRoom(fdt, prop, 0, val, val, tab, s, pre, n, post, nameoff, name);
  }

  /** fdt_appendprop: the value is added at the end of the property's own, or makes a new one. */
  method AppendProp(fdt: Fdt, nodeOffset: int, name: Name, val: Data, ghost pre: seq<Token>, ghost n: Cst, ghost post: seq<Token>)
    returns (err: int, ghost n2: Cst)
    requires Focused(fdt, pre, n, post) && AtNode(fdt, nodeOffset, pre)
    modifies fdt, fdt.buf
    ensures fdt.Layout() && EditFrame(fdt, nodeOffset, err)
    ensures NodeCheck(old(fdt.S()), nodeOffset) >= 0 ==>
      var t := Den(n, old(fdt.Strs()));
      Answered(fdt, err, PropRoom(old(SpaceOf(fdt)), t.props, name, |T.ValueOf(t, name)| + |val|))
    ensures Focused(fdt, pre, n2, post)
    ensures var t := Den(n, old(fdt.Strs()));
      if err != 0 then Den(n2, fdt.Strs()) == t
      else
        && |T.ValueOf(t, name)| + |val| < 0x8000_0000
        && Den(n2, fdt.Strs()) == T.SetProp(t, name, T.ValueOf(t, name) + val)
  {
    hide EncAll, Enc, Toks, Named, Den, T.SetProp, T.FindProp, T.ValueOf, PropOff, StringAt, Fdt.Mem, Fdt.S, Fdt.Strs, Align4, HeadTo, TokenAt, DenProps, ReadTag, PropertyAt, Opened, CStr, PropRoom, ResizeRoom, AddPropRoom;
    n2 := n;
    ghost var tab, t, i := fdt.Strs(), Den(n, fdt.Strs()), T.FindProp(DenProps(n.props, fdt.Strs()), name);
    FocusParts(fdt, pre, n, post);
    RoomFacts(fdt, pre, n, post, i);
    ValueThere(n, tab, name, val, Gap(fdt));
    PropRoomShut(SpaceOf(fdt), t.props, name, |T.ValueOf(t, name)| + |val|);
    err := RwCheckHeader(fdt);
    FailedEdit(fdt, tab, pre, n, post);
    if err != 0 {
      return;
    }
    var prop, oldLen := GetProperty(fdt, nodeOffset, name, pre, n, post);
    if prop >= 0 {
      err, n2 := ExtendValue(fdt, prop, oldLen, name, val, pre, n, post, i);
    } else {
      err, n2 := AppendNew(fdt, nodeOffset, name, val, pre, n, post);
    }
  }

  /** The value that is appended to, and the room that takes. */
  lemma ValueThere(n: Cst, tab: seq<byte>, name: Name, val: Data, sp: Space)
    ensures var t := Den(n, tab);
      var i := T.FindProp(DenProps(n.props, tab), name);
      && T.ValueOf(t, name) == (if i < |n.props| then n.props[i].data else [])
      && (i == |n.props| ==> T.ValueOf(t, name) + val == val)
      && PropRoom(sp, t.props, name, |T.ValueOf(t, name)| + |val|)
         == if i < |n.props| then ResizeRoom(sp, |n.props[i].data|, |n.props[i].data| + |val|) else AddPropRoom(sp, name, |val|)
  {
    hide Den;
    DenDef(n, tab);
  }

  // ---- fdt_delprop, fdt_del_node ---------------------------------------------------------------

  /** A run of tokens cut out of the block. */
  lemma ClosedInBlock(s: seq<byte>, s2: seq<byte>, a: seq<Token>, mid: seq<Token>, b: seq<Token>)
    requires EncAll(a + mid + b) <= s && Respliced(s, s2, Size(a), Size(mid), 0)
    ensures EncAll(a + [] + b) <= s2
  {
    SizeNil();
    hide EncAll;
    assert s2 == s2[..Size(a)] + s2[Size(a)..];
    SwapTokens(s, s2, a, mid, b, []);
  }

  lemma NamedEmpty(tab: seq<byte>)
    ensures Named([], tab)
  {
  }

  /** fdt_delprop. */
  method DelProp(fdt: Fdt, nodeOffset: int, name: Name, ghost pre: seq<Token>, ghost n: Cst, ghost post: seq<Token>)
    returns (err: int, ghost n2: Cst)
    requires Focused(fdt, pre, n, post) && AtNode(fdt, nodeOffset, pre)
    modifies fdt, fdt.buf
    ensures fdt.Layout() && EditFrame(fdt, nodeOffset, err) && fdt.Strs() == old(fdt.Strs())
    ensures Focused(fdt, pre, n2, post)
    ensures err != 0 ==> n2 == n
    ensures old(RwHeader(fdt)) == 0 && NodeCheck(old(fdt.S()), nodeOffset) >= 0 ==>
      var t := Den(n, fdt.Strs());
      var i := T.FindProp(t.props, name);
      if i == |t.props| then err == ERR_NOTFOUND
      else err == 0 && Den(n2, fdt.Strs()) == T.DelProp(t, i)
  {
    hide EncAll, Enc, Toks, Named, T.FindProp, T.DelProp, PropOff, Respliced, StringAt, Fdt.Mem, Fdt.S, Fdt.Strs, TokenAt, ReadTag, WithoutProp, Align4;
    n2 := n;
    ghost var tab := fdt.Strs();
    FocusParts(fdt, pre, n, post);
    err := RwCheckHeader(fdt);
    FailedEdit(fdt, tab, pre, n, post);
    if err != 0 {
      return;
    }
    var prop, len;
    prop, len := GetProperty(fdt, nodeOffset, name, pre, n, post);
    if prop < 0 {
      return len, n2;
    }
    ghost var s, i := fdt.S(), T.FindProp(DenProps(n.props, fdt.Strs()), name);
    PropHere(fdt, pre, n, post, i);
    TokenSize(s, prop, n.props[i]);
    ReadySize(fdt);
    err := SpliceStruct(fdt, prop, 12 + Align4(len), 0);
    n2 := CutPropFocus(fdt, s, pre, n, post, i);
  }

  lemma TokenSize(s: seq<byte>, o: nat, p: CProp)
    requires TokenAt(s, o, PTok(p))
    ensures o + |Enc(PTok(p))| <= |s| && |Enc(PTok(p))| == 12 + Align4(|p.data|)
  {
    EncProp(p.nameoff, p.data, p.pad);
  }

  lemma CutPropFocus(fdt: Fdt, s: seq<byte>, pre: seq<Token>, n: Cst, post: seq<Token>, i: nat) returns (n2: Cst)
    requires fdt.Layout() && Ended(post) && i < |n.props|
    requires EncAll(pre + Toks(n) + post) <= s && Named(pre + Toks(n) + post, fdt.Strs())
    requires Respliced(s, fdt.S(), PropOff(pre, n, i), |Enc(PTok(n.props[i]))|, 0)
    ensures Focused(fdt, pre, n2, post)
    ensures Den(n2, fdt.Strs()) == T.DelProp(Den(n, fdt.Strs()), i)
  {
    hide EncAll, Enc, Toks, Named, PropPre, TailFrom, Respliced, Fdt.S, Fdt.Strs, Fdt.Mem, T.DelProp, Den, Nops, WithoutProp, PTok;
    var a, b, t := pre + PropPre(n, i), PropPost(n, i) + post, PTok(n.props[i]);
    n2 := WithoutProp(n, i, 0);
    FocusProp(pre, n, post, i);
    WithoutPropToks(n, i, 0);
    NoNops();
    assert pre + Toks(n2) + post == a + [] + b;
    EncOne(t);
    ClosedInBlock(s, fdt.S(), a, [t], b);
    NamedEmpty(fdt.Strs());
    NamedSwap(a, [t], b, [], fdt.Strs());
    WithoutPropDen(n, i, 0, fdt.Strs());
  }

  /** fdt_del_node on child `i` of the node in focus. */
  method DelNode(fdt: Fdt, nodeOffset: int, ghost pre: seq<Token>, ghost n: Cst, ghost post: seq<Token>, ghost i: nat)
    returns (err: int, ghost n2: Cst)
    requires Focused(fdt, pre, n, post) && i < |n.kids| && nodeOffset >= 0
    requires NodeCheck(fdt.S(), nodeOffset) < 0 || nodeOffset == KidOff(pre, n, i)
    modifies fdt, fdt.buf
    ensures fdt.Layout() && EditFrame(fdt, nodeOffset, err) && fdt.Strs() == old(fdt.Strs())
    ensures Focused(fdt, pre, n2, post)
    ensures err != 0 ==> n2 == n
    ensures old(RwHeader(fdt)) == 0 && NodeCheck(old(fdt.S()), nodeOffset) >= 0 ==>
              err == 0 && Den(n2, fdt.Strs()) == T.DelKid(Den(n, fdt.Strs()), i)
  {
    hide EncAll, Enc, Toks, Named, T.DelKid, KidPre, KidPost, Respliced, Fdt.Mem, Fdt.S, Fdt.Strs, ReadTag, WithoutKid, Den;
    n2 := n;
    ghost var tab := fdt.Strs();
    FocusParts(fdt, pre, n, post);
    err := RwCheckHeader(fdt);
    FailedEdit(fdt, tab, pre, n, post);
    if err != 0 {
      return;
    }
    KidFocused(fdt, pre, n, post, i);
    var end := NodeEndOffset(fdt, nodeOffset, pre + KidPre(n, i), n.kids[i], KidPost(n, i) + post);
    if end < 0 {
      return end, n2;
    }
    ghost var s := fdt.S();
    ghost var k := NodeRoom(fdt, pre, n, post, i);
    err := SpliceStruct(fdt, nodeOffset, end - nodeOffset, 0);
    n2 := CutKidFocus(fdt, s, pre, n, post, i);
  }

  lemma CutKidFocus(fdt: Fdt, s: seq<byte>, pre: seq<Token>, n: Cst, post: seq<Token>, i: nat) returns (n2: Cst)
    requires fdt.Layout() && Ended(post) && i < |n.kids|
    requires EncAll(pre + Toks(n) + post) <= s && Named(pre + Toks(n) + post, fdt.Strs())
    requires Respliced(s, fdt.S(), KidOff(pre, n, i), Size(Toks(n.kids[i])), 0)
    ensures Focused(fdt, pre, n2, post)
    ensures Den(n2, fdt.Strs()) == T.DelKid(Den(n, fdt.Strs()), i)
  {
    hide EncAll, Toks, Named, KidPre, KidPost, Respliced, Fdt.S, Fdt.Strs, Fdt.Mem, T.DelKid, Den, Nops, WithoutKid;
    var a, b, t := pre + KidPre(n, i), KidPost(n, i) + post, Toks(n.kids[i]);
    n2 := WithoutKid(n, i, 0);
    FocusKid(pre, n, post, i);
    WithoutKidToks(n, i, 0);
    NoNops();
    assert pre + Toks(n2) + post == a + [] + b;
    ClosedInBlock(s, fdt.S(), a, t, b);
    NamedEmpty(fdt.Strs());
    NamedSwap(a, t, b, [], fdt.Strs());
    WithoutKidDen(n, i, 0, fdt.Strs());
  }

  // ---- fdt_set_name --------------------------------------------------------------------------

  /** The splice of a node's name and the store of the new one. */
  method Rename(fdt: Fdt, nodeOffset: nat, oldLen: nat, name: Name, ghost pre: seq<Token>, ghost n: Cst, ghost post: seq<Token>)
    returns (err: int, ghost n2: Cst)
    requires Ready(fdt) && Focused(fdt, pre, n, post) && nodeOffset == Size(pre) && oldLen == |n.name|
    modifies fdt`sizeDtStruct, fdt`offDtStrings, fdt.buf
    ensures Ready(fdt) && HeadKept(fdt) && fdt.Strs() == old(fdt.Strs())
    ensures Answered(fdt, err, RenameRoom(old(Gap(fdt)), n.name, name))
    ensures Focused(fdt, pre, n2, post)
    ensures err != 0 ==> n2 == n && fdt.S() == old(fdt.S())
    ensures err == 0 ==> Den(n2, fdt.Strs()) == Den(n, fdt.Strs()).(name := name)
  {
    hide EncAll, Enc, Toks, Named, Respliced, Overwritten, Fdt.Mem, Fdt.S, Fdt.Strs, TokenAt, ReadTag, Align4, Den;
    n2 := n;
    ghost var tab, s := fdt.Strs(), fdt.S();
    FocusParts(fdt, pre, n, post);
    BeginHere(fdt, pre, n, post);
    BeginShape(s, nodeOffset, n.name, n.pad);
    ReadySize(fdt);
    err := SpliceStruct(fdt, nodeOffset + 4, Align4(oldLen + 1), Align4(|name| + 1));
    if err != 0 {
      FailedEdit(fdt, tab, pre, n, post);
      return;
    }
    ghost var s1 := fdt.S();
    RespliceSize(s, s1, nodeOffset + 4, Align4(oldLen + 1), Align4(|name| + 1));
    ReadySize(fdt);
    Align4Up(|name| + 1);
    PutStruct(fdt, nodeOffset + 4, name + [0]);
    n2 := RenamedFocus(fdt, s, s1, pre, n, post, name);
  }

  /** fdt_set_name. */
  method SetName(fdt: Fdt, nodeOffset: int, name: Name, ghost pre: seq<Token>, ghost n: Cst, ghost post: seq<Token>)
    returns (err: int, ghost n2: Cst)
    requires Focused(fdt, pre, n, post) && AtNode(fdt, nodeOffset, pre)
    modifies fdt, fdt.buf
    ensures fdt.Layout() && EditFrame(fdt, nodeOffset, err) && fdt.Strs() == old(fdt.Strs())
    ensures NodeCheck(old(fdt.S()), nodeOffset) >= 0 ==> Answered(fdt, err, RenameRoom(old(SpaceOf(fdt)), n.name, name))
    ensures Focused(fdt, pre, n2, post)
    ensures err != 0 ==> n2 == n
    ensures err == 0 ==> Den(n2, fdt.Strs()) == Den(n, fdt.Strs()).(name := name)
  {
    hide EncAll, Enc, Toks, Named, Fdt.Mem, Fdt.S, Fdt.Strs, ReadTag, Align4, Den;
    n2 := n;
    ghost var tab := fdt.Strs();
    FocusParts(fdt, pre, n, post);
    err := RwCheckHeader(fdt);
    FailedEdit(fdt, tab, pre, n, post);
    if err != 0 {
      return;
    }
    var was, oldLen := GetName(fdt, nodeOffset, pre, n, post);
    if oldLen < 0 {
      return oldLen, n2;
    }
    err, n2 := Rename(fdt, nodeOffset, oldLen, name, pre, n, post);
  }

  lemma RenamedFocus(fdt: Fdt, s: seq<byte>, s1: seq<byte>, pre: seq<Token>, n: Cst, post: seq<Token>, name: Name) returns (n2: Cst)
    requires fdt.Layout() && Ended(post)
    requires EncAll(pre + Toks(n) + post) <= s && Named(pre + Toks(n) + post, fdt.Strs())
    requires TokenAt(s, Size(pre), Begin(n.name, n.pad))
    requires Respliced(s, s1, Size(pre) + 4, Align4(|n.name| + 1), Align4(|name| + 1))
    requires Overwritten(s1, fdt.S(), Size(pre) + 4, name + [0])
    ensures Focused(fdt, pre, n2, post)
    ensures Den(n2, fdt.Strs()) == Den(n, fdt.Strs()).(name := name)
  {
    hide EncAll, Enc, Toks, Named, Respliced, Overwritten, Fdt.S, Fdt.Strs, Fdt.Mem, TokenAt, Align4, BE32;
    var o := Size(pre);
    BeginShape(s, o, n.name, n.pad);
    var pad := Renamed(s, s1, fdt.S(), o, n.name, name);
    n2 := n.(name := name, pad := pad);
    RenamedInBlock(s, fdt.S(), pre, n, post, name, pad);
    NamedRenamed(pre, n, post, name, pad, fdt.Strs());
  }

  // ---- fdt_add_subnode -------------------------------------------------------------------------

  /** The loop of fdt_add_subnode_namelen: past the properties and NOPs from `start` on. */
  method SkipPlain(fdt: Fdt, start: nat, ghost done: seq<Token>, ghost plain: seq<Token>, ghost rest: seq<Token>)
    returns (offset: nat)
    requires fdt.Holds(done + plain + rest) && Plain(plain) && start == Size(done)
    requires rest != [] && !rest[0].Prop? && !rest[0].Nop?
    ensures offset == Size(done + plain)
  {
    hide EncAll, Enc, ReadTag, Named, Fdt.Holds, Fdt.S, Fdt.Layout;
    HoldsLayout(fdt, done + plain + rest);
    offset := start;
    ghost var a, p := done, plain;
    while true
      invariant a + p == done + plain && Plain(p) && offset == Size(a)
      decreases |p|
    {
      assert a + (p + rest) == done + plain + rest;
      TagHere(fdt, a, p + rest);
      var tag, next := NextTag(fdt, offset);
      if tag != FDT_PROP && tag != FDT_NOP {
        assert p == [];
        assert a == done + plain;
        return;
      }
      offset := next;
      assert (p + rest)[0] == p[0];
      a, p := a + [p[0]], p[1..];
    }
  }

  /** fdt_add_subnode_namelen: a new empty child in front of the others. */
  method AddSubnode(fdt: Fdt, parentOffset: int, name: Name, ghost pre: seq<Token>, ghost n: Cst, ghost post: seq<Token>)
    returns (r: int, ghost n2: Cst)
    requires Focused(fdt, pre, n, post) && AtNode(fdt, parentOffset, pre) && parentOffset >= 0
    modifies fdt, fdt.buf
    ensures fdt.Layout() && EditFrame(fdt, parentOffset, if r >= 0 then 0 else r)
    ensures fdt.Strs() == old(fdt.Strs())
    ensures Focused(fdt, pre, n2, post)
    ensures r < 0 ==> n2 == n
    ensures old(RwHeader(fdt)) == 0 && NodeCheck(old(fdt.S()), parentOffset) >= 0 ==>
      var t := Den(n, fdt.Strs());
      if T.FindKid(t.kids, name) < |t.kids| then r == ERR_EXISTS && Gap(fdt) == old(Gap(fdt))
      else
        && Answered(fdt, if r >= 0 then 0 else r, AddKidRoom(old(SpaceOf(fdt)), name))
        && (r >= 0 ==> n2.kids != [] && r == KidOff(pre, n2, 0) && Den(n2, fdt.Strs()) == T.AddKid(t, name))
  {
    hide EncAll, Enc, Toks, Named, Respliced, Overwritten, Fdt.Mem, Fdt.S, Fdt.Strs, ReadTag, Align4, Den, DenProps, DenKids, FromKids, BeforeKids, WithNewKid, KidPre, T.FindKid, FindKid, T.AddKid;
    n2 := n;
    ghost var tab, s := fdt.Strs(), fdt.S();
    FocusParts(fdt, pre, n, post);
    var err := RwCheckHeader(fdt);
    FailedEdit(fdt, tab, pre, n, post);
    DenDef(n, tab);
    FindKidDen(n.kids, tab, name);
    if err != 0 {
      return err, n2;
    }
    var offset := SubnodeOffset(fdt, parentOffset, name, pre, n, post);
    if offset >= 0 {
      return ERR_EXISTS, n2;
    } else if offset != ERR_NOTFOUND {
      return offset, n2;
    }
    r, n2 := InsertNode(fdt, parentOffset, name, pre, n, post);
  }

  /** The new node is placed after the parent's properties. */
  method InsertNode(fdt: Fdt, parentOffset: nat, name: Name, ghost pre: seq<Token>, ghost n: Cst, ghost post: seq<Token>)
    returns (r: int, ghost n2: Cst)
    requires Ready(fdt) && Focused(fdt, pre, n, post) && parentOffset == Size(pre)
    modifies fdt`sizeDtStruct, fdt`offDtStrings, fdt.buf
    ensures Ready(fdt) && HeadKept(fdt) && fdt.Strs() == old(fdt.Strs()) && Focused(fdt, pre, n2, post)
    ensures Answered(fdt, if r >= 0 then 0 else r, AddKidRoom(old(Gap(fdt)), name))
    ensures r < 0 ==> n2 == n && fdt.S() == old(fdt.S())
    ensures r >= 0 ==> n2.kids != [] && r == KidOff(pre, n2, 0) && Den(n2, fdt.Strs()) == T.AddKid(Den(n, fdt.Strs()), name)
  {
    hide EncAll, Enc, Toks, Named, Respliced, Overwritten, Fdt.Mem, Fdt.S, Fdt.Strs, ReadTag, Align4, Den, FromKids, BeforeKids, WithNewKid, KidPre;
    n2 := n;
    ghost var tab, s := fdt.Strs(), fdt.S();
    FocusParts(fdt, pre, n, post);
    AtBegin(fdt, pre, n, post);
    var tag, next := NextTag(fdt, parentOffset);
    ghost var plain := PlainPart(fdt, pre, n, post);
    var offset := SkipPlain(fdt, next, pre + HeadTo(n, 0), plain, FromKids(n) + post);
    ReadySize(fdt);
    var err := SpliceStruct(fdt, offset, 0, 8 + Align4(|name| + 1));
    if err != 0 {
      FailedEdit(fdt, tab, pre, n, post);
      return err, n2;
    }
    StoreNode(fdt, offset, name, s);
    n2 := NewKidFocus(fdt, s, pre, n, post, name);
    r := offset;
  }

  lemma PlainPart(fdt: Fdt, pre: seq<Token>, n: Cst, post: seq<Token>) returns (plain: seq<Token>)
    requires Focused(fdt, pre, n, post)
    ensures Plain(plain)
    ensures pre + HeadTo(n, 0) + plain == pre + BeforeKids(n)
    ensures pre + HeadTo(n, 0) + plain + (FromKids(n) + post) == pre + Toks(n) + post
    ensures var r := FromKids(n) + post; r != [] && !r[0].Prop? && !r[0].Nop?
    ensures Size(pre + BeforeKids(n)) <= |fdt.S()|
  {
    hide EncAll, Toks, Named, PToks, KToks, FromKids;
    KidsSplit(n);
    HeadTail(n, 0);
    FromKidsHead(n);
    var k := Nops(if n.kids == [] then n.tail else n.kids[0].lead);
    plain := PToks(n.props) + k;
    PToksPlain(n.props);
    assert pre + Toks(n) + post == (pre + BeforeKids(n)) + (FromKids(n) + post);
    EncAllConcat(pre + BeforeKids(n), FromKids(n) + post);
  }

  lemma FromKidsHead(n: Cst)
    ensures FromKids(n) != [] && !FromKids(n)[0].Prop? && !FromKids(n)[0].Nop?
  {
    if n.kids != [] {
      ToksDef(n.kids[0]);
      hide Toks, KToks;
    }
  }

  /** The stores of fdt_add_subnode_namelen into fresh room. */
  method StoreNode(fdt: Fdt, o: nat, name: Name, ghost s: seq<byte>)
    requires Ready(fdt) && Respliced(s, fdt.S(), o, 0, 8 + Align4(|name| + 1))
    modifies fdt.buf
    ensures Ready(fdt) && HeadKept(fdt) && fdt.Strs() == old(fdt.Strs())
    ensures o <= |s| && fdt.S() == s[..o] + EncAll([Begin(name, [0, 0, 0]), EndNode]) + s[o..]
  {
    hide EncAll, Respliced, Overwritten, Fdt.Mem, Fdt.S, Fdt.Strs, Align4, BE32, Zeros;
    var A := Align4(|name| + 1);
    ghost var s1 := fdt.S();
    RespliceSize(s, s1, o, 0, 8 + A);
    ReadySize(fdt);
    PutStruct(fdt, o, BE32(FDT_BEGIN_NODE));
    ghost var s2 := fdt.S();
    PutStruct(fdt, o + 4, Zeros(A));
    ghost var s3 := fdt.S();
    PutStruct(fdt, o + 4, name);
    ghost var s4 := fdt.S();
    PutStruct(fdt, o + 4 + A, BE32(FDT_END_NODE));
    NodeStored(s, s1, s2, s3, s4, fdt.S(), o, name);
  }

  lemma NewKidFocus(fdt: Fdt, s: seq<byte>, pre: seq<Token>, n: Cst, post: seq<Token>, name: Name) returns (n2: Cst)
    requires fdt.Layout() && Ended(post)
    requires EncAll(pre + Toks(n) + post) <= s && Named(pre + Toks(n) + post, fdt.Strs())
    requires var o := Size(pre + BeforeKids(n));
      o <= |s| && fdt.S() == s[..o] + EncAll([Begin(name, [0, 0, 0]), EndNode]) + s[o..]
    ensures Focused(fdt, pre, n2, post)
    ensures n2.kids != [] && KidOff(pre, n2, 0) == Size(pre + BeforeKids(n))
    ensures Den(n2, fdt.Strs()) == T.AddKid(Den(n, fdt.Strs()), name)
  {
    hide EncAll, Toks, Named, Den, Fdt.S, Fdt.Strs, Fdt.Mem, WithNewKid, BeforeKids, FromKids, KidPre, T.AddKid;
    var pad: Pad := [0, 0, 0];
    var a, b, m := pre + BeforeKids(n), FromKids(n) + post, [Begin(name, pad), EndNode];
    n2 := WithNewKid(n, name, pad);
    KidsSplit(n);
    NewKidToks(n, name, pad);
    assert pre + Toks(n) + post == a + [] + b;
    assert pre + Toks(n2) + post == a + m + b;
    SizeNil();
    SwapTokens(s, fdt.S(), a, [], b, m);
    NamedEmptyNode(name, pad, fdt.Strs());
    NamedSwap(a, [], b, m, fdt.Strs());
    NewKidDen(n, name, pad, fdt.Strs());
  }

  lemma NamedEmptyNode(name: Name, pad: Pad, tab: seq<byte>)
    ensures Named([Begin(name, pad), EndNode], tab)
  {
  }
}
