/** dtc's flattree.c, the reader: a pointer that advances over the flat tree. Where the program gives up, the
    methods answer that they have failed. */
module FlatIn {
  import opened Bytes
  import opened StructBlock
  import F = Flattree
  import T = Tree

  /** struct inbuf; its limit is the end of the bytes. */
  class InBuf {
    const base: seq<byte>
    var ptr: nat

    constructor (bytes: seq<byte>)
      ensures base == bytes && ptr == 0
    {
      base, ptr := bytes, 0;
    }

    ghost predicate Valid()
      reads this
    {
      ptr <= |base|
    }

    /** flat_read_word, and flat_read_chunk for it. */
    method ReadWord() returns (ok: bool, val: u32)
      requires Valid()
      modifies this
      ensures Valid() && (ok <==> F.ReadWord(base, old(ptr)).Some?)
      ensures if ok then val == F.ReadWord(base, old(ptr)).value && ptr == old(ptr) + 4 else ptr == old(ptr)
    {
      if ptr % 4 != 0 || ptr + 4 > |base| {
        return false, 0;
      }
      ok, val := true, Word(base, ptr);
      ptr := ptr + 4;
    }

    /** flat_realign */
    method Realign(align: nat) returns (ok: bool)
      requires Valid() && (align == 4 || align == 8)
      modifies this
      ensures Valid() && (ok <==> F.Realign(base, old(ptr), align).Some?)
      ensures ptr == if ok then F.Realign(base, old(ptr), align).value else old(ptr)
    {
      var p := F.Align(ptr, align);
      if p > |base| {
        return false;
      }
      ptr := p;
      ok := true;
    }

    /** flat_read_string */
    method ReadString() returns (ok: bool, str: Name)
      requires Valid()
      modifies this
      ensures Valid() && (ok <==> F.ReadString(base, old(ptr)).Some?)
      ensures ok ==> (str, ptr) == F.ReadString(base, old(ptr)).value
    {
      var len := 0;
      str := [];
      ghost var z := NulFrom(base, ptr);
      while true
        invariant ptr == old(ptr) && ptr + len <= |base| && ptr + len <= z
        decreases |base| - len
      {
        if ptr + len >= |base| {
          return false, str;
        }
        len := len + 1;
        if base[ptr + len - 1] == 0 {
          break;
        }
      }
      NulFromUnique(base, ptr, ptr + len - 1);
      str := base[ptr..ptr + len - 1];
      ptr := ptr + len;
      ok := Realign(4);
    }

    /** flat_read_data */
    method ReadData(len: nat) returns (ok: bool, d: seq<byte>)
      requires Valid()
      modifies this
      ensures Valid() && (ok <==> F.ReadData(base, old(ptr), len).Some?)
      ensures ok ==> (d, ptr) == F.ReadData(base, old(ptr), len).value
    {
      if len == 0 {
        return true, [];
      }
      if ptr + len > |base| {
        return false, [];
      }
      d := base[ptr..ptr + len];
      ptr := ptr + len;
      ok := Realign(4);
    }

    /** flat_read_stringtable */
    method ReadStringtable(offset: nat) returns (ok: bool, s: Name)
      requires Valid()
      ensures ok <==> StringAt(base, offset)
      ensures ok ==> s == CStr(base, offset)
    {
      s := [];
      var p := offset;
      while true
        invariant offset <= p && (offset <= |base| ==> p <= NulFrom(base, offset))
        decreases |base| - p
      {
        if p >= |base| {
          return false, s;
        }
        if base[p] == 0 {
          break;
        }
        p := p + 1;
      }
      NulFromUnique(base, offset, p);
      ok, s := true, base[offset..p];
    }
  }

  /** flat_read_property */
  method ReadProperty(dtbuf: InBuf, strbuf: InBuf, v1: bool) returns (ok: bool, prop: T.Property)
    requires dtbuf != strbuf && dtbuf.Valid() && strbuf.Valid()
    modifies dtbuf
    ensures dtbuf.Valid() && (ok <==> F.ReadProp(dtbuf.base, old(dtbuf.ptr), strbuf.base, v1).Some?)
    ensures ok ==> (prop, dtbuf.ptr) == F.ReadProp(dtbuf.base, old(dtbuf.ptr), strbuf.base, v1).value
  {
    hide Word, StringAt, CStr, F.Align;
    prop := T.Property([], []);
    var ok1, proplen := dtbuf.ReadWord();
    if !ok1 {
      return false, prop;
    }
    var ok2, stroff := dtbuf.ReadWord();
    if !ok2 {
      return false, prop;
    }
    var ok3, name := strbuf.ReadStringtable(stroff);
    if !ok3 || proplen >= 0x8000_0000 {
      return false, prop;
    }
    if v1 && proplen >= 8 {
      var ok4 := dtbuf.Realign(8);
      if !ok4 {
        return false, prop;
      }
    }
    var val;
    ok, val := dtbuf.ReadData(proplen);
    if ok {
      prop := T.Property(name, val);
    }
  }

  /** nodename_from_path */
  method NodeNameFromPath(ppath: Name, cpath: Name) returns (ok: bool, name: Name)
    ensures ok <==> F.NameFromPath(ppath, cpath).Some?
    ensures ok ==> name == F.NameFromPath(ppath, cpath).value
  {
    var plen := |ppath|;
    if !(ppath <= cpath) {
      return false, [];
    }
    if ppath != F.ROOT {
      plen := plen + 1;
    }
    if plen > |cpath| {
      return false, [];
    }
    ok, name := true, cpath[plen..];
  }

  /** unflatten_tree */
  method UnflattenTree(dtbuf: InBuf, strbuf: InBuf, parentFlatName: Name, v1: bool) returns (ok: bool, node: T.Tree)
    requires dtbuf != strbuf && dtbuf.Valid() && strbuf.Valid()
    modifies dtbuf
    ensures dtbuf.Valid() && (ok <==> F.ReadNode(dtbuf.base, old(dtbuf.ptr), strbuf.base, parentFlatName, v1).Some?)
    ensures ok ==> (node, dtbuf.ptr) == F.ReadNode(dtbuf.base, old(dtbuf.ptr), strbuf.base, parentFlatName, v1).value
    decreases |dtbuf.base| - dtbuf.ptr
  {
    hide F.ReadWord, F.ReadProp, F.ReadString, F.NameFromPath;
    ghost var d, s, p := dtbuf.base, strbuf.base, dtbuf.ptr;
    node := T.Tree([], [], []);
    var flatname;
    ok, flatname := dtbuf.ReadString();
    if !ok {
      return;
    }
    var name := flatname;
    if v1 {
      ok, name := NodeNameFromPath(parentFlatName, flatname);
      if !ok {
        return;
      }
    }
    node := T.Tree(name, [], []);
    var val: u32 := 0;
    while val != FDT_END_NODE
      invariant p < dtbuf.ptr && dtbuf.Valid()
      invariant val != FDT_END_NODE ==>
        F.ReadNode(d, p, s, parentFlatName, v1) == F.ReadItems(d, dtbuf.ptr, s, flatname, v1, node)
      invariant val == FDT_END_NODE ==> F.ReadNode(d, p, s, parentFlatName, v1) == F.Some((node, dtbuf.ptr))
      decreases val != FDT_END_NODE, |d| - dtbuf.ptr
    {
      WordMoves(d, dtbuf.ptr);
      ok, val := dtbuf.ReadWord();
      if !ok {
        return;
      }
      if val == FDT_PROP {
        var prop;
        ok, prop := ReadProperty(dtbuf, strbuf, v1);
        if !ok {
          return;
        }
        node := node.(props := node.props + [prop]);
      } else if val == FDT_BEGIN_NODE {
        var child;
        ok, child := UnflattenTree(dtbuf, strbuf, flatname, v1);
        if !ok {
          return;
        }
        node := node.(kids := node.kids + [child]);
      } else if val != FDT_END_NODE && val != FDT_NOP {
        return false, node;
      }
    }
    ok := true;
  }

  lemma WordMoves(d: seq<byte>, p: nat)
    ensures F.ReadWord(d, p).Some? ==> p + 4 <= |d|
  {
  }

  /** The part of dt_from_blob that reads the tree. */
  method Unflatten(dtbuf: InBuf, strbuf: InBuf, v1: bool) returns (ok: bool, tree: T.Tree)
    requires dtbuf != strbuf && dtbuf.Valid() && strbuf.Valid() && dtbuf.ptr == 0
    modifies dtbuf
    ensures ok <==> F.Unflatten(dtbuf.base, strbuf.base, v1).Some?
    ensures ok ==> tree == F.Unflatten(dtbuf.base, strbuf.base, v1).value
  {
    hide F.ReadNode;
    tree := T.Tree([], [], []);
    var val;
    ok, val := dtbuf.ReadWord();
    if !ok || val != FDT_BEGIN_NODE {
      return false, tree;
    }
    ok, tree := UnflattenTree(dtbuf, strbuf, [], v1);
    if !ok {
      return;
    }
    ok, val := dtbuf.ReadWord();
    ok := ok && val == FDT_END;
  }
}
