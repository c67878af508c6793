/** dtc's livetree.c as it works: nodes that are changed in place, with lists of children. */
module LiveNodes {
  import opened Bytes
  import opened StructBlock
  import opened Livetree

  /** struct node, without its labels. */
  class Node {
    var deleted: bool
    var name: Name
    var proplist: seq<LProp>
    var children: seq<Node>
    ghost var Repr: set<Node>

    constructor (name: Name)
      ensures Valid() && fresh(Repr) && Value() == LTree(false, name, [], [])
    {
      deleted, this.name, proplist, children := false, name, [], [];
      Repr := {this};
    }

    /** The node is the root of a tree: no part of it is reached in two ways. */
    ghost predicate Valid()
      reads this, Repr
      decreases Repr
    {
      && this in Repr
      && (forall i :: 0 <= i < |children| ==>
            children[i] in Repr && children[i].Repr < Repr && this !in children[i].Repr && children[i].Valid())
      && forall i, j :: 0 <= i < j < |children| ==> children[i].Repr !! children[j].Repr
    }

    /** The tree it is the root of. */
    ghost function Value(): LTree
      requires Valid()
      reads this, Repr
      decreases Repr
    {
      LTree(deleted, name, proplist,
            seq(|children|, i requires 0 <= i < |children| && children[i] in Repr && children[i].Repr < Repr && children[i].Valid()
                              reads this, Repr => children[i].Value()))
    }

    ghost function Kids(): (r: seq<LTree>)
      requires Valid()
      reads this, Repr
      ensures |r| == |children| && forall i :: 0 <= i < |children| ==> r[i] == children[i].Value()
      ensures r == Value().kids
    {
      Value().kids
    }

    /** delete_property_by_name */
    method DeletePropertyByName(propName: Name)
      modifies `proplist
      ensures proplist == MergeProp(old(proplist), LProp(true, propName, []))
    {
      var i := 0;
      while i < |proplist|
        invariant i <= |proplist| && proplist == old(proplist)
        invariant forall j :: 0 <= j < i ==> proplist[j].name != propName
      {
        if proplist[i].name == propName {
          FindPropIs(proplist, propName, i);
          proplist := proplist[i := proplist[i].(deleted := true)];
          return;
        }
        i := i + 1;
      }
      FindPropIs(proplist, propName, i);
    }

    /** The first loop of merge_nodes, for one property of the override. */
    method MergeProperty(p: LProp)
      modifies `proplist
      ensures proplist == MergeProp(old(proplist), p)
    {
      if p.deleted {
        DeletePropertyByName(p.name);
        return;
      }
      var i := 0;
      while i < |proplist|
        invariant i <= |proplist| && proplist == old(proplist)
        invariant forall j :: 0 <= j < i ==> proplist[j].name != p.name
      {
        if proplist[i].name == p.name {
          FindPropIs(proplist, p.name, i);
          proplist := proplist[i := LProp(false, proplist[i].name, p.val)];
          return;
        }
        i := i + 1;
      }
      FindPropIs(proplist, p.name, i);
      proplist := proplist + [p];
    }

    /** delete_node on one child. */
    method DeleteChild(k: nat)
      requires Valid() && k < |children|
      modifies Repr - {this}
      ensures Valid() && Repr == old(Repr) && Kids() == old(Kids())[k := Kill(old(Kids())[k])]
      decreases Repr, 0
    {
      hide Kill;
      children[k].Delete();
      forall i | 0 <= i < |children| && i != k
        ensures children[i].Valid() && children[i].Value() == old(children[i].Value())
      {
      }
    }

    /** The first loop of delete_node. */
    method DeleteChildren()
      requires Valid()
      modifies Repr - {this}
      ensures Valid() && Repr == old(Repr) && Kids() == KillKids(old(Kids()))
      decreases Repr, 1
    {
      hide Kill, KillKids, Valid;
      ghost var ks := Kids();
      var k := 0;
      KillNone(ks);
      while k < |children|
        invariant k <= |children| == |ks| && Repr == old(Repr) && Valid()
        invariant Kids() == KillKids(ks[..k]) + ks[k..]
      {
        KillStep(ks, k);
        ValidChild(k);
        if !children[k].deleted {
          DeleteChild(k);
        }
        k := k + 1;
      }
      assert ks[..k] == ks && ks[k..] == [];
    }

    lemma ValidChild(k: nat)
      requires Valid() && k < |children|
      ensures children[k].Valid() && Kids()[k] == children[k].Value()
    {
    }

    /** The second loop of delete_node. */
    method DeleteProperties()
      modifies `proplist
      ensures proplist == KillProps(old(proplist))
    {
      var i := 0;
      while i < |proplist|
        invariant i <= |proplist| == |old(proplist)|
        invariant forall j :: 0 <= j < |proplist| ==> proplist[j] == if j < i then old(proplist)[j].(deleted := true) else old(proplist)[j]
      {
        if !proplist[i].deleted {
          proplist := proplist[i := proplist[i].(deleted := true)];
        }
        i := i + 1;
      }
    }

    /** delete_node */
    method Delete()
      requires Valid()
      modifies Repr
      ensures Valid() && Repr == old(Repr) && Value() == Kill(old(Value()))
      decreases Repr, 2
    {
      hide KillKids, KillProps;
      deleted := true;
      DeleteChildren();
      DeleteProperties();
    }

    // ---- merging ---------------------------------------------------------------------------------

    /** The child of that name, deleted or not. */
    method ChildNamed(childName: Name) returns (k: nat)
      requires Valid()
      ensures k == FindKid(Kids(), childName)
    {
      k := 0;
      while k < |children|
        invariant k <= |children|
        invariant forall j :: 0 <= j < k ==> Kids()[j].name != childName
      {
        ValidChild(k);
        if children[k].name == childName {
          FindKidIs(Kids(), childName, k);
          return;
        }
        k := k + 1;
      }
      FindKidIs(Kids(), childName, k);
    }

    /** add_child */
    method AddChild(child: Node)
      requires Valid() && child.Valid() && Repr !! child.Repr
      modifies `children, `Repr
      ensures Valid() && Repr == old(Repr) + child.Repr && Kids() == old(Kids()) + [child.Value()]
    {
      children := children + [child];
      Repr := Repr + child.Repr;
      forall i | 0 <= i < |old(children)|
        ensures children[i].Valid() && children[i].Value() == old(children[i].Value())
      {
      }
    }

    /** delete_node_by_name */
    method DeleteNodeByName(childName: Name)
      requires Valid()
      modifies Repr - {this}
      ensures Valid() && Repr == old(Repr)
      ensures var k := FindKid(old(Kids()), childName);
        Kids() == if k < |old(Kids())| then old(Kids())[k := Kill(old(Kids())[k])] else old(Kids())
    {
      hide Kill, FindKid;
      var k := ChildNamed(childName);
      if k < |children| {
        DeleteChild(k);
      }
    }

    /** A child merged with a node from outside the tree. */
    method MergeInto(k: nat, c: Node)
      requires Valid() && k < |children| && c.Valid() && Repr !! c.Repr
      modifies Repr, c.Repr
      ensures Valid() && Repr <= old(Repr + c.Repr) && deleted == old(deleted) && name == old(name) && proplist == old(proplist)
      ensures Kids() == old(Kids())[k := Merge(old(Kids())[k], old(c.Value()))]
      decreases c.Repr, 4
    {
      hide Merge;
      children[k].MergeNodes(c);
      Repr := Repr + children[k].Repr;
      forall i | 0 <= i < |children| && i != k
        ensures children[i].Valid() && children[i].Value() == old(children[i].Value()) && children[i].Repr == old(children[i].Repr)
      {
      }
    }

    /** The second loop of merge_nodes, for one child of the override. */
    method MergeChild(c: Node)
      requires Valid() && c.Valid() && Repr !! c.Repr
      modifies Repr, c.Repr
      ensures Valid() && Repr <= old(Repr + c.Repr) && deleted == old(deleted) && name == old(name) && proplist == old(proplist)
      ensures Kids() == MergeKid(old(Kids()), old(c.Value()))
      decreases c.Repr, 5
    {
      hide Merge, Kill, FindKid;
      if c.deleted {
        DeleteNodeByName(c.name);
        return;
      }
      var k := ChildNamed(c.name);
      if k < |children| {
        MergeInto(k, c);
      } else {
        AddChild(c);
      }
    }

    /** The first child of the override leaves it. */
    method PopChild() returns (c: Node)
      requires Valid() && children != []
      modifies `children, `Repr
      ensures Valid() && c.Valid() && Repr == old(Repr) - c.Repr && c.Repr < old(Repr)
      ensures c.Value() == old(Kids())[0] && Kids() == old(Kids())[1..] && |children| == |old(children)| - 1
    {
      c := children[0];
      children := children[1..];
      Repr := Repr - c.Repr;
      forall i | 0 <= i < |children|
        ensures children[i].Valid() && children[i].Value() == old(children[i + 1].Value())
      {
        assert children[i] == old(children[i + 1]);
      }
    }

    /** The children of the override, one after the other. */
    method MergeChildren(other: Node)
      requires Valid() && other.Valid() && Repr !! other.Repr
      modifies Repr, other.Repr
      ensures Valid() && Repr <= old(Repr + other.Repr) && deleted == old(deleted) && name == old(name) && proplist == old(proplist)
      ensures Kids() == MergeKids(old(Kids()), old(other.Kids()))
      decreases other.Repr, 2
    {
      hide MergeKid, Valid;
      other.Self();
      while other.children != []
        invariant Valid() && other.Valid() && Repr !! other.Repr && Repr <= old(Repr + other.Repr) && other.Repr <= old(other.Repr)
        invariant deleted == old(deleted) && name == old(name) && proplist == old(proplist)
        invariant MergeKids(Kids(), other.Kids()) == MergeKids(old(Kids()), old(other.Kids()))
        decreases |other.children|
      {
        ghost var ks, cs := Kids(), other.Kids();
        var c := other.PopChild();
        MergeChild(c);
        assert Kids() == MergeKid(ks, cs[0]);
      }
      assert other.Kids() == [];
    }

    lemma Self()
      requires Valid()
      ensures this in Repr
    {
    }

    /** Changing the fields of a node beside its children changes nothing below it. */
    method Revive(other: Node)
      requires Valid() && other.Valid() && Repr !! other.Repr
      modifies `deleted, `proplist, other`proplist
      ensures Valid() && other.Valid() && Repr == old(Repr) && other.Repr == old(other.Repr)
      ensures Kids() == old(Kids()) && other.Kids() == old(other.Kids())
      ensures !deleted && proplist == MergeProps(old(proplist), old(other.proplist))
    {
      hide MergeProps;
      deleted := false;
      MergeProperties(other);
      forall i | 0 <= i < |children|
        ensures children[i].Valid() && children[i].Value() == old(children[i].Value())
      {
      }
      forall i | 0 <= i < |other.children|
        ensures other.children[i].Valid() && other.children[i].Value() == old(other.children[i].Value())
      {
      }
    }

    /** The properties of the override, one after the other. */
    method MergeProperties(other: Node)
      requires this != other
      modifies `proplist, other`proplist
      ensures proplist == MergeProps(old(proplist), old(other.proplist))
    {
      hide MergeProp;
      while other.proplist != []
        invariant MergeProps(proplist, other.proplist) == MergeProps(old(proplist), old(other.proplist))
        decreases |other.proplist|
      {
        var p := other.proplist[0];
        other.proplist := other.proplist[1..];
        MergeProperty(p);
      }
    }

    /** merge_nodes: the node becomes Merge of itself and the override, which is used up. */
    method MergeNodes(other: Node)
      requires Valid() && other.Valid() && Repr !! other.Repr
      modifies Repr, other.Repr
      ensures Valid() && Repr <= old(Repr + other.Repr) && Value() == Merge(old(Value()), old(other.Value()))
      decreases other.Repr, 3
    {
      hide MergeProps, MergeKids;
      Revive(other);
      MergeChildren(other);
    }
  }

  lemma FindKidIs(ks: seq<LTree>, name: seq<byte>, i: nat)
    requires i <= |ks| && (i < |ks| ==> ks[i].name == name) && forall j :: 0 <= j < i ==> ks[j].name != name
    ensures FindKid(ks, name) == i
  {
  }

  lemma KillNone(ks: seq<LTree>)
    ensures KillKids(ks[..0]) + ks[0..] == ks
  {
  }

  lemma KillStep(ks: seq<LTree>, k: nat)
    requires k < |ks|
    ensures KillKids(ks[..k + 1]) == KillKids(ks[..k]) + [if ks[k].deleted then ks[k] else Kill(ks[k])]
    ensures (KillKids(ks[..k]) + ks[k..])[k] == ks[k]
    ensures (KillKids(ks[..k]) + ks[k..])[k := if ks[k].deleted then ks[k] else Kill(ks[k])] == KillKids(ks[..k + 1]) + ks[k + 1..]
  {
    KillSnoc(ks, k);
    hide Kill, KillKids;
    Swapped(KillKids(ks[..k]), ks, k, if ks[k].deleted then ks[k] else Kill(ks[k]));
  }

  lemma KillSnoc(ks: seq<LTree>, k: nat)
    requires k < |ks|
    ensures |KillKids(ks[..k])| == k && KillKids(ks[..k + 1]) == KillKids(ks[..k]) + [if ks[k].deleted then ks[k] else Kill(ks[k])]
  {
    hide Kill;
  }

  /** The k-th element replaced while the rest of the list is still the old one. */
  lemma Swapped<A>(done: seq<A>, ks: seq<A>, k: nat, x: A)
    requires k < |ks| && |done| == k
    ensures (done + ks[k..])[k] == ks[k] && (done + ks[k..])[k := x] == done + [x] + ks[k + 1..]
  {
    assert ks[k..] == [ks[k]] + ks[k + 1..];
  }
}
