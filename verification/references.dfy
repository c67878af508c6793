/** dtc's checks.c and livetree.c: phandles are collected and given out, and the references recorded by the
    parser are filled in: a phandle into its cell, a path at its marker. The live nodes are counted in the
    order in which the tree is walked. */
module References {
  import opened Bytes
  import opened StructBlock
  import opened Naming
  import opened Markers

  datatype Property = Property(name: Name, val: Value)

  // ---- phandles -------------------------------------------------------------------------------------

  /** get_node_by_phandle: the first node with the phandle, or the number of nodes. */
  function FirstWith(ph: seq<u32>, h: u32): (n: nat)
    ensures n <= |ph| && (n < |ph| ==> ph[n] == h)
    ensures forall m :: 0 <= m < n ==> ph[m] != h
  {
    if ph == [] || ph[0] == h then 0 else
      var n := FirstWith(ph[1..], h);
      assert forall m :: 1 <= m < n + 1 ==> ph[m] == ph[1..][m - 1];
      n + 1
  }

  /** No two nodes have the same phandle, and none has -1. */
  predicate Apart(ph: seq<u32>) {
    (forall i, j :: 0 <= i < j < |ph| && ph[i] != 0 ==> ph[i] != ph[j]) && forall i :: 0 <= i < |ph| ==> ph[i] != NO_PHANDLE
  }

  /** How many nodes have no phandle. */
  function Zeros(ph: seq<u32>): nat {
    if ph == [] then 0 else (if ph[0] == 0 then 1 else 0) + Zeros(ph[1..])
  }

  lemma {:induction false} ZerosLess(ph: seq<u32>, n: nat, h: u32)
    requires n < |ph| && ph[n] == 0 && h != 0
    ensures Zeros(ph[n := h]) == Zeros(ph) - 1
    decreases n
  {
    if n == 0 {
      assert ph[n := h][1..] == ph[1..];
    } else {
      assert ph[n := h][1..] == ph[1..][n - 1 := h];
      ZerosLess(ph[1..], n - 1, h);
    }
  }

  /** Every number in front of the counter is in use. */
  ghost predicate UsedUpTo(ph: seq<u32>, next: nat) {
    1 <= next && forall k: nat :: 1 <= k < next ==> k in ph
  }

  /** The numbers from 1 up to, not including, `n`. */
  ghost function Below(n: nat): (r: set<int>)
    ensures |r| == (if n == 0 then 0 else n - 1) && forall k :: k in r <==> 1 <= k < n
  {
    if n <= 1 then {} else Below(n - 1) + {n - 1}
  }

  ghost function Values(ph: seq<u32>): (r: set<int>)
    ensures |r| <= |ph| && forall i :: 0 <= i < |ph| ==> ph[i] in r
  {
    if ph == [] then {} else
      var r := Values(ph[1..]);
      assert forall i :: 1 <= i < |ph| ==> ph[i] == ph[1..][i - 1];
      r + {ph[0]}
  }

  /** So the counter cannot have got further than there are nodes. */
  lemma Pigeonhole(ph: seq<u32>, next: nat)
    requires UsedUpTo(ph, next)
    ensures next <= |ph| + 1
  {
    var used, have := Below(next), Values(ph);
    forall k | k in used
      ensures k in have
    {
      var n: nat := k;
      assert n in ph;
    }
    assert have == used + (have - used);
  }

  // ---- phandle properties ------------------------------------------------------------------------------

  function FindNamed(ps: seq<Property>, name: Name): (i: nat)
    ensures i <= |ps| && (i < |ps| ==> ps[i].name == name)
    ensures forall j :: 0 <= j < i ==> ps[j].name != name
  {
    if ps == [] || ps[0].name == name then 0 else
      var i := FindNamed(ps[1..], name);
      assert forall j :: 1 <= j < i + 1 ==> ps[j] == ps[1..][j - 1];
      i + 1
  }

  predicate IsRef(m: Marker) {
    m.kind == RefPhandle
  }

  predicate HasRef(ms: seq<Marker>) {
    exists i :: 0 <= i < |ms| && IsRef(ms[i])
  }

  /** A node's phandle property is its phandle, or asks for it by a reference to the node itself. */
  predicate Agrees(ps: seq<Property>, name: Name, n: nat, h: u32, resolve: Name -> nat) {
    var i := FindNamed(ps, name);
    i < |ps| ==>
      && |ps[i].val.bytes| == 4
      && if HasRef(ps[i].val.markers)
         then forall k :: 0 <= k < |ps[i].val.markers| && IsRef(ps[i].val.markers[k]) ==> resolve(ps[i].val.markers[k].ref) == n
         else h != 0 && ps[i].val.bytes == BE32(h)
  }

  /** The phandle a node may have by its properties. */
  predicate MayHave(ps: seq<Property>, n: nat, h: u32, resolve: Name -> nat) {
    h != NO_PHANDLE && Agrees(ps, PHANDLE, n, h, resolve) && Agrees(ps, LINUX_PHANDLE, n, h, resolve)
  }

  /** A phandle property that holds a number. */
  predicate Numbered(ps: seq<Property>, name: Name) {
    var i := FindNamed(ps, name);
    i < |ps| && !HasRef(ps[i].val.markers)
  }

  /** A node whose phandle is written in the source. */
  predicate Given(ps: seq<Property>) {
    Numbered(ps, PHANDLE) || Numbered(ps, LINUX_PHANDLE)
  }

  /** The phandle properties of the chosen format are there. */
  predicate Chosen(ps: seq<Property>, legacy: bool, epapr: bool) {
    (legacy ==> FindNamed(ps, LINUX_PHANDLE) < |ps|) && (epapr ==> FindNamed(ps, PHANDLE) < |ps|)
  }

  // ---- references -----------------------------------------------------------------------------------------

  /** The first `k` references of a value have been filled in; `ph` are the phandles of the nodes. */
  predicate Filled(d: Value, k: nat, ph: seq<u32>, resolve: Name -> nat, plugin: bool)
    requires Sound(d)
  {
    forall c :: 0 <= c < k && c < |d.markers| && IsRef(d.markers[c]) ==>
      var m := d.markers[c];
      d.bytes[m.offset..m.offset + 4] == BE32(if resolve(m.ref) < |ph| then ph[resolve(m.ref)] else NO_PHANDLE)
      && if resolve(m.ref) < |ph| then ph[resolve(m.ref)] != 0 else plugin
  }

  function Patched(d: Value, o: nat, h: u32): Value
    requires o + 4 <= |d.bytes|
  {
    d.(bytes := d.bytes[..o] + BE32(h) + d.bytes[o + 4..])
  }

  lemma PatchedFills(d: Value, k: nat, h: u32, ph: seq<u32>, resolve: Name -> nat, plugin: bool)
    requires Sound(d) && k < |d.markers| && IsRef(d.markers[k]) && Filled(d, k, ph, resolve, plugin)
    requires h == if resolve(d.markers[k].ref) < |ph| then ph[resolve(d.markers[k].ref)] else NO_PHANDLE
    requires h != 0 && (resolve(d.markers[k].ref) < |ph| || plugin)
    ensures var r := Patched(d, d.markers[k].offset, h); Sound(r) && Filled(r, k + 1, ph, resolve, plugin)
  {
    hide BE32;
    Four(h);
    var o := d.markers[k].offset;
    var r := Patched(d, o, h);
    forall c | 0 <= c < k + 1 && IsRef(r.markers[c])
      ensures var m := r.markers[c];
        r.bytes[m.offset..m.offset + 4] == if c == k then BE32(h) else d.bytes[m.offset..m.offset + 4]
    {
    }
  }

  lemma Four(h: u32)
    ensures |BE32(h)| == 4
  {
  }

  /** A phandle property as get_node_phandle adds it. */
  predicate Added(p: Property) {
    (p.name == PHANDLE || p.name == LINUX_PHANDLE) && p.val.markers == []
  }

  /** Phandle properties have only been added, and phandles only been given out. */
  predicate Grown(ps: seq<seq<Property>>, ph: seq<u32>, ps2: seq<seq<Property>>, ph2: seq<u32>) {
    && |ps| == |ps2| && |ph| == |ph2|
    && (forall n :: 0 <= n < |ps| ==> ps[n] <= ps2[n])
    && (forall n, i :: 0 <= n < |ps| && |ps[n]| <= i < |ps2[n]| ==> Added(ps2[n][i]))
    && (forall n :: 0 <= n < |ph| && ph[n] != 0 ==> ph2[n] == ph[n])
  }

  predicate AllSound(ps: seq<seq<Property>>) {
    forall n, i :: 0 <= n < |ps| && 0 <= i < |ps[n]| ==> Sound(ps[n][i].val)
  }

  /** Everything in front of property `i` of node `n` has been filled in. */
  predicate FilledUpTo(ps: seq<seq<Property>>, ph: seq<u32>, n: nat, i: nat, resolve: Name -> nat, plugin: bool)
    requires AllSound(ps)
  {
    forall a, b :: 0 <= a < |ps| && 0 <= b < |ps[a]| && (a < n || (a == n && b < i)) ==>
      Filled(ps[a][b].val, |ps[a][b].val.markers|, ph, resolve, plugin)
  }

  lemma FilledStays(d: Value, k: nat, ph: seq<u32>, ph2: seq<u32>, resolve: Name -> nat, plugin: bool)
    requires Sound(d) && Filled(d, k, ph, resolve, plugin) && |ph| == |ph2| && forall n :: 0 <= n < |ph| && ph[n] != 0 ==> ph2[n] == ph[n]
    ensures Filled(d, k, ph2, resolve, plugin)
  {
    hide BE32;
  }

  lemma GrownStays(ps: seq<seq<Property>>, ph: seq<u32>, ps2: seq<seq<Property>>, ph2: seq<u32>, n: nat, i: nat, resolve: Name -> nat, plugin: bool)
    requires Grown(ps, ph, ps2, ph2) && AllSound(ps) && AllSound(ps2) && FilledUpTo(ps, ph, n, i, resolve, plugin)
    requires n < |ps| ==> i <= |ps[n]|
    ensures FilledUpTo(ps2, ph2, n, i, resolve, plugin)
  {
    hide Filled, Sound;
    forall a, b | 0 <= a < |ps2| && 0 <= b < |ps2[a]| && (a < n || (a == n && b < i))
      ensures Sound(ps2[a][b].val) && Filled(ps2[a][b].val, |ps2[a][b].val.markers|, ph2, resolve, plugin)
    {
      if b < |ps[a]| {
        assert ps2[a][b] == ps[a][b];
        FilledStays(ps[a][b].val, |ps[a][b].val.markers|, ph, ph2, resolve, plugin);
      } else {
        NoneToFill(ps2[a][b].val, ph2, resolve, plugin);
      }
    }
  }

  lemma NoneToFill(d: Value, ph: seq<u32>, resolve: Name -> nat, plugin: bool)
    requires Sound(d) && d.markers == []
    ensures Filled(d, 0, ph, resolve, plugin)
  {
  }

  // ---- the tree as the checks see it ----------------------------------------------------------------------

  /** Every node's phandle agrees with its phandle properties. */
  predicate AllAgree(ps: seq<seq<Property>>, ph: seq<u32>, resolve: Name -> nat)
    requires |ps| == |ph|
  {
    forall n :: 0 <= n < |ps| ==> MayHave(ps[n], n, ph[n], resolve)
  }

  /** Phandles for all nodes that the properties allow, no two the same. */
  predicate Assignment(ps: seq<seq<Property>>, g: seq<u32>, resolve: Name -> nat) {
    |g| == |ps| && Apart(g) && AllAgree(ps, g, resolve)
  }

  /** The phandles that have been found are the only ones possible. */
  predicate Forced(ph: seq<u32>, g: seq<u32>) {
    |g| == |ph| && forall m :: 0 <= m < |ph| && ph[m] != 0 ==> g[m] == ph[m]
  }

  lemma NothingForced(ps: seq<seq<Property>>, ph: seq<u32>, resolve: Name -> nat)
    requires |ph| == |ps| && forall m :: 0 <= m < |ph| ==> ph[m] == 0
    ensures forall g :: Assignment(ps, g, resolve) ==> Forced(ph, g)
    ensures Apart(ph)
  {
    hide AllAgree;
  }

  lemma AssignmentAt(ps: seq<seq<Property>>, g: seq<u32>, n: nat, resolve: Name -> nat)
    requires Assignment(ps, g, resolve) && n < |ps|
    ensures |g| == |ps| && MayHave(ps[n], n, g[n], resolve) && Apart(g)
  {
    hide MayHave;
  }

  lemma ForcedMore(ph: seq<u32>, g: seq<u32>, n: nat, h: u32)
    requires Forced(ph, g) && n < |ph| && (h != 0 ==> g[n] == h)
    ensures Forced(ph[n := h], g)
  {
  }

  lemma NotTaken(ps: seq<seq<Property>>, ph: seq<u32>, g: seq<u32>, n: nat, resolve: Name -> nat)
    requires Assignment(ps, g, resolve) && n < |ps| == |ph| && Forced(ph, g) && ph[n] == 0
    ensures g[n] == 0 || g[n] !in ph
  {
    hide AllAgree;
    forall m | 0 <= m < |ph|
      ensures g[n] == 0 || ph[m] != g[n]
    {
      assert ph[m] != 0 ==> g[m] == ph[m];
    }
  }

  /** What check_phandle_prop has found out: the only phandle the property allows, or none in particular, or a failure. */
  predicate Verdict(ps: seq<Property>, name: Name, n: nat, h: u32, fail: bool, resolve: Name -> nat) {
    h != NO_PHANDLE && forall g: u32 :: g != NO_PHANDLE ==> (Agrees(ps, name, n, g, resolve) <==> !fail && (h == 0 || g == h))
  }

  class Dti {
    const count: nat
    const resolve: Name -> nat   // get_node_by_ref; not below count when there is no such node
    const plugin: bool
    const legacy: bool
    const epapr: bool
    var props: seq<seq<Property>>
    var phandle: seq<u32>
    var next: nat                // the counter of get_node_phandle

    constructor (props: seq<seq<Property>>, resolve: Name -> nat, plugin: bool, legacy: bool, epapr: bool)
      ensures this.props == props && phandle == seq(|props|, _ => 0) && next == 1 && count == |props|
      ensures this.resolve == resolve && this.plugin == plugin && this.legacy == legacy && this.epapr == epapr
    {
      this.count, this.resolve, this.plugin, this.legacy, this.epapr := |props|, resolve, plugin, legacy, epapr;
      this.props, this.phandle, this.next := props, seq(|props|, _ => 0), 1;
    }

    ghost predicate Valid()
      reads this
    {
      |props| == |phandle| == count < 0xffff_fff0 && AllSound(props)
    }

    // ---- explicit_phandles ----------------------------------------------------------------------------------

    /** check_phandle_prop */
    method CheckPhandleProp(n: nat, name: Name) returns (h: u32, fail: bool)
      requires Valid() && n < count
      ensures Verdict(props[n], name, n, h, fail, resolve) && (h != 0 ==> Numbered(props[n], name))
    {
      hide BE32, Word;
      h, fail := 0, false;
      var i := FindNamed(props[n], name);
      if i == |props[n]| {
        return;
      }
      var d := props[n][i].val;
      if |d.bytes| != 4 {
        return 0, true;
      }
      var k := 0;
      while k < |d.markers|
        invariant k <= |d.markers| && forall j :: 0 <= j < k ==> !IsRef(d.markers[j])
      {
        if d.markers[k].kind == RefPhandle {
          assert IsRef(d.markers[k]);
          assert forall j :: 0 <= j < |d.markers| && IsRef(d.markers[j]) ==> j == k by {
            assert Sound(d);
          }
          return 0, resolve(d.markers[k].ref) != n;
        }
        k := k + 1;
      }
      h := Word(d.bytes, 0);
      CellIs(d.bytes);
      if h == 0 || h == NO_PHANDLE {
        return 0, true;
      }
    }

    /** get_node_by_phandle, which is not asked for 0 or -1. */
    method GetNodeByPhandle(h: u32) returns (n: nat)
      requires h != 0 && h != NO_PHANDLE
      ensures n == FirstWith(phandle, h)
    {
      n := 0;
      assert phandle[0..] == phandle;
      while n < |phandle| && phandle[n] != h
        invariant n <= |phandle| && FirstWith(phandle, h) == n + FirstWith(phandle[n..], h)
      {
        assert phandle[n..][1..] == phandle[n + 1..];
        n := n + 1;
      }
    }

    /** check_explicit_phandles: it fails exactly when no phandle that the properties allow is free. */
    method ExplicitPhandle(n: nat) returns (fail: bool)
      requires Valid() && n < count && phandle[n] == 0 && Apart(phandle)
      modifies `phandle
      ensures Valid() && Apart(phandle) && phandle == old(phandle)[n := phandle[n]]
      ensures !fail ==> MayHave(props[n], n, phandle[n], resolve)
      ensures !fail && phandle[n] != 0 ==> forall g: u32 :: MayHave(props[n], n, g, resolve) ==> g == phandle[n]
      ensures fail ==> forall g: u32 :: MayHave(props[n], n, g, resolve) ==> g != 0 && g in old(phandle)
      ensures phandle[n] != 0 ==> Given(props[n])
    {
      hide Agrees, Sound;
      var h, f := CheckPhandleProp(n, PHANDLE);
      var lh, lf := CheckPhandleProp(n, LINUX_PHANDLE);
      fail := f || lf;
      if h == 0 && lh == 0 {
        return;
      }
      if lh != 0 && h != 0 && h != lh {
        fail := true;
      }
      if lh != 0 && h == 0 {
        h := lh;
      }
      var other := GetNodeByPhandle(h);
      if other < |phandle| && other != n {
        fail := true;
        return;
      }
      phandle := phandle[n := h];
    }

    /** The pass of explicit_phandles over the tree: it fails exactly when the properties cannot all be right. */
    method ExplicitPhandles() returns (failed: bool)
      requires Valid() && phandle == seq(count, _ => 0)
      modifies `phandle
      ensures Valid() && Apart(phandle)
      ensures !failed ==> AllAgree(props, phandle, resolve)
      ensures failed ==> forall g :: !Assignment(props, g, resolve)
      ensures forall n :: 0 <= n < count && phandle[n] != 0 ==> Given(props[n])
    {
      hide MayHave, Sound, Apart, Assignment, Given;
      failed := false;
      NothingForced(props, phandle, resolve);
      var n := 0;
      while n < count
        invariant n <= count && Valid() && Apart(phandle)
        invariant forall m :: n <= m < count ==> phandle[m] == 0
        invariant forall m :: 0 <= m < n && phandle[m] != 0 ==> Given(props[m])
        invariant !failed ==> forall m :: 0 <= m < n ==> MayHave(props[m], m, phandle[m], resolve)
        invariant if failed then forall g :: !Assignment(props, g, resolve)
                  else forall g :: Assignment(props, g, resolve) ==> Forced(phandle, g)
      {
        ghost var ph := phandle;
        var fail := ExplicitPhandle(n);
        if !failed {
          forall g | Assignment(props, g, resolve)
            ensures !fail && Forced(phandle, g)
          {
            AssignmentAt(props, g, n, resolve);
            NotTaken(props, ph, g, n, resolve);
            ForcedMore(ph, g, n, phandle[n]);
          }
        }
        failed := failed || fail;
        n := n + 1;
      }
    }

    // ---- get_node_phandle ----------------------------------------------------------------------------------

    /** What handing out phandles keeps. */
    ghost predicate Ok()
      reads this
    {
      Valid() && Apart(phandle) && UsedUpTo(phandle, next) && AllAgree(props, phandle, resolve)
    }

    /** add_property of a phandle property that is not there. */
    method AddPhandleProp(n: nat, name: Name, h: u32)
      requires Valid() && n < count && FindNamed(props[n], name) == |props[n]|
      modifies `props
      ensures Valid() && props == old(props)[n := old(props)[n] + [Property(name, Value(BE32(h), []))]]
    {
      hide BE32;
      props := props[n := props[n] + [Property(name, Value(BE32(h), []))]];
    }

    /** The search for a free phandle. */
    method NextFree()
      requires Valid() && Apart(phandle) && UsedUpTo(phandle, next)
      modifies `next
      ensures next !in phandle && UsedUpTo(phandle, next) && next <= count + 1
    {
      Pigeonhole(phandle, next);
      var other := GetNodeByPhandle(next);
      while other < |phandle|
        invariant UsedUpTo(phandle, next) && next <= count + 1 && other == FirstWith(phandle, next)
        decreases count + 1 - next
      {
        assert phandle[other] == next;
        next := next + 1;
        Pigeonhole(phandle, next);
        other := GetNodeByPhandle(next);
      }
      NotThere(phandle, next);
    }

    /** The end of get_node_phandle: a new phandle is recorded in the properties of the chosen format, unless they
        are there and refer to the node itself. */
    method RecordPhandle(n: nat, h: u32)
      requires Ok() && n < count && phandle[n] == h != 0
      modifies `props
      ensures Ok() && props == old(props)[n := props[n]] && old(props[n]) <= props[n]
      ensures PropsKept(old(props[n]), props[n]) && Chosen(props[n], legacy, epapr)
      ensures NewOnes(old(props[n]), props[n], h, legacy, epapr)
    {
      hide Agrees, Sound, BE32, FindNamed, FirstWith, PropsKept, NewOnes;
      NoNewOnes(props[n], h, legacy, epapr);
      PropsKeptSelf(props[n]);
      ghost var ps := props[n];
      NamesDiffer();
      if FindNamed(props[n], LINUX_PHANDLE) == |props[n]| && legacy {
        AppendAgrees(props[n], LINUX_PHANDLE, LINUX_PHANDLE, n, h, resolve);
        AppendAgrees(props[n], PHANDLE, LINUX_PHANDLE, n, h, resolve);
        AppendKept(ps, props[n], LINUX_PHANDLE, PHANDLE, h);
        AppendNew(ps, props[n], LINUX_PHANDLE, h, legacy, epapr);
        AddPhandleProp(n, LINUX_PHANDLE, h);
      }
      if FindNamed(props[n], PHANDLE) == |props[n]| && epapr {
        AppendAgrees(props[n], LINUX_PHANDLE, PHANDLE, n, h, resolve);
        AppendAgrees(props[n], PHANDLE, PHANDLE, n, h, resolve);
        AppendKept(ps, props[n], PHANDLE, LINUX_PHANDLE, h);
        AppendNew(ps, props[n], PHANDLE, h, legacy, epapr);
        AddPhandleProp(n, PHANDLE, h);
      }
    }

    /** get_node_phandle: the phandle of the node, or a fresh one, recorded in the properties that the chosen
        format asks for. */
    method GetNodePhandle(n: nat) returns (h: u32)
      requires Ok() && n < count
      modifies this
      ensures Ok() && h == phandle[n] && h != 0 && h != NO_PHANDLE
      ensures old(phandle[n]) != 0 ==> props == old(props) && phandle == old(phandle)
      ensures old(phandle[n]) == 0 ==> h !in old(phandle) && phandle == old(phandle)[n := h]
      ensures old(phandle[n]) == 0 ==> forall k: nat :: 1 <= k < h ==> k in old(phandle)
      ensures old(phandle[n]) == 0 ==> Chosen(props[n], legacy, epapr)
      ensures Grown(old(props), old(phandle), props, phandle)
      ensures Kept(old(props), old(phandle), props, phandle, legacy, epapr)
    {
      hide Agrees, Sound, BE32, FindNamed, FirstWith, Kept, PropsKept, Chosen, Grown;
      if phandle[n] != 0 && phandle[n] != NO_PHANDLE {
        KeptSelf(props, phandle, legacy, epapr);
        GrownSelf(props, phandle);
        return phandle[n];
      }
      NextFree();
      h := next;
      UsedBelow(phandle, next);
      phandle := phandle[n := h];
      StillUsed(old(phandle), n, h, next);
      AgreesWith(props[n], PHANDLE, n, h, resolve);
      AgreesWith(props[n], LINUX_PHANDLE, n, h, resolve);
      RecordPhandle(n, h);
      GivenOut(old(props), old(phandle), n, props[n], h, legacy, epapr);
    }

    // ---- phandle_references ------------------------------------------------------------------------------------

    /** One reference of a property. */
    method FixReference(n: nat, i: nat, k: nat) returns (fail: bool)
      requires Ok() && n < count && i < |props[n]| && k < |props[n][i].val.markers| && IsRef(props[n][i].val.markers[k])
      modifies this
      ensures Ok() && i < |props[n]| && props[n][i].name == old(props[n][i].name) && props[n][i].val.markers == old(props[n][i].val.markers)
      ensures Grown(Replaced(old(props), n, i, props[n][i]), old(phandle), props, phandle)
      ensures Progress(old(phandle), old(props), phandle, props, n)
      ensures fail <==> resolve(old(props[n][i].val.markers[k].ref)) >= count && !plugin
      ensures forall m :: 0 <= m < count && GivenTo(old(phandle), phandle, m) ==> m == resolve(old(props[n][i].val.markers[k].ref))
      ensures !fail && old(Filled(props[n][i].val, k, phandle, resolve, plugin)) ==> Filled(props[n][i].val, k + 1, phandle, resolve, plugin)
      ensures Kept(old(props), old(phandle), props, phandle, legacy, epapr)
    {
      hide Agrees, Sound, BE32, Filled, FirstWith, UsedUpTo, Zeros, Kept, ValueKept, Chosen, MayHave, Apart, Grown, Patched, AllAgree;
      KeptSelf(props, phandle, legacy, epapr);
      GrownSelf(props, phandle);
      fail := false;
      var m := props[n][i].val.markers[k];
      ghost var d, ps0, ph0 := props[n][i].val, props, phandle;
      CellInside(d, k);
      var refNode := resolve(m.ref);
      var h: u32 := NO_PHANDLE;
      if refNode >= count {
        if !plugin {
          SameReplaced(props, n, i);
          return true;
        }
      } else {
        h := GetNodePhandle(refNode);
        if ph0[refNode] == 0 {
          ZerosLess(ph0, refNode, h);
        }
      }
      GrownSizes(ps0, ph0, props, phandle);
      if Filled(d, k, ph0, resolve, plugin) {
        FilledStays(d, k, ph0, phandle, resolve, plugin);
        PatchedFills(d, k, h, phandle, resolve, plugin);
      }
      ghost var ps1 := props;
      PatchKept(d, k, h);
      PatchedGrown(ps0, ph0, ps1, n, i, Property(ps0[n][i].name, Patched(d, m.offset, h)), phandle);
      PatchReference(n, i, k, m.offset, h);
      ReplacedKept(ps1, phandle, n, i, props[n][i], legacy, epapr);
      KeptTwice(ps0, ph0, ps1, phandle, props, phandle, legacy, epapr);
    }

    /** The store into the cell of a reference. */
    method PatchReference(n: nat, i: nat, ghost k: nat, o: nat, h: u32)
      requires Ok() && n < count && i < |props[n]| && k < |props[n][i].val.markers| && IsRef(props[n][i].val.markers[k])
      requires props[n][i].val.markers[k].offset == o && o + 4 <= |props[n][i].val.bytes|
      modifies `props
      ensures Ok() && props == Replaced(old(props), n, i, Property(old(props[n][i].name), Patched(old(props[n][i].val), o, h)))
    {
      hide Agrees, BE32, UsedUpTo;
      var p := Property(props[n][i].name, Patched(props[n][i].val, o, h));
      Four(h);
      PatchAgrees(props[n], i, p, PHANDLE, n, phandle[n], resolve);
      PatchAgrees(props[n], i, p, LINUX_PHANDLE, n, phandle[n], resolve);
      assert Sound(props[n][i].val);
      assert Sound(p.val);
      props := props[n := props[n][i := p]];
    }

    /** The references of one property. */
    method FixProperty(n: nat, i: nat) returns (failed: bool)
      requires Ok() && n < count && i < |props[n]|
      modifies this
      ensures Ok() && i < |props[n]| && props[n][i].name == old(props[n][i].name) && props[n][i].val.markers == old(props[n][i].val.markers)
      ensures Grown(Replaced(old(props), n, i, props[n][i]), old(phandle), props, phandle)
      ensures Progress(old(phandle), old(props), phandle, props, n)
      ensures failed <==> Dangling(old(props[n][i].val.markers))
      ensures forall m :: 0 <= m < count && GivenTo(old(phandle), phandle, m) ==> MeantIn(old(props[n][i].val.markers), m)
      ensures !failed ==> Filled(props[n][i].val, |props[n][i].val.markers|, phandle, resolve, plugin)
      ensures Kept(old(props), old(phandle), props, phandle, legacy, epapr)
    {
      hide Agrees, Sound, BE32, Filled, UsedUpTo, Zeros, MayHave, Apart, IsRef, Kept, MeantIn;
      failed := false;
      ghost var ms, ps0, ph0 := props[n][i].val.markers, props, phandle;
      ghost var p0 := props[n][i];
      SameReplaced(props, n, i);
      GrownSelf(props, phandle);
      KeptSelf(props, phandle, legacy, epapr);
      NoneFilled(props[n][i].val, phandle, resolve, plugin);
      var k := 0;
      while k < |props[n][i].val.markers|
        invariant Ok() && i < |props[n]| && props[n][i].name == p0.name && props[n][i].val.markers == ms && k <= |ms|
        invariant Grown(Replaced(ps0, n, i, props[n][i]), ph0, props, phandle)
        invariant Progress(ph0, ps0, phandle, props, n)
        invariant Kept(ps0, ph0, props, phandle, legacy, epapr)
        invariant failed <==> Dangling(ms[..k])
        invariant forall m :: 0 <= m < count && GivenTo(ph0, phandle, m) ==> MeantIn(ms, m)
        invariant !failed ==> Filled(props[n][i].val, k, phandle, resolve, plugin)
      {
        ghost var d := props[n][i].val;
        DanglingStep(ms, k);
        if props[n][i].val.markers[k].kind == RefPhandle {
          ghost var ps1, ph1 := props, phandle;
          RefKind(ms[k]);
          var fail := FixReference(n, i, k);
          failed := failed || fail;
          MeantNow(ms, k, ph0, ph1, phandle);
          GrownTwice(ps0, ph0, ps1, ph1, props, phandle, n, i, props[n][i]);
          ProgressTwice(ph0, ps0, ph1, ps1, phandle, props, n);
          KeptTwice(ps0, ph0, ps1, ph1, props, phandle, legacy, epapr);
        } else {
          NotARef(d, k, phandle, resolve, plugin);
        }
        k := k + 1;
      }
      assert ms[..k] == ms;
    }

    /** The node has got its phandle in between. */
    predicate GivenTo(ph: seq<u32>, ph2: seq<u32>, m: nat)
      requires m < |ph| == |ph2|
    {
      ph[m] == 0 && ph2[m] != 0
    }

    /** One of the references means the node. */
    predicate MeantIn(ms: seq<Marker>, m: nat)
    {
      exists k :: 0 <= k < |ms| && IsRef(ms[k]) && resolve(ms[k].ref) == m
    }

    lemma MeantNow(ms: seq<Marker>, k: nat, ph0: seq<u32>, ph1: seq<u32>, ph2: seq<u32>)
      requires |ph0| == |ph1| == |ph2| == count && k < |ms| && IsRef(ms[k])
      requires forall m :: 0 <= m < count && GivenTo(ph0, ph1, m) ==> MeantIn(ms, m)
      requires forall m :: 0 <= m < count && GivenTo(ph1, ph2, m) ==> m == resolve(ms[k].ref)
      ensures forall m :: 0 <= m < count && GivenTo(ph0, ph2, m) ==> MeantIn(ms, m)
    {
      forall m | 0 <= m < count && GivenTo(ph0, ph2, m)
        ensures MeantIn(ms, m)
      {
        assert GivenTo(ph0, ph1, m) || GivenTo(ph1, ph2, m);
      }
    }

    /** A reference in one of the properties means the node. */
    predicate MeantBy(p: seq<Property>, m: nat)
    {
      exists b :: 0 <= b < |p| && MeantIn(p[b].val.markers, m)
    }

    lemma MeantNext(p: seq<Property>, q: seq<Property>, i: nat, ph0: seq<u32>, ph1: seq<u32>, ph2: seq<u32>)
      requires |ph0| == |ph1| == |ph2| == count && i < |q| && PropsKept(p, q)
      requires forall m :: 0 <= m < count && GivenTo(ph0, ph1, m) ==> MeantBy(p, m)
      requires forall m :: 0 <= m < count && GivenTo(ph1, ph2, m) ==> MeantIn(q[i].val.markers, m)
      ensures forall m :: 0 <= m < count && GivenTo(ph0, ph2, m) ==> MeantBy(p, m)
    {
      hide ValueKept;
      if i < |p| {
        MarksKept(p[i].val, q[i].val);
      }
      forall m | 0 <= m < count && GivenTo(ph0, ph2, m)
        ensures MeantBy(p, m)
      {
        assert GivenTo(ph0, ph1, m) || GivenTo(ph1, ph2, m);
      }
    }

    /** A reference somewhere in the tree means the node. */
    predicate Meant(ps: seq<seq<Property>>, m: nat)
    {
      exists a :: 0 <= a < |ps| && MeantBy(ps[a], m)
    }

    lemma MeantSame(p: seq<Property>, q: seq<Property>, m: nat)
      requires PropsKept(p, q) && MeantBy(q, m)
      ensures MeantBy(p, m)
    {
      hide ValueKept;
      var b :| 0 <= b < |q| && MeantIn(q[b].val.markers, m);
      if b < |p| {
        MarksKept(p[b].val, q[b].val);
      }
    }

    lemma MeantSoFar(ps: seq<seq<Property>>, n: nat, q: seq<Property>, ph0: seq<u32>, ph1: seq<u32>, ph2: seq<u32>)
      requires |ph0| == |ph1| == |ph2| == count && n < |ps| && PropsKept(ps[n], q)
      requires forall m :: 0 <= m < count && GivenTo(ph0, ph1, m) ==> Meant(ps, m)
      requires forall m :: 0 <= m < count && GivenTo(ph1, ph2, m) ==> MeantBy(q, m)
      ensures forall m :: 0 <= m < count && GivenTo(ph0, ph2, m) ==> Meant(ps, m)
    {
      hide PropsKept, MeantBy;
      forall m | 0 <= m < count && GivenTo(ph0, ph2, m)
        ensures Meant(ps, m)
      {
        if GivenTo(ph1, ph2, m) {
          MeantSame(ps[n], q, m);
        } else {
          assert GivenTo(ph0, ph1, m);
        }
      }
    }

    /** A reference that no node answers to; in a plugin it is left for later. */
    predicate Dangling(ms: seq<Marker>)
    {
      exists k :: 0 <= k < |ms| && IsRef(ms[k]) && resolve(ms[k].ref) >= count && !plugin
    }

    lemma DanglingStep(ms: seq<Marker>, k: nat)
      requires k < |ms|
      ensures Dangling(ms[..k + 1]) <==> Dangling(ms[..k]) || (IsRef(ms[k]) && resolve(ms[k].ref) >= count && !plugin)
    {
      assert ms[..k + 1][k] == ms[k];
      assert forall j :: 0 <= j < k ==> ms[..k + 1][j] == ms[..k][j];
    }

    /** A reference in one of the first `i` properties of a node that fails the check. */
    predicate DanglingUpTo(p: seq<Property>, i: nat)
    {
      exists b :: 0 <= b < |p| && b < i && Dangling(p[b].val.markers)
    }

    lemma DanglingNext(p: seq<Property>, q: seq<Property>, i: nat)
      requires PropsKept(p, q) && i < |q|
      ensures DanglingUpTo(p, i + 1) <==> DanglingUpTo(p, i) || Dangling(q[i].val.markers)
    {
      hide Dangling;
      if i < |p| {
        MarksKept(p[i].val, q[i].val);
      } else {
        NoneDangle(q[i].val.markers);
      }
    }

    lemma DanglingAll(p: seq<Property>, i: nat)
      requires |p| <= i
      ensures DanglingUpTo(p, i) <==> DanglingUpTo(p, |p|)
    {
      hide Dangling;
    }

    lemma DanglingSame(p: seq<Property>, q: seq<Property>)
      requires PropsKept(p, q)
      ensures DanglingUpTo(q, |q|) <==> DanglingUpTo(p, |p|)
    {
      hide Dangling, ValueKept;
      forall b | 0 <= b < |q|
        ensures if b < |p| then Dangling(q[b].val.markers) == Dangling(p[b].val.markers) else !Dangling(q[b].val.markers)
      {
        if b < |p| {
          MarksKept(p[b].val, q[b].val);
        } else {
          NoneDangle(q[b].val.markers);
        }
      }
    }

    lemma NoneDangle(ms: seq<Marker>)
      ensures Dangling(ms) ==> ms != []
    {
    }

    /** A reference in the first `n` nodes that fails the check. */
    predicate SomeDangling(ps: seq<seq<Property>>, n: nat)
    {
      exists a :: 0 <= a < |ps| && a < n && DanglingUpTo(ps[a], |ps[a]|)
    }

    /** fixup_phandle_references: it fails exactly when a reference of the node means no node. */
    method FixNode(n: nat) returns (failed: bool)
      requires Ok() && n < count
      modifies this
      ensures Ok()
      ensures !failed && old(FilledUpTo(props, phandle, n, 0, resolve, plugin)) ==> FilledUpTo(props, phandle, n + 1, 0, resolve, plugin)
      ensures Kept(old(props), old(phandle), props, phandle, legacy, epapr)
      ensures failed <==> DanglingUpTo(old(props[n]), |old(props[n])|)
      ensures forall m :: 0 <= m < count && GivenTo(old(phandle), phandle, m) ==> MeantBy(old(props[n]), m)
    {
      hide Agrees, Sound, BE32, Filled, UsedUpTo, Zeros, MayHave, Apart, IsRef, Dangling, Grown, FilledUpTo, DanglingUpTo, Kept, MeantIn, MeantBy;
      failed := false;
      KeptSelf(props, phandle, legacy, epapr);
      ghost var before := FilledUpTo(props, phandle, n, 0, resolve, plugin);
      ghost var ps0, ph0 := props, phandle;
      NoneUpTo(ps0[n]);
      var i := 0;
      while i < |props[n]|
        invariant Ok() && i <= |props[n]|
        invariant !failed && before ==> FilledUpTo(props, phandle, n, i, resolve, plugin)
        invariant Kept(ps0, ph0, props, phandle, legacy, epapr)
        invariant failed <==> DanglingUpTo(ps0[n], i)
        invariant forall m :: 0 <= m < count && GivenTo(ph0, phandle, m) ==> MeantBy(ps0[n], m)
        decreases Zeros(phandle), |props[n]| - i
      {
        ghost var ps, ph := props, phandle;
        KeptAt(ps0, ph0, ps, ph, n, legacy, epapr);
        DanglingNext(ps0[n], ps[n], i);
        var fail := FixProperty(n, i);
        MeantNext(ps0[n], ps[n], i, ph0, ph, phandle);
        KeptTwice(ps0, ph0, ps, ph, props, phandle, legacy, epapr);
        if !failed && !fail && before {
          FilledMore(ps, ph, n, i, props[n][i], props, phandle, resolve, plugin);
        }
        failed := failed || fail;
        i := i + 1;
      }
      KeptAt(ps0, ph0, props, phandle, n, legacy, epapr);
      DanglingAll(ps0[n], i);
      if !failed && before {
        NodeFilled(props, phandle, n, resolve, plugin);
      }
    }

    lemma NoneUpTo(p: seq<Property>)
      ensures !DanglingUpTo(p, 0)
    {
    }

    /** The pass of phandle_references over the tree: it fails exactly when some reference means no node, and
        writes nothing but the cells of references. */
    method PhandleReferences() returns (failed: bool)
      requires Ok()
      modifies this
      ensures Ok()
      ensures !failed ==> FilledUpTo(props, phandle, count, 0, resolve, plugin)
      ensures Kept(old(props), old(phandle), props, phandle, legacy, epapr)
      ensures failed <==> SomeDangling(old(props), count)
      ensures forall m :: 0 <= m < count && GivenTo(old(phandle), phandle, m) ==> Meant(old(props), m)
    {
      hide Agrees, Sound, Filled, UsedUpTo, MayHave, Apart, Dangling, DanglingUpTo, Kept, MeantBy, Meant;
      failed := false;
      KeptSelf(props, phandle, legacy, epapr);
      ghost var ps0, ph0 := props, phandle;
      var n := 0;
      while n < count
        invariant n <= count && Ok()
        invariant !failed ==> FilledUpTo(props, phandle, n, 0, resolve, plugin)
        invariant Kept(ps0, ph0, props, phandle, legacy, epapr)
        invariant failed <==> SomeDangling(ps0, n)
        invariant forall m :: 0 <= m < count && GivenTo(ph0, phandle, m) ==> Meant(ps0, m)
      {
        ghost var ps, ph := props, phandle;
        KeptAt(ps0, ph0, ps, ph, n, legacy, epapr);
        DanglingSame(ps0[n], ps[n]);
        var fail := FixNode(n);
        MeantSoFar(ps0, n, ps[n], ph0, ph, phandle);
        KeptTwice(ps0, ph0, ps, ph, props, phandle, legacy, epapr);
        failed := failed || fail;
        n := n + 1;
      }
    }
  }

  lemma KeptAt(ps: seq<seq<Property>>, ph: seq<u32>, ps2: seq<seq<Property>>, ph2: seq<u32>, n: nat, legacy: bool, epapr: bool)
    requires Kept(ps, ph, ps2, ph2, legacy, epapr) && n < |ps|
    ensures n < |ps2| && PropsKept(ps[n], ps2[n]) && NewOnes(ps[n], ps2[n], ph2[n], legacy, epapr)
    ensures |ps[n]| <= |ps2[n]| && (|ps[n]| < |ps2[n]| ==> ph[n] == 0 && ph2[n] != 0)
  {
    AddedOnly(ps[n], ps2[n]);
    hide PropsKept, NewOnes;
  }

  /** When the references are filled in, the phandle properties of a node hold its phandle. */
  lemma PhandleHeld(ps: seq<Property>, name: Name, n: nat, ph: seq<u32>, resolve: Name -> nat, plugin: bool)
    requires n < |ph| && Agrees(ps, name, n, ph[n], resolve) && FindNamed(ps, name) < |ps|
    requires var d := ps[FindNamed(ps, name)].val; Sound(d) && Filled(d, |d.markers|, ph, resolve, plugin)
    ensures ph[n] != 0 && ps[FindNamed(ps, name)].val.bytes == BE32(ph[n])
  {
    var d := ps[FindNamed(ps, name)].val;
    hide BE32, FindNamed;
    Four(ph[n]);
    if HasRef(d.markers) {
      var k :| 0 <= k < |d.markers| && IsRef(d.markers[k]);
      CellInside(d, k);
      assert d.bytes[0..4] == d.bytes;
    }
  }

  lemma CellIs(s: seq<byte>)
    requires |s| == 4
    ensures s == BE32(Word(s, 0)) && forall g: u32 :: s == BE32(g) ==> g == Word(s, 0)
  {
    BE32OfWord(s);
    hide BE32, Word;
    forall g: u32 | s == BE32(g)
      ensures g == Word(s, 0)
    {
      WordOfBE32(g);
    }
  }

  lemma GrownSelf(ps: seq<seq<Property>>, ph: seq<u32>)
    ensures Grown(ps, ph, ps, ph)
  {
  }

  lemma NoneFilled(d: Value, ph: seq<u32>, resolve: Name -> nat, plugin: bool)
    requires Sound(d)
    ensures Filled(d, 0, ph, resolve, plugin)
  {
  }

  lemma RefKind(m: Marker)
    ensures IsRef(m) <==> m.kind == RefPhandle
  {
  }

  lemma NotARef(d: Value, k: nat, ph: seq<u32>, resolve: Name -> nat, plugin: bool)
    requires Sound(d) && k < |d.markers| && d.markers[k].kind != RefPhandle
    ensures !IsRef(d.markers[k]) && (Filled(d, k, ph, resolve, plugin) ==> Filled(d, k + 1, ph, resolve, plugin))
  {
  }

  lemma GrownTwice(ps0: seq<seq<Property>>, ph0: seq<u32>, ps1: seq<seq<Property>>, ph1: seq<u32>, ps2: seq<seq<Property>>, ph2: seq<u32>,
                   n: nat, i: nat, p: Property)
    requires n < |ps0| && i < |ps0[n]| && |ps1| == |ps0| && i < |ps1[n]| && |ps2| == |ps0|
    requires Grown(Replaced(ps0, n, i, ps1[n][i]), ph0, ps1, ph1) && Grown(Replaced(ps1, n, i, p), ph1, ps2, ph2)
    requires i < |ps2[n]| && ps2[n][i] == p
    ensures Grown(Replaced(ps0, n, i, p), ph0, ps2, ph2)
  {
    assert ps0[n][i := ps1[n][i]] <= ps1[n];
    assert ps0[n][i := p] <= ps1[n][i := p];
    forall a, b | 0 <= a < |ps0| && |Replaced(ps0, n, i, p)[a]| <= b < |ps2[a]|
      ensures ps2[a][b].val.markers == []
    {
      if b < |ps1[a]| {
        assert Replaced(ps1, n, i, p)[a] <= ps2[a];
        assert ps1[a][b].val.markers == [];
        assert ps2[a][b] == Replaced(ps1, n, i, p)[a][b];
      }
    }
  }

  lemma ProgressTwice(ph0: seq<u32>, ps0: seq<seq<Property>>, ph1: seq<u32>, ps1: seq<seq<Property>>, ph2: seq<u32>, ps2: seq<seq<Property>>, n: nat)
    requires n < |ps0| && n < |ps1| && n < |ps2|
    requires Progress(ph0, ps0, ph1, ps1, n) && Progress(ph1, ps1, ph2, ps2, n)
    ensures Progress(ph0, ps0, ph2, ps2, n)
  {
  }

  /** A byte of the cell of a reference. */
  predicate InCell(ms: seq<Marker>, x: int) {
    exists k :: 0 <= k < |ms| && IsRef(ms[k]) && ms[k].offset <= x < ms[k].offset + 4
  }

  /** Only cells of references have been written. */
  predicate ValueKept(d: Value, e: Value) {
    && e.markers == d.markers && |e.bytes| == |d.bytes|
    && forall x :: 0 <= x < |d.bytes| && !InCell(d.markers, x) ==> e.bytes[x] == d.bytes[x]
  }

  /** Every property is where it was, and only phandle properties have been added. */
  predicate PropsKept(p: seq<Property>, q: seq<Property>) {
    && |p| <= |q|
    && (forall b :: 0 <= b < |p| ==> q[b].name == p[b].name && ValueKept(p[b].val, q[b].val))
    && (forall b :: |p| <= b < |q| ==> Added(q[b]))
  }

  /** A phandle property that the chosen format asks for and that was not there. */
  predicate NewOne(p: seq<Property>, x: Property, h: u32, legacy: bool, epapr: bool) {
    && x.val == Value(BE32(h), [])
    && ((x.name == LINUX_PHANDLE && legacy) || (x.name == PHANDLE && epapr))
    && FindNamed(p, x.name) == |p|
  }

  /** The properties behind the old ones: at most one of each name, `linux,phandle` first, and none but those
      that the chosen format asks for. */
  predicate NewOnes(p: seq<Property>, q: seq<Property>, h: u32, legacy: bool, epapr: bool) {
    && (forall b :: |p| <= b < |q| ==> NewOne(p, q[b], h, legacy, epapr))
    && |q| <= |p| + 2
    && (|q| == |p| + 2 ==> q[|p|].name == LINUX_PHANDLE && q[|p| + 1].name == PHANDLE)
  }

  /** A node's phandle stays once it has one; a node gets properties when it gets its phandle, and then those
      of the chosen format. */
  predicate NodeKept(p: seq<Property>, h: u32, q: seq<Property>, g: u32, legacy: bool, epapr: bool) {
    && PropsKept(p, q)
    && (h != 0 ==> g == h)
    && (|p| < |q| ==> h == 0 && g != 0)
    && (h == 0 && g != 0 ==> Chosen(q, legacy, epapr))
    && NewOnes(p, q, g, legacy, epapr)
  }

  predicate Kept(ps: seq<seq<Property>>, ph: seq<u32>, ps2: seq<seq<Property>>, ph2: seq<u32>, legacy: bool, epapr: bool) {
    && |ps| == |ph| == |ps2| == |ph2|
    && forall n :: 0 <= n < |ps| ==> NodeKept(ps[n], ph[n], ps2[n], ph2[n], legacy, epapr)
  }

  lemma KeptSelf(ps: seq<seq<Property>>, ph: seq<u32>, legacy: bool, epapr: bool)
    requires |ps| == |ph|
    ensures Kept(ps, ph, ps, ph, legacy, epapr)
  {
    hide InCell;
  }

  lemma PropsKeptSelf(p: seq<Property>)
    ensures PropsKept(p, p)
  {
    hide InCell;
  }

  /** Adding a phandle property that is not there. */
  lemma AppendKept(p: seq<Property>, q: seq<Property>, name: Name, other: Name, h: u32)
    requires PropsKept(p, q) && (name == PHANDLE || name == LINUX_PHANDLE)
    ensures var r := q + [Property(name, Value(BE32(h), []))];
      PropsKept(p, r) && FindNamed(r, name) < |r| && (FindNamed(q, other) < |q| ==> FindNamed(r, other) < |r|)
  {
    hide ValueKept, FindNamed, BE32;
    FindAppended(q, Property(name, Value(BE32(h), [])), name);
    FindAppended(q, Property(name, Value(BE32(h), [])), other);
  }

  lemma NoNewOnes(p: seq<Property>, h: u32, legacy: bool, epapr: bool)
    ensures NewOnes(p, p, h, legacy, epapr)
  {
  }

  lemma AppendNew(p: seq<Property>, q: seq<Property>, name: Name, h: u32, legacy: bool, epapr: bool)
    requires PropsKept(p, q) && NewOnes(p, q, h, legacy, epapr) && FindNamed(q, name) == |q|
    requires (name == LINUX_PHANDLE && legacy && q == p) || (name == PHANDLE && epapr && |q| <= |p| + 1)
    ensures NewOnes(p, q + [Property(name, Value(BE32(h), []))], h, legacy, epapr)
  {
    hide ValueKept, BE32;
    StillNamed(p, q, name);
    NamesDiffer();
  }

  lemma GivenOut(ps: seq<seq<Property>>, ph: seq<u32>, n: nat, q: seq<Property>, h: u32, legacy: bool, epapr: bool)
    requires |ps| == |ph| && n < |ps| && ph[n] == 0 && h != 0 && PropsKept(ps[n], q) && ps[n] <= q && Chosen(q, legacy, epapr)
    requires NewOnes(ps[n], q, h, legacy, epapr)
    ensures Kept(ps, ph, ps[n := q], ph[n := h], legacy, epapr) && Grown(ps, ph, ps[n := q], ph[n := h])
  {
    KeptSelf(ps, ph, legacy, epapr);
    GrownSelf(ps, ph);
    AddedOnly(ps[n], q);
    hide PropsKept, Chosen, Added, NewOnes;
  }

  lemma AddedOnly(p: seq<Property>, q: seq<Property>)
    requires PropsKept(p, q)
    ensures |p| <= |q| && forall b :: |p| <= b < |q| ==> Added(q[b])
  {
    hide ValueKept, Added;
  }

  lemma KeptTwice(ps: seq<seq<Property>>, ph: seq<u32>, ps1: seq<seq<Property>>, ph1: seq<u32>, ps2: seq<seq<Property>>, ph2: seq<u32>,
                  legacy: bool, epapr: bool)
    requires Kept(ps, ph, ps1, ph1, legacy, epapr) && Kept(ps1, ph1, ps2, ph2, legacy, epapr)
    ensures Kept(ps, ph, ps2, ph2, legacy, epapr)
  {
    hide NodeKept;
    forall n | 0 <= n < |ps|
      ensures NodeKept(ps[n], ph[n], ps2[n], ph2[n], legacy, epapr)
    {
      NodeKeptTwice(ps[n], ph[n], ps1[n], ph1[n], ps2[n], ph2[n], legacy, epapr);
    }
  }

  lemma NodeKeptTwice(p: seq<Property>, h: u32, p1: seq<Property>, h1: u32, p2: seq<Property>, h2: u32, legacy: bool, epapr: bool)
    requires NodeKept(p, h, p1, h1, legacy, epapr) && NodeKept(p1, h1, p2, h2, legacy, epapr)
    ensures NodeKept(p, h, p2, h2, legacy, epapr)
  {
    hide ValueKept, FindNamed;
    forall b | 0 <= b < |p|
      ensures ValueKept(p[b].val, p2[b].val)
    {
      ValueKeptTwice(p[b].val, p1[b].val, p2[b].val);
    }
    forall b | |p| <= b < |p2|
      ensures Added(p2[b])
    {
      if b < |p1| {
        MarksKept(p1[b].val, p2[b].val);
      }
    }
    StillNamed(p1, p2, PHANDLE);
    StillNamed(p1, p2, LINUX_PHANDLE);
    NewOnesTwice(p, p1, h1, p2, h2, legacy, epapr);
  }

  lemma NewOnesTwice(p: seq<Property>, p1: seq<Property>, h1: u32, p2: seq<Property>, h2: u32, legacy: bool, epapr: bool)
    requires PropsKept(p, p1) && PropsKept(p1, p2) && NewOnes(p, p1, h1, legacy, epapr) && NewOnes(p1, p2, h2, legacy, epapr)
    requires if |p| < |p1| then |p2| == |p1| && h2 == h1 else |p1| == |p|
    ensures NewOnes(p, p2, h2, legacy, epapr)
  {
    hide BE32, FindNamed, InCell;
    if |p| < |p1| {
      forall b | |p| <= b < |p2|
        ensures p2[b] == p1[b]
      {
        assert NewOne(p, p1[b], h1, legacy, epapr);
        NewOneStays(p1[b].val, p2[b].val);
      }
      NewOnesSame(p, p1, p2, h2, legacy, epapr);
    } else {
      forall b | |p| <= b < |p2|
        ensures NewOne(p, p2[b], h2, legacy, epapr)
      {
        assert NewOne(p1, p2[b], h2, legacy, epapr);
        StillNamed(p, p1, p2[b].name);
      }
    }
  }

  lemma NewOnesSame(p: seq<Property>, q: seq<Property>, r: seq<Property>, h: u32, legacy: bool, epapr: bool)
    requires |p| <= |q| == |r| && NewOnes(p, q, h, legacy, epapr) && forall b :: |p| <= b < |q| ==> r[b] == q[b]
    ensures NewOnes(p, r, h, legacy, epapr)
  {
    hide FindNamed, BE32;
  }

  lemma NewOneStays(d: Value, e: Value)
    requires d.markers == [] && ValueKept(d, e)
    ensures e == d
  {
  }

  lemma ValueKeptTwice(d: Value, e: Value, f: Value)
    requires ValueKept(d, e) && ValueKept(e, f)
    ensures ValueKept(d, f)
  {
    hide InCell;
  }

  lemma MarksKept(d: Value, e: Value)
    requires ValueKept(d, e)
    ensures e.markers == d.markers
  {
  }

  lemma StillNamed(p: seq<Property>, q: seq<Property>, name: Name)
    requires PropsKept(p, q)
    ensures FindNamed(p, name) < |p| ==> FindNamed(q, name) == FindNamed(p, name)
  {
    hide ValueKept;
    if FindNamed(p, name) < |p| {
      FindNamedIs(q, name, FindNamed(p, name));
    }
  }

  /** Storing into the cell of a reference. */
  lemma PatchKept(d: Value, k: nat, h: u32)
    requires k < |d.markers| && IsRef(d.markers[k]) && d.markers[k].offset + 4 <= |d.bytes|
    ensures ValueKept(d, Patched(d, d.markers[k].offset, h)) && Patched(d, d.markers[k].offset, h).markers == d.markers
  {
    hide BE32;
    Four(h);
    var o := d.markers[k].offset;
    forall x | 0 <= x < |d.bytes| && !InCell(d.markers, x)
      ensures Patched(d, o, h).bytes[x] == d.bytes[x]
    {
      assert !(o <= x < o + 4);
    }
  }

  lemma ReplacedKept(ps: seq<seq<Property>>, ph: seq<u32>, n: nat, i: nat, p: Property, legacy: bool, epapr: bool)
    requires |ps| == |ph| && n < |ps| && i < |ps[n]| && p.name == ps[n][i].name && ValueKept(ps[n][i].val, p.val)
    ensures Kept(ps, ph, Replaced(ps, n, i, p), ph, legacy, epapr)
  {
    KeptSelf(ps, ph, legacy, epapr);
    hide ValueKept, Chosen;
  }

  lemma NodeFilled(ps: seq<seq<Property>>, ph: seq<u32>, n: nat, resolve: Name -> nat, plugin: bool)
    requires AllSound(ps) && n < |ps| && FilledUpTo(ps, ph, n, |ps[n]|, resolve, plugin)
    ensures FilledUpTo(ps, ph, n + 1, 0, resolve, plugin)
  {
    hide Filled;
  }

  lemma FilledMore(ps: seq<seq<Property>>, ph: seq<u32>, n: nat, i: nat, p: Property, ps2: seq<seq<Property>>, ph2: seq<u32>,
                   resolve: Name -> nat, plugin: bool)
    requires n < |ps| && i < |ps[n]| && Grown(Replaced(ps, n, i, p), ph, ps2, ph2) && i < |ps2[n]| && ps2[n][i] == p
    requires AllSound(ps) && AllSound(ps2) && FilledUpTo(ps, ph, n, i, resolve, plugin)
    requires Filled(p.val, |p.val.markers|, ph2, resolve, plugin)
    ensures FilledUpTo(ps2, ph2, n, i + 1, resolve, plugin)
  {
    hide Filled, Sound;
    var r := Replaced(ps, n, i, p);
    assert AllSound(r);
    assert FilledUpTo(r, ph, n, i, resolve, plugin);
    GrownStays(r, ph, ps2, ph2, n, i, resolve, plugin);
  }

  /** One property of one node replaced. */
  function Replaced(ps: seq<seq<Property>>, n: nat, i: nat, p: Property): seq<seq<Property>>
    requires n < |ps| && i < |ps[n]|
  {
    ps[n := ps[n][i := p]]
  }

  /** Properties are only added to a node when a phandle is given out. */
  predicate Progress(ph0: seq<u32>, ps0: seq<seq<Property>>, ph: seq<u32>, ps: seq<seq<Property>>, n: nat)
    requires n < |ps0| && n < |ps|
  {
    Zeros(ph) < Zeros(ph0) || (ph == ph0 && |ps[n]| == |ps0[n]|)
  }

  lemma CellInside(d: Value, k: nat)
    requires Sound(d) && k < |d.markers| && IsRef(d.markers[k])
    ensures d.markers[k].offset + 4 <= |d.bytes|
  {
  }

  lemma SameReplaced(ps: seq<seq<Property>>, n: nat, i: nat)
    requires n < |ps| && i < |ps[n]|
    ensures Replaced(ps, n, i, ps[n][i]) == ps
  {
    assert ps[n][i := ps[n][i]] == ps[n];
  }

  lemma PatchedGrown(ps0: seq<seq<Property>>, ph0: seq<u32>, ps1: seq<seq<Property>>, n: nat, i: nat, p: Property, ph: seq<u32>)
    requires n < |ps0| && i < |ps0[n]| && Grown(ps0, ph0, ps1, ph)
    ensures n < |ps1| && i < |ps1[n]| && ps1[n][i] == ps0[n][i] && Grown(Replaced(ps0, n, i, p), ph0, Replaced(ps1, n, i, p), ph)
  {
    assert ps0[n] <= ps1[n];
    assert ps0[n][i := p] <= ps1[n][i := p];
  }

  lemma GrownSizes(ps0: seq<seq<Property>>, ph0: seq<u32>, ps1: seq<seq<Property>>, ph1: seq<u32>)
    requires Grown(ps0, ph0, ps1, ph1)
    ensures |ps0| == |ps1| && |ph0| == |ph1| && forall n :: 0 <= n < |ph0| && ph0[n] != 0 ==> ph1[n] == ph0[n]
  {
  }

  lemma StillUsed(ph: seq<u32>, n: nat, h: u32, next: nat)
    requires UsedUpTo(ph, next) && n < |ph| && ph[n] == 0 && h == next && h !in ph
    ensures UsedUpTo(ph[n := h], next)
  {
    forall k: nat {:trigger k in ph[n := h]} | 1 <= k < next
      ensures k in ph[n := h]
    {
      assert k in ph;
      InUpdated(ph, n, h, k);
    }
  }

  lemma InUpdated(ph: seq<u32>, n: nat, h: u32, k: u32)
    requires n < |ph| && ph[n] == 0 && k != 0 && k in ph
    ensures k in ph[n := h]
  {
    var i :| 0 <= i < |ph| && ph[i] == k;
    assert ph[n := h][i] == k;
  }

  lemma NamesDiffer()
    ensures PHANDLE != LINUX_PHANDLE
  {
    assert |PHANDLE| == 7 && |LINUX_PHANDLE| == 13;
  }

  /** A node without a phandle agrees with any. */
  lemma AgreesWith(ps: seq<Property>, name: Name, n: nat, h: u32, resolve: Name -> nat)
    requires h != 0
    ensures Agrees(ps, name, n, 0, resolve) ==> Agrees(ps, name, n, h, resolve)
  {
  }

  lemma FindAppended(ps: seq<Property>, p: Property, name: Name)
    ensures FindNamed(ps + [p], name) ==
            if FindNamed(ps, name) < |ps| then FindNamed(ps, name) else if p.name == name then |ps| else |ps| + 1
  {
    FindNamedIs(ps + [p], name, if FindNamed(ps, name) < |ps| then FindNamed(ps, name) else if p.name == name then |ps| else |ps| + 1);
  }

  lemma FindNamedIs(ps: seq<Property>, name: Name, i: nat)
    requires i <= |ps| && (i < |ps| ==> ps[i].name == name) && forall j :: 0 <= j < i ==> ps[j].name != name
    ensures FindNamed(ps, name) == i
  {
  }

  lemma AppendAgrees(ps: seq<Property>, name: Name, other: Name, n: nat, h: u32, resolve: Name -> nat)
    requires Agrees(ps, name, n, h, resolve) && h != 0 && FindNamed(ps, other) == |ps|
    ensures Agrees(ps + [Property(other, Value(BE32(h), []))], name, n, h, resolve)
  {
    Four(h);
    hide BE32, FindNamed;
    FindAppended(ps, Property(other, Value(BE32(h), [])), name);
  }

  /** Filling in a reference changes nothing about the agreement. */
  lemma PatchAgrees(ps: seq<Property>, i: nat, p: Property, name: Name, n: nat, h: u32, resolve: Name -> nat)
    requires i < |ps| && p.name == ps[i].name && p.val.markers == ps[i].val.markers && |p.val.bytes| == |ps[i].val.bytes|
    requires HasRef(p.val.markers) && Agrees(ps, name, n, h, resolve)
    ensures Agrees(ps[i := p], name, n, h, resolve)
  {
    hide BE32;
    FindNamedIs(ps[i := p], name, FindNamed(ps, name));
  }

  lemma UsedBelow(ph: seq<u32>, next: nat)
    requires UsedUpTo(ph, next)
    ensures forall k: nat :: 1 <= k < next ==> k in ph
  {
  }

  lemma GivenHas(ps: seq<Property>, n: nat, h: u32, resolve: Name -> nat)
    requires Given(ps) && MayHave(ps, n, h, resolve)
    ensures h != 0
  {
    hide BE32;
  }

  lemma NotThere(ph: seq<u32>, h: u32)
    requires FirstWith(ph, h) == |ph|
    ensures h !in ph
  {
  }
}
