/** dtc's checks.c: which checks run, in what order, and at what level they complain. What a single
    check looks at in the tree is not modelled: its pass over the tree may fail or not. */
module Checker {

  datatype Status = UNCHECKED | PREREQ | PASSED | FAILED

  /** struct check. Prerequisites form a graph without cycles: `rank` grows from a check's
      prerequisites to the check. */
  class Check {
    const prereqs: seq<Check>
    ghost const rank: nat
    var warn: bool
    var error: bool
    var status: Status
    var inProgress: bool
    ghost var passes: nat   // how often its pass over the tree has been started

    constructor (prereqs: seq<Check>, warn: bool, error: bool, ghost rank: nat)
      ensures this.prereqs == prereqs && this.rank == rank && this.warn == warn && this.error == error
      ensures status == UNCHECKED && !inProgress && passes == 0
    {
      this.prereqs, this.warn, this.error, this.rank := prereqs, warn, error, rank;
      status, inProgress, passes := UNCHECKED, false, 0;
    }
  }

  /** Every prerequisite of a check of the table is in the table, and ranks grow. */
  ghost predicate Closed(table: seq<Check>) {
    forall c, p :: c in table && p in c.prereqs ==> p in table && p.rank < c.rank
  }

  /** A check and everything it depends on. */
  ghost function Deps(c: Check, table: seq<Check>): (r: set<Check>)
    requires Closed(table) && c in table
    ensures c in r && forall d :: d in r ==> d in table && (d == c || d.rank < c.rank)
    decreases c.rank
  {
    {c} + set p, d | p in c.prereqs && d in Deps(p, table) :: d
  }

  lemma {:induction false} DepsTransitive(a: Check, b: Check, c: Check, table: seq<Check>)
    requires Closed(table) && a in table && b in Deps(a, table) && c in Deps(b, table)
    ensures c in Deps(a, table)
    decreases a.rank
  {
    if b != a {
      var p :| p in a.prereqs && b in Deps(p, table);
      DepsTransitive(p, b, c, table);
    }
  }

  // ---- levels ------------------------------------------------------------------------------------

  /** A check at a level has all its prerequisites at that level. */
  ghost predicate LevelsOk(table: seq<Check>)
    reads table
  {
    forall c, p :: c in table && p in c.prereqs && p in table ==> (c.warn ==> p.warn) && (c.error ==> p.error)
  }

  lemma {:induction false} LevelsDown(c: Check, d: Check, table: seq<Check>)
    requires Closed(table) && LevelsOk(table) && c in table && d in Deps(c, table)
    ensures (c.warn ==> d.warn) && (c.error ==> d.error)
    decreases c.rank
  {
    if d != c {
      var p :| p in c.prereqs && d in Deps(p, table);
      LevelsDown(p, d, table);
    }
  }

  /** Changing levels runs nothing. */
  twostate predicate OnlyLevels(table: seq<Check>)
    reads table
  {
    forall d :: d in table ==>
      d.status == old(d.status) && d.inProgress == old(d.inProgress) && d.passes == old(d.passes)
  }

  /** The levels of the checks are the old ones raised for those in `up`. */
  twostate predicate Raised(table: seq<Check>, up: set<Check>, warn: bool, error: bool)
    reads table
  {
    forall d :: d in table ==>
      d.warn == (old(d.warn) || (warn && d in up)) && d.error == (old(d.error) || (error && d in up))
  }

  /** The levels of the checks are the old ones lowered for those in `down`. */
  twostate predicate Lowered(table: seq<Check>, down: set<Check>, warn: bool, error: bool)
    reads table
  {
    forall d :: d in table ==>
      d.warn == (old(d.warn) && !(warn && d in down)) && d.error == (old(d.error) && !(error && d in down))
  }

  ghost function DepsOfAll(ps: seq<Check>, table: seq<Check>): (r: set<Check>)
    requires Closed(table) && forall p :: p in ps ==> p in table
  {
    set p, d | p in ps && d in Deps(p, table) :: d
  }

  lemma DepsDef(c: Check, table: seq<Check>)
    requires Closed(table) && c in table
    ensures Deps(c, table) == {c} + DepsOfAll(c.prereqs, table) && c !in DepsOfAll(c.prereqs, table)
  {
  }

  lemma DepsOfNone(ps: seq<Check>, table: seq<Check>)
    requires Closed(table)
    ensures DepsOfAll(ps[..0], table) == {}
  {
  }

  lemma DepsOfMore(ps: seq<Check>, i: nat, table: seq<Check>)
    requires Closed(table) && (forall p :: p in ps ==> p in table) && i < |ps|
    ensures DepsOfAll(ps[..i + 1], table) == DepsOfAll(ps[..i], table) + Deps(ps[i], table)
  {
    assert ps[..i + 1] == ps[..i] + [ps[i]];
  }

  /** The prerequisites of a check whose level is to be raised. */
  method EnablePrereqs(c: Check, warn: bool, error: bool, ghost table: seq<Check>)
    requires Closed(table) && LevelsOk(table) && c in table
    modifies table
    ensures LevelsOk(table) && OnlyLevels(table) && Raised(table, DepsOfAll(c.prereqs, table), warn, error)
    decreases c.rank, 0
  {
    hide Deps, DepsOfAll;
    DepsDef(c, table);
    DepsOfNone(c.prereqs, table);
    for i := 0 to |c.prereqs|
      invariant LevelsOk(table) && OnlyLevels(table) && Raised(table, DepsOfAll(c.prereqs[..i], table), warn, error)
    {
      DepsOfMore(c.prereqs, i, table);
      DepsBelow(c, c.prereqs[i], table);
      Enable(c.prereqs[i], warn, error, table);
    }
    assert c.prereqs[..|c.prereqs|] == c.prereqs;
  }

  lemma PrereqDep(d: Check, p: Check, table: seq<Check>)
    requires Closed(table) && d in table && p in d.prereqs
    ensures p in table && p in Deps(d, table)
  {
    assert p in Deps(p, table);
  }

  /** With a check, the set holds its prerequisites. */
  ghost predicate GoDown(table: seq<Check>, s: set<Check>) {
    forall d, p :: d in table && d in s && p in d.prereqs && p in table ==> p in s
  }

  lemma LevelsGoDown(table: seq<Check>)
    requires LevelsOk(table)
    ensures GoDown(table, set d | d in table && d.warn) && GoDown(table, set d | d in table && d.error)
  {
  }

  /** Raising a check and all it depends on keeps levels going down the prerequisites. */
  lemma RaisedOk(table: seq<Check>, c: Check, warn: bool, error: bool, ws: set<Check>, es: set<Check>)
    requires Closed(table) && c in table && GoDown(table, ws) && GoDown(table, es)
    requires forall d :: d in table ==>
      d.warn == (d in ws || (warn && d in Deps(c, table))) && d.error == (d in es || (error && d in Deps(c, table)))
    ensures LevelsOk(table)
  {
    hide Deps;
    forall d, p | d in table && p in d.prereqs && p in table
      ensures (d.warn ==> p.warn) && (d.error ==> p.error)
    {
      if d in Deps(c, table) {
        PrereqDep(d, p, table);
        DepsTransitive(c, d, p, table);
      }
    }
  }

  lemma LevelsBelow(c: Check, table: seq<Check>)
    requires Closed(table) && LevelsOk(table) && c in table
    ensures forall d :: d in Deps(c, table) ==> (c.warn ==> d.warn) && (c.error ==> d.error)
  {
    hide Closed, LevelsOk, Deps;
    forall d | d in Deps(c, table)
      ensures (c.warn ==> d.warn) && (c.error ==> d.error)
    {
      LevelsDown(c, d, table);
    }
  }

  /** enable_warning_error: exactly the check and what it depends on are raised. */
  method Enable(c: Check, warn: bool, error: bool, ghost table: seq<Check>)
    requires Closed(table) && LevelsOk(table) && c in table
    modifies table
    ensures LevelsOk(table) && OnlyLevels(table) && Raised(table, Deps(c, table), warn, error)
    decreases c.rank, 1
  {
    hide Deps, DepsOfAll, Closed, LevelsOk, GoDown;
    ghost var ws, es := set d | d in table && d.warn, set d | d in table && d.error;
    LevelsGoDown(table);
    DepsDef(c, table);
    PrereqsIn(c, table);
    if (warn && !c.warn) || (error && !c.error) {
      EnablePrereqs(c, warn, error, table);
    } else {
      LevelsBelow(c, table);
    }
    c.warn := c.warn || warn;
    c.error := c.error || error;
    RaisedOk(table, c, warn, error, ws, es);
  }

  lemma DepsBelow(c: Check, p: Check, table: seq<Check>)
    requires Closed(table) && c in table && p in c.prereqs
    ensures p in table && p.rank < c.rank && c !in Deps(p, table)
  {
  }

  lemma PrereqsIn(c: Check, table: seq<Check>)
    requires Closed(table) && c in table
    ensures forall p :: p in c.prereqs ==> p in table && p in DepsOfAll(c.prereqs, table)
  {
    forall p | p in c.prereqs
      ensures p in table && p in DepsOfAll(c.prereqs, table)
    {
      assert p in Deps(p, table);
    }
  }

  /** The checks that depend on `c`, itself included. */
  ghost function Dependents(c: Check, table: seq<Check>): (r: set<Check>)
    requires Closed(table) && c in table
  {
    set d | d in table && c in Deps(d, table)
  }

  lemma DependentsIs(d: Check, c: Check, table: seq<Check>)
    requires Closed(table) && c in table && d in Dependents(c, table)
    ensures d in table && c in Deps(d, table)
  {
  }

  /** The last step of a way down to `c`. */
  lemma {:induction false} LastStep(d: Check, c: Check, table: seq<Check>) returns (cc: Check)
    requires Closed(table) && d in table && c in Deps(d, table) && d != c
    ensures cc in table && c in cc.prereqs && cc in Deps(d, table)
    decreases d.rank
  {
    var p :| p in d.prereqs && c in Deps(p, table);
    if p == c {
      cc := d;
    } else {
      cc := LastStep(p, c, table);
    }
  }

  /** The checks that depend on one of the first `i` of the table that have `c` as a prerequisite. */
  ghost function Above(c: Check, table: seq<Check>, i: nat): (r: set<Check>)
    requires Closed(table) && c in table && i <= |table|
  {
    set k: nat, d | k < i && c in table[k].prereqs && d in Dependents(table[k], table) :: d
  }

  lemma AboveAll(c: Check, table: seq<Check>)
    requires Closed(table) && c in table
    ensures Dependents(c, table) == {c} + Above(c, table, |table|) && c !in Above(c, table, |table|)
    ensures Above(c, table, 0) == {}
  {
    forall d | d in Dependents(c, table) && d != c
      ensures d in Above(c, table, |table|)
    {
      var cc := LastStep(d, c, table);
      var k: nat :| k < |table| && table[k] == cc;
      assert d in Dependents(table[k], table);
    }
    forall d | d in Above(c, table, |table|)
      ensures d in Dependents(c, table) && d != c
    {
      var k: nat :| k < |table| && c in table[k].prereqs && d in Dependents(table[k], table);
      assert c in Deps(c, table) && c in Deps(table[k], table);
      DepsTransitive(d, table[k], c, table);
    }
  }

  lemma AboveMore(c: Check, table: seq<Check>, i: nat)
    requires Closed(table) && c in table && i < |table|
    ensures Above(c, table, i + 1) == Above(c, table, i) + (if c in table[i].prereqs then Dependents(table[i], table) else {})
    ensures c in table[i].prereqs ==> table[i].rank > c.rank && c !in Dependents(table[i], table)
  {
  }

  /** Those that a check is a prerequisite of. */
  lemma DirectDependents(c: Check, table: seq<Check>)
    requires Closed(table) && c in table
    ensures forall d :: d in table && c in d.prereqs ==> d in Dependents(c, table)
  {
    forall d | d in table && c in d.prereqs
      ensures d in Dependents(c, table)
    {
      assert c in Deps(c, table);
    }
  }

  /** The checks that depend on a check whose level is to be lowered. */
  method DisableDependents(c: Check, warn: bool, error: bool, table: seq<Check>, ghost maxRank: nat)
    requires Closed(table) && LevelsOk(table) && c in table && forall d :: d in table ==> d.rank <= maxRank
    modifies table
    ensures LevelsOk(table) && OnlyLevels(table) && Lowered(table, Above(c, table, |table|), warn, error)
    decreases maxRank - c.rank, 0
  {
    hide Deps, Dependents, Above;
    AboveAll(c, table);
    for i := 0 to |table|
      invariant LevelsOk(table) && OnlyLevels(table) && Lowered(table, Above(c, table, i), warn, error)
    {
      AboveMore(c, table, i);
      DisableIfPrereq(c, table[i], warn, error, table, maxRank);
    }
  }

  /** Lowering a check and all that depends on it keeps levels going down the prerequisites. */
  lemma LoweredOk(table: seq<Check>, c: Check, warn: bool, error: bool, ws: set<Check>, es: set<Check>)
    requires Closed(table) && c in table && GoDown(table, ws) && GoDown(table, es)
    requires forall d :: d in table ==>
      d.warn == (d in ws && !(warn && d in Dependents(c, table))) && d.error == (d in es && !(error && d in Dependents(c, table)))
    ensures LevelsOk(table)
  {
    hide Deps;
    forall d, p | d in table && p in d.prereqs && p in table
      ensures (d.warn ==> p.warn) && (d.error ==> p.error)
    {
      if p in Dependents(c, table) {
        PrereqDep(d, p, table);
        DepsTransitive(d, p, c, table);
      }
    }
  }

  /** disable_warning_error: exactly the check and what depends on it are lowered. */
  method Disable(c: Check, warn: bool, error: bool, table: seq<Check>, ghost maxRank: nat)
    requires Closed(table) && LevelsOk(table) && c in table && forall d :: d in table ==> d.rank <= maxRank
    modifies table
    ensures LevelsOk(table) && OnlyLevels(table) && Lowered(table, Dependents(c, table), warn, error)
    decreases maxRank - c.rank, 1
  {
    hide Deps, Dependents, Above, Closed, LevelsOk, GoDown;
    ghost var ws, es := set d | d in table && d.warn, set d | d in table && d.error;
    LevelsGoDown(table);
    AboveAll(c, table);
    DirectDependents(c, table);
    if (warn && c.warn) || (error && c.error) {
      DisableDependents(c, warn, error, table, maxRank);
    } else {
      forall d | d in Dependents(c, table)
        ensures d in table && (d.warn ==> c.warn) && (d.error ==> c.error)
      {
        DependentsIs(d, c, table);
        LevelsDown(d, c, table);
      }
    }
    c.warn := c.warn && !warn;
    c.error := c.error && !error;
    LoweredOk(table, c, warn, error, ws, es);
  }

  /** The inner loop: as often as `c` is among its prerequisites. */
  method DisableIfPrereq(c: Check, cc: Check, warn: bool, error: bool, table: seq<Check>, ghost maxRank: nat)
    requires Closed(table) && LevelsOk(table) && c in table && cc in table && forall d :: d in table ==> d.rank <= maxRank
    modifies table
    ensures LevelsOk(table) && OnlyLevels(table)
    ensures Lowered(table, if c in cc.prereqs then Dependents(cc, table) else {}, warn, error)
    decreases maxRank - c.rank - 1, 2
  {
    hide Deps, Dependents;
    for j := 0 to |cc.prereqs|
      invariant LevelsOk(table) && OnlyLevels(table)
      invariant Lowered(table, if c in cc.prereqs[..j] then Dependents(cc, table) else {}, warn, error)
    {
      assert cc.prereqs[..j + 1] == cc.prereqs[..j] + [cc.prereqs[j]];
      if cc.prereqs[j] == c {
        assert c.rank < cc.rank;
        Disable(cc, warn, error, table, maxRank);
      }
    }
    assert cc.prereqs[..|cc.prereqs|] == cc.prereqs;
  }

  // ---- running ---------------------------------------------------------------------------------------

  /** The check has been reached and has not passed. */
  ghost predicate Bad(c: Check)
    reads c
  {
    c.status == PREREQ || c.status == FAILED
  }

  /** One of the check's prerequisites has been reached and has not passed. */
  ghost predicate Blocked(c: Check, table: seq<Check>)
    reads table
  {
    exists p :: p in c.prereqs && p in table && Bad(p)
  }

  /** A check's pass is started at most once, and only when all its prerequisites have passed; it has been
      started when there is a verdict of its own, and a check goes without only when a prerequisite is bad. */
  ghost predicate StatusOk(table: seq<Check>)
    reads table
  {
    forall c :: c in table ==>
      && c.passes == (if c.status == PASSED || c.status == FAILED then 1 else 0)
      && (c.status == PREREQ ==> Blocked(c, table))
      && forall p :: p in c.prereqs && p in table && c.passes == 1 ==> p.status == PASSED
  }

  /** A check that has been reached has been run, unless a prerequisite of it has not passed. */
  lemma RunExactly(c: Check, table: seq<Check>)
    requires Closed(table) && StatusOk(table) && c in table && c.status != UNCHECKED
    ensures c.passes == 1 <==> forall p :: p in c.prereqs ==> p.status == PASSED
    ensures c.status == PREREQ <==> exists p :: p in c.prereqs && p.status != PASSED
    ensures c.status == FAILED ==> c.passes == 1
  {
    if c.status == PREREQ {
      var p :| p in c.prereqs && p in table && Bad(p);
      assert p.status != PASSED;
    }
  }

  /** What running checks keeps: levels, and every verdict that has been reached; nothing outside `touched`
      is touched. */
  twostate predicate Verdicts(table: seq<Check>, new touched: set<Check>)
    reads table
  {
    forall d :: d in table ==>
      && d.warn == old(d.warn) && d.error == old(d.error) && d.inProgress == old(d.inProgress)
      && (old(d.status) != UNCHECKED ==> d.status == old(d.status) && d.passes == old(d.passes))
      && (d !in touched ==> d.status == old(d.status) && d.passes == old(d.passes))
  }

  /** Somewhere among them a check at error level has not passed. */
  ghost predicate Broken(cs: set<Check>)
    reads cs
  {
    exists d :: d in cs && d.error && d.status != PASSED
  }

  /** check_nodes_props: the walk over the tree, which may find something wrong at any node. */
  method RunPass(c: Check, ghost table: seq<Check>)
    requires Closed(table) && StatusOk(table) && c in table
    requires c.status == UNCHECKED && forall p :: p in c.prereqs ==> p.status == PASSED
    modifies c`status, c`passes
    ensures StatusOk(table)
    ensures c.passes == 1 && (c.status == PASSED || c.status == FAILED)
  {
    c.passes := c.passes + 1;
    var failed: bool := *;
    if failed {
      c.status := FAILED;
    }
    if c.status == UNCHECKED {
      c.status := PASSED;
    }
  }

  /** A prerequisite has not passed. */
  method SetPrereq(c: Check, ghost prq: Check, ghost table: seq<Check>)
    requires Closed(table) && StatusOk(table) && c in table && (c.status == UNCHECKED || c.status == PREREQ)
    requires c.status == UNCHECKED ==> prq in c.prereqs && Bad(prq)
    modifies c`status
    ensures StatusOk(table) && c.status == PREREQ
  {
    assert c.status == UNCHECKED ==> prq in table && c !in c.prereqs;
    c.status := PREREQ;
  }

  /** One prerequisite of run_check; after an error the rest are not run. */
  method RunPrereq(c: Check, prq: Check, before: bool, ghost table: seq<Check>) returns (error: bool)
    requires Closed(table) && StatusOk(table) && c in table && prq in c.prereqs && (c.status == UNCHECKED || c.status == PREREQ)
    requires forall d :: d in table && d.inProgress ==> d.rank >= c.rank
    requires before ==> c.status == PREREQ && Broken(DepsOfAll(c.prereqs, table))
    modifies table
    ensures StatusOk(table) && Verdicts(table, DepsOfAll(c.prereqs, table) + {c}) && (c.status == UNCHECKED || c.status == PREREQ)
    ensures if prq.status == PASSED then c.status == old(c.status) else c.status == PREREQ
    ensures error ==> c.status == PREREQ && Broken(DepsOfAll(c.prereqs, table))
    decreases c.rank, 0
  {
    hide Deps, DepsOfAll, StatusOk;
    DepsBelow(c, prq, table);
    DepsInside(c, prq, table);
    error := before;
    if !error {
      error := RunCheck(prq, table);
    }
    ghost var bad := if error then Witness(DepsOfAll(c.prereqs, table)) else c;
    if prq.status != PASSED {
      SetPrereq(c, prq, table);
    }
  }

  /** A check that is broken. */
  ghost function Witness(cs: set<Check>): (d: Check)
    requires Broken(cs)
    reads cs
    ensures d in cs && d.error && d.status != PASSED
  {
    var d :| d in cs && d.error && d.status != PASSED;
    d
  }

  /** The loop of run_check over the prerequisites. */
  method RunPrereqs(c: Check, ghost table: seq<Check>) returns (error: bool)
    requires Closed(table) && StatusOk(table) && c in table && c.status == UNCHECKED
    requires forall d :: d in table && d.inProgress ==> d.rank >= c.rank
    modifies table
    ensures StatusOk(table) && Verdicts(table, DepsOfAll(c.prereqs, table) + {c}) && (c.status == UNCHECKED || c.status == PREREQ)
    ensures c.status == UNCHECKED ==> forall p :: p in c.prereqs ==> p.status == PASSED
    ensures error ==> c.status == PREREQ && Broken(DepsOfAll(c.prereqs, table))
    decreases c.rank, 1
  {
    hide Deps, DepsOfAll, Broken, StatusOk;
    error := false;
    for i := 0 to |c.prereqs|
      invariant StatusOk(table) && Verdicts(table, DepsOfAll(c.prereqs, table) + {c}) && (c.status == UNCHECKED || c.status == PREREQ)
      invariant c.status == UNCHECKED ==> forall k :: 0 <= k < i ==> c.prereqs[k].status == PASSED
      invariant error ==> c.status == PREREQ && Broken(DepsOfAll(c.prereqs, table))
    {
      DepsBelow(c, c.prereqs[i], table);
      error := RunPrereq(c, c.prereqs[i], error, table);
    }
  }

  lemma DepsInside(c: Check, p: Check, table: seq<Check>)
    requires Closed(table) && c in table && p in c.prereqs
    ensures p in table && Deps(p, table) <= DepsOfAll(c.prereqs, table)
  {
  }

  method SetInProgress(c: Check, on: bool, ghost table: seq<Check>)
    modifies c`inProgress
    ensures c.inProgress == on && StatusOk(table) == old(StatusOk(table))
  {
    c.inProgress := on;
  }

  /** The part of run_check for a check that has not been run. */
  method RunUnchecked(c: Check, ghost table: seq<Check>) returns (error: bool)
    requires Closed(table) && StatusOk(table) && c in table && c.status == UNCHECKED
    requires forall d :: d in table && d.inProgress ==> d.rank > c.rank
    modifies table
    ensures StatusOk(table) && Verdicts(table, Deps(c, table)) && c.status != UNCHECKED
    ensures c.passes == 1 <==> forall p :: p in c.prereqs ==> p.status == PASSED
    ensures error ==> c.status != PASSED && Broken(DepsOfAll(c.prereqs, table))
    decreases c.rank, 2
  {
    hide Deps, DepsOfAll, StatusOk;
    DepsDef(c, table);
    PrereqsIn(c, table);
    SetInProgress(c, true, table);
    error := RunPrereqs(c, table);
    ghost var bad := if error then Witness(DepsOfAll(c.prereqs, table)) else c;
    if c.status == UNCHECKED {
      RunPass(c, table);
    }
    SetInProgress(c, false, table);
    RunExactly(c, table);
  }

  /** run_check. */
  method RunCheck(c: Check, ghost table: seq<Check>) returns (error: bool)
    requires Closed(table) && StatusOk(table) && c in table
    requires forall d :: d in table && d.inProgress ==> d.rank > c.rank
    modifies table
    ensures StatusOk(table) && Verdicts(table, Deps(c, table)) && c.status != UNCHECKED
    ensures c.passes == 1 <==> forall p :: p in c.prereqs ==> p.status == PASSED
    ensures c.status == PREREQ || c.status == FAILED <==> c.status != PASSED
    ensures error ==> c.status != PASSED && Broken(Deps(c, table))
    ensures !error ==> (c.error ==> c.status == PASSED)
    decreases c.rank, 3
  {
    hide Deps, DepsOfAll, StatusOk;
    DepsDef(c, table);
    error := false;
    if c.status == UNCHECKED {
      error := RunUnchecked(c, table);
    }
    if c.status != PASSED && c.error {
      error := true;
    }
    RunExactly(c, table);
  }

  lemma DepsSelf(c: Check, table: seq<Check>)
    requires Closed(table) && c in table
    ensures c in Deps(c, table) && forall d :: d in Deps(c, table) ==> d in table
  {
  }

  /** The checks that are switched on, and all they depend on. */
  ghost function Wanted(table: seq<Check>): set<Check>
    requires Closed(table)
    reads table
  {
    set c, d | c in table && (c.warn || c.error) && d in Deps(c, table) :: d
  }

  lemma WantedDeps(table: seq<Check>)
    requires Closed(table)
    ensures Covers(table, Wanted(table))
  {
    hide Deps;
  }

  /** All that switched-on checks depend on is in the set. */
  ghost predicate Covers(table: seq<Check>, wanted: set<Check>)
    requires Closed(table)
    reads table
  {
    forall c :: c in table && (c.warn || c.error) ==> Deps(c, table) <= wanted
  }

  /** process_checks: levels stay as they are and only checks that are wanted are run; an error is reported exactly
      when a check at error level has not passed, and otherwise every check that is switched on has been run. */
  method ProcessChecks(table: seq<Check>) returns (error: bool)
    requires Closed(table)
    requires forall d :: d in table ==> d.status == UNCHECKED && !d.inProgress && d.passes == 0
    modifies table
    ensures StatusOk(table) && Verdicts(table, old(Wanted(table)))
    ensures error <==> exists d :: d in table && old(d.error) && d.status != PASSED
    ensures !error ==> forall d :: d in table && old(d.warn || d.error) ==>
      d.status != UNCHECKED && (d.passes == 1 <==> forall p :: p in d.prereqs ==> p.status == PASSED)
  {
    hide Deps, Wanted, Closed, StatusOk;
    error := false;
    StatusFresh(table);
    ghost var wanted := Wanted(table);
    WantedDeps(table);
    for i := 0 to |table|
      invariant StatusOk(table) && Verdicts(table, wanted) && Covers(table, wanted)
      invariant error ==> exists d :: d in table && d.error && d.status != PASSED
      invariant !error ==> forall k :: 0 <= k < i ==>
        (table[k].warn || table[k].error ==> table[k].status != UNCHECKED) && (table[k].error ==> table[k].status == PASSED)
    {
      if table[i].warn || table[i].error {
        DepsSelf(table[i], table);
        if !error {
          error := RunCheck(table[i], table);
        }
      }
    }
    forall d | !error && d in table && (d.warn || d.error)
      ensures d.status != UNCHECKED && (d.passes == 1 <==> forall p :: p in d.prereqs ==> p.status == PASSED)
    {
      RunExactly(d, table);
    }
  }

  lemma StatusFresh(table: seq<Check>)
    requires forall d :: d in table ==> d.status == UNCHECKED && d.passes == 0
    ensures StatusOk(table)
  {
  }
}
