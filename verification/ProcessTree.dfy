/** ProcessManager::BuildProcessTree: the processes of a snapshot listed under their parents, with their depths. */
module ProcessTree {
  import opened Optional

  datatype Process = Process(id: nat, parentId: nat, created: int)

  datatype Row = Row(process: Process, indent: nat)

  ghost predicate DistinctIds(ps: seq<Process>) { forall i, j :: 0 <= i < j < |ps| ==> ps[i].id != ps[j].id }

  /** The first process of an ID, which is the one the index by ID keeps. */
  function ById(ps: seq<Process>, id: nat): (r: Option<Process>)
    ensures r.Some? ==> r.value in ps && r.value.id == id
    ensures r.None? ==> forall p :: p in ps ==> p.id != id
  {
    if ps == [] then None else if ps[0].id == id then Some(ps[0]) else ById(ps[1..], id)
  }

  /** A process's ParentId names none that can be its parent: an ID is reused, so a parent is not younger. */
  predicate IsRoot(ps: seq<Process>, p: Process) {
    var parent := ById(ps, p.parentId);
    p.parentId == 0 || parent.None? || parent.value.created > p.created
  }

  predicate IsChild(p: Process, parent: Process) { p.parentId == parent.id && p.created > parent.created }

  /** The processes younger than a time: children are younger than their parents, so recursion ends. */
  ghost function Younger(ps: seq<Process>, created: int): set<Process> { set p | p in ps && p.created > created }

  lemma YoungerShrinks(ps: seq<Process>, p: Process, created: int)
    requires p in ps && p.created > created
    ensures Younger(ps, p.created) < Younger(ps, created)
  {
    assert p in Younger(ps, created) && p !in Younger(ps, p.created);
  }

  /** The rows under a process whose child comes from the i-th on in the snapshot. */
  ghost function Below(ps: seq<Process>, parent: Process, indent: nat, i: nat): seq<Row>
    requires i <= |ps|
    decreases Younger(ps, parent.created), |ps| - i
  {
    if i == |ps| then []
    else if IsChild(ps[i], parent) then
      YoungerShrinks(ps, ps[i], parent.created);
      [Row(ps[i], indent)] + Below(ps, ps[i], indent + 1, 0) + Below(ps, parent, indent, i + 1)
    else Below(ps, parent, indent, i + 1)
  }

  /** A root's rows: those under it, unless it is the idle process. */
  ghost function RootRows(ps: seq<Process>, p: Process): seq<Row> {
    [Row(p, 0)] + if p.id == 0 then [] else Below(ps, p, 1, 0)
  }

  ghost function Rows(ps: seq<Process>, i: nat): seq<Row>
    requires i <= |ps|
  {
    if i == 0 then []
    else if IsRoot(ps, ps[i - 1]) then Rows(ps, i - 1) + RootRows(ps, ps[i - 1])
    else Rows(ps, i - 1)
  }

  ghost function Tree(ps: seq<Process>): seq<Row> { Rows(ps, |ps|) }

  /** What the tree shows for a row: a root itself, and the process of the ID below one. */
  ghost predicate Shows(ps: seq<Process>, shown: Row, row: Row) {
    shown.indent == row.indent
    && if row.indent == 0 then shown == row else ById(ps, row.process.id) == Some(shown.process)
  }

  lemma ByIdIs(ps: seq<Process>, i: nat)
    requires i < |ps| && DistinctIds(ps)
    ensures ById(ps, ps[i].id) == Some(ps[i])
  {
    var j :| 0 <= j < |ps| && ps[j] == ById(ps, ps[i].id).value;
  }

  lemma ShowsItself(ps: seq<Process>, shown: Row, row: Row)
    requires DistinctIds(ps) && row.process in ps && Shows(ps, shown, row)
    ensures shown == row
  {
    var i :| 0 <= i < |ps| && ps[i] == row.process;
    ByIdIs(ps, i);
  }

  lemma {:induction false} BelowIn(ps: seq<Process>, parent: Process, indent: nat, i: nat)
    requires i <= |ps|
    ensures forall k :: 0 <= k < |Below(ps, parent, indent, i)| ==>
      Below(ps, parent, indent, i)[k].process in ps && Below(ps, parent, indent, i)[k].indent >= indent
    decreases Younger(ps, parent.created), |ps| - i
  {
    if i < |ps| {
      BelowIn(ps, parent, indent, i + 1);
      if IsChild(ps[i], parent) {
        YoungerShrinks(ps, ps[i], parent.created);
        BelowIn(ps, ps[i], indent + 1, 0);
      }
    }
  }

  /** The IDs of the rows under a process, with their depths. */
  method FindChildren(ps: seq<Process>, parent: Process, indent: nat) returns (children: seq<(nat, nat)>)
    ensures AreIds(children, Below(ps, parent, indent, 0))
    decreases Younger(ps, parent.created)
  {
    children := [];
    ghost var rows: seq<Row> := [];
    for i := 0 to |ps|
      invariant rows + Below(ps, parent, indent, i) == Below(ps, parent, indent, 0) && AreIds(children, rows)
    {
      if ps[i].parentId == parent.id && ps[i].created > parent.created {
        YoungerShrinks(ps, ps[i], parent.created);
        var children2 := FindChildren(ps, ps[i], indent + 1);
        children := children + [(ps[i].id, indent)] + children2;
        rows := rows + [Row(ps[i], indent)] + Below(ps, ps[i], indent + 1, 0);
      }
    }
  }

  ghost predicate AreIds(ids: seq<(nat, nat)>, rows: seq<Row>) {
    |ids| == |rows| && forall k :: 0 <= k < |rows| ==> ids[k] == (rows[k].process.id, rows[k].indent)
  }

  /** Every root and what is under it. */
  method BuildProcessTree(ps: seq<Process>) returns (tree: seq<Row>)
    ensures AllShow(ps, tree, Tree(ps)) && (DistinctIds(ps) ==> tree == Tree(ps))
  {
    tree := [];
    for i := 0 to |ps|
      invariant AllShow(ps, tree, Rows(ps, i))
    {
      var p := ps[i];
      var parent := ById(ps, p.parentId);
      if p.parentId == 0 || parent.None? || parent.value.created > p.created {
        tree := tree + [Row(p, 0)];
        if p.id == 0 { continue; }
        var children := FindChildren(ps, p, 1);
        BelowIn(ps, p, 1, 0);
        var shown := ShowChildren(ps, children, Below(ps, p, 1, 0));
        tree := tree + shown;
      }
    }
    if DistinctIds(ps) { AllShowThemselves(ps, tree); }
  }

  /** The processes of the IDs found. */
  method ShowChildren(ps: seq<Process>, children: seq<(nat, nat)>, ghost rows: seq<Row>) returns (shown: seq<Row>)
    requires AreIds(children, rows) && forall k :: 0 <= k < |rows| ==> rows[k].process in ps && rows[k].indent > 0
    ensures AllShow(ps, shown, rows)
  {
    shown := [];
    for k := 0 to |children|
      invariant AllShow(ps, shown, rows[..k])
    {
      shown := shown + [Row(ById(ps, children[k].0).value, children[k].1)];
    }
    assert rows[..|rows|] == rows;
  }

  ghost predicate AllShow(ps: seq<Process>, tree: seq<Row>, rows: seq<Row>) {
    |tree| == |rows| && forall k :: 0 <= k < |rows| ==> Shows(ps, tree[k], rows[k])
  }

  lemma {:induction false} AllShowThemselves(ps: seq<Process>, tree: seq<Row>)
    requires DistinctIds(ps) && AllShow(ps, tree, Tree(ps))
    ensures tree == Tree(ps)
  {
    RowsInPreorder(ps, |ps|);
    forall k | 0 <= k < |tree| ensures tree[k] == Tree(ps)[k] {
      assert IsPlaced(ps, Tree(ps), k, |ps|);
      ShowsItself(ps, tree[k], Tree(ps)[k]);
    }
  }

  // Where the rows are

  /** The row a row is right under: the last one before it that is less deep, which is one less deep. */
  ghost predicate Under(rows: seq<Row>, j: int, k: int)
    requires 0 <= j < k < |rows|
  {
    rows[j].indent + 1 == rows[k].indent && forall m :: j < m < k ==> rows[m].indent >= rows[k].indent
  }

  ghost predicate HasParent(rows: seq<Row>, k: int)
    requires 0 <= k < |rows|
  {
    exists j :: 0 <= j < k && Under(rows, j, k) && IsChild(rows[k].process, rows[j].process)
  }

  ghost predicate Before(ps: seq<Process>, p: Process, q: Process) {
    exists i, j :: 0 <= i < j < |ps| && ps[i] == p && ps[j] == q
  }

  /** Two rows at one depth with only deeper ones between: siblings. */
  ghost predicate NextAtDepth(rows: seq<Row>, j: int, k: int)
    requires 0 <= j < k < |rows|
  {
    rows[j].indent == rows[k].indent && forall m :: j < m < k ==> rows[m].indent > rows[k].indent
  }

  /** Siblings are in the snapshot's order. */
  ghost predicate InOrder(ps: seq<Process>, rows: seq<Row>) {
    forall j, k :: 0 <= j < k < |rows| && NextAtDepth(rows, j, k) ==> Before(ps, rows[j].process, rows[k].process)
  }

  /** The rows under a process: its children from the i-th on, and what is under those. */
  ghost predicate IsBranch(ps: seq<Process>, parent: Process, indent: nat, i: nat, rows: seq<Row>)
    requires i <= |ps|
  {
    && (rows != [] ==> rows[0].indent == indent)
    && (forall k :: 0 <= k < |rows| ==> rows[k].process in ps && rows[k].indent >= indent)
    && (forall k :: 0 <= k < |rows| && rows[k].indent == indent ==>
          rows[k].process in ps[i..] && IsChild(rows[k].process, parent))
    && (forall k :: 0 <= k < |rows| && rows[k].indent > indent ==> HasParent(rows, k))
    && InOrder(ps, rows)
  }

  lemma JoinParents(a: seq<Row>, b: seq<Row>)
    ensures forall k :: 0 <= k < |a| && HasParent(a, k) ==> HasParent(a + b, k)
    ensures forall k :: |a| <= k < |a + b| && HasParent(b, k - |a|) ==> HasParent(a + b, k)
  {
    var rows := a + b;
    forall k | 0 <= k < |a| && HasParent(a, k) ensures HasParent(rows, k) {
      var j :| 0 <= j < k && Under(a, j, k) && IsChild(a[k].process, a[j].process);
      assert Under(rows, j, k);
    }
    forall k | |a| <= k < |rows| && HasParent(b, k - |a|) ensures HasParent(rows, k) {
      var n := k - |a|;
      var j :| 0 <= j < n && Under(b, j, n) && IsChild(b[n].process, b[j].process);
      assert Under(rows, |a| + j, k) by {
        forall m | |a| + j < m < k ensures rows[m].indent >= rows[k].indent { assert rows[m] == b[m - |a|]; }
      }
    }
  }

  lemma JoinOrder(ps: seq<Process>, a: seq<Row>, b: seq<Row>)
    requires InOrder(ps, a) && InOrder(ps, b)
    requires forall k :: 0 <= k < |b| ==> b[k].indent >= b[0].indent
    requires b != [] ==> forall j :: 0 <= j < |a| && a[j].indent == b[0].indent ==>
        Before(ps, a[j].process, b[0].process)
    ensures InOrder(ps, a + b)
  {
    var rows := a + b;
    forall j, k | 0 <= j < k < |rows| && NextAtDepth(rows, j, k) ensures Before(ps, rows[j].process, rows[k].process) {
      hide NextAtDepth;
      NextInPart(a, b, j, k);
    }
  }

  /** Two neighbours at one depth in joined rows are so in one part, or the second one starts the second part. */
  lemma NextInPart(a: seq<Row>, b: seq<Row>, j: int, k: int)
    requires 0 <= j < k < |a + b| && NextAtDepth(a + b, j, k) && forall n :: 0 <= n < |b| ==> b[n].indent >= b[0].indent
    ensures k < |a| ==> NextAtDepth(a, j, k)
    ensures j < |a| <= k ==> k == |a|
    ensures |a| <= j ==> NextAtDepth(b, j - |a|, k - |a|)
  {
    var rows := a + b;
    if k < |a| {
      assert forall m :: j < m < k ==> rows[m] == a[m];
    } else if j < |a| {
      assert rows[|a|] == b[0] && rows[k] == b[k - |a|];
    } else {
      forall m | j - |a| < m < k - |a| ensures b[m].indent > b[k - |a|].indent { assert rows[m + |a|] == b[m]; }
    }
  }

  /** The row of a process is the parent of the first level of the rows under it. */
  lemma TopParents(p: Process, indent: nat, rows: seq<Row>)
    requires forall k :: 0 <= k < |rows| ==> rows[k].indent > indent
    requires forall k :: 0 <= k < |rows| && rows[k].indent == indent + 1 ==> IsChild(rows[k].process, p)
    ensures forall k :: 0 < k < |rows| + 1 && rows[k - 1].indent == indent + 1 ==> HasParent([Row(p, indent)] + rows, k)
  {
    var all := [Row(p, indent)] + rows;
    forall k | 0 < k < |rows| + 1 && rows[k - 1].indent == indent + 1 ensures HasParent(all, k) {
      assert Under(all, 0, k) && IsChild(all[k].process, all[0].process);
    }
  }

  lemma FewRows(ps: seq<Process>, row: Row)
    ensures InOrder(ps, []) && InOrder(ps, [row])
  {}

  /** A process's row on top of the rows under it. */
  lemma TopRow(ps: seq<Process>, p: Process, indent: nat, rows: seq<Row>)
    requires p in ps && IsBranch(ps, p, indent + 1, 0, rows)
    ensures var all := [Row(p, indent)] + rows;
      InOrder(ps, all) && forall k :: 0 < k < |all| ==>
        all[k].process in ps && all[k].indent > indent && HasParent(all, k)
  {
    hide InOrder, HasParent, IsChild;
    FewRows(ps, Row(p, indent));
    var all := [Row(p, indent)] + rows;
    JoinOrder(ps, [Row(p, indent)], rows);
    JoinParents([Row(p, indent)], rows);
    TopParents(p, indent, rows);
    forall k | 0 < k < |all| ensures all[k].process in ps && all[k].indent > indent && HasParent(all, k) {
      assert all[k] == rows[k - 1];
    }
  }

  lemma {:induction false} BelowIsBranch(ps: seq<Process>, parent: Process, indent: nat, i: nat)
    requires i <= |ps|
    ensures IsBranch(ps, parent, indent, i, Below(ps, parent, indent, i))
    decreases Younger(ps, parent.created), |ps| - i
  {
    if i < |ps| {
      BelowIsBranch(ps, parent, indent, i + 1);
      if IsChild(ps[i], parent) {
        YoungerShrinks(ps, ps[i], parent.created);
        BelowIsBranch(ps, ps[i], indent + 1, 0);
        BranchMore(ps, parent, indent, i, Below(ps, ps[i], indent + 1, 0), Below(ps, parent, indent, i + 1));
      }
    }
  }

  lemma BranchMore(ps: seq<Process>, parent: Process, indent: nat, i: nat, under: seq<Row>, rest: seq<Row>)
    requires i < |ps| && IsChild(ps[i], parent)
    requires IsBranch(ps, ps[i], indent + 1, 0, under) && IsBranch(ps, parent, indent, i + 1, rest)
    ensures IsBranch(ps, parent, indent, i, [Row(ps[i], indent)] + under + rest)
  {
    hide InOrder, HasParent;
    var top := [Row(ps[i], indent)] + under;
    var all := top + rest;
    TopRow(ps, ps[i], indent, under);
    assert ps[i] in ps[i..] && forall p :: p in ps[i + 1..] ==> p in ps[i..];
    JoinParents(top, rest);
    if rest != [] {
      var j :| i + 1 <= j < |ps| && ps[j] == rest[0].process;
      assert Before(ps, ps[i], rest[0].process);
    }
    JoinOrder(ps, top, rest);
    forall k | 0 <= k < |all|
      ensures all[k].process in ps && all[k].indent >= indent
      ensures all[k].indent == indent ==> all[k].process in ps[i..] && IsChild(all[k].process, parent)
      ensures all[k].indent > indent ==> HasParent(all, k)
    {
      if k < |top| { assert all[k] == top[k]; } else { assert all[k] == rest[k - |top|]; }
    }
  }

  /** A row is a root of the first ones of the snapshot, or has its parent above it. */
  ghost predicate IsPlaced(ps: seq<Process>, rows: seq<Row>, k: int, i: nat)
    requires 0 <= k < |rows| && i <= |ps|
  {
    && rows[k].process in ps
    && if rows[k].indent == 0 then IsRoot(ps, rows[k].process) && rows[k].process in ps[..i] else HasParent(rows, k)
  }

  /** The rows are the snapshot's processes in preorder: roots at depth 0, every other row one deeper than its
      parent's and inside its parent's rows, and siblings in the snapshot's order. */
  lemma {:induction false} RowsInPreorder(ps: seq<Process>, i: nat)
    requires i <= |ps|
    ensures InOrder(ps, Rows(ps, i))
    ensures forall k :: 0 <= k < |Rows(ps, i)| ==> IsPlaced(ps, Rows(ps, i), k, i)
  {
    hide InOrder, HasParent, IsRoot, RootRows;
    if i == 0 {
      FewRows(ps, Row(Process(0, 0, 0), 0));
    } else {
      RowsInPreorder(ps, i - 1);
      if IsRoot(ps, ps[i - 1]) {
        RootMore(ps, i - 1, i, Rows(ps, i - 1));
      } else {
        forall k | 0 <= k < |Rows(ps, i)|
          ensures IsPlaced(ps, Rows(ps, i), k, i)
        {
          PlacedMore(ps, Rows(ps, i), k, i - 1);
        }
      }
    }
  }

  lemma PlacedMore(ps: seq<Process>, rows: seq<Row>, k: int, i: nat)
    requires 0 <= k < |rows| && i < |ps| && IsPlaced(ps, rows, k, i)
    ensures IsPlaced(ps, rows, k, i + 1)
  {
    assert ps[..i + 1] == ps[..i] + [ps[i]];
  }

  lemma RootMore(ps: seq<Process>, i: nat, n: nat, rows: seq<Row>)
    requires i < |ps| && n == i + 1 && IsRoot(ps, ps[i]) && InOrder(ps, rows)
    requires forall k :: 0 <= k < |rows| ==> IsPlaced(ps, rows, k, i)
    ensures var all := rows + RootRows(ps, ps[i]);
      InOrder(ps, all) && forall k :: 0 <= k < |all| ==> IsPlaced(ps, all, k, n)
  {
    hide InOrder, HasParent, IsRoot;
    var top := RootRows(ps, ps[i]);
    var all := rows + top;
    BelowIsBranch(ps, ps[i], 1, 0);
    FewRows(ps, Row(ps[i], 0));
    TopRow(ps, ps[i], 0, if ps[i].id == 0 then [] else Below(ps, ps[i], 1, 0));
    assert ps[..n] == ps[..i] + [ps[i]];
    forall j | 0 <= j < |rows| && rows[j].indent == 0 ensures Before(ps, rows[j].process, ps[i]) {
      assert IsPlaced(ps, rows, j, i);
      var m :| 0 <= m < i && ps[m] == rows[j].process;
    }
    JoinOrder(ps, rows, top);
    JoinParents(rows, top);
    forall k | 0 <= k < |all|
      ensures IsPlaced(ps, all, k, n)
    {
      if k < |rows| {
        PlacedMore(ps, rows, k, i);
        assert all[k] == rows[k];
      } else {
        assert all[k] == top[k - |rows|];
      }
    }
  }

  // How often each process is listed

  ghost function Times(rows: seq<Row>, p: Process): nat {
    if rows == [] then 0 else (if rows[0].process == p then 1 else 0) + Times(rows[1..], p)
  }

  lemma {:induction false} TimesJoin(a: seq<Row>, b: seq<Row>, p: Process)
    ensures Times(a + b, p) == Times(a, p) + Times(b, p)
  {
    if a == [] {
      assert a + b == b;
    } else {
      assert (a + b)[1..] == a[1..] + b;
      TimesJoin(a[1..], b, p);
    }
  }

  ghost function One(b: bool): nat { if b then 1 else 0 }

  /** Below a process, another is listed for being its child, and once for each row of its own parent. */
  lemma {:induction false} TimesBelow(ps: seq<Process>, parent: Process, indent: nat, i: nat, x: Process, q: Process)
    requires i <= |ps| && DistinctIds(ps) && x in ps && ById(ps, x.parentId) == Some(q)
    ensures Times(Below(ps, parent, indent, i), x)
         == One(IsChild(x, parent) && x in ps[i..])
            + if IsChild(x, q) then Times(Below(ps, parent, indent, i), q) else 0
    decreases Younger(ps, parent.created), |ps| - i
  {
    if i < |ps| {
      var c := ps[i];
      TimesBelow(ps, parent, indent, i + 1, x, q);
      assert ps[i..] == [c] + ps[i + 1..];
      if IsChild(c, parent) {
        YoungerShrinks(ps, c, parent.created);
        TimesBelow(ps, c, indent + 1, 0, x, q);
        var under, rest := Below(ps, c, indent + 1, 0), Below(ps, parent, indent, i + 1);
        TimesTop(c, indent, under, rest, x);
        TimesTop(c, indent, under, rest, q);
        ByIdIs(ps, i);
        assert c == x ==> x !in ps[i + 1..] by { OnlyOnce(ps, i); }
      }
    }
  }

  lemma OnlyOnce(ps: seq<Process>, i: nat)
    requires i < |ps| && DistinctIds(ps)
    ensures ps[i] !in ps[i + 1..] && ps[i] !in ps[..i]
  {}

  lemma TimesTop(c: Process, indent: nat, under: seq<Row>, rest: seq<Row>, x: Process)
    ensures Times([Row(c, indent)] + under + rest, x) == One(c == x) + Times(under, x) + Times(rest, x)
  {
    TimesJoin([Row(c, indent)] + under, rest, x);
    TimesJoin([Row(c, indent)], under, x);
    assert Times([Row(c, indent)][1..], x) == 0;
  }

  /** The same in a root's rows, which leave out the idle process's children. */
  lemma TimesInRoot(ps: seq<Process>, i: nat, x: Process, q: Process)
    requires i < |ps| && DistinctIds(ps) && x in ps && ById(ps, x.parentId) == Some(q)
    ensures Times(RootRows(ps, ps[i]), x) == One(x == ps[i])
         + if IsChild(x, q) then Times(RootRows(ps, ps[i]), q) - One(q.id == 0 && q == ps[i]) else 0
  {
    var c := ps[i];
    var under := if c.id == 0 then [] else Below(ps, c, 1, 0);
    TimesTop(c, 0, under, [], x);
    TimesTop(c, 0, under, [], q);
    assert [Row(c, 0)] + under + [] == RootRows(ps, c);
    ByIdIs(ps, i);
    if c.id != 0 { TimesBelow(ps, c, 1, 0, x, q); }
  }

  lemma FirstMore(ps: seq<Process>, i: nat, p: Process)
    requires i < |ps| && DistinctIds(ps)
    ensures One(p in ps[..i + 1]) == One(p in ps[..i]) + One(p == ps[i])
  {
    assert ps[..i + 1] == ps[..i] + [ps[i]];
    OnlyOnce(ps, i);
  }

  /** In the whole tree, a process is listed as a root, and once for each row of its parent but the idle process's. */
  lemma {:induction false} TimesInRows(ps: seq<Process>, i: nat, x: Process, q: Process)
    requires i <= |ps| && DistinctIds(ps) && x in ps && ById(ps, x.parentId) == Some(q)
    ensures Times(Rows(ps, i), x) == One(IsRoot(ps, x) && x in ps[..i])
         + if IsChild(x, q) then Times(Rows(ps, i), q) - One(q.id == 0 && IsRoot(ps, q) && q in ps[..i]) else 0
  {
    if i > 0 {
      var c := ps[i - 1];
      TimesInRows(ps, i - 1, x, q);
      FirstMore(ps, i - 1, x);
      FirstMore(ps, i - 1, q);
      hide IsChild, RootRows, IsRoot;
      if IsRoot(ps, c) {
        TimesJoin(Rows(ps, i - 1), RootRows(ps, c), x);
        TimesJoin(Rows(ps, i - 1), RootRows(ps, c), q);
        TimesInRoot(ps, i - 1, x, q);
      }
    }
  }

  /** A process listed under no other, because its ParentId names none, is listed once if it is a root. */
  lemma {:induction false} TimesOrphan(ps: seq<Process>, i: nat, x: Process)
    requires i <= |ps| && DistinctIds(ps) && x in ps && ById(ps, x.parentId).None?
    ensures Times(Rows(ps, i), x) == One(x in ps[..i])
  {
    if i > 0 {
      var c := ps[i - 1];
      TimesOrphan(ps, i - 1, x);
      FirstMore(ps, i - 1, x);
      if IsRoot(ps, c) {
        var under := if c.id == 0 then [] else Below(ps, c, 1, 0);
        TimesJoin(Rows(ps, i - 1), RootRows(ps, c), x);
        TimesTop(c, 0, under, [], x);
        assert [Row(c, 0)] + under + [] == RootRows(ps, c);
        NotBelow(ps, c, 1, 0, x);
      }
    }
  }

  lemma {:induction false} NotBelow(ps: seq<Process>, parent: Process, indent: nat, i: nat, x: Process)
    requires i <= |ps| && parent in ps && ById(ps, x.parentId).None?
    ensures Times(Below(ps, parent, indent, i), x) == 0
    decreases Younger(ps, parent.created), |ps| - i
  {
    if i < |ps| {
      NotBelow(ps, parent, indent, i + 1, x);
      if IsChild(ps[i], parent) {
        YoungerShrinks(ps, ps[i], parent.created);
        NotBelow(ps, ps[i], indent + 1, 0, x);
        TimesTop(ps[i], indent, Below(ps, ps[i], indent + 1, 0), Below(ps, parent, indent, i + 1), x);
      }
    }
  }

  // When each process is listed once

  /** Not as old as the process its ParentId names; and with ParentId 0, not under the idle process as well, which
      lists its children only if it is not a root. */
  ghost predicate IsPlain(ps: seq<Process>, x: Process) {
    var parent := ById(ps, x.parentId);
    parent.Some? ==>
      if x.parentId != 0 then parent.value.created != x.created
      else parent.value.created >= x.created || IsRoot(ps, parent.value)
  }

  /** If every process is plain, each one is listed once: its parent is. */
  lemma {:induction false} PlainIsListedOnce(ps: seq<Process>, x: Process)
    requires DistinctIds(ps) && x in ps && forall p :: p in ps ==> IsPlain(ps, p)
    ensures Times(Tree(ps), x) == 1
    decreases |set p | p in ps && p.created < x.created|
  {
    assert ps[..|ps|] == ps;
    var parent := ById(ps, x.parentId);
    if parent.None? {
      TimesOrphan(ps, |ps|, x);
    } else {
      var q := parent.value;
      TimesInRows(ps, |ps|, x, q);
      if q.created < x.created {
        var older, under := (set p | p in ps && p.created < q.created), set p | p in ps && p.created < x.created;
        assert older < under by { assert q in under && q !in older; }
        Fewer(older, under);
        PlainIsListedOnce(ps, q);
      }
    }
  }

  lemma Fewer<T>(a: set<T>, b: set<T>)
    requires a < b
    ensures |a| < |b|
  {
    assert b == a + (b - a);
  }

  /** Every process is listed exactly once if and only if every process is plain. */
  lemma {:induction false} EachListedOnce(ps: seq<Process>)
    requires DistinctIds(ps)
    ensures (forall x :: x in ps ==> Times(Tree(ps), x) == 1) <==> (forall x :: x in ps ==> IsPlain(ps, x))
  {
    if forall x :: x in ps ==> IsPlain(ps, x) {
      forall x | x in ps ensures Times(Tree(ps), x) == 1 { PlainIsListedOnce(ps, x); }
    } else {
      var x :| x in ps && !IsPlain(ps, x);
      var q := ById(ps, x.parentId).value;
      assert ps[..|ps|] == ps;
      TimesInRows(ps, |ps|, x, q);
      assert Times(Tree(ps), x) != 1 || Times(Tree(ps), q) != 1;
    }
  }

  const TWINS := [Process(1, 2, 5), Process(2, 0, 5)]

  /** A process as old as the one its ParentId names is lost. */
  lemma LostProcess()
    ensures DistinctIds(TWINS) && !IsPlain(TWINS, TWINS[0]) && Times(Tree(TWINS), TWINS[0]) == 0
  {
    Looked(TWINS, 1);
    assert TWINS[..2] == TWINS;
    TimesInRows(TWINS, 2, TWINS[0], TWINS[1]);
  }

  const IDLE_CHILD := [Process(2, 0, 1), Process(0, 2, 2), Process(3, 0, 3)]

  /** With the idle process under another, a younger process with ParentId 0 is listed twice: as a root and under it. */
  lemma ListedTwice()
    ensures DistinctIds(IDLE_CHILD) && !IsPlain(IDLE_CHILD, IDLE_CHILD[2])
        && Times(Tree(IDLE_CHILD), IDLE_CHILD[2]) == 2
  {
    hide Rows, Times;
    var ps := IDLE_CHILD;
    Looked(ps, 0);
    Looked(ps, 1);
    assert ps[..3] == ps;
    TimesInRows(ps, 3, ps[0], ps[1]);
    TimesInRows(ps, 3, ps[1], ps[0]);
    TimesInRows(ps, 3, ps[2], ps[1]);
  }

  lemma Looked(ps: seq<Process>, i: nat)
    requires DistinctIds(ps) && i < |ps|
    ensures ById(ps, ps[i].id) == Some(ps[i]) && ps[i] in ps
  {
    ByIdIs(ps, i);
  }
}
