/** The extent operations of kernel/ext4.c as they work: loops over node entries, and run
    tables that are shifted, merged and filled in place. */
module ExtentTree {
  import opened Extents

  /** `ext4_extent_map`: down from the root, one node after the other. */
  method MapBlock(root: Node, l: nat) returns (p: nat)
    ensures p == Map(root, l)
  {
    var node := root;
    while node.Index?
      invariant Map(node, l) == Map(root, l)
      decreases node
    {
      var chosen, i := -1, 0;
      while i < |node.kids| && node.kids[i].first <= l
        invariant 0 <= i <= |node.kids| && chosen == i - 1
        invariant Choose(node.kids, l) == i + Choose(node.kids[i..], l)
      {
        chosen, i := i, i + 1;
      }
      if chosen < 0 {
        return 0;
      }
      node := node.kids[chosen].sub;
    }
    p := LookIn(node.exts, l);
  }

  method LookIn(exts: seq<Ext>, l: nat) returns (p: nat)
    ensures p == LeafMap(exts, l)
  {
    var i := 0;
    while i < |exts|
      invariant 0 <= i <= |exts| && LeafMap(exts, l) == LeafMap(exts[i..], l)
    {
      var e := exts[i];
      if e.len != 0 && e.start <= l < Wrap32(e.start + e.len) {
        return if e.uninit then 0 else e.p + (l - e.start);
      }
      i := i + 1;
    }
    p := 0;
  }

  /** Put one more run behind the merged ones, or grow the last of them. */
  method MergeStep(a: array<Run>, out: nat, r: Run) returns (out': nat)
    requires out < a.Length
    modifies a
    ensures out <= out' <= out + 1 && a[..out'] == MergeOne(old(a[..out]), r)
    ensures forall j :: out < j < a.Length ==> a[j] == old(a[j])
  {
    if out > 0 && CanMerge(a[out - 1], r) {
      a[out - 1] := a[out - 1].(n := a[out - 1].n + r.n);
      out' := out;
    } else {
      a[out] := r;
      out' := out + 1;
    }
  }

  /** `ext4_extent_merge_runs`, in place. */
  method MergeInPlace(a: array<Run>, count: nat) returns (out: nat)
    requires count <= a.Length
    modifies a
    ensures out <= count && a[..out] == Merged(old(a[..count]))
  {
    ghost var runs := a[..count];
    out := 0;
    var i := 0;
    while i < count
      invariant 0 <= out <= i <= count
      invariant forall j :: i <= j < count ==> a[j] == runs[j]
      invariant a[..out] == Merged(runs[..i])
    {
      hide MergeOne;
      assert runs[..i + 1][..i] == runs[..i] && runs[i] == a[i];
      out := MergeStep(a, out, a[i]);
      i := i + 1;
    }
    assert runs[..count] == runs;
  }

  /** One more run at the end of the table. */
  method Push(a: array<Run>, n: nat, r: Run)
    requires n < a.Length
    modifies a
    ensures a[..n + 1] == old(a[..n]) + [r]
  {
    a[n] := r;
  }

  ghost function Joined(done: seq<Run>, rest: Option<seq<Run>>): Option<seq<Run>> {
    if rest.None? then None else Some(done + rest.value)
  }

  lemma Join(done: seq<Run>, runs: seq<Run>, rest: Option<seq<Run>>)
    ensures Joined([], rest) == rest && done + [] == done
    ensures Joined(done, Joined(runs, rest)) == Joined(done + runs, rest)
  {
    if rest.Some? {
      assert done + (runs + rest.value) == done + runs + rest.value;
      assert [] + rest.value == rest.value;
    }
  }

  /** `ext4_extent_collect_node`: append a node's runs to the table. */
  method CollectNode(node: Node, a: array<Run>, count: nat) returns (ok: bool, n: nat)
    requires a.Length == MAX_RUNS && count <= MAX_RUNS
    modifies a
    ensures n <= MAX_RUNS
    ensures ok <==> Collect(node).Some? && count + |Collect(node).value| <= MAX_RUNS
    ensures ok ==> a[..n] == old(a[..count]) + Collect(node).value
    decreases node
  {
    match node
    case Leaf(exts) =>
      ok, n := CollectLeaf(exts, a, count);
    case Index(kids) =>
      ok, n := true, count;
      var i := 0;
      ghost var start, done: seq<Run> := a[..count], [];
      Join([], [], CollectFrom(node, 0));
      while i < |kids|
        invariant 0 <= i <= |kids| && n == count + |done| <= MAX_RUNS && ok && a[..n] == start + done
        invariant Collect(node) == Joined(done, CollectFrom(node, i))
      {
        ok, n := CollectNode(kids[i].sub, a, n);
        if !ok {
          return;
        }
        ghost var runs := Collect(kids[i].sub).value;
        Join(done, runs, CollectFrom(node, i + 1));
        assert start + done + runs == start + (done + runs);
        done := done + runs;
        i := i + 1;
      }
  }

  lemma LeafStep(exts: seq<Ext>, i: nat)
    requires i < |exts|
    ensures var e, rest := exts[i], LeafRuns(exts[i + 1..]);
            LeafRuns(exts[i..]) ==
            if e.uninit || (e.len != 0 && e.p == 0) then None
            else if e.len == 0 then Joined([], rest)
            else Joined([Run(e.start, e.len, e.p)], rest)
  {
    assert exts[i..][1..] == exts[i + 1..] && exts[i..][0] == exts[i];
  }

  method CollectLeaf(exts: seq<Ext>, a: array<Run>, count: nat) returns (ok: bool, n: nat)
    requires a.Length == MAX_RUNS && count <= MAX_RUNS
    modifies a
    ensures n <= MAX_RUNS
    ensures ok <==> LeafRuns(exts).Some? && count + |LeafRuns(exts).value| <= MAX_RUNS
    ensures ok ==> a[..n] == old(a[..count]) + LeafRuns(exts).value
  {
    ok, n := true, count;
    var i := 0;
    ghost var start, done: seq<Run> := a[..count], [];
    Join([], [], LeafRuns(exts));
    assert exts[0..] == exts;
    while i < |exts|
      invariant 0 <= i <= |exts| && n == count + |done| <= MAX_RUNS && a[..n] == start + done
      invariant LeafRuns(exts) == Joined(done, LeafRuns(exts[i..]))
    {
      hide LeafRuns;
      var e := exts[i];
      ghost var rest := LeafRuns(exts[i + 1..]);
      LeafStep(exts, i);
      if e.uninit {
        return false, n;
      }
      if e.len != 0 {
        var r := Run(e.start, e.len, e.p);
        if n >= MAX_RUNS || e.p == 0 {
          return false, n;
        }
        Push(a, n, r);
        n := n + 1;
        Join(done, [r], rest);
        assert start + done + [r] == start + (done + [r]);
        done := done + [r];
      } else {
        Join(done, [], rest);
      }
      i := i + 1;
    }
    assert exts[i..] == [];
    Join(done, [], Some([]));
  }

  /** The checks on collected runs. */
  method CheckRuns(a: array<Run>, n: nat) returns (ok: bool)
    requires n <= a.Length
    ensures ok <==> Checked(a[..n])
  {
    ghost var runs := a[..n];
    var i := 0;
    while i < n
      invariant 0 <= i <= n
      invariant forall j :: 0 <= j < i ==> 0 < runs[j].n <= LEN_MASK && runs[j].l + runs[j].n <= LIMIT
      invariant forall j :: 0 < j < i ==> runs[j - 1].l + runs[j - 1].n <= runs[j].l
    {
      assert a[i] == runs[i];
      if a[i].n == 0 || a[i].n > LEN_MASK || a[i].l + a[i].n > LIMIT {
        return false;
      }
      if i > 0 {
        assert a[i - 1] == runs[i - 1];
        if a[i].l < a[i - 1].l + a[i - 1].n {
          return false;
        }
      }
      i := i + 1;
    }
    ok := true;
  }

  /** The leaf level over the runs. */
  method BuildLeaves(runs: seq<Run>, cap: nat) returns (kids: seq<Kid>)
    requires cap > 0
    ensures kids == Leaves(runs, cap)
  {
    kids := [];
    var i := 0;
    while i < |runs|
      invariant 0 <= i <= |runs| && kids + Leaves(runs[i..], cap) == Leaves(runs, cap)
    {
      var chunk := if |runs| - i > cap then cap else |runs| - i;
      assert runs[i..][..chunk] == runs[i..i + chunk] && runs[i..][chunk..] == runs[i + chunk..];
      var k := Kid(runs[i].l, Leaf(ToExts(runs[i..i + chunk])));
      Chain(kids, k, Leaves(runs[i + chunk..], cap));
      kids := kids + [k];
      i := i + chunk;
    }
  }

  lemma Chain(kids: seq<Kid>, k: Kid, rest: seq<Kid>)
    ensures kids + ([k] + rest) == kids + [k] + rest
  {
  }

  lemma UpStep(cur: seq<Kid>, cap: nat, i: nat, chunk: nat)
    requires cap > 1 && i < |cur| && chunk == Least(cap, |cur| - i)
    ensures Up(cur[i..], cap) == [Kid(cur[i].first, Index(cur[i..i + chunk]))] + Up(cur[i + chunk..], cap)
  {
    assert cur[i..][..chunk] == cur[i..i + chunk] && cur[i..][chunk..] == cur[i + chunk..];
  }

  method BuildLevel(cur: seq<Kid>, cap: nat) returns (next: seq<Kid>)
    requires cap > 1
    ensures next == Up(cur, cap)
  {
    hide Up;
    next := [];
    var i := 0;
    UpNone(cap);
    assert cur[0..] == cur && next + Up(cur, cap) == Up(cur, cap);
    while i < |cur|
      invariant 0 <= i <= |cur| && next + Up(cur[i..], cap) == Up(cur, cap)
    {
      var chunk := if |cur| - i > cap then cap else |cur| - i;
      var k := Kid(cur[i].first, Index(cur[i..i + chunk]));
      UpStep(cur, cap, i, chunk);
      Chain(next, k, Up(cur[i + chunk..], cap));
      next := next + [k];
      i := i + chunk;
    }
    assert cur[i..] == [] && next + [] == next;
  }

  lemma UpNone(cap: nat)
    requires cap > 1
    ensures Up([], cap) == []
  {
  }

  /** `ext4_extent_rebuild`: levels are added until the root can hold the topmost. */
  method BuildTree(runs: seq<Run>, cap: nat) returns (root: Node)
    requires cap > 1
    ensures root == Rebuild(runs, cap)
  {
    if |runs| <= ROOT_CAP {
      return Leaf(ToExts(runs));
    }
    var cur := BuildLeaves(runs, cap);
    while |cur| > ROOT_CAP
      invariant Levels(cur, cap) == Rebuild(runs, cap)
      decreases |cur|
    {
      cur := BuildLevel(cur, cap);
    }
    root := Index(cur);
  }

  /** Every run from `pos` on moves up by one, the last one first. */
  method OpenSlot(a: array<Run>, pos: nat, n: nat)
    requires pos <= n < a.Length
    modifies a
    ensures a[..pos] == old(a[..pos]) && a[pos + 1..n + 1] == old(a[pos..n])
  {
    var i := n;
    while i > pos
      invariant pos <= i <= n
      invariant a[..i] == old(a[..i]) && a[i + 1..n + 1] == old(a[i..n])
    {
      a[i] := a[i - 1];
      i := i - 1;
    }
  }

  method FindPlace(a: array<Run>, n: nat, l: nat) returns (pos: nat)
    requires n <= a.Length
    ensures pos == Place(a[..n], l, 0)
  {
    ghost var runs := a[..n];
    pos := 0;
    while pos < n && a[pos].l < l
      invariant 0 <= pos <= n && Place(runs, l, 0) == Place(runs, l, pos)
    {
      assert runs[pos] == a[pos];
      pos := pos + 1;
    }
    assert pos < n ==> runs[pos] == a[pos];
  }

  lemma InsertMeans(runs: seq<Run>, l: nat, p: nat)
    ensures Ordered(runs) ==> (Inserted(runs, l, p).Some? <==> RunsMap(runs, l) == 0 && |runs| < MAX_RUNS)
    ensures Ordered(runs) && Inserted(runs, l, p).Some? && l < LIMIT && p > 0 ==>
      var r := Inserted(runs, l, p).value; Ordered(r) && forall x: nat :: RunsMap(r, x) == if x == l then p else RunsMap(runs, x)
  {
    hide Inserted, Ordered, RunsMap;
    if Ordered(runs) {
      InsertedIff(runs, l, p);
      if l < LIMIT && p > 0 && Inserted(runs, l, p).Some? {
        forall x: nat ensures RunsMap(Inserted(runs, l, p).value, x) == if x == l then p else RunsMap(runs, x) {
          InsertedOk(runs, l, p, x);
        }
        InsertedOk(runs, l, p, l);
      }
    }
  }

  /** One block more in the table, unless it is mapped or the table is full. */
  method InsertRun(a: array<Run>, n: nat, l: nat, p: nat) returns (ok: bool)
    requires n <= a.Length == MAX_RUNS
    modifies a
    ensures ok <==> Inserted(old(a[..n]), l, p).Some?
    ensures ok ==> n < MAX_RUNS && a[..n + 1] == Inserted(old(a[..n]), l, p).value
    ensures Ordered(old(a[..n])) ==> (ok <==> RunsMap(old(a[..n]), l) == 0 && n < MAX_RUNS)
    ensures Ordered(old(a[..n])) && ok && l < LIMIT && p > 0 ==>
      Ordered(a[..n + 1]) && forall x: nat :: RunsMap(a[..n + 1], x) == if x == l then p else RunsMap(old(a[..n]), x)
  {
    hide Place, Ordered, RunsMap;
    ghost var runs := a[..n];
    InsertMeans(runs, l, p);
    var pos := FindPlace(a, n, l);
    if pos > 0 {
      assert runs[pos - 1] == a[pos - 1];
      if l < a[pos - 1].l + a[pos - 1].n {
        return false;
      }
    }
    if pos < n {
      assert runs[pos] == a[pos];
      if a[pos].l == l {
        return false;
      }
    }
    if n >= MAX_RUNS {
      return false;
    }
    OpenSlot(a, pos, n);
    a[pos] := Run(l, 1, p);
    Slot(a[..n + 1], runs, pos, Run(l, 1, p));
    ok := true;
  }

  lemma Slot(after: seq<Run>, runs: seq<Run>, pos: nat, r: Run)
    requires pos <= |runs| && |after| == |runs| + 1
    requires after[..pos] == runs[..pos] && after[pos] == r && after[pos + 1..] == runs[pos..]
    ensures after == runs[..pos] + [r] + runs[pos..]
  {
    assert after == after[..pos] + [after[pos]] + after[pos + 1..];
  }

  /** The runs a truncation keeps, and the blocks it gives back. */
  method KeepRuns(a: array<Run>, n: nat, keep: nat) returns (kept: array<Run>, count: nat, freed: seq<nat>)
    requires n <= a.Length == MAX_RUNS
    ensures fresh(kept) && kept.Length == MAX_RUNS && count <= n
    ensures kept[..count] == Kept(a[..n], keep) && freed == Freed(a[..n], keep)
  {
    kept := new Run[MAX_RUNS](_ => Run(0, 0, 0));
    count, freed := 0, [];
    ghost var runs := a[..n];
    var i := 0;
    while i < n
      invariant 0 <= count <= i <= n && a[..n] == runs
      invariant kept[..count] == Kept(runs[..i], keep) && freed == Freed(runs[..i], keep)
    {
      var r := a[i];
      assert runs[..i + 1][..i] == runs[..i] && runs[i] == r;
      if r.l + r.n <= keep {
        Push(kept, count, r);
        count := count + 1;
      } else if r.l < keep {
        Push(kept, count, r.(n := keep - r.l));
        count := count + 1;
      } else {
        Join(kept[..count], [], None);
      }
      freed := freed + FreedOf(r, keep);
      i := i + 1;
    }
    assert runs[..n] == runs;
  }

  /** A file whose blocks are mapped by extents. */
  class ExtentFile {
    var root: Node
    const cap: nat

    ghost predicate Valid() reads this { cap > 1 && TreeOk(root, 0, LIMIT) }

    /** An empty file. */
    constructor (cap: nat)
      requires cap > 1
      ensures Valid() && this.cap == cap && forall x: nat :: Map(root, x) == 0
    {
      this.cap, root := cap, Leaf([]);
    }

    /** `ext4_extent_collect_runs`. */
    method CollectRuns() returns (ok: bool, a: array<Run>, n: nat)
      ensures fresh(a) && a.Length == MAX_RUNS && n <= MAX_RUNS
      ensures ok <==> Collected(root).Some?
      ensures ok ==> a[..n] == Collected(root).value
    {
      hide Collect, Checked;
      a := new Run[MAX_RUNS](_ => Run(0, 0, 0));
      ok, n := CollectNode(root, a, 0);
      if ok {
        assert a[..n] == Collect(root).value;
        ok := CheckRuns(a, n);
      }
    }

    /** `ext4_extent_assign_block`. */
    method AssignBlock(l: nat, p: nat) returns (ok: bool)
      requires Valid()
      modifies this
      ensures ok <==> 0 < p <= LIMIT && Collected(old(root)).Some? && Map(old(root), l) == 0 && |Collected(old(root)).value| < MAX_RUNS
      ensures ok ==> Assign(old(root), l, p, cap).Some? && (l < LIMIT ==> Collected(root).Some?)
      ensures root == if ok then Assign(old(root), l, p, cap).value else old(root)
      ensures l < LIMIT ==> Valid()
      ensures ok && l < LIMIT ==> forall x: nat :: Map(root, x) == if x == l then p else Map(old(root), x)
    {
      hide Collected, Inserted, Merged, Rebuild, TreeOk, Map, Ordered, RunsMap;
      AssignSucceeds(root, l, p, cap);
      if p == 0 || p > LIMIT {
        return false;
      }
      var a, n;
      ok, a, n := CollectRuns();
      if !ok {
        return;
      }
      ok := InsertRun(a, n, l, p);
      if !ok {
        return;
      }
      var out := MergeInPlace(a, n + 1);
      root := BuildTree(a[..out], cap);
      if l < LIMIT {
        AssignCollects(old(root), l, p, cap);
        AssignOk(old(root), l, p, cap, l);
        forall x: nat ensures Map(root, x) == if x == l then p else Map(old(root), x) {
          AssignOk(old(root), l, p, cap, x);
        }
      }
    }

    /** `ext4_extent_truncate_data`; `freed` lists the blocks given back. */
    method TruncateTo(size: nat, bs: nat) returns (ok: bool, freed: seq<nat>)
      requires Valid() && bs > 0
      modifies this
      ensures Valid()
      ensures ok <==> Collected(old(root)).Some?
      ensures ok ==> Collected(root).Some? && Truncate(old(root), KeepBlocks(size, bs), cap).Some? && (root, freed) == Truncate(old(root), KeepBlocks(size, bs), cap).value
      ensures !ok ==> root == old(root)
      ensures ok ==> forall x: nat :: Map(root, x) == if x < KeepBlocks(size, bs) then Map(old(root), x) else 0
    {
      hide Collected, Kept, Freed, Merged, Rebuild, TreeOk, Map, KeepBlocks;
      freed := [];
      var a, n;
      ok, a, n := CollectRuns();
      if !ok {
        return;
      }
      var keep := KeepBlocks(size, bs);
      var kept, count;
      kept, count, freed := KeepRuns(a, n, keep);
      var out := MergeInPlace(kept, count);
      root := BuildTree(kept[..out], cap);
      TruncateCollects(old(root), keep, cap);
      TruncateOk(old(root), keep, cap, keep);
      forall x: nat ensures Map(root, x) == if x < keep then Map(old(root), x) else 0 {
        TruncateOk(old(root), keep, cap, x);
      }
    }
  }
}
