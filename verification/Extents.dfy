/** The extent tree of kernel/ext4.c as a map from file blocks to disk blocks: lookup,
    collecting the runs, merging them, rebuilding the tree, assigning a block, truncating. */
module Extents {

  const LEN_MASK: nat := 0x7FFF
  /** No run may end past this block. */
  const LIMIT: nat := 0xFFFF_FFFF
  const ROOT_CAP: nat := 4
  const MAX_RUNS: nat := 256

  datatype Option<T> = None | Some(value: T)

  datatype Ext = Ext(start: nat, len: nat, uninit: bool, p: nat)

  datatype Node = Leaf(exts: seq<Ext>) | Index(kids: seq<Kid>)

  /** An index entry: the first file block below it, and the node it leads to. */
  datatype Kid = Kid(first: nat, sub: Node)

  datatype Run = Run(l: nat, n: nat, p: nat)

  // ---- lookup ----

  /** Unsigned 32-bit arithmetic. */
  function Wrap32(x: nat): (r: nat)
    ensures r <= LIMIT && (x <= LIMIT ==> r == x)
  {
    x % (LIMIT + 1)
  }

  function LeafMap(exts: seq<Ext>, l: nat): nat
    decreases |exts|
  {
    if exts == [] then 0
    else
      var e := exts[0];
      if e.len != 0 && e.start <= l < Wrap32(e.start + e.len) then (if e.uninit then 0 else e.p + (l - e.start))
      else LeafMap(exts[1..], l)
  }

  /** The last entry before the first one that begins past `l`; -1 when there is none. */
  function Choose(kids: seq<Kid>, l: nat): (c: int)
    ensures -1 <= c < |kids|
    decreases |kids|
  {
    if kids == [] || l < kids[0].first then -1 else 1 + Choose(kids[1..], l)
  }

  /** `ext4_extent_map`; 0 is a hole. */
  function Map(node: Node, l: nat): nat
    decreases node
  {
    match node
    case Leaf(exts) => LeafMap(exts, l)
    case Index(kids) =>
      var c := Choose(kids, l);
      if c < 0 then 0 else Map(kids[c].sub, l)
  }

  // ---- the runs of a tree ----

  function LeafRuns(exts: seq<Ext>): Option<seq<Run>>
    decreases |exts|
  {
    if exts == [] then Some([])
    else
      var e := exts[0];
      if e.uninit || (e.len != 0 && e.p == 0) then None
      else
        match LeafRuns(exts[1..])
        case None => None
        case Some(rest) => Some((if e.len == 0 then [] else [Run(e.start, e.len, e.p)]) + rest)
  }

  /** `ext4_extent_collect_node`. */
  function Collect(node: Node): Option<seq<Run>>
    decreases node, if node.Index? then |node.kids| + 1 else 0
  {
    match node
    case Leaf(exts) => LeafRuns(exts)
    case Index(kids) => CollectFrom(node, 0)
  }

  function CollectFrom(node: Node, i: nat): Option<seq<Run>>
    requires node.Index? && i <= |node.kids|
    decreases node, |node.kids| - i
  {
    if i == |node.kids| then Some([])
    else
      match Collect(node.kids[i].sub)
      case None => None
      case Some(runs) =>
        match CollectFrom(node, i + 1)
        case None => None
        case Some(rest) => Some(runs + rest)
  }

  ghost predicate RunOk(r: Run) { 0 < r.n <= LEN_MASK && r.l + r.n <= LIMIT && r.p > 0 }

  /** The check of `ext4_extent_collect_runs`: runs in order, without overlap. */
  ghost predicate Ordered(runs: seq<Run>) {
    && (forall i :: 0 <= i < |runs| ==> RunOk(runs[i]))
    && (forall i, j :: 0 <= i < j < |runs| ==> runs[i].l + runs[i].n <= runs[j].l)
  }

  ghost predicate Has(r: Run, l: nat) { r.l <= l < r.l + r.n }

  /** The map that runs stand for. */
  function RunsMap(runs: seq<Run>, l: nat): nat
    decreases |runs|
  {
    if runs == [] then 0
    else if runs[0].l <= l < runs[0].l + runs[0].n then runs[0].p + (l - runs[0].l)
    else RunsMap(runs[1..], l)
  }

  lemma {:induction false} RunsMapAppend(x: seq<Run>, y: seq<Run>, l: nat)
    ensures (forall i :: 0 <= i < |x| ==> !Has(x[i], l)) ==> RunsMap(x + y, l) == RunsMap(y, l)
    ensures (forall i :: 0 <= i < |y| ==> !Has(y[i], l)) ==> RunsMap(x + y, l) == RunsMap(x, l)
    decreases |x|
  {
    if x == [] {
      assert x + y == y;
      NoRun(y, l);
    } else {
      assert (x + y)[1..] == x[1..] + y;
      RunsMapAppend(x[1..], y, l);
    }
  }

  lemma {:induction false} NoRun(runs: seq<Run>, l: nat)
    ensures (forall i :: 0 <= i < |runs| ==> !Has(runs[i], l)) ==> RunsMap(runs, l) == 0
    decreases |runs|
  {
    if runs != [] {
      NoRun(runs[1..], l);
      assert (forall i :: 0 <= i < |runs| ==> !Has(runs[i], l)) ==> !Has(runs[0], l) && forall i :: 0 <= i < |runs[1..]| ==> !Has(runs[1..][i], l);
    }
  }

  /** With runs in order, the run that has a block is the one the map uses. */
  lemma {:induction false} RunsMapAt(runs: seq<Run>, i: nat, l: nat)
    requires Ordered(runs) && i < |runs| && Has(runs[i], l)
    ensures RunsMap(runs, l) == runs[i].p + (l - runs[i].l)
    decreases |runs|
  {
    if i > 0 {
      assert Ordered(runs[1..]);
      RunsMapAt(runs[1..], i - 1, l);
    }
  }

  // ---- trees whose index entries are right ----

  function Next(kids: seq<Kid>, i: nat, hi: nat): nat
    requires i < |kids|
  {
    if i + 1 < |kids| then kids[i + 1].first else hi
  }

  /** Everything in the node lies in `[lo, hi)`, and every index entry separates its left
      neighbours from what is below it. */
  ghost predicate TreeOk(node: Node, lo: nat, hi: nat)
    decreases node
  {
    match node
    case Leaf(exts) => forall i :: 0 <= i < |exts| && exts[i].len != 0 ==> lo <= exts[i].start && exts[i].start + exts[i].len <= hi
    case Index(kids) => forall i :: 0 <= i < |kids| ==> lo <= kids[i].first <= Next(kids, i, hi) <= hi && TreeOk(kids[i].sub, kids[i].first, Next(kids, i, hi))
  }

  ghost predicate RunsIn(runs: seq<Run>, lo: nat, hi: nat) {
    forall i :: 0 <= i < |runs| ==> lo <= runs[i].l && runs[i].l + runs[i].n <= hi
  }

  lemma {:induction false} LeafRunsMap(exts: seq<Ext>, l: nat, lo: nat, hi: nat)
    requires LeafRuns(exts).Some?
    requires hi <= LIMIT && forall i :: 0 <= i < |exts| && exts[i].len != 0 ==> lo <= exts[i].start && exts[i].start + exts[i].len <= hi
    ensures LeafMap(exts, l) == RunsMap(LeafRuns(exts).value, l) && RunsIn(LeafRuns(exts).value, lo, hi)
    decreases |exts|
  {
    if exts != [] {
      LeafRunsMap(exts[1..], l, lo, hi);
      var rest := LeafRuns(exts[1..]).value;
      if exts[0].len != 0 {
        assert ([Run(exts[0].start, exts[0].len, exts[0].p)] + rest)[1..] == rest;
      } else {
        assert [] + rest == rest;
      }
    }
  }

  /** One entry of an index node whose entries are right. */
  ghost predicate KidOk(kids: seq<Kid>, lo: nat, hi: nat, i: nat)
    requires i < |kids|
  {
    lo <= kids[i].first <= Next(kids, i, hi) <= hi && TreeOk(kids[i].sub, kids[i].first, Next(kids, i, hi))
  }

  lemma Unfold(kids: seq<Kid>, lo: nat, hi: nat)
    ensures TreeOk(Index(kids), lo, hi) <==> forall i :: 0 <= i < |kids| ==> KidOk(kids, lo, hi, i)
  {
    if forall i :: 0 <= i < |kids| ==> KidOk(kids, lo, hi, i) {
      forall i | 0 <= i < |kids|
        ensures lo <= kids[i].first <= Next(kids, i, hi) <= hi && TreeOk(kids[i].sub, kids[i].first, Next(kids, i, hi))
      {
        assert KidOk(kids, lo, hi, i);
      }
    }
  }

  lemma {:induction false} ChosenIs(kids: seq<Kid>, l: nat)
    requires forall i, j :: 0 <= i < j < |kids| ==> kids[i].first <= kids[j].first
    ensures var c := Choose(kids, l);
            (forall i :: 0 <= i <= c ==> kids[i].first <= l) && (forall i :: c < i < |kids| ==> l < kids[i].first)
    decreases |kids|
  {
    if kids != [] && kids[0].first <= l {
      ChosenIs(kids[1..], l);
      var c := Choose(kids, l);
      forall i | 0 <= i <= c ensures kids[i].first <= l {
        if i > 0 {
          assert kids[1..][i - 1] == kids[i];
        }
      }
      forall i | c < i < |kids| ensures l < kids[i].first {
        assert kids[1..][i - 1] == kids[i];
      }
    }
  }

  lemma {:induction false} FirstsSorted(node: Node, lo: nat, hi: nat, i: nat, j: nat)
    requires TreeOk(node, lo, hi) && node.Index? && i <= j < |node.kids|
    ensures node.kids[i].first <= node.kids[j].first
    decreases j
  {
    if i < j {
      FirstsSorted(node, lo, hi, i, j - 1);
    }
  }

  /** Lookup in a tree is lookup in the runs it holds. */
  lemma {:induction false} MapIsRuns(node: Node, lo: nat, hi: nat, l: nat)
    requires hi <= LIMIT && TreeOk(node, lo, hi) && Collect(node).Some?
    ensures Map(node, l) == RunsMap(Collect(node).value, l) && RunsIn(Collect(node).value, lo, hi)
    decreases node, if node.Index? then |node.kids| + 1 else 0
  {
    match node
    case Leaf(exts) => LeafRunsMap(exts, l, lo, hi);
    case Index(kids) =>
      forall i, j | 0 <= i < j < |kids| ensures kids[i].first <= kids[j].first {
        FirstsSorted(node, lo, hi, i, j);
      }
      ChosenIs(kids, l);
      KidsMap(node, lo, hi, l, 0);
  }

  lemma {:induction false} KidsMap(node: Node, lo: nat, hi: nat, l: nat, i: nat)
    requires hi <= LIMIT && TreeOk(node, lo, hi) && node.Index? && i <= |node.kids| && CollectFrom(node, i).Some?
    requires var c := Choose(node.kids, l);
             (forall k :: 0 <= k <= c ==> node.kids[k].first <= l) && (forall k :: c < k < |node.kids| ==> l < node.kids[k].first)
    ensures var c, runs := Choose(node.kids, l), CollectFrom(node, i).value;
            && RunsMap(runs, l) == (if c < i then 0 else Map(node.kids[c].sub, l))
            && RunsIn(runs, lo, hi) && (i < |node.kids| ==> RunsIn(runs, node.kids[i].first, hi))
    decreases node, |node.kids| - i
  {
    hide TreeOk, RunsMap, Map, Collect, RunsIn;
    if i == |node.kids| {
      NoRun([], l);
      NoRuns(lo, hi);
    } else {
      var k, c := node.kids[i], Choose(node.kids, l);
      var next := Next(node.kids, i, hi);
      Unfold(node.kids, lo, hi);
      assert KidOk(node.kids, lo, hi, i);
      MapIsRuns(k.sub, k.first, next, l);
      KidsMap(node, lo, hi, l, i + 1);
      var x, y := Collect(k.sub).value, CollectFrom(node, i + 1).value;
      RunsMapAppend(x, y, l);
      Widen(x, k.first, next, lo, hi);
      Widen(x, k.first, next, k.first, hi);
      if i + 1 < |node.kids| {
        Widen(y, next, hi, k.first, hi);
      } else {
        NoRuns(k.first, hi);
      }
      BothIn(x, y, lo, hi);
      BothIn(x, y, k.first, hi);
      if c != i {
        NoneHas(x, k.first, next, l);
      } else if i + 1 < |node.kids| {
        NoneHas(y, next, hi, l);
      }
    }
  }

  lemma NoRuns(lo: nat, hi: nat)
    ensures RunsIn([], lo, hi)
  {
  }

  lemma Widen(runs: seq<Run>, lo: nat, hi: nat, lo': nat, hi': nat)
    requires RunsIn(runs, lo, hi) && lo' <= lo && hi <= hi'
    ensures RunsIn(runs, lo', hi')
  {
  }

  lemma BothIn(x: seq<Run>, y: seq<Run>, lo: nat, hi: nat)
    requires RunsIn(x, lo, hi) && RunsIn(y, lo, hi)
    ensures RunsIn(x + y, lo, hi)
  {
  }

  lemma NoneHas(runs: seq<Run>, lo: nat, hi: nat, l: nat)
    requires RunsIn(runs, lo, hi) && !(lo <= l < hi)
    ensures forall i :: 0 <= i < |runs| ==> !Has(runs[i], l)
  {
  }

  // ---- merging adjacent runs ----

  predicate CanMerge(x: Run, y: Run) {
    x.l + x.n == y.l && x.p + x.n == y.p && x.n + y.n <= LEN_MASK
  }

  /** `ext4_extent_merge_runs`, one more run at a time. */
  function MergeOne(out: seq<Run>, r: Run): seq<Run> {
    if out != [] && CanMerge(out[|out| - 1], r)
    then out[|out| - 1 := out[|out| - 1].(n := out[|out| - 1].n + r.n)]
    else out + [r]
  }

  function Merged(runs: seq<Run>): seq<Run>
    decreases |runs|
  {
    if runs == [] then [] else MergeOne(Merged(runs[..|runs| - 1]), runs[|runs| - 1])
  }

  /** Adding a run that begins no earlier than the last one ends. */
  ghost predicate Follows(out: seq<Run>, r: Run) {
    RunOk(r) && (out != [] ==> out[|out| - 1].l + out[|out| - 1].n <= r.l)
  }

  ghost predicate Tight(runs: seq<Run>) {
    forall i :: 0 < i < |runs| ==> !CanMerge(runs[i - 1], runs[i])
  }

  lemma MergeOneOrdered(out: seq<Run>, r: Run)
    requires Ordered(out) && Tight(out) && Follows(out, r)
    ensures var o := MergeOne(out, r); Ordered(o) && Tight(o) && o != [] && o[|o| - 1].l + o[|o| - 1].n == r.l + r.n && |o| <= |out| + 1
  {
    if out != [] && CanMerge(out[|out| - 1], r) && |out| > 1 {
      assert !CanMerge(out[|out| - 2], out[|out| - 1]);
    }
  }

  lemma MergeOneMap(out: seq<Run>, r: Run, l: nat)
    requires Ordered(out) && Follows(out, r)
    ensures RunsMap(MergeOne(out, r), l) == if Has(r, l) then r.p + (l - r.l) else RunsMap(out, l)
  {
    hide RunsMap;
    NotBefore(out, l);
    if out != [] && CanMerge(out[|out| - 1], r) {
      var front, last := out[..|out| - 1], out[|out| - 1];
      var both := last.(n := last.n + r.n);
      assert out == front + [last] && MergeOne(out, r) == front + [both];
      RunsMapSnoc(front, last, l);
      RunsMapSnoc(front, both, l);
    } else {
      RunsMapSnoc(out, r, l);
    }
  }

  lemma OrderedFront(runs: seq<Run>)
    requires Ordered(runs) && runs != []
    ensures Ordered(runs[..|runs| - 1]) && Follows(runs[..|runs| - 1], runs[|runs| - 1])
  {
  }

  lemma {:induction false} MergedOrdered(runs: seq<Run>)
    requires Ordered(runs)
    ensures Ordered(Merged(runs)) && Tight(Merged(runs)) && |Merged(runs)| <= |runs|
    ensures runs != [] ==> Merged(runs) != [] && var x, y := Merged(runs)[|Merged(runs)| - 1], runs[|runs| - 1]; x.l + x.n == y.l + y.n
    decreases |runs|
  {
    hide Ordered, Tight, MergeOne;
    if runs == [] {
      NothingOrdered();
    } else {
      OrderedFront(runs);
      MergedOrdered(runs[..|runs| - 1]);
      MergeOneOrdered(Merged(runs[..|runs| - 1]), runs[|runs| - 1]);
    }
  }

  lemma NothingOrdered()
    ensures Ordered([]) && Tight([])
  {
  }

  /** Merging keeps the map. */
  lemma {:induction false} MergedMap(runs: seq<Run>, l: nat)
    requires Ordered(runs)
    ensures RunsMap(Merged(runs), l) == RunsMap(runs, l)
    decreases |runs|
  {
    hide Ordered, RunsMap, MergeOne;
    if runs != [] {
      var front, r := runs[..|runs| - 1], runs[|runs| - 1];
      assert runs == front + [r];
      OrderedFront(runs);
      MergedOrdered(front);
      MergedMap(front, l);
      MergeOneMap(Merged(front), r, l);
      NotBefore(front, l);
      RunsMapSnoc(front, r, l);
    }
  }

  /** One run more at the end. */
  lemma RunsMapSnoc(x: seq<Run>, r: Run, l: nat)
    ensures Has(r, l) && (forall i :: 0 <= i < |x| ==> !Has(x[i], l)) ==> RunsMap(x + [r], l) == r.p + (l - r.l)
    ensures !Has(r, l) ==> RunsMap(x + [r], l) == RunsMap(x, l)
  {
    RunsMapAppend(x, [r], l);
    assert [r][1..] == [];
  }

  /** Past the end of the last run nothing is mapped. */
  lemma NotBefore(runs: seq<Run>, l: nat)
    requires Ordered(runs)
    ensures runs != [] && l >= runs[|runs| - 1].l + runs[|runs| - 1].n ==> forall i :: 0 <= i < |runs| ==> !Has(runs[i], l)
    ensures runs != [] && Has(runs[|runs| - 1], l) ==> forall i :: 0 <= i < |runs| - 1 ==> !Has(runs[i], l)
  {
  }

  // ---- building a tree ----

  function ToExts(runs: seq<Run>): (e: seq<Ext>)
    ensures |e| == |runs|
  {
    seq(|runs|, i requires 0 <= i < |runs| => Ext(runs[i].l, runs[i].n, false, runs[i].p))
  }

  function Least(a: nat, b: nat): nat { if a <= b then a else b }

  /** The leaf level of `ext4_extent_rebuild`: `cap` runs a node. */
  function Leaves(runs: seq<Run>, cap: nat): seq<Kid>
    requires cap > 0
    decreases |runs|
  {
    if runs == [] then []
    else
      var c := Least(cap, |runs|);
      [Kid(runs[0].l, Leaf(ToExts(runs[..c])))] + Leaves(runs[c..], cap)
  }

  /** One level up: `cap` nodes below each new one. */
  function Up(kids: seq<Kid>, cap: nat): (r: seq<Kid>)
    requires cap > 1
    ensures |r| <= |kids| && (|kids| > 1 ==> |r| < |kids|) && (kids != [] ==> r != [] && r[0].first == kids[0].first)
    decreases |kids|
  {
    if kids == [] then []
    else
      var c := Least(cap, |kids|);
      [Kid(kids[0].first, Index(kids[..c]))] + Up(kids[c..], cap)
  }

  /** Levels are added until the root can hold the rest; every level has fewer nodes. */
  function Levels(kids: seq<Kid>, cap: nat): Node
    requires cap > 1
    decreases |kids|
  {
    if |kids| <= ROOT_CAP then Index(kids) else Levels(Up(kids, cap), cap)
  }

  /** `ext4_extent_rebuild`. */
  function Rebuild(runs: seq<Run>, cap: nat): Node
    requires cap > 1
  {
    if |runs| <= ROOT_CAP then Leaf(ToExts(runs)) else Levels(Leaves(runs, cap), cap)
  }

  lemma {:induction false} ExtsRuns(runs: seq<Run>)
    requires forall i :: 0 <= i < |runs| ==> RunOk(runs[i])
    ensures LeafRuns(ToExts(runs)) == Some(runs)
    decreases |runs|
  {
    if runs != [] {
      assert ToExts(runs)[1..] == ToExts(runs[1..]);
      ExtsRuns(runs[1..]);
      assert [runs[0]] + runs[1..] == runs;
    }
  }

  /** The nodes below an index node, in two parts. */
  lemma {:induction false} CollectSplit(x: seq<Kid>, y: seq<Kid>, i: nat)
    requires i <= |x|
    ensures var a, b, all := CollectFrom(Index(x), i), CollectFrom(Index(y), 0), CollectFrom(Index(x + y), i);
            all == if a.Some? && b.Some? then Some(a.value + b.value) else None
    decreases |x| - i
  {
    if i < |x| {
      assert (x + y)[i] == x[i];
      CollectSplit(x, y, i + 1);
      var k := Collect(x[i].sub);
      if k.Some? && CollectFrom(Index(x), i + 1).Some? && CollectFrom(Index(y), 0).Some? {
        var u, v := CollectFrom(Index(x), i + 1).value, CollectFrom(Index(y), 0).value;
        assert k.value + (u + v) == k.value + u + v;
      }
    } else {
      CollectShift(x, y, 0);
      if CollectFrom(Index(y), 0).Some? {
        assert [] + CollectFrom(Index(y), 0).value == CollectFrom(Index(y), 0).value;
      }
    }
  }

  lemma {:induction false} CollectShift(x: seq<Kid>, y: seq<Kid>, j: nat)
    requires j <= |y|
    ensures CollectFrom(Index(x + y), |x| + j) == CollectFrom(Index(y), j)
    decreases |y| - j
  {
    if j < |y| {
      assert (x + y)[|x| + j] == y[j];
      CollectShift(x, y, j + 1);
    }
  }

  lemma CollectKid(k: Kid)
    ensures CollectFrom(Index([k]), 0) == Collect(k.sub)
  {
    var node := Index([k]);
    assert CollectFrom(node, 1) == Some([]);
    if Collect(k.sub).Some? {
      assert Collect(k.sub).value + [] == Collect(k.sub).value;
    }
  }

  /** An index entry in front of others. */
  lemma TreeCons(k: Kid, kids: seq<Kid>, lo: nat, hi: nat)
    requires TreeOk(Index(kids), lo, hi) && lo <= k.first <= (if kids == [] then hi else kids[0].first) <= hi
    requires TreeOk(k.sub, k.first, if kids == [] then hi else kids[0].first)
    ensures TreeOk(Index([k] + kids), lo, hi)
  {
    var all := [k] + kids;
    forall i | 0 <= i < |all|
      ensures lo <= all[i].first <= Next(all, i, hi) <= hi && TreeOk(all[i].sub, all[i].first, Next(all, i, hi))
    {
      if i > 0 {
        assert all[i] == kids[i - 1] && Next(all, i, hi) == Next(kids, i - 1, hi);
      }
    }
  }

  lemma TreeFront(kids: seq<Kid>, c: nat, lo: nat, hi: nat)
    requires TreeOk(Index(kids), lo, hi) && 0 < c <= |kids|
    ensures var next := if c < |kids| then kids[c].first else hi;
            kids[0].first <= next <= hi && TreeOk(Index(kids[..c]), kids[0].first, next)
  {
    hide TreeOk;
    var x, next := kids[..c], if c < |kids| then kids[c].first else hi;
    Unfold(kids, lo, hi);
    Unfold(x, kids[0].first, next);
    forall i | 0 <= i < c ensures KidOk(x, kids[0].first, next, i) {
      assert KidOk(kids, lo, hi, i);
      assert x[i] == kids[i] && Next(x, i, next) == Next(kids, i, hi);
      FirstsSorted(Index(kids), lo, hi, 0, i);
      if c < |kids| {
        FirstsSorted(Index(kids), lo, hi, i, c);
        if i + 1 < c {
          FirstsSorted(Index(kids), lo, hi, i + 1, c);
        }
      }
    }
    if c < |kids| {
      assert KidOk(kids, lo, hi, c);
      FirstsSorted(Index(kids), lo, hi, 0, c);
    } else {
      assert KidOk(kids, lo, hi, 0);
    }
  }

  lemma TreeBack(kids: seq<Kid>, c: nat, lo: nat, hi: nat)
    requires TreeOk(Index(kids), lo, hi) && c <= |kids|
    ensures TreeOk(Index(kids[c..]), lo, hi)
  {
    hide TreeOk;
    var y := kids[c..];
    Unfold(kids, lo, hi);
    Unfold(y, lo, hi);
    forall i | 0 <= i < |y| ensures KidOk(y, lo, hi, i) {
      assert KidOk(kids, lo, hi, c + i);
      assert y[i] == kids[c + i] && Next(y, i, hi) == Next(kids, c + i, hi);
    }
  }

  lemma LeafOk(runs: seq<Run>, c: nat, hi: nat, next: nat)
    requires Ordered(runs) && 0 < c <= |runs| && RunsIn(runs, 0, hi) && next == if c < |runs| then runs[c].l else hi
    ensures TreeOk(Leaf(ToExts(runs[..c])), runs[0].l, next) && runs[0].l <= next
  {
    forall i | 0 <= i < c ensures runs[0].l <= runs[i].l && runs[i].l + runs[i].n <= next {
      assert RunOk(runs[0]);
    }
  }

  lemma OrderedSplit(runs: seq<Run>, c: nat, lo: nat, hi: nat)
    requires Ordered(runs) && RunsIn(runs, lo, hi) && c <= |runs|
    ensures Ordered(runs[..c]) && Ordered(runs[c..]) && RunsIn(runs[c..], lo, hi) && RunsIn(runs, 0, hi)
    ensures forall i :: 0 <= i < c ==> RunOk(runs[..c][i])
    ensures runs != [] ==> lo <= runs[0].l
  {
  }

  /** The leaf level holds the runs, in order, under the right entries. */
  lemma {:induction false} LeavesOk(runs: seq<Run>, cap: nat, lo: nat, hi: nat)
    requires cap > 0 && Ordered(runs) && RunsIn(runs, lo, hi) && lo <= hi
    ensures var kids := Leaves(runs, cap);
            && TreeOk(Index(kids), lo, hi) && CollectFrom(Index(kids), 0) == Some(runs)
            && (runs != [] ==> kids != [] && kids[0].first == runs[0].l) && |kids| <= |runs|
    decreases |runs|
  {
    hide TreeOk, Ordered, RunsIn, CollectFrom, ToExts, RunOk;
    if runs == [] {
      EmptyIndex(lo, hi);
    } else {
      var c := Least(cap, |runs|);
      var x, y := runs[..c], runs[c..];
      OrderedSplit(runs, c, lo, hi);
      LeavesOk(y, cap, lo, hi);
      var k, rest := Kid(runs[0].l, Leaf(ToExts(x))), Leaves(y, cap);
      LeafOk(runs, c, hi, if rest == [] then hi else rest[0].first);
      FirstBelow(rest, lo, hi);
      TreeCons(k, rest, lo, hi);
      ExtsRuns(x);
      CollectKid(k);
      CollectSplit([k], rest, 0);
      assert x + y == runs;
    }
  }

  lemma EmptyIndex(lo: nat, hi: nat)
    ensures TreeOk(Index([]), lo, hi) && CollectFrom(Index([]), 0) == Some([])
  {
  }

  lemma FirstBelow(kids: seq<Kid>, lo: nat, hi: nat)
    requires TreeOk(Index(kids), lo, hi)
    ensures kids != [] ==> kids[0].first <= hi
  {
  }

  /** A level more changes neither the runs nor that the entries are right. */
  lemma {:induction false} UpOk(kids: seq<Kid>, cap: nat, lo: nat, hi: nat)
    requires cap > 1 && TreeOk(Index(kids), lo, hi)
    ensures TreeOk(Index(Up(kids, cap)), lo, hi) && CollectFrom(Index(Up(kids, cap)), 0) == CollectFrom(Index(kids), 0)
    decreases |kids|
  {
    hide TreeOk, CollectFrom;
    if kids != [] {
      var c := Least(cap, |kids|);
      var x, y := kids[..c], kids[c..];
      TreeFront(kids, c, lo, hi);
      TreeBack(kids, c, lo, hi);
      UpOk(y, cap, lo, hi);
      var k, rest := Kid(kids[0].first, Index(x)), Up(y, cap);
      LowFirst(kids, lo, hi);
      TreeCons(k, rest, lo, hi);
      CollectKid(k);
      CollectSplit([k], rest, 0);
      CollectSplit(x, y, 0);
      assert x + y == kids;
      IndexCollects(x);
    }
  }

  lemma IndexCollects(kids: seq<Kid>)
    ensures Collect(Index(kids)) == CollectFrom(Index(kids), 0)
  {
  }

  lemma LowFirst(kids: seq<Kid>, lo: nat, hi: nat)
    requires TreeOk(Index(kids), lo, hi) && kids != []
    ensures lo <= kids[0].first
  {
  }

  lemma {:induction false} LevelsOk(kids: seq<Kid>, cap: nat, lo: nat, hi: nat)
    requires cap > 1 && TreeOk(Index(kids), lo, hi)
    ensures TreeOk(Levels(kids, cap), lo, hi) && Collect(Levels(kids, cap)) == CollectFrom(Index(kids), 0)
    decreases |kids|
  {
    hide TreeOk, CollectFrom;
    if |kids| <= ROOT_CAP {
      IndexCollects(kids);
    } else {
      UpOk(kids, cap, lo, hi);
      LevelsOk(Up(kids, cap), cap, lo, hi);
    }
  }

  /** A rebuilt tree holds exactly the runs it was built from, and lookup finds them. */
  lemma RebuildOk(runs: seq<Run>, cap: nat, l: nat)
    requires cap > 1 && Ordered(runs)
    ensures TreeOk(Rebuild(runs, cap), 0, LIMIT) && Collect(Rebuild(runs, cap)) == Some(runs)
    ensures Map(Rebuild(runs, cap), l) == RunsMap(runs, l)
  {
    if |runs| <= ROOT_CAP {
      ExtsRuns(runs);
    } else {
      LeavesOk(runs, cap, 0, LIMIT);
      LevelsOk(Leaves(runs, cap), cap, 0, LIMIT);
    }
    MapIsRuns(Rebuild(runs, cap), 0, LIMIT, l);
  }

  // ---- assign and truncate ----

  /** The checks of `ext4_extent_collect_runs`. */
  predicate Checked(runs: seq<Run>) {
    && (forall i :: 0 <= i < |runs| ==> 0 < runs[i].n <= LEN_MASK && runs[i].l + runs[i].n <= LIMIT)
    && (forall i :: 0 < i < |runs| ==> runs[i - 1].l + runs[i - 1].n <= runs[i].l)
  }

  function Collected(root: Node): Option<seq<Run>> {
    match Collect(root)
    case None => None
    case Some(runs) => if |runs| <= MAX_RUNS && Checked(runs) then Some(runs) else None
  }

  lemma {:induction false} CheckedPair(runs: seq<Run>, i: nat, j: nat)
    requires Checked(runs) && i < j < |runs|
    ensures runs[i].l + runs[i].n <= runs[j].l
    decreases j
  {
    if i + 1 < j {
      CheckedPair(runs, i, j - 1);
    }
  }

  lemma {:induction false} LeafPositive(exts: seq<Ext>)
    requires LeafRuns(exts).Some?
    ensures forall i :: 0 <= i < |LeafRuns(exts).value| ==> LeafRuns(exts).value[i].p > 0
    decreases |exts|
  {
    if exts != [] {
      LeafPositive(exts[1..]);
    }
  }

  lemma {:induction false} Positive(node: Node)
    requires Collect(node).Some?
    ensures forall i :: 0 <= i < |Collect(node).value| ==> Collect(node).value[i].p > 0
    decreases node, if node.Index? then |node.kids| + 1 else 0
  {
    match node
    case Leaf(exts) => LeafPositive(exts);
    case Index(kids) => PositiveFrom(node, 0);
  }

  lemma {:induction false} PositiveFrom(node: Node, i: nat)
    requires node.Index? && i <= |node.kids| && CollectFrom(node, i).Some?
    ensures forall j :: 0 <= j < |CollectFrom(node, i).value| ==> CollectFrom(node, i).value[j].p > 0
    decreases node, |node.kids| - i
  {
    if i < |node.kids| {
      Positive(node.kids[i].sub);
      PositiveFrom(node, i + 1);
    }
  }

  /** What can be collected is in order, and lookup agrees with it. */
  lemma CollectedOk(root: Node, l: nat)
    requires TreeOk(root, 0, LIMIT) && Collected(root).Some?
    ensures Ordered(Collected(root).value) && Map(root, l) == RunsMap(Collected(root).value, l)
  {
    var runs := Collected(root).value;
    Positive(root);
    forall i, j | 0 <= i < j < |runs| ensures runs[i].l + runs[i].n <= runs[j].l {
      CheckedPair(runs, i, j);
    }
    MapIsRuns(root, 0, LIMIT, l);
  }

  /** All extents of a tree, from left to right. */
  function Entries(node: Node): seq<Ext>
    decreases node, if node.Index? then |node.kids| + 1 else 0
  {
    match node
    case Leaf(exts) => exts
    case Index(kids) => EntriesFrom(node, 0)
  }

  function EntriesFrom(node: Node, i: nat): seq<Ext>
    requires node.Index? && i <= |node.kids|
    decreases node, |node.kids| - i
  {
    if i == |node.kids| then [] else Entries(node.kids[i].sub) + EntriesFrom(node, i + 1)
  }

  /** Those that hold blocks, as runs. */
  function RunsOf(exts: seq<Ext>): seq<Run>
    decreases |exts|
  {
    if exts == [] then [] else (if exts[0].len == 0 then [] else [Run(exts[0].start, exts[0].len, exts[0].p)]) + RunsOf(exts[1..])
  }

  predicate Usable(e: Ext) { !e.uninit && (e.len != 0 ==> e.p != 0) }

  lemma {:induction false} LeafCollects(exts: seq<Ext>)
    ensures LeafRuns(exts) == if forall i :: 0 <= i < |exts| ==> Usable(exts[i]) then Some(RunsOf(exts)) else None
    decreases |exts|
  {
    if exts != [] {
      LeafCollects(exts[1..]);
      if Usable(exts[0]) && forall i :: 0 <= i < |exts[1..]| ==> Usable(exts[1..][i]) {
        assert forall i :: 0 < i < |exts| ==> exts[i] == exts[1..][i - 1];
      } else if !Usable(exts[0]) {
        assert !(forall i :: 0 <= i < |exts| ==> Usable(exts[i]));
      } else {
        var i :| 0 <= i < |exts[1..]| && !Usable(exts[1..][i]);
        assert !Usable(exts[i + 1]);
      }
    }
  }

  lemma {:induction false} LeafRunsJoin(x: seq<Ext>, y: seq<Ext>)
    ensures var a, b := LeafRuns(x), LeafRuns(y); LeafRuns(x + y) == if a.Some? && b.Some? then Some(a.value + b.value) else None
    decreases |x|
  {
    if x == [] {
      assert x + y == y;
      if LeafRuns(y).Some? {
        assert [] + LeafRuns(y).value == LeafRuns(y).value;
      }
    } else {
      LeafRunsJoin(x[1..], y);
      assert (x + y)[1..] == x[1..] + y && (x + y)[0] == x[0];
      if LeafRuns(x).Some? && LeafRuns(y).Some? {
        var r, u, v := if x[0].len == 0 then [] else [Run(x[0].start, x[0].len, x[0].p)], LeafRuns(x[1..]).value, LeafRuns(y).value;
        assert r + (u + v) == r + u + v;
      }
    }
  }

  lemma {:induction false} CollectIsEntries(node: Node)
    ensures Collect(node) == LeafRuns(Entries(node))
    decreases node, if node.Index? then |node.kids| + 1 else 0
  {
    if node.Index? {
      CollectFromIsEntries(node, 0);
    }
  }

  lemma {:induction false} CollectFromIsEntries(node: Node, i: nat)
    requires node.Index? && i <= |node.kids|
    ensures CollectFrom(node, i) == LeafRuns(EntriesFrom(node, i))
    decreases node, |node.kids| - i
  {
    if i < |node.kids| {
      CollectIsEntries(node.kids[i].sub);
      CollectFromIsEntries(node, i + 1);
      LeafRunsJoin(Entries(node.kids[i].sub), EntriesFrom(node, i + 1));
    }
  }

  /** A tree can be changed exactly if none of its extents is uninitialised or at block 0, those
      that hold blocks are in order, of a length that fits, and not too many. */
  lemma CollectedIff(root: Node)
    ensures Collected(root) ==
            if (forall i :: 0 <= i < |Entries(root)| ==> Usable(Entries(root)[i])) && |RunsOf(Entries(root))| <= MAX_RUNS && Checked(RunsOf(Entries(root)))
            then Some(RunsOf(Entries(root))) else None
  {
    hide Usable, Checked, LeafRuns, Collect;
    CollectIsEntries(root);
    LeafCollects(Entries(root));
  }

  /** The first run that does not begin before `l`. */
  function Place(runs: seq<Run>, l: nat, i: nat): (k: nat)
    requires i <= |runs|
    ensures i <= k <= |runs| && (forall j :: i <= j < k ==> runs[j].l < l) && (k < |runs| ==> runs[k].l >= l)
    decreases |runs| - i
  {
    if i < |runs| && runs[i].l < l then Place(runs, l, i + 1) else i
  }

  /** The runs with one more block, when the block is free. */
  function Inserted(runs: seq<Run>, l: nat, p: nat): Option<seq<Run>> {
    var k := Place(runs, l, 0);
    if (k > 0 && l < runs[k - 1].l + runs[k - 1].n) || (k < |runs| && runs[k].l == l) || |runs| >= MAX_RUNS then None
    else Some(runs[..k] + [Run(l, 1, p)] + runs[k..])
  }

  /** `ext4_extent_assign_block`. */
  function Assign(root: Node, l: nat, p: nat, cap: nat): Option<Node>
    requires cap > 1
  {
    if p == 0 || p > LIMIT then None
    else
      match Collected(root)
      case None => None
      case Some(runs) =>
        match Inserted(runs, l, p)
        case None => None
        case Some(runs') => Some(Rebuild(Merged(runs'), cap))
  }

  lemma InsertedOk(runs: seq<Run>, l: nat, p: nat, x: nat)
    requires Ordered(runs) && l < LIMIT && p > 0 && Inserted(runs, l, p).Some?
    ensures var r := Inserted(runs, l, p).value;
            Ordered(r) && RunsMap(runs, l) == 0 && RunsMap(r, x) == if x == l then p else RunsMap(runs, x)
  {
    hide RunsMap;
    var k := Place(runs, l, 0);
    var a, b, n := runs[..k], runs[k..], Run(l, 1, p);
    assert a + b == runs;
    assert Inserted(runs, l, p).value == a + ([n] + b);
    FreeHere(runs, l, k);
    NoRun(runs, l);
    RunsMapAppend(a, b, x);
    RunsMapAppend(a, [n] + b, x);
    OneRun(n, b, x);
    OrderedInsert(runs, k, n);
    Sides(runs, k, x);
  }

  /** A block can be put in exactly if it is free and the table is not full. */
  lemma InsertedIff(runs: seq<Run>, l: nat, p: nat)
    requires Ordered(runs)
    ensures Inserted(runs, l, p).Some? <==> RunsMap(runs, l) == 0 && |runs| < MAX_RUNS
  {
    hide RunsMap, Place;
    var k := Place(runs, l, 0);
    if k > 0 && l < runs[k - 1].l + runs[k - 1].n {
      RunsMapAt(runs, k - 1, l);
    } else if k < |runs| && runs[k].l == l {
      RunsMapAt(runs, k, l);
    } else {
      FreeHere(runs, l, k);
      NoRun(runs, l);
    }
  }

  lemma FreeHere(runs: seq<Run>, l: nat, k: nat)
    requires Ordered(runs) && k <= |runs| && (forall j :: 0 <= j < k ==> runs[j].l < l) && (k < |runs| ==> runs[k].l > l)
    requires k > 0 ==> runs[k - 1].l + runs[k - 1].n <= l
    ensures forall j :: 0 <= j < |runs| ==> !Has(runs[j], l)
  {
  }

  /** Run `i` after `n` is put at place `k`. */
  ghost function WithRun(runs: seq<Run>, k: nat, n: Run, i: nat): Run
    requires k <= |runs| && i <= |runs|
  {
    if i < k then runs[i] else if i == k then n else runs[i - 1]
  }

  lemma OrderedInsert(runs: seq<Run>, k: nat, n: Run)
    requires Ordered(runs) && k <= |runs| && RunOk(n)
    requires (k > 0 ==> runs[k - 1].l + runs[k - 1].n <= n.l) && (k < |runs| ==> n.l + n.n <= runs[k].l)
    ensures Ordered(runs[..k] + ([n] + runs[k..]))
  {
    hide Ordered, RunOk;
    var r := runs[..k] + ([n] + runs[k..]);
    forall i: nat, j: nat | i < |r| && j < |r|
      ensures RunOk(r[i]) && RunOk(r[j]) && (i < j ==> r[i].l + r[i].n <= r[j].l)
    {
      assert r[i] == WithRun(runs, k, n, i) && r[j] == WithRun(runs, k, n, j);
      InsertPair(runs, k, n, i, j);
    }
    OrderedFrom(r);
  }

  lemma OrderedFrom(r: seq<Run>)
    requires forall i, j :: 0 <= i < |r| && 0 <= j < |r| ==> RunOk(r[i]) && RunOk(r[j]) && (i < j ==> r[i].l + r[i].n <= r[j].l)
    ensures Ordered(r)
  {
  }

  lemma InsertPair(runs: seq<Run>, k: nat, n: Run, i: nat, j: nat)
    requires Ordered(runs) && k <= |runs| && i <= |runs| && j <= |runs| && RunOk(n)
    requires (k > 0 ==> runs[k - 1].l + runs[k - 1].n <= n.l) && (k < |runs| ==> n.l + n.n <= runs[k].l)
    ensures var a, b := WithRun(runs, k, n, i), WithRun(runs, k, n, j);
            RunOk(a) && RunOk(b) && (i < j ==> a.l + a.n <= b.l)
  {
  }

  /** A block is on one side of a cut only. */
  lemma Sides(runs: seq<Run>, k: nat, x: nat)
    requires Ordered(runs) && k <= |runs|
    ensures (forall i :: 0 <= i < k ==> !Has(runs[..k][i], x)) || (forall i :: 0 <= i < |runs| - k ==> !Has(runs[k..][i], x))
  {
  }

  lemma OneRun(n: Run, b: seq<Run>, x: nat)
    requires n.n == 1
    ensures RunsMap([n] + b, x) == if x == n.l then n.p else RunsMap(b, x)
  {
    assert ([n] + b)[1..] == b;
  }

  /** The last block a 32-bit number can name is never found. */
  lemma {:induction false} LastIsHole(node: Node)
    ensures Map(node, LIMIT) == 0
    decreases node
  {
    match node
    case Leaf(exts) => LeafLast(exts);
    case Index(kids) =>
      var c := Choose(kids, LIMIT);
      if c >= 0 {
        LastIsHole(kids[c].sub);
      }
  }

  lemma {:induction false} LeafLast(exts: seq<Ext>)
    ensures LeafMap(exts, LIMIT) == 0
    decreases |exts|
  {
    if exts != [] {
      LeafLast(exts[1..]);
    }
  }

  /** The assigned block can be looked up afterwards unless it is that one. */
  lemma AssignIff(root: Node, l: nat, p: nat, cap: nat)
    requires cap > 1 && TreeOk(root, 0, LIMIT) && l <= LIMIT && Assign(root, l, p, cap).Some?
    ensures Map(Assign(root, l, p, cap).value, l) == p <==> l != LIMIT
  {
    hide TreeOk, Ordered, RunsMap, Map, Merged, Rebuild, Collected, Inserted;
    if l == LIMIT {
      LastIsHole(Assign(root, l, p, cap).value);
    } else {
      AssignOk(root, l, p, cap, l);
    }
  }

  /** Assigning it can even hide the blocks before it: two runs merge into one that ends past
      the last 32-bit number. */
  lemma AssignLastHides()
    ensures var root, root' := Leaf([Ext(LIMIT - 1, 1, false, 7)]), Leaf([Ext(LIMIT - 1, 2, false, 7)]);
            && TreeOk(root, 0, LIMIT) && Assign(root, LIMIT, 8, 84) == Some(root')
            && Map(root, LIMIT - 1) == 7 && Map(root', LIMIT - 1) == 0
  {
    var root := Leaf([Ext(LIMIT - 1, 1, false, 7)]);
    var r, n, both := Run(LIMIT - 1, 1, 7), Run(LIMIT, 1, 8), Run(LIMIT - 1, 2, 7);
    CollectOne(LIMIT - 1, 1, 7);
    assert Place([r], LIMIT, 0) == 1;
    assert [r][..1] + [n] + [r][1..] == [r, n];
    assert [r, n][..1] == [r] && [r][..0] == [];
    assert Merged([]) == [];
    assert Merged([r]) == [r];
    assert Merged([r, n]) == [both];
    assert Rebuild([both], 84) == Leaf([Ext(LIMIT - 1, 2, false, 7)]);
    FindOne(LIMIT - 1, 1, 7);
    FindOne(LIMIT - 1, 2, 7);
  }

  lemma CollectOne(l: nat, n: nat, p: nat)
    requires 0 < n <= LEN_MASK && l + n <= LIMIT && p > 0
    ensures Collected(Leaf([Ext(l, n, false, p)])) == Some([Run(l, n, p)])
  {
    var exts, r := [Ext(l, n, false, p)], Run(l, n, p);
    assert exts[1..] == [];
    assert [r] + [] == [r];
    assert LeafRuns(exts) == Some([r]);
    assert Checked([r]);
  }

  lemma FindOne(l: nat, n: nat, p: nat)
    requires 0 < n <= LEN_MASK && l < LIMIT && p > 0
    ensures Map(Leaf([Ext(l, n, false, p)]), l) == if l < Wrap32(l + n) then p else 0
  {
    var exts := [Ext(l, n, false, p)];
    assert exts[1..] == [];
    assert LeafMap(exts[1..], l) == 0;
  }

  /** An assign succeeds exactly if the disk block is one a file can have, the tree can be changed,
      the file block is a hole, and there is room for one run more. */
  lemma AssignSucceeds(root: Node, l: nat, p: nat, cap: nat)
    requires cap > 1 && TreeOk(root, 0, LIMIT)
    ensures Assign(root, l, p, cap).Some? <==> 0 < p <= LIMIT && Collected(root).Some? && Map(root, l) == 0 && |Collected(root).value| < MAX_RUNS
  {
    hide TreeOk, Ordered, RunsMap, Map, Merged, Rebuild, Collected, Inserted;
    if Collected(root).Some? {
      CollectedOk(root, l);
      InsertedIff(Collected(root).value, l, p);
    }
  }

  lemma RebuiltCollects(runs: seq<Run>, cap: nat)
    requires cap > 1 && Ordered(runs) && |runs| <= MAX_RUNS
    ensures Collected(Rebuild(Merged(runs), cap)) == Some(Merged(runs))
  {
    hide Merged, Rebuild, Collect;
    MergedOrdered(runs);
    RebuildOk(Merged(runs), cap, 0);
  }

  /** What was changed once can be changed again: the new tree has at most one run more. */
  lemma AssignCollects(root: Node, l: nat, p: nat, cap: nat)
    requires cap > 1 && TreeOk(root, 0, LIMIT) && l < LIMIT && Assign(root, l, p, cap).Some?
    ensures var runs' := Collected(Assign(root, l, p, cap).value); runs'.Some? && |runs'.value| <= |Collected(root).value| + 1
  {
    hide TreeOk, Ordered, Merged, Rebuild, Collected;
    CollectedOk(root, l);
    InsertedOk(Collected(root).value, l, p, l);
    var r := Inserted(Collected(root).value, l, p).value;
    RebuiltCollects(r, cap);
    MergedOrdered(r);
  }

  lemma TruncateCollects(root: Node, keep: nat, cap: nat)
    requires cap > 1 && TreeOk(root, 0, LIMIT)
    ensures Truncate(root, keep, cap).Some? <==> Collected(root).Some?
    ensures Collected(root).Some? ==> var runs' := Collected(Truncate(root, keep, cap).value.0); runs'.Some? && |runs'.value| <= |Collected(root).value|
  {
    hide TreeOk, Ordered, Merged, Rebuild, Collect, Checked, Kept, RunsIn;
    if Collected(root).Some? {
      var runs := Collected(root).value;
      CollectedOk(root, 0);
      OrderedIn(runs);
      KeptOrdered(runs, keep, LIMIT);
      RebuiltCollects(Kept(runs, keep), cap);
      MergedOrdered(Kept(runs, keep));
    }
  }

  /** A successful assign changes the map at the assigned block only, which was a hole. */
  lemma AssignOk(root: Node, l: nat, p: nat, cap: nat, x: nat)
    requires cap > 1 && TreeOk(root, 0, LIMIT) && l < LIMIT && Assign(root, l, p, cap).Some?
    ensures var root' := Assign(root, l, p, cap).value;
            TreeOk(root', 0, LIMIT) && Map(root, l) == 0 && Map(root', x) == if x == l then p else Map(root, x)
  {
    hide TreeOk, Ordered, RunsMap, Map, Merged, Rebuild, Collected, Inserted;
    CollectedOk(root, x);
    CollectedOk(root, l);
    var runs := Collected(root).value;
    InsertedOk(runs, l, p, x);
    var r := Inserted(runs, l, p).value;
    MergedOrdered(r);
    MergedMap(r, x);
    RebuildOk(Merged(r), cap, x);
  }

  /** What truncating to `keep` blocks leaves of one run, and what it gives back. */
  function KeepOf(r: Run, keep: nat): seq<Run> {
    if r.l + r.n <= keep then [r] else if r.l >= keep then [] else [r.(n := keep - r.l)]
  }

  /** How many blocks of the run stay. */
  function Cut(r: Run, keep: nat): (c: nat)
    ensures c <= r.n
  {
    if r.l + r.n <= keep then r.n else if r.l >= keep then 0 else keep - r.l
  }

  function FreedOf(r: Run, keep: nat): seq<nat> { seq(r.n - Cut(r, keep), i requires 0 <= i => r.p + Cut(r, keep) + i) }

  ghost function FileBlocksOf(r: Run, keep: nat): seq<nat> { seq(r.n - Cut(r, keep), i requires 0 <= i => r.l + Cut(r, keep) + i) }

  function Kept(runs: seq<Run>, keep: nat): (r: seq<Run>)
    ensures |r| <= |runs|
    decreases |runs|
  {
    if runs == [] then [] else Kept(runs[..|runs| - 1], keep) + KeepOf(runs[|runs| - 1], keep)
  }

  function Freed(runs: seq<Run>, keep: nat): seq<nat>
    decreases |runs|
  {
    if runs == [] then [] else Freed(runs[..|runs| - 1], keep) + FreedOf(runs[|runs| - 1], keep)
  }

  /** The file blocks that the blocks given back stood for, in the same order. */
  ghost function FileBlocks(runs: seq<Run>, keep: nat): seq<nat>
    decreases |runs|
  {
    if runs == [] then [] else FileBlocks(runs[..|runs| - 1], keep) + FileBlocksOf(runs[|runs| - 1], keep)
  }

  /** `ext4_extent_truncate_data`: the new tree and the blocks given back. */
  function Truncate(root: Node, keep: nat, cap: nat): Option<(Node, seq<nat>)>
    requires cap > 1
  {
    match Collected(root)
    case None => None
    case Some(runs) => Some((Rebuild(Merged(Kept(runs, keep)), cap), Freed(runs, keep)))
  }

  lemma {:induction false} KeptOrdered(runs: seq<Run>, keep: nat, hi: nat)
    requires Ordered(runs) && RunsIn(runs, 0, hi)
    ensures Ordered(Kept(runs, keep)) && RunsIn(Kept(runs, keep), 0, hi)
    decreases |runs|
  {
    if runs != [] {
      OrderedFront(runs);
      var front, r := runs[..|runs| - 1], runs[|runs| - 1];
      assert RunsIn(front, 0, r.l);
      KeptOrdered(front, keep, r.l);
      OrderedSnoc(Kept(front, keep), KeepOf(r, keep), r.l, hi);
    }
  }

  lemma OrderedSnoc(a: seq<Run>, b: seq<Run>, m: nat, hi: nat)
    requires Ordered(a) && RunsIn(a, 0, m) && |b| <= 1 && m <= hi
    requires b != [] ==> RunOk(b[0]) && m <= b[0].l && b[0].l + b[0].n <= hi
    ensures Ordered(a + b) && RunsIn(a + b, 0, hi)
  {
  }

  lemma FrontBelow(runs: seq<Run>)
    requires Ordered(runs) && runs != []
    ensures var front, r := runs[..|runs| - 1], runs[|runs| - 1];
            runs == front + [r] && Ordered(front) && RunsIn(front, 0, r.l) && RunOk(r)
  {
  }

  lemma {:induction false} KeptMap(runs: seq<Run>, keep: nat, x: nat)
    requires Ordered(runs)
    ensures RunsMap(Kept(runs, keep), x) == if x < keep then RunsMap(runs, x) else 0
    decreases |runs|
  {
    hide Ordered, RunsMap, RunsIn;
    if runs == [] {
      NoRun(runs, x);
    } else {
      FrontBelow(runs);
      var front, r := runs[..|runs| - 1], runs[|runs| - 1];
      KeptMap(front, keep, x);
      KeptOrdered(front, keep, r.l);
      var k := Kept(front, keep);
      if x >= r.l {
        NoneHas(front, 0, r.l, x);
        NoneHas(k, 0, r.l, x);
        NoRun(front, x);
      }
      RunsMapSnoc(front, r, x);
      if r.l < keep {
        RunsMapSnoc(k, KeepOf(r, keep)[0], x);
      } else {
        assert k + [] == k;
      }
    }
  }

  /** The blocks given back are those of the mapped file blocks from `keep` on, each once, in order. */
  lemma {:induction false} FreedInOrder(runs: seq<Run>, keep: nat, hi: nat)
    requires Ordered(runs) && RunsIn(runs, 0, hi)
    ensures var f, b := Freed(runs, keep), FileBlocks(runs, keep);
            && |f| == |b|
            && (forall i :: 0 <= i < |b| ==> keep <= b[i] < hi && f[i] == RunsMap(runs, b[i]) > 0)
            && (forall i, j :: 0 <= i < j < |b| ==> b[i] < b[j])
    decreases |runs|
  {
    hide Ordered, RunsMap, RunsIn, RunOk;
    if runs != [] {
      FrontBelow(runs);
      var front, r := runs[..|runs| - 1], runs[|runs| - 1];
      FreedInOrder(front, keep, r.l);
      LastEnd(runs, hi);
      var f, b := Freed(front, keep), FileBlocks(front, keep);
      var f', b' := FreedOf(r, keep), FileBlocksOf(r, keep);
      forall i | 0 <= i < |b| ensures RunsMap(runs, b[i]) == RunsMap(front, b[i]) {
        RunsMapSnoc(front, r, b[i]);
      }
      forall i | 0 <= i < |b'| ensures keep <= b'[i] < hi && r.l <= b'[i] && f'[i] == RunsMap(runs, b'[i]) > 0 {
        NoneHas(front, 0, r.l, b'[i]);
        RunsMapSnoc(front, r, b'[i]);
      }
    }
  }

  lemma LastEnd(runs: seq<Run>, hi: nat)
    requires Ordered(runs) && runs != [] && RunsIn(runs, 0, hi)
    ensures var r := runs[|runs| - 1]; r.l + r.n <= hi && 0 < r.n && r.p > 0
  {
  }

  lemma {:induction false} FreedAll(runs: seq<Run>, keep: nat, x: nat)
    requires Ordered(runs) && keep <= x && RunsMap(runs, x) != 0
    ensures x in FileBlocks(runs, keep)
    decreases |runs|
  {
    hide Ordered, RunsMap, RunsIn;
    if runs == [] {
      NoRun(runs, x);
    } else {
      FrontBelow(runs);
      var front, r := runs[..|runs| - 1], runs[|runs| - 1];
      RunsMapSnoc(front, r, x);
      if Has(r, x) {
        assert FileBlocksOf(r, keep)[x - r.l - Cut(r, keep)] == x;
      } else {
        FreedAll(front, keep, x);
      }
    }
  }

  ghost predicate Distinct(s: seq<nat>) { forall i, j :: 0 <= i < j < |s| ==> s[i] != s[j] }

  /** No two file blocks share a disk block. */
  ghost predicate Unshared(root: Node) {
    forall x, y :: Map(root, x) == Map(root, y) != 0 ==> x == y
  }

  /** Truncation keeps the map below `keep`, empties it above, and gives back exactly the
      disk blocks that were mapped above, no block twice. */
  lemma TruncateOk(root: Node, keep: nat, cap: nat, x: nat)
    requires cap > 1 && TreeOk(root, 0, LIMIT) && Truncate(root, keep, cap).Some?
    ensures var (root', freed) := Truncate(root, keep, cap).value;
            && TreeOk(root', 0, LIMIT)
            && Map(root', x) == (if x < keep then Map(root, x) else 0)
            && (x >= keep && Map(root, x) != 0 ==> Map(root, x) in freed)
  {
    hide TreeOk, Ordered, RunsMap, Map, Merged, Rebuild, Collected, Kept, Freed, RunsIn;
    CollectedOk(root, x);
    var runs := Collected(root).value;
    OrderedIn(runs);
    KeptOrdered(runs, keep, LIMIT);
    KeptMap(runs, keep, x);
    var r := Kept(runs, keep);
    MergedOrdered(r);
    MergedMap(r, x);
    RebuildOk(Merged(r), cap, x);
    FreedInOrder(runs, keep, LIMIT);
    if x >= keep && Map(root, x) != 0 {
      FreedAll(runs, keep, x);
    }
  }

  lemma OrderedIn(runs: seq<Run>)
    requires Ordered(runs)
    ensures RunsIn(runs, 0, LIMIT)
  {
  }

  ghost predicate Dropped(root: Node, keep: nat, b: nat) { exists x :: keep <= x && Map(root, x) == b != 0 }

  /** Nothing else is given back, and nothing twice. */
  lemma TruncateFrees(root: Node, keep: nat, cap: nat)
    requires cap > 1 && TreeOk(root, 0, LIMIT) && Truncate(root, keep, cap).Some?
    ensures var freed := Truncate(root, keep, cap).value.1;
            && (forall b :: b in freed ==> Dropped(root, keep, b))
            && (Unshared(root) ==> Distinct(freed))
  {
    hide TreeOk, Ordered, RunsMap, Map, Merged, Rebuild, Collected, Kept, Freed, RunsIn;
    var runs := Collected(root).value;
    CollectedOk(root, 0);
    OrderedIn(runs);
    FreedInOrder(runs, keep, LIMIT);
    var f, b := Freed(runs, keep), FileBlocks(runs, keep);
    forall i | 0 <= i < |f| ensures Map(root, b[i]) == f[i] {
      CollectedOk(root, b[i]);
    }
  }

  /** How many blocks a file of `size` bytes keeps, in the widths the code computes it in. */
  function KeepBlocks(size: nat, bs: nat): nat
    requires bs > 0
  {
    Wrap32((size + bs - 1) % 0x1_0000_0000_0000_0000 / bs)
  }

  /** The blocks kept are the blocks with a byte below `size`, for every size up to
      `0xFFFFFFFF` blocks and for no larger one. */
  lemma KeepIff(size: nat, bs: nat)
    requires 1024 <= bs <= 4096 && size < 0x1_0000_0000_0000_0000
    ensures (forall l: nat :: l <= LIMIT ==> (l < KeepBlocks(size, bs) <==> l * bs < size)) <==> size <= LIMIT * bs
  {
    if size <= LIMIT * bs {
      var q := (size + bs - 1) / bs;
      Ceiling(size, bs, q);
      if q > LIMIT {
        Grow(LIMIT + 1, q, bs);
        assert false;
      }
      assert KeepBlocks(size, bs) == q;
      forall l: nat ensures l < q <==> l * bs < size {
        Below(l, q, bs, size);
      }
    } else {
      assert KeepBlocks(size, bs) <= LIMIT;
      assert LIMIT * bs < size;
    }
  }

  lemma Ceiling(size: nat, bs: nat, q: nat)
    requires bs > 0 && q == (size + bs - 1) / bs
    ensures q * bs <= size + bs - 1 < q * bs + bs
  {
    assert size + bs - 1 == q * bs + (size + bs - 1) % bs;
  }

  lemma Grow(a: nat, b: nat, m: nat)
    requires a <= b
    ensures a * m <= b * m
  {
    assert (b - a) * m >= 0;
  }

  lemma Below(l: nat, q: nat, bs: nat, size: nat)
    requires bs > 0 && q * bs <= size + bs - 1 < q * bs + bs
    ensures l < q <==> l * bs < size
  {
    if l < q {
      Grow(l + 1, q, bs);
    } else {
      Grow(q, l, bs);
    }
  }
}
