/** The extent tree of kernel/ext4.c as blocks of a volume: rebuilding it writes new blocks, stores
    the new root in the inode and only then gives the old ones back. */
module ExtentDisk {
  import opened Extents
  import opened Pigeonhole
  import ExtentTree

  /** An index entry on disk, and a node. */
  datatype Ref = Ref(first: nat, blk: nat)
  datatype Stored = StoredLeaf(exts: seq<Ext>) | StoredIndex(refs: seq<Ref>)

  type Disk = map<nat, Stored>

  // ---- the tree that a root stands for, and the blocks it takes ----

  ghost predicate Rep(disk: Disk, d: Stored, n: Node)
    decreases n
  {
    match n
    case Leaf(exts) => d == StoredLeaf(exts)
    case Index(kids) => d.StoredIndex? && |d.refs| == |kids| && forall i :: 0 <= i < |kids| ==> KidRep(disk, d.refs[i], kids[i])
  }

  ghost predicate KidRep(disk: Disk, r: Ref, k: Kid)
    decreases k
  {
    r.first == k.first && r.blk in disk && Rep(disk, disk[r.blk], k.sub)
  }

  ghost predicate LevelRep(disk: Disk, refs: seq<Ref>, kids: seq<Kid>, i: nat) {
    i <= |refs| == |kids| && forall j :: i <= j < |kids| ==> KidRep(disk, refs[j], kids[j])
  }

  /** The blocks below a node, in the order in which `ext4_extent_free_tree_node` frees them. */
  ghost function BlocksOf(disk: Disk, d: Stored, n: Node): seq<nat>
    requires Rep(disk, d, n)
    decreases n, if n.Index? then |n.kids| + 1 else 0
  {
    match n
    case Leaf(_) => []
    case Index(kids) => Forest(disk, d.refs, n, 0)
  }

  /** The blocks of the entries from `i` on. */
  ghost function Forest(disk: Disk, refs: seq<Ref>, n: Node, i: nat): seq<nat>
    requires n.Index? && LevelRep(disk, refs, n.kids, i)
    decreases n, |n.kids| - i
  {
    if i == |n.kids| then [] else OfKid(disk, refs[i], n, i) + Forest(disk, refs, n, i + 1)
  }

  ghost function OfKid(disk: Disk, r: Ref, n: Node, i: nat): seq<nat>
    requires n.Index? && i < |n.kids| && KidRep(disk, r, n.kids[i])
    decreases n, 0
  {
    BlocksOf(disk, disk[r.blk], n.kids[i].sub) + [r.blk]
  }

  /** How many blocks a tree takes. */
  function Count(n: Node): nat
    decreases n, if n.Index? then |n.kids| + 1 else 0
  {
    match n
    case Leaf(_) => 0
    case Index(kids) => CountFrom(n, 0)
  }

  function CountFrom(n: Node, i: nat): nat
    requires n.Index? && i <= |n.kids|
    decreases n, |n.kids| - i
  {
    if i == |n.kids| then 0 else Count(n.kids[i].sub) + 1 + CountFrom(n, i + 1)
  }

  lemma {:induction false} BlocksCount(disk: Disk, d: Stored, n: Node)
    requires Rep(disk, d, n)
    ensures |BlocksOf(disk, d, n)| == Count(n)
    decreases n, if n.Index? then |n.kids| + 1 else 0
  {
    if n.Index? {
      ForestCount(disk, d.refs, n, 0);
    }
  }

  lemma {:induction false} ForestCount(disk: Disk, refs: seq<Ref>, n: Node, i: nat)
    requires n.Index? && LevelRep(disk, refs, n.kids, i)
    ensures |Forest(disk, refs, n, i)| == CountFrom(n, i)
    decreases n, |n.kids| - i
  {
    if i < |n.kids| {
      BlocksCount(disk, disk[refs[i].blk], n.kids[i].sub);
      ForestCount(disk, refs, n, i + 1);
    }
  }

  /** Writing a block that a tree does not use leaves the tree alone. */
  lemma {:induction false} RepFrame(disk: Disk, d: Stored, n: Node, b: nat, x: Stored)
    requires Rep(disk, d, n) && b !in BlocksOf(disk, d, n)
    ensures Rep(disk[b := x], d, n) && BlocksOf(disk[b := x], d, n) == BlocksOf(disk, d, n)
    decreases n, if n.Index? then |n.kids| + 1 else 0
  {
    if n.Index? {
      ForestFrame(disk, d.refs, n, 0, b, x);
    }
  }

  lemma {:induction false} ForestFrame(disk: Disk, refs: seq<Ref>, n: Node, i: nat, b: nat, x: Stored)
    requires n.Index? && LevelRep(disk, refs, n.kids, i) && b !in Forest(disk, refs, n, i)
    ensures LevelRep(disk[b := x], refs, n.kids, i) && Forest(disk[b := x], refs, n, i) == Forest(disk, refs, n, i)
    decreases n, |n.kids| - i
  {
    if i < |n.kids| {
      assert refs[i].blk in OfKid(disk, refs[i], n, i);
      RepFrame(disk, disk[refs[i].blk], n.kids[i].sub, b, x);
      ForestFrame(disk, refs, n, i + 1, b, x);
    }
  }

  /** A level with one more entry behind it. */
  lemma {:induction false} ForestMore(disk: Disk, refs: seq<Ref>, kids: seq<Kid>, r: Ref, k: Kid, i: nat)
    requires LevelRep(disk, refs, kids, i) && KidRep(disk, r, k)
    ensures LevelRep(disk, refs + [r], kids + [k], i)
    ensures Forest(disk, refs + [r], Index(kids + [k]), i) == Forest(disk, refs, Index(kids), i) + BlocksOf(disk, disk[r.blk], k.sub) + [r.blk]
    decreases |kids| - i
  {
    var rs, n := refs + [r], Index(kids + [k]);
    assert forall j :: i <= j < |kids| ==> rs[j] == refs[j] && n.kids[j] == kids[j];
    assert rs[|kids|] == r && n.kids[|kids|] == k;
    if i < |kids| {
      ForestMore(disk, refs, kids, r, k, i + 1);
      assert OfKid(disk, rs[i], n, i) == OfKid(disk, refs[i], Index(kids), i);
    } else {
      assert Forest(disk, rs, n, i) == OfKid(disk, r, n, i) + Forest(disk, rs, n, i + 1);
      assert Forest(disk, rs, n, i + 1) == [];
    }
  }

  /** The entries from `i` on are those up to `j` and those from `j` on. */
  lemma {:induction false} ForestSplit(disk: Disk, refs: seq<Ref>, kids: seq<Kid>, i: nat, j: nat)
    requires LevelRep(disk, refs, kids, i) && i <= j <= |kids|
    ensures LevelRep(disk, refs, kids, j) && LevelRep(disk, refs[i..j], kids[i..j], 0)
    ensures Forest(disk, refs, Index(kids), i) == Forest(disk, refs[i..j], Index(kids[i..j]), 0) + Forest(disk, refs, Index(kids), j)
    decreases j
  {
    if i == j {
      assert refs[i..j] == [] && kids[i..j] == [];
    } else {
      ForestSplit(disk, refs, kids, i, j - 1);
      ForestMore(disk, refs[i..j - 1], kids[i..j - 1], refs[j - 1], kids[j - 1], 0);
      assert refs[i..j] == refs[i..j - 1] + [refs[j - 1]] && kids[i..j] == kids[i..j - 1] + [kids[j - 1]];
      assert Forest(disk, refs, Index(kids), j - 1) == OfKid(disk, refs[j - 1], Index(kids), j - 1) + Forest(disk, refs, Index(kids), j);
    }
  }

  // ---- how many nodes a rebuilt tree has ----

  lemma {:induction false} CountMore(kids: seq<Kid>, k: Kid, i: nat)
    requires i <= |kids|
    ensures CountFrom(Index(kids + [k]), i) == CountFrom(Index(kids), i) + Count(k.sub) + 1
    decreases |kids| - i
  {
    var n := Index(kids + [k]);
    assert forall j :: 0 <= j < |kids| ==> n.kids[j] == kids[j];
    if i < |kids| {
      CountMore(kids, k, i + 1);
    } else {
      assert n.kids[i] == k && CountFrom(n, i + 1) == 0;
    }
  }

  /** The number of nodes of a level and below it. */
  function Nodes(kids: seq<Kid>): nat { CountFrom(Index(kids), 0) }

  lemma {:induction false} NodesAppend(x: seq<Kid>, y: seq<Kid>)
    ensures Nodes(x + y) == Nodes(x) + Nodes(y)
    decreases |y|
  {
    if y == [] {
      assert x + y == x;
    } else {
      var front, k := y[..|y| - 1], y[|y| - 1];
      NodesAppend(x, front);
      CountMore(front, k, 0);
      CountMore(x + front, k, 0);
      assert x + y == x + front + [k] && y == front + [k];
    }
  }

  lemma NodesOne(k: Kid)
    ensures Nodes([k]) == Count(k.sub) + 1
  {
    CountMore([], k, 0);
    assert [] + [k] == [k];
  }

  lemma {:induction false} LeavesNodes(runs: seq<Run>, cap: nat)
    requires cap > 1
    ensures Nodes(Leaves(runs, cap)) == |Leaves(runs, cap)| <= (|runs| + 1) / 2
    ensures runs != [] ==> Leaves(runs, cap) != []
    decreases |runs|
  {
    if runs != [] {
      var c := Least(cap, |runs|);
      var k := Kid(runs[0].l, Leaf(ToExts(runs[..c])));
      LeavesNodes(runs[c..], cap);
      NodesAppend([k], Leaves(runs[c..], cap));
      NodesOne(k);
    }
  }

  /** A level up adds its own nodes to those below, and has at most half as many. */
  lemma {:induction false} UpNodes(kids: seq<Kid>, cap: nat)
    requires cap > 1
    ensures Nodes(Up(kids, cap)) == Nodes(kids) + |Up(kids, cap)| && |Up(kids, cap)| <= (|kids| + 1) / 2
    decreases |kids|
  {
    if kids != [] {
      var c := Least(cap, |kids|);
      var k := Kid(kids[0].first, Index(kids[..c]));
      UpNodes(kids[c..], cap);
      NodesAppend([k], Up(kids[c..], cap));
      NodesOne(k);
      NodesAppend(kids[..c], kids[c..]);
      assert kids[..c] + kids[c..] == kids;
    }
  }

  lemma {:induction false} LevelsNodes(kids: seq<Kid>, cap: nat)
    requires cap > 1
    ensures Nodes(kids) <= Count(Levels(kids, cap)) <= Nodes(kids) + 2 * |kids|
    decreases |kids|
  {
    if |kids| > ROOT_CAP {
      UpNodes(kids, cap);
      LevelsNodes(Up(kids, cap), cap);
    }
  }

  /** The 512 entries of the code's node tables are enough for the 256 runs a file may have. */
  lemma NodesFit(runs: seq<Run>, cap: nat)
    requires cap > 1 && |runs| <= MAX_RUNS
    ensures Count(Extents.Rebuild(runs, cap)) < 512
  {
    if |runs| > ROOT_CAP {
      LeavesNodes(runs, cap);
      LevelsNodes(Leaves(runs, cap), cap);
    }
  }

  // ---- the volume ----

  ghost function Elems(s: seq<nat>): set<nat> { set i | 0 <= i < |s| :: s[i] }

  /** The blocks that can be handed out. */
  ghost function Free(first: nat, end: nat, used: set<nat>): set<nat> {
    set b: nat | first <= b < end && b !in used
  }

  /** Since `disk0` and `used0` exactly the blocks `news`, none of which was in use, were handed
      out and written. */
  ghost predicate Built(first: nat, end: nat, disk0: Disk, used0: set<nat>, disk: Disk, used: set<nat>, news: seq<nat>) {
    && DistinctSeq(news) && used == used0 + Elems(news)
    && (forall i :: 0 <= i < |news| ==> news[i] in Free(first, end, used0))
    && (forall b :: b in disk0 && b !in Elems(news) ==> b in disk && disk[b] == disk0[b])
  }

  lemma BuiltMore(first: nat, end: nat, disk0: Disk, used0: set<nat>, disk: Disk, used: set<nat>, news: seq<nat>, b: nat, x: Stored)
    requires Built(first, end, disk0, used0, disk, used, news) && b in Free(first, end, used)
    ensures Built(first, end, disk0, used0, disk[b := x], used + {b}, news + [b])
  {
    assert Elems(news + [b]) == Elems(news) + {b} by {
      assert (news + [b])[|news|] == b;
      forall y | y in Elems(news) ensures y in Elems(news + [b]) {
        var i :| 0 <= i < |news| && news[i] == y;
        assert (news + [b])[i] == y;
      }
    }
    assert b !in Elems(news);
  }

  lemma BuiltNothing(first: nat, end: nat, disk: Disk, used: set<nat>)
    ensures Built(first, end, disk, used, disk, used, [])
  {
  }

  lemma {:induction false} ElemsSize(s: seq<nat>)
    requires DistinctSeq(s)
    ensures |Elems(s)| == |s|
    decreases |s|
  {
    if s != [] {
      var front, x := s[..|s| - 1], s[|s| - 1];
      ElemsSize(front);
      assert Elems(s) == Elems(front) + {x};
    } else {
      assert Elems(s) == {};
    }
  }

  /** There were enough blocks, and if none is left there were no more. */
  lemma BuiltSize(first: nat, end: nat, disk0: Disk, used0: set<nat>, disk: Disk, used: set<nat>, news: seq<nat>)
    requires Built(first, end, disk0, used0, disk, used, news)
    ensures |news| <= |Free(first, end, used0)|
    ensures Free(first, end, used) == {} ==> |news| == |Free(first, end, used0)|
  {
    ElemsSize(news);
    SubsetSize(Elems(news), Free(first, end, used0));
    if Free(first, end, used) == {} {
      forall b | b in Free(first, end, used0) ensures b in Elems(news) {
        assert b !in Free(first, end, used);
      }
      assert Elems(news) == Free(first, end, used0);
    }
  }

  lemma SubsetSize(a: set<nat>, b: set<nat>)
    requires a <= b
    ensures |a| <= |b|
  {
    assert a + (b - a) == b;
  }

  /** The tree takes exactly these blocks, each once. */
  ghost predicate Takes(blocks: seq<nat>, news: seq<nat>) { multiset(blocks) == multiset(news) }

  lemma TakesSame(blocks: seq<nat>, news: seq<nat>)
    requires Takes(blocks, news) && DistinctSeq(news)
    ensures Elems(blocks) == Elems(news) && DistinctSeq(blocks) && |blocks| == |news|
  {
    assert |multiset(blocks)| == |blocks| && |multiset(news)| == |news|;
    forall b ensures b in Elems(blocks) <==> b in Elems(news) {
      assert b in blocks <==> b in multiset(blocks);
      assert b in news <==> b in multiset(news);
      assert b in Elems(blocks) <==> b in blocks;
      assert b in Elems(news) <==> b in news;
    }
    forall i, j | 0 <= i < j < |blocks| ensures blocks[i] != blocks[j] {
      if blocks[i] == blocks[j] {
        Twice(blocks, i, j);
        OnlyOnce(news, blocks[i]);
      }
    }
  }

  lemma Twice(s: seq<nat>, i: nat, j: nat)
    requires i < j < |s| && s[i] == s[j]
    ensures multiset(s)[s[i]] >= 2
  {
    assert s == s[..j] + [s[j]] + s[j + 1..];
    assert s[i] in s[..j];
  }

  lemma {:induction false} OnlyOnce(s: seq<nat>, x: nat)
    requires DistinctSeq(s)
    ensures multiset(s)[x] <= 1
    decreases |s|
  {
    if s != [] {
      var front, y := s[..|s| - 1], s[|s| - 1];
      OnlyOnce(front, x);
      assert s == front + [y];
      assert y !in multiset(front) by { assert y !in front; }
    }
  }

  // ---- building a level ----

  /** A new level `next` is being built over the level `cur`, of which the entries from `i` on
      are still without a parent; together they take the new blocks. */
  ghost predicate Stage(disk: Disk, nextRefs: seq<Ref>, next: seq<Kid>, curRefs: seq<Ref>, cur: seq<Kid>, i: nat, news: seq<nat>) {
    && LevelRep(disk, nextRefs, next, 0) && LevelRep(disk, curRefs, cur, i)
    && Takes(Forest(disk, nextRefs, Index(next), 0) + Forest(disk, curRefs, Index(cur), i), news)
  }

  lemma NotThere(blocks: seq<nat>, more: seq<nat>, news: seq<nat>, b: nat)
    requires Takes(blocks + more, news) && b !in news
    ensures b !in blocks && b !in more
  {
    assert b !in multiset(news);
    assert b in blocks || b in more ==> b in multiset(blocks + more);
  }

  /** Writing a block that is not among them changes nothing. */
  lemma StageFrame(disk: Disk, nextRefs: seq<Ref>, next: seq<Kid>, curRefs: seq<Ref>, cur: seq<Kid>, i: nat, news: seq<nat>, b: nat, x: Stored)
    requires Stage(disk, nextRefs, next, curRefs, cur, i, news) && b !in news
    ensures Stage(disk[b := x], nextRefs, next, curRefs, cur, i, news)
  {
    hide LevelRep, Forest;
    NotThere(Forest(disk, nextRefs, Index(next), 0), Forest(disk, curRefs, Index(cur), i), news, b);
    ForestFrame(disk, nextRefs, Index(next), 0, b, x);
    ForestFrame(disk, curRefs, Index(cur), i, b, x);
  }

  /** A leaf in block `b` joins the level. */
  lemma StageLeaf(disk: Disk, refs: seq<Ref>, kids: seq<Kid>, news: seq<nat>, b: nat, first: nat, exts: seq<Ext>)
    requires Stage(disk, refs, kids, [], [], 0, news) && b !in news
    ensures Stage(disk[b := StoredLeaf(exts)], refs + [Ref(first, b)], kids + [Kid(first, Leaf(exts))], [], [], 0, news + [b])
  {
    var x := StoredLeaf(exts);
    StageFrame(disk, refs, kids, [], [], 0, news, b, x);
    ForestMore(disk[b := x], refs, kids, Ref(first, b), Kid(first, Leaf(exts)), 0);
    var f := Forest(disk[b := x], refs, Index(kids), 0);
    assert f + [] == f && f + [] + [b] + [] == f + [b];
  }

  /** A node in block `b` over the next `c` entries joins it. */
  lemma StageIndex(disk: Disk, nextRefs: seq<Ref>, next: seq<Kid>, curRefs: seq<Ref>, cur: seq<Kid>, i: nat, c: nat, news: seq<nat>, b: nat, first: nat)
    requires Stage(disk, nextRefs, next, curRefs, cur, i, news) && b !in news && i + c <= |cur| == |curRefs|
    ensures Stage(disk[b := StoredIndex(curRefs[i..i + c])], nextRefs + [Ref(first, b)], next + [Kid(first, Index(cur[i..i + c]))], curRefs, cur, i + c, news + [b])
  {
    hide Forest, LevelRep;
    var x := StoredIndex(curRefs[i..i + c]);
    var disk', r, k := disk[b := x], Ref(first, b), Kid(first, Index(cur[i..i + c]));
    StageFrame(disk, nextRefs, next, curRefs, cur, i, news, b, x);
    ForestSplit(disk', curRefs, cur, i, i + c);
    NewKid(disk', curRefs[i..i + c], cur[i..i + c], b, first);
    ForestMore(disk', nextRefs, next, r, k, 0);
    Regroup(Forest(disk', nextRefs, Index(next), 0), Forest(disk', curRefs[i..i + c], Index(cur[i..i + c]), 0), Forest(disk', curRefs, Index(cur), i + c), b);
  }

  lemma NewKid(disk: Disk, refs: seq<Ref>, kids: seq<Kid>, b: nat, first: nat)
    requires b in disk && disk[b] == StoredIndex(refs) && LevelRep(disk, refs, kids, 0)
    ensures KidRep(disk, Ref(first, b), Kid(first, Index(kids))) && Rep(disk, disk[b], Index(kids))
    ensures BlocksOf(disk, disk[b], Index(kids)) == Forest(disk, refs, Index(kids), 0)
  {
  }

  lemma Regroup(next: seq<nat>, mid: seq<nat>, rest: seq<nat>, b: nat)
    ensures multiset(next + mid + [b] + rest) == multiset(next + (mid + rest)) + multiset([b])
  {
  }

  lemma LastLevel(disk: Disk, refs: seq<Ref>, kids: seq<Kid>, news: seq<nat>)
    requires Stage(disk, refs, kids, [], [], 0, news)
    ensures Rep(disk, StoredIndex(refs), Index(kids)) && Takes(BlocksOf(disk, StoredIndex(refs), Index(kids)), news) && |news| == Nodes(kids)
  {
    var f := Forest(disk, refs, Index(kids), 0);
    assert f + [] == f;
    ForestCount(disk, refs, Index(kids), 0);
    assert |multiset(f)| == |f| && |multiset(news)| == |news|;
  }

  lemma ForestEnd(disk: Disk, refs: seq<Ref>, kids: seq<Kid>)
    requires LevelRep(disk, refs, kids, |kids|)
    ensures Forest(disk, refs, Index(kids), |kids|) == [] && |refs| == |kids|
  {
  }

  /** How many blocks a level under construction has taken so far. */
  lemma StageCount(disk: Disk, nextRefs: seq<Ref>, next: seq<Kid>, curRefs: seq<Ref>, cur: seq<Kid>, i: nat, news: seq<nat>)
    requires Stage(disk, nextRefs, next, curRefs, cur, i, news) && i <= |cur|
    ensures |news| == Nodes(next) + Nodes(cur[i..])
  {
    hide Forest, LevelRep, CountFrom;
    var f, g := Forest(disk, nextRefs, Index(next), 0), Forest(disk, curRefs, Index(cur), i);
    ForestSplit(disk, curRefs, cur, i, |cur|);
    ForestEnd(disk, curRefs, cur);
    assert cur[i..|cur|] == cur[i..];
    ForestCount(disk, nextRefs, Index(next), 0);
    ForestCount(disk, curRefs[i..|cur|], Index(cur[i..]), 0);
    assert |multiset(f + g)| == |f + g| && |multiset(news)| == |news|;
  }

  /** One level is done and becomes the one to build on. */
  lemma StageTurn(disk: Disk, nextRefs: seq<Ref>, next: seq<Kid>, curRefs: seq<Ref>, cur: seq<Kid>, news: seq<nat>)
    requires Stage(disk, nextRefs, next, curRefs, cur, |cur|, news)
    ensures Stage(disk, nextRefs, next, [], [], 0, news) && Stage(disk, [], [], nextRefs, next, 0, news)
  {
    var f := Forest(disk, nextRefs, Index(next), 0);
    assert f + [] == f && [] + f == f;
    assert Forest(disk, curRefs, Index(cur), |cur|) == [];
  }

  // ---- a file on the volume ----

  /** Every block the file maps is in use, holds no node of the tree, and is mapped once. */
  ghost predicate DataOk(tree: Node, used: set<nat>, own: set<nat>) {
    Unshared(tree) && forall x: nat :: Map(tree, x) != 0 ==> Map(tree, x) in used && Map(tree, x) !in own
  }

  lemma AssignedData(t: Node, t': Node, l: nat, p: nat, used: set<nat>, own: set<nat>, used': set<nat>, own': set<nat>)
    requires DataOk(t, used, own) && (forall x: nat :: Map(t', x) == if x == l then p else Map(t, x))
    requires p in used && p !in own && (forall x: nat :: Map(t, x) != p) && own' !! used && used' == used - own + own'
    ensures DataOk(t', used', own')
  {
    hide Map;
  }

  lemma TruncatedData(t: Node, t': Node, keep: nat, cap: nat, freed: seq<nat>, used: set<nat>, own: set<nat>, used': set<nat>, own': set<nat>)
    requires cap > 1 && TreeOk(t, 0, LIMIT) && Truncate(t, keep, cap) == Some((t', freed)) && DataOk(t, used, own)
    requires own' !! (used - Elems(freed)) && used' == used - Elems(freed) - own + own'
    ensures TreeOk(t', 0, LIMIT) && DataOk(t', used', own') && forall x: nat :: Map(t', x) == if x < keep then Map(t, x) else 0
  {
    hide TreeOk, Map, Truncate;
    TruncateOk(t, keep, cap, 0);
    forall x: nat
      ensures Map(t', x) == if x < keep then Map(t, x) else 0
      ensures Map(t', x) != 0 ==> Map(t', x) in used' && Map(t', x) !in own'
    {
      TruncateOk(t, keep, cap, x);
      if x < keep && Map(t, x) != 0 {
        KeptIsNotFreed(t, keep, cap, x);
        ElemsHas(freed, Map(t, x));
      }
    }
  }

  /** Blocks given back while the file maps them. */
  lemma Stranded(t: Node, keep: nat, cap: nat, freed: seq<nat>, used: set<nat>, own: set<nat>)
    requires cap > 1 && TreeOk(t, 0, LIMIT) && Truncate(t, keep, cap).Some? && Truncate(t, keep, cap).value.1 == freed && DataOk(t, used, own)
    ensures Elems(freed) !! own && (DataOk(t, used - Elems(freed), own) <==> freed == [])
  {
    hide TreeOk, Map, Truncate;
    forall b | b in Elems(freed) ensures b !in own {
      ElemsHas(freed, b);
      FreedIsMapped(t, keep, cap, b);
    }
    if freed != [] {
      FreedIsMapped(t, keep, cap, freed[0]);
      ElemsHas(freed, freed[0]);
    } else {
      NoElems(used);
    }
  }

  class DiskFile {
    const first: nat
    const end: nat
    const cap: nat
    var disk: Disk
    var used: set<nat>
    var root: Stored
    ghost var tree: Node

    /** The root in the inode stands for `tree`, whose blocks are in use and different. */
    ghost predicate Stands()
      reads this
    {
      cap > 1 && Rep(disk, root, tree) && DistinctSeq(BlocksOf(disk, root, tree)) && Elems(BlocksOf(disk, root, tree)) <= used
    }

    ghost predicate Valid()
      reads this
    {
      Stands() && TreeOk(tree, 0, LIMIT)
    }

    ghost predicate Sound()
      reads this
    {
      Valid() && DataOk(tree, used, Own())
    }

    ghost function Own(): set<nat>
      requires Rep(disk, root, tree)
      reads this
    {
      Elems(BlocksOf(disk, root, tree))
    }

    constructor (first: nat, end: nat, cap: nat, used: set<nat>)
      requires cap > 1
      ensures Valid() && tree == Leaf([]) && this.first == first && this.end == end && this.cap == cap && this.used == used
    {
      this.first, this.end, this.cap, this.used := first, end, cap, used;
      disk, root, tree := map[], StoredLeaf([]), Leaf([]);
    }

    /** `ext4_alloc_block`, and the write of a node to the block. */
    method NewNode(x: Stored) returns (ok: bool, b: nat)
      modifies `disk, `used
      ensures ok <==> Free(first, end, old(used)) != {}
      ensures ok ==> b in Free(first, end, old(used)) && used == old(used) + {b} && disk == old(disk)[b := x]
      ensures !ok ==> used == old(used) && disk == old(disk)
    {
      b := first;
      while b < end && b in used
        invariant forall y :: first <= y < b ==> y in used
        decreases end - b
      {
        b := b + 1;
      }
      ok := b < end;
      if ok {
        assert b in Free(first, end, used);
        used, disk := used + {b}, disk[b := x];
      }
    }

    /** Other files take every block that is free. */
    method TakeRest()
      modifies `used
      ensures old(used) <= used && forall x :: first <= x < end ==> x in used
      ensures forall x :: x in used ==> x in old(used) || first <= x < end
    {
      var b := first;
      while b < end
        invariant (b <= end || b == first) && old(used) <= used && forall x :: first <= x < b ==> x in used
        invariant forall x :: x in used ==> x in old(used) || first <= x < end
      {
        used := used + {b};
        b := b + 1;
      }
    }

    /** `ext4_extent_free_new_nodes`. */
    method FreeNews(news: seq<nat>)
      modifies `used
      ensures used == old(used) - Elems(news)
    {
      var i := 0;
      assert Elems(news[..0]) == {};
      while i < |news|
        invariant i <= |news| && used == old(used) - Elems(news[..i])
      {
        assert Elems(news[..i + 1]) == Elems(news[..i]) + {news[i]};
        used := used - {news[i]};
        i := i + 1;
      }
      assert news[..i] == news;
    }

    /** The leaf level. */
    method LeafLevel(runs: seq<Run>) returns (ok: bool, refs: seq<Ref>, news: seq<nat>)
      requires cap > 1
      modifies `disk, `used
      ensures Built(first, end, old(disk), old(used), disk, used, news)
      ensures ok ==> Stage(disk, refs, Leaves(runs, cap), [], [], 0, news)
      ensures !ok ==> Free(first, end, used) == {} && |news| < Nodes(Leaves(runs, cap))
    {
      hide Stage, Built, Free, Leaves, Nodes;
      refs, news := [], [];
      ghost var kids: seq<Kid> := [];
      var i := 0;
      NothingYet(disk, [], []);
      BuiltNothing(first, end, disk, used);
      assert runs[0..] == runs && kids + Leaves(runs, cap) == Leaves(runs, cap);
      while i < |runs|
        invariant i <= |runs| && kids + Leaves(runs[i..], cap) == Leaves(runs, cap)
        invariant Stage(disk, refs, kids, [], [], 0, news) && Built(first, end, old(disk), old(used), disk, used, news)
      {
        var chunk := if |runs| - i > cap then cap else |runs| - i;
        LeavesStep(runs, cap, i, chunk);
        var exts := ToExts(runs[i..i + chunk]);
        ghost var k, rest := Kid(runs[i].l, Leaf(exts)), Leaves(runs[i + chunk..], cap);
        ExtentTree.Chain(kids, k, rest);
        ghost var disk0, used0 := disk, used;
        var done, b := NewNode(StoredLeaf(exts));
        if !done {
          StageCount(disk, refs, kids, [], [], 0, news);
          OneShort(kids, k, rest);
          return false, refs, news;
        }
        FreshBlock(first, end, old(disk), old(used), disk0, used0, news, b);
        BuiltMore(first, end, old(disk), old(used), disk0, used0, news, b, StoredLeaf(exts));
        StageLeaf(disk0, refs, kids, news, b, runs[i].l, exts);
        refs, news, kids := refs + [Ref(runs[i].l, b)], news + [b], kids + [k];
        i := i + chunk;
      }
      NoLeaves(cap);
      assert runs[i..] == [] && kids + [] == kids;
      ok := true;
    }

    /** One level of index nodes over the level `cur`. */
    method IndexLevel(curRefs: seq<Ref>, ghost cur: seq<Kid>, news0: seq<nat>, ghost disk0: Disk, ghost used0: set<nat>)
      returns (ok: bool, refs: seq<Ref>, news: seq<nat>)
      requires cap > 1 && Stage(disk, curRefs, cur, [], [], 0, news0) && Built(first, end, disk0, used0, disk, used, news0) && |curRefs| == |cur|
      modifies `disk, `used
      ensures Built(first, end, disk0, used0, disk, used, news)
      ensures ok ==> Stage(disk, refs, Up(cur, cap), [], [], 0, news)
      ensures !ok ==> Free(first, end, used) == {} && |news| < Nodes(Up(cur, cap))
    {
      hide Stage, Built, Free, Up, Nodes;
      refs, news := [], news0;
      ghost var next: seq<Kid> := [];
      var i := 0;
      StageStart(disk, curRefs, cur, news0);
      assert cur[0..] == cur && next + Up(cur, cap) == Up(cur, cap);
      while i < |curRefs|
        invariant i <= |curRefs| && next + Up(cur[i..], cap) == Up(cur, cap)
        invariant Stage(disk, refs, next, curRefs, cur, i, news) && Built(first, end, disk0, used0, disk, used, news)
      {
        var chunk := if |curRefs| - i > cap then cap else |curRefs| - i;
        ExtentTree.UpStep(cur, cap, i, chunk);
        FirstOf(disk, refs, next, curRefs, cur, i, news);
        var x := StoredIndex(curRefs[i..i + chunk]);
        ghost var k := Kid(cur[i].first, Index(cur[i..i + chunk]));
        ExtentTree.Chain(next, k, Up(cur[i + chunk..], cap));
        ghost var disk1, used1 := disk, used;
        var done, b := NewNode(x);
        if !done {
          StageCount(disk, refs, next, curRefs, cur, i, news);
          OneLevelShort(next, cur[i..], cap);
          return false, refs, news;
        }
        FreshBlock(first, end, disk0, used0, disk1, used1, news, b);
        BuiltMore(first, end, disk0, used0, disk1, used1, news, b, x);
        StageIndex(disk1, refs, next, curRefs, cur, i, chunk, news, b, curRefs[i].first);
        refs, news, next := refs + [Ref(curRefs[i].first, b)], news + [b], next + [k];
        i := i + chunk;
      }
      ExtentTree.UpNone(cap);
      assert cur[i..] == [] && next + [] == next;
      StageTurn(disk, refs, next, curRefs, cur, news);
      ok := true;
    }
  
    /** Levels are added until the root can hold the topmost. */
    method NewTree(runs: seq<Run>) returns (ok: bool, d: Stored, news: seq<nat>)
      requires cap > 1
      modifies `disk, `used
      ensures Built(first, end, old(disk), old(used), disk, used, news)
      ensures ok ==> Rep(disk, d, Extents.Rebuild(runs, cap)) && Takes(BlocksOf(disk, d, Extents.Rebuild(runs, cap)), news)
      ensures |news| <= Count(Extents.Rebuild(runs, cap)) && (ok <==> |news| == Count(Extents.Rebuild(runs, cap)))
      ensures !ok ==> Free(first, end, used) == {}
    {
      hide Stage, Built, Free, Nodes, Up, Leaves, Count;
      d := StoredLeaf([]);
      if |runs| <= ROOT_CAP {
        BuiltNothing(first, end, disk, used);
        RootOnly(disk, ToExts(runs));
        return true, StoredLeaf(ToExts(runs)), [];
      }
      ghost var disk0, used0 := disk, used;
      var refs;
      ok, refs, news := LeafLevel(runs);
      ghost var kids := Leaves(runs, cap);
      LevelsNodes(kids, cap);
      if !ok {
        return;
      }
      LastLevel(disk, refs, kids, news);
      while |refs| > ROOT_CAP
        invariant Stage(disk, refs, kids, [], [], 0, news) && Built(first, end, disk0, used0, disk, used, news) && |refs| == |kids|
        invariant Levels(kids, cap) == Extents.Rebuild(runs, cap)
        decreases |kids|
      {
        LevelsNodes(Up(kids, cap), cap);
        ok, refs, news := IndexLevel(refs, kids, news, disk0, used0);
        if !ok {
          return;
        }
        kids := Up(kids, cap);
        LastLevel(disk, refs, kids, news);
      }
      LastLevel(disk, refs, kids, news);
      CountIs(kids);
      return true, StoredIndex(refs), news;
    }

    /** `ext4_extent_free_tree_node` without the data: the blocks of the tree are given back. */
    method FreeTree(d: Stored, ghost n: Node)
      requires Rep(disk, d, n)
      modifies `used
      ensures used == old(used) - Elems(BlocksOf(disk, d, n))
      decreases n
    {
      match d
      case StoredLeaf(_) =>
        assert BlocksOf(disk, d, n) == [];
      case StoredIndex(refs) =>
        var i := 0;
        ForestDone(disk, refs, n);
        while i < |refs|
          invariant i <= |refs| == |n.kids| && used == old(used) - Elems(Done(disk, refs, n, i))
        {
          assert KidRep(disk, refs[i], n.kids[i]);
          FreeTree(disk[refs[i].blk], n.kids[i].sub);
          used := used - {refs[i].blk};
          DoneMore(disk, refs, n, i);
          i := i + 1;
        }
    }

    /** `ext4_extent_rebuild`; `stored` says whether the inode could be written. It succeeds exactly
        when it could and there are blocks for all nodes of the new tree, beside the old one. Blocks
        in use are never written to, and a failure leaves the file and the bitmap as they were. */
    method Rebuild(runs: seq<Run>, stored: bool) returns (ok: bool)
      requires Stands()
      modifies this
      ensures Stands()
      ensures ok <==> stored && Count(Extents.Rebuild(runs, cap)) <= |Free(first, end, old(used))|
      ensures forall b :: b in old(disk) && b in old(used) ==> b in disk && disk[b] == old(disk)[b]
      ensures ok ==> tree == Extents.Rebuild(runs, cap) && Own() !! old(used) && used == old(used) - old(Own()) + Own()
      ensures !ok ==> used == old(used) && root == old(root) && tree == old(tree) && Own() == old(Own())
    {
      hide Built, Free, Count, Rep, BlocksOf, Extents.Rebuild;
      ghost var disk0, used0 := disk, used;
      var built, d, news := NewTree(runs);
      BuiltSize(first, end, disk0, used0, disk, used, news);
      BuiltKeeps(first, end, disk0, used0, disk, used, news, root, tree);
      if !built || !stored {
        FreeNews(news);
        assert used == used0;
        return false;
      }
      ghost var next := Extents.Rebuild(runs, cap);
      TakesSame(BlocksOf(disk, d, next), news);
      FreeTree(root, tree);
      root, tree := d, next;
      ok := true;
    }
  
    /** `ext4_extent_collect_node`, reading the children from disk. */
    method CollectNode(d: Stored, ghost n: Node, a: array<Run>, count: nat) returns (ok: bool, m: nat)
      requires Rep(disk, d, n) && a.Length == MAX_RUNS && count <= MAX_RUNS
      modifies a
      ensures m <= MAX_RUNS
      ensures ok <==> Collect(n).Some? && count + |Collect(n).value| <= MAX_RUNS
      ensures ok ==> a[..m] == old(a[..count]) + Collect(n).value
      decreases n
    {
      match d
      case StoredLeaf(exts) =>
        ok, m := ExtentTree.CollectLeaf(exts, a, count);
      case StoredIndex(refs) =>
        ok, m := true, count;
        var i := 0;
        ghost var start, done: seq<Run> := a[..count], [];
        ExtentTree.Join([], [], CollectFrom(n, 0));
        while i < |refs|
          invariant 0 <= i <= |refs| == |n.kids| && m == count + |done| <= MAX_RUNS && ok && a[..m] == start + done
          invariant Collect(n) == ExtentTree.Joined(done, CollectFrom(n, i))
        {
          assert KidRep(disk, refs[i], n.kids[i]);
          ok, m := CollectNode(disk[refs[i].blk], n.kids[i].sub, a, m);
          if !ok {
            return;
          }
          ghost var runs := Collect(n.kids[i].sub).value;
          ExtentTree.Join(done, runs, CollectFrom(n, i + 1));
          assert start + done + runs == start + (done + runs);
          done := done + runs;
          i := i + 1;
        }
    }

    /** `ext4_extent_assign_block`, on disk. */
    method AssignBlock(l: nat, p: nat, stored: bool) returns (ok: bool)
      requires Valid()
      modifies this
      ensures Stands() && (l < LIMIT ==> Valid())
      ensures ok <==>
        && stored && 0 < p <= LIMIT && Collected(old(tree)).Some? && Map(old(tree), l) == 0 && |Collected(old(tree)).value| < MAX_RUNS
        && Assign(old(tree), l, p, cap).Some? && Count(Assign(old(tree), l, p, cap).value) <= |Free(first, end, old(used))|
      ensures ok && l < LIMIT ==> forall x: nat :: Map(tree, x) == if x == l then p else Map(old(tree), x)
      ensures forall b :: b in old(disk) && b in old(used) ==> b in disk && disk[b] == old(disk)[b]
      ensures ok ==> Own() !! old(used) && used == old(used) - old(Own()) + Own()
      ensures !ok ==> used == old(used) && root == old(root) && tree == old(tree) && Own() == old(Own())
      ensures old(Sound()) && l < LIMIT && p in old(used) && p !in old(Own()) && (forall x: nat :: Map(old(tree), x) != p) ==> Sound()
    {
      hide Collect, Checked, Inserted, Merged, Extents.Rebuild, TreeOk, Map, Rep, BlocksOf, Count, Free, DataOk, Ordered, RunsMap;
      AssignSucceeds(tree, l, p, cap);
      if p == 0 || p > LIMIT {
        return false;
      }
      var a := new Run[MAX_RUNS](_ => Run(0, 0, 0));
      var n;
      ok, n := CollectNode(root, tree, a, 0);
      if !ok {
        return;
      }
      assert a[..n] == Collect(tree).value;
      ok := ExtentTree.CheckRuns(a, n);
      if !ok {
        return;
      }
      ok := ExtentTree.InsertRun(a, n, l, p);
      if !ok {
        return;
      }
      var out := ExtentTree.MergeInPlace(a, n + 1);
      ok := Rebuild(a[..out], stored);
      if ok && l < LIMIT {
        AssignOk(old(tree), l, p, cap, l);
        forall x: nat ensures Map(tree, x) == if x == l then p else Map(old(tree), x) {
          AssignOk(old(tree), l, p, cap, x);
        }
        if old(Sound()) && p in old(used) && p !in old(Own()) && forall x: nat :: Map(old(tree), x) != p {
          AssignedData(old(tree), tree, l, p, old(used), old(Own()), used, Own());
        }
      }
    }

    /** `ext4_extent_truncate_data`, on disk. The data blocks are given back before the tree is
        rebuilt: if that fails, the file still maps blocks that are free. So it stays sound exactly
        if the call succeeds or there was nothing to give back. */
    method TruncateTo(size: nat, bs: nat, stored: bool) returns (ok: bool, freed: seq<nat>)
      requires Sound() && bs > 0
      modifies this
      ensures Valid() && (Sound() <==> ok || freed == [])
      ensures Collected(old(tree)).None? ==> !ok && freed == []
      ensures Collected(old(tree)).Some? ==>
        var t := Truncate(old(tree), KeepBlocks(size, bs), cap);
        t.Some? && freed == t.value.1 && (ok <==> stored && Count(t.value.0) <= |Free(first, end, old(used) - Elems(freed))|)
      ensures ok ==> forall x: nat :: Map(tree, x) == if x < KeepBlocks(size, bs) then Map(old(tree), x) else 0
      ensures ok ==> Own() !! (old(used) - Elems(freed)) && used == old(used) - Elems(freed) - old(Own()) + Own()
      ensures !ok ==> root == old(root) && tree == old(tree) && used == old(used) - Elems(freed) && Own() == old(Own())
    {
      hide Collect, Checked, Kept, Freed, Merged, Extents.Rebuild, TreeOk, Map, Rep, BlocksOf, Count, Free, KeepBlocks, Elems, DataOk;
      freed := [];
      NoElems(used);
      var a := new Run[MAX_RUNS](_ => Run(0, 0, 0));
      var n;
      ok, n := CollectNode(root, tree, a, 0);
      if !ok {
        return;
      }
      assert a[..n] == Collect(tree).value;
      ok := ExtentTree.CheckRuns(a, n);
      if !ok {
        return;
      }
      var keep := KeepBlocks(size, bs);
      var kept, count;
      kept, count, freed := ExtentTree.KeepRuns(a, n, keep);
      var out := ExtentTree.MergeInPlace(kept, count);
      ghost var t := tree;
      Stranded(t, keep, cap, freed, used, Own());
      FreeNews(freed);
      ok := Rebuild(kept[..out], stored);
      if ok {
        TruncatedData(t, tree, keep, cap, freed, old(used), old(Own()), used, Own());
      }
    }
  }

  lemma NoElems(used: set<nat>)
    ensures used - Elems([]) == used
  {
  }

  // ---- a truncation that strands a block ----

  lemma {:induction false} KeepsAll(runs: seq<Run>, keep: nat)
    requires forall i :: 0 <= i < |runs| ==> runs[i].l + runs[i].n <= keep
    ensures Kept(runs, keep) == runs && Freed(runs, keep) == []
    decreases |runs|
  {
    if runs != [] {
      KeepsAll(runs[..|runs| - 1], keep);
      assert runs[..|runs| - 1] + [runs[|runs| - 1]] == runs;
    }
  }

  lemma {:induction false} NothingMerges(runs: seq<Run>)
    requires Tight(runs)
    ensures Merged(runs) == runs
    decreases |runs|
  {
    if runs != [] {
      NothingMerges(runs[..|runs| - 1]);
      assert runs[..|runs| - 1] + [runs[|runs| - 1]] == runs;
    }
  }

  /** Five runs, two to a leaf, take three leaves below the root. */
  lemma FiveTake(runs: seq<Run>)
    requires |runs| == 5
    ensures Count(Extents.Rebuild(runs, 2)) == 3
  {
    LeavesNodes(runs, 2);
    assert |runs[2..]| == 3 && |runs[2..][2..]| == 1 && |runs[2..][2..][1..]| == 0;
    assert Leaves(runs[2..][2..][1..], 2) == [];
    assert |Leaves(runs[2..][2..], 2)| == 1;
    assert |Leaves(runs[2..], 2)| == 2;
    CountIs(Leaves(runs, 2));
  }

  /** Five runs with gaps; the last has two blocks. */
  function FiveRuns(): seq<Run> { [Run(0, 1, 101), Run(2, 1, 103), Run(4, 1, 105), Run(6, 1, 107), Run(8, 2, 109)] }

  lemma FiveOrdered()
    ensures Ordered(FiveRuns()) && Tight(FiveRuns())
  {
  }

  lemma FiveMap(x: nat)
    ensures RunsMap(FiveRuns(), x) == if x in {0, 2, 4, 6, 8, 9} then x + 101 else 0
  {
    hide RunsMap, Ordered;
    var runs := FiveRuns();
    FiveOrdered();
    if x == 0 {
      RunsMapAt(runs, 0, x);
    } else if x == 2 {
      RunsMapAt(runs, 1, x);
    } else if x == 4 {
      RunsMapAt(runs, 2, x);
    } else if x == 6 {
      RunsMapAt(runs, 3, x);
    } else if x == 8 || x == 9 {
      RunsMapAt(runs, 4, x);
    } else {
      NoRun(runs, x);
    }
  }

  /** Cutting it to nine blocks gives one back and leaves five runs. */
  lemma FiveCut()
    ensures var runs := Kept(FiveRuns(), 9); |runs| == 5 && Tight(runs) && Freed(FiveRuns(), 9) == [110]
  {
    var runs := FiveRuns();
    KeepsAll(runs[..4], 9);
    assert FreedOf(Run(8, 2, 109), 9) == [110];
    assert Kept(runs, 9) == runs[..4] + [Run(8, 1, 109)];
  }

  lemma FiveTruncated(tree: Node)
    requires tree == Extents.Rebuild(FiveRuns(), 2)
    ensures TreeOk(tree, 0, LIMIT) && Collected(tree) == Some(FiveRuns())
    ensures var t := Truncate(tree, 9, 2); t.Some? && t.value.1 == [110] && Count(t.value.0) == 3
  {
    hide Extents.Rebuild, Collect, Kept, Freed, Merged, Count;
    FiveOrdered();
    RebuildOk(FiveRuns(), 2, 0);
    FiveCut();
    NothingMerges(Kept(FiveRuns(), 9));
    FiveTake(Kept(FiveRuns(), 9));
  }

  lemma FiveSound(tree: Node, x: nat)
    requires tree == Extents.Rebuild(FiveRuns(), 2)
    ensures Map(tree, x) == if x in {0, 2, 4, 6, 8, 9} then x + 101 else 0
  {
    hide Extents.Rebuild, Map, RunsMap;
    FiveOrdered();
    FiveMap(x);
    RebuildOk(FiveRuns(), 2, x);
  }

  lemma ThreeFree(first: nat, end: nat, used: set<nat>, a: nat)
    requires first <= a && a + 3 <= end && a !in used && a + 1 !in used && a + 2 !in used
    ensures |Free(first, end, used)| >= 3
  {
    SubsetSize({a, a + 1, a + 2}, Free(first, end, used));
  }

  lemma OneFree(first: nat, end: nat, used: set<nat>, b: nat)
    requires forall x :: first <= x < end && x != b ==> x in used
    ensures |Free(first, end, used)| <= 1
  {
    SubsetSize(Free(first, end, used), {b});
  }

  lemma KeepNine()
    ensures KeepBlocks(9, 1) == 9
  {
  }

  /** A file of five runs on a volume that others fill up: cutting off its last block fails, and
      leaves the block free and mapped. */
  method StrandedBlock() returns (f: DiskFile, ok: bool)
    ensures f.Valid() && !ok && Map(f.tree, 9) == 110 && 110 !in f.used
  {
    hide Extents.Rebuild, TreeOk, Map, Rep, BlocksOf, Count, Free, KeepBlocks, Collect, Collected, Truncate;
    f := new DiskFile(100, 120, 2, {101, 103, 105, 107, 109, 110});
    var runs := FiveRuns();
    FiveTake(runs);
    ThreeFree(f.first, f.end, f.used, 111);
    ok := f.Rebuild(runs, true);
    FiveTruncated(f.tree);
    forall x: nat ensures Map(f.tree, x) == if x in {0, 2, 4, 6, 8, 9} then x + 101 else 0 {
      FiveSound(f.tree, x);
    }
    f.TakeRest();
    KeepNine();
    var freed;
    ghost var used := f.used;
    ok, freed := f.TruncateTo(9, 1, true);
    ElemsHas(freed, 110);
    forall x | f.first <= x < f.end && x != 110 ensures x in used - Elems(freed) {
      ElemsHas(freed, x);
    }
    OneFree(f.first, f.end, used - Elems(freed), 110);
  }

  /** The blocks that a truncation gives back are mapped, above what is kept. */
  lemma FreedIsMapped(tree: Node, keep: nat, cap: nat, b: nat)
    requires cap > 1 && TreeOk(tree, 0, LIMIT) && Truncate(tree, keep, cap).Some?
    ensures b in Truncate(tree, keep, cap).value.1 ==> Dropped(tree, keep, b)
  {
    hide TreeOk, Map, Truncate;
    TruncateFrees(tree, keep, cap);
  }

  /** ... and no block that stays mapped is among them. */
  lemma KeptIsNotFreed(tree: Node, keep: nat, cap: nat, x: nat)
    requires cap > 1 && TreeOk(tree, 0, LIMIT) && Truncate(tree, keep, cap).Some? && Unshared(tree) && x < keep && Map(tree, x) != 0
    ensures Map(tree, x) !in Truncate(tree, keep, cap).value.1
  {
    hide TreeOk, Map, Truncate;
    FreedIsMapped(tree, keep, cap, Map(tree, x));
  }

  lemma ElemsHas(s: seq<nat>, b: nat)
    ensures b in Elems(s) <==> b in s
  {
  }

  /** A tree whose blocks are unchanged is unchanged. */
  lemma {:induction false} RepSame(disk: Disk, disk': Disk, d: Stored, n: Node)
    requires Rep(disk, d, n) && forall b :: b in BlocksOf(disk, d, n) && b in disk ==> b in disk' && disk'[b] == disk[b]
    ensures Rep(disk', d, n) && BlocksOf(disk', d, n) == BlocksOf(disk, d, n)
    decreases n, if n.Index? then |n.kids| + 1 else 0
  {
    if n.Index? {
      ForestSame(disk, disk', d.refs, n, 0);
    }
  }

  lemma {:induction false} ForestSame(disk: Disk, disk': Disk, refs: seq<Ref>, n: Node, i: nat)
    requires n.Index? && LevelRep(disk, refs, n.kids, i) && forall b :: b in Forest(disk, refs, n, i) && b in disk ==> b in disk' && disk'[b] == disk[b]
    ensures LevelRep(disk', refs, n.kids, i) && Forest(disk', refs, n, i) == Forest(disk, refs, n, i)
    decreases n, |n.kids| - i
  {
    if i < |n.kids| {
      assert refs[i].blk in OfKid(disk, refs[i], n, i);
      RepSame(disk, disk', disk[refs[i].blk], n.kids[i].sub);
      ForestSame(disk, disk', refs, n, i + 1);
    }
  }

  lemma BuiltKeeps(first: nat, end: nat, disk0: Disk, used0: set<nat>, disk: Disk, used: set<nat>, news: seq<nat>, d: Stored, n: Node)
    requires Built(first, end, disk0, used0, disk, used, news) && Rep(disk0, d, n) && Elems(BlocksOf(disk0, d, n)) <= used0
    ensures DistinctSeq(news) && Elems(news) !! used0 && used == used0 + Elems(news)
    ensures forall b :: b in disk0 && b in used0 ==> b in disk && disk[b] == disk0[b]
    ensures Rep(disk, d, n) && BlocksOf(disk, d, n) == BlocksOf(disk0, d, n)
  {
    forall b | b in Elems(news) ensures b !in used0 {
      var i :| 0 <= i < |news| && news[i] == b;
    }
    forall b | b in BlocksOf(disk0, d, n) && b in disk0 ensures b in disk && disk[b] == disk0[b] {
      assert b in Elems(BlocksOf(disk0, d, n));
    }
    RepSame(disk0, disk, d, n);
  }

  lemma RootOnly(disk: Disk, exts: seq<Ext>)
    ensures Rep(disk, StoredLeaf(exts), Leaf(exts)) && BlocksOf(disk, StoredLeaf(exts), Leaf(exts)) == [] && Count(Leaf(exts)) == 0
  {
  }

  lemma CountIs(kids: seq<Kid>)
    ensures Count(Index(kids)) == Nodes(kids)
  {
  }

  /** The blocks of the first `i` entries. */
  ghost function Done(disk: Disk, refs: seq<Ref>, n: Node, i: nat): seq<nat>
    requires n.Index? && LevelRep(disk, refs, n.kids, 0) && i <= |refs|
  {
    ForestSplit(disk, refs, n.kids, 0, i);
    Forest(disk, refs[0..i], Index(n.kids[0..i]), 0)
  }

  lemma ForestDone(disk: Disk, refs: seq<Ref>, n: Node)
    requires Rep(disk, StoredIndex(refs), n) && n.Index?
    ensures LevelRep(disk, refs, n.kids, 0) && Elems(Done(disk, refs, n, 0)) == {} && Done(disk, refs, n, |refs|) == BlocksOf(disk, StoredIndex(refs), n)
  {
    assert refs[0..|refs|] == refs && n.kids[0..|refs|] == n.kids;
  }

  lemma DoneMore(disk: Disk, refs: seq<Ref>, n: Node, i: nat)
    requires n.Index? && LevelRep(disk, refs, n.kids, 0) && i < |refs|
    ensures KidRep(disk, refs[i], n.kids[i])
    ensures Elems(Done(disk, refs, n, i + 1)) == Elems(Done(disk, refs, n, i)) + Elems(BlocksOf(disk, disk[refs[i].blk], n.kids[i].sub)) + {refs[i].blk}
  {
    ForestSplit(disk, refs, n.kids, 0, i);
    ForestMore(disk, refs[0..i], n.kids[0..i], refs[i], n.kids[i], 0);
    assert refs[0..i + 1] == refs[0..i] + [refs[i]] && n.kids[0..i + 1] == n.kids[0..i] + [n.kids[i]];
    var a, b := Done(disk, refs, n, i), BlocksOf(disk, disk[refs[i].blk], n.kids[i].sub);
    ElemsJoin(a, b);
    ElemsJoin(a + b, [refs[i].blk]);
  }

  lemma ElemsJoin(x: seq<nat>, y: seq<nat>)
    ensures Elems(x + y) == Elems(x) + Elems(y) && forall z :: Elems([z]) == {z}
  {
    forall b | b in Elems(x) + Elems(y) ensures b in Elems(x + y) {
      if b in Elems(x) {
        var i :| 0 <= i < |x| && x[i] == b;
        assert (x + y)[i] == b;
      } else {
        var i :| 0 <= i < |y| && y[i] == b;
        assert (x + y)[|x| + i] == b;
      }
    }
    forall z ensures Elems([z]) == {z} {
      assert [z][0] == z;
    }
  }

  lemma NothingYet(disk: Disk, curRefs: seq<Ref>, cur: seq<Kid>)
    requires LevelRep(disk, curRefs, cur, |cur|)
    ensures Stage(disk, [], [], curRefs, cur, |cur|, [])
  {
  }

  lemma StageStart(disk: Disk, curRefs: seq<Ref>, cur: seq<Kid>, news: seq<nat>)
    requires Stage(disk, curRefs, cur, [], [], 0, news)
    ensures Stage(disk, [], [], curRefs, cur, 0, news)
  {
    var f := Forest(disk, curRefs, Index(cur), 0);
    assert f + [] == f && [] + f == f;
  }

  lemma FirstOf(disk: Disk, nextRefs: seq<Ref>, next: seq<Kid>, curRefs: seq<Ref>, cur: seq<Kid>, i: nat, news: seq<nat>)
    requires Stage(disk, nextRefs, next, curRefs, cur, i, news) && i < |cur|
    ensures |curRefs| == |cur| && curRefs[i].first == cur[i].first
  {
    assert KidRep(disk, curRefs[i], cur[i]);
  }

  lemma FreshBlock(first: nat, end: nat, disk0: Disk, used0: set<nat>, disk: Disk, used: set<nat>, news: seq<nat>, b: nat)
    requires Built(first, end, disk0, used0, disk, used, news) && b in Free(first, end, used)
    ensures b !in news
  {
    assert b in news ==> b in Elems(news);
  }

  lemma LeavesStep(runs: seq<Run>, cap: nat, i: nat, chunk: nat)
    requires cap > 1 && i < |runs| && chunk == Least(cap, |runs| - i)
    ensures Leaves(runs[i..], cap) == [Kid(runs[i].l, Leaf(ToExts(runs[i..i + chunk])))] + Leaves(runs[i + chunk..], cap)
  {
    assert runs[i..][..chunk] == runs[i..i + chunk] && runs[i..][chunk..] == runs[i + chunk..];
  }

  lemma NoLeaves(cap: nat)
    requires cap > 1
    ensures Leaves([], cap) == []
  {
  }

  /** A level that lacks a node has fewer nodes. */
  lemma OneShort(kids: seq<Kid>, k: Kid, rest: seq<Kid>)
    ensures Nodes(kids) < Nodes(kids + ([k] + rest)) && Nodes([]) == 0
  {
    NodesAppend(kids, [k] + rest);
    NodesAppend([k], rest);
    NodesOne(k);
  }

  lemma OneLevelShort(next: seq<Kid>, rest: seq<Kid>, cap: nat)
    requires cap > 1 && rest != []
    ensures Nodes(next) + Nodes(rest) < Nodes(next + Up(rest, cap))
  {
    UpNodes(rest, cap);
    NodesAppend(next, Up(rest, cap));
  }
}
