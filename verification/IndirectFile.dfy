/** A file without extents: mapping, setting and clearing its blocks through up to three levels
    of pointer blocks, which are allocated and given back as needed (kernel/ext4.c). */
module IndirectFile {
  import opened Indirect

  predicate Blank(w: seq<nat>) { forall j :: 0 <= j < |w| ==> w[j] == 0 }

  /** Blocks the allocator can hand out are not in use, and each is listed once; block numbers
      fit in 32 bits. */
  ghost predicate FreeOk(d: Disk, free: seq<nat>) {
    && (forall x :: x in d ==> x <= LIMIT)
    && (forall i :: 0 <= i < |free| ==> 0 < free[i] <= LIMIT && free[i] !in d)
    && (forall i, j :: 0 <= i < j < |free| ==> free[i] != free[j])
  }

  /** All pointers of the block but `i` are empty. */
  ghost predicate Sole(w: seq<nat>, i: nat) { forall j :: 0 <= j < |w| && j != i ==> w[j] == 0 }

  function Words(d: Disk, x: int): seq<nat> { if x in d then d[x] else [] }

  /** How many blocks of pointers on the path are not there. */
  ghost function Missing(d: Disk, p: seq<nat>): nat
    decreases |p|
  {
    if |p| <= 1 then 0 else Missing(d, p[..|p| - 1]) + Gap(d, p[..|p| - 1])
  }

  ghost function Gap(d: Disk, p: seq<nat>): nat { if Walk(d, p) == 0 then 1 else 0 }

  /** The first `m` free blocks have become blocks of pointers, and no other has come or gone. */
  ghost predicate Took(d: Disk, free: seq<nat>, d': Disk, free': seq<nat>, m: nat) {
    m <= |free| && free' == free[m..] && forall x :: x in d' <==> x in d || x in free[..m]
  }

  lemma TookMore(d: Disk, f: seq<nat>, d1: Disk, f1: seq<nat>, d2: Disk, f2: seq<nat>, a: nat, b: nat)
    requires a <= |f| && Took(d, f, d1, f1, a) && Took(d1, f1, d2, f2, Fewer(b, |f1|))
    ensures (b <= |f1| <==> a + b <= |f|) && Took(d, f, d2, f2, Fewer(a + b, |f|))
  {
    var c := Fewer(b, |f1|);
    assert f[..a + c] == f[..a] + f1[..c];
  }

  lemma TookNone(d: Disk, f: seq<nat>, d': Disk)
    requires d'.Keys == d.Keys
    ensures Took(d, f, d', f, 0)
  {
    assert f[0..] == f;
  }

  function Fewer(a: nat, b: nat): nat { if a <= b then a else b }

  /** Every block of pointers on the path is there. */
  ghost predicate Linked(d: Disk, p: seq<nat>) { forall k :: 0 <= k < |p| ==> Walk(d, p[..k]) != 0 }

  /** From `k` down, the blocks on the path serve nothing but the path. */
  ghost predicate Hollow(d: Disk, p: seq<nat>, k: nat)
    requires k < |p|
    decreases |p| - k
  {
    Sole(Words(d, Walk(d, p[..k])), p[k]) && (k + 1 < |p| ==> Hollow(d, p, k + 1))
  }

  /** The blocks of pointers below the inode that clearing takes away are exactly the hollow ones. */
  ghost predicate TookHollow(d: Disk, d': Disk, p: seq<nat>) {
    forall k :: 1 <= k < |p| ==> (Walk(d, p[..k]) !in d' <==> Hollow(d, p, k))
  }

  /** What left the disk is what the allocator got. */
  ghost predicate Gave(d: Disk, free: seq<nat>, d': Disk, free': seq<nat>) {
    && free <= free'
    && (forall x :: x in d' ==> x in d)
    && (forall x :: x in d && x !in d' ==> x in free'[|free|..])
    && (forall x :: x in free'[|free|..] ==> x in d && x !in d')
  }

  /** A clear: the place leads nowhere now, what it led to is returned, and hollow blocks are given back. */
  ghost predicate Cleared(d: Disk, free: seq<nat>, d': Disk, free': seq<nat>, n: nat, p: seq<nat>, was: int) {
    && LeadsTo(d, d', n, p, 0) && was == Walk(d, p) && Gave(d, free, d', free')
    && (if Linked(d, p) then TookHollow(d, d', p) else d' == d)
  }

  /** The state of a clear that has looked at the blocks on the path from the last one up to `k`. */
  ghost predicate Pruned(d0: Disk, free0: seq<nat>, d: Disk, free: seq<nat>, n: nat, p: seq<nat>, k: nat) {
    && 1 <= k <= |p| && LeadsTo(d0, d, n, p, 0) && Gave(d0, free0, d, free)
    && (forall j :: k <= j < |p| ==> (Walk(d0, p[..j]) !in d <==> Hollow(d0, p, j)))
    && (forall j :: 0 <= j < k ==> Walk(d, p[..j]) == Walk(d0, p[..j]) && Walk(d0, p[..j]) in d && Walk(d0, p[..j]) in d0)
    && (forall j :: 0 <= j < k - 1 ==> d[Walk(d0, p[..j])] == d0[Walk(d0, p[..j])])
    && var x := Walk(d0, p[..k - 1]);
       p[k - 1] < |d0[x]| && d[x] == if k == |p| || Hollow(d0, p, k) then d0[x][p[k - 1] := 0] else d0[x]
  }

  lemma PathNode(d: Disk, n: nat, p: seq<nat>, j: nat, k: nat)
    requires Good(d, n) && IsLeaf(p, n) && Linked(d, p) && j < |p| && k < |p|
    ensures IsNode(p[..j], n) && NodeOk(d, n, p[..j]) && (Walk(d, p[..j]) == Walk(d, p[..k]) ==> j == k)
    ensures p[j] < Width(p[..j], n) && Walk(d, p[..j]) in d && |d[Walk(d, p[..j])]| == Width(p[..j], n)
    ensures Walk(d, p[..j + 1]) == d[Walk(d, p[..j])][p[j]]
  {
    hide Walk, Good;
    GoodAt(d, n, p[..k], p[..j]);
    assert |p[..j]| == j && |p[..k]| == k;
    assert p[..j + 1] == p[..j] + [p[j]];
    WalkNext(d, p[..j], p[j]);
  }

  lemma PruneStart(d0: Disk, free: seq<nat>, d: Disk, n: nat, p: seq<nat>, b: int)
    requires p != [] && Good(d0, n) && IsLeaf(p, n) && Linked(d0, p) && b == Walk(d0, p[..|p| - 1]) && b in d0 && p[|p| - 1] < |d0[b]|
    requires d == Put(d0, b, p[|p| - 1], 0) && LeadsTo(d0, d, n, p, 0) && forall q :: IsNode(q, n) ==> Walk(d, q) == Walk(d0, q)
    ensures Pruned(d0, free, d, free, n, p, |p|)
  {
    hide Walk, Good, IsLeaf, IsNode, LeadsTo, Linked;
    var m := |p| - 1;
    forall j | 0 <= j < |p|
      ensures Walk(d, p[..j]) == Walk(d0, p[..j]) && Walk(d0, p[..j]) in d && Walk(d0, p[..j]) in d0
      ensures j < m ==> d[Walk(d0, p[..j])] == d0[Walk(d0, p[..j])]
    {
      PathNode(d0, n, p, j, m);
    }
    assert free[|free|..] == [] && d.Keys == d0.Keys;
    PathNode(d0, n, p, m, m);
  }

  lemma PrunedBlank(d0: Disk, free0: seq<nat>, d: Disk, free: seq<nat>, n: nat, p: seq<nat>, k: nat)
    requires Good(d0, n) && IsLeaf(p, n) && Linked(d0, p) && Pruned(d0, free0, d, free, n, p, k)
    ensures var x := Walk(d0, p[..k - 1]); x in d && (Blank(d[x]) <==> Hollow(d0, p, k - 1))
  {
    hide Walk, Good, IsLeaf, IsNode, LeadsTo, Linked;
    var x, i := Walk(d0, p[..k - 1]), p[k - 1];
    PathNode(d0, n, p, k - 1, k - 1);
    if k == |p| || Hollow(d0, p, k) {
      assert Blank(d[x]) <==> Sole(d0[x], i);
    } else {
      LinkedAt(d0, p, k);
      assert d[x][i] != 0;
    }
  }

  lemma LinkedAt(d: Disk, p: seq<nat>, k: nat)
    requires Linked(d, p) && k < |p|
    ensures Walk(d, p[..k]) != 0
  {
  }

  /** The next block up: it stays, or it is unlinked and given back. */
  lemma PruneStep(d0: Disk, free0: seq<nat>, d: Disk, free: seq<nat>, d': Disk, free': seq<nat>, n: nat, p: seq<nat>, k: nat)
    requires Good(d0, n) && IsLeaf(p, n) && Linked(d0, p) && Pruned(d0, free0, d, free, n, p, k) && k >= 2
    requires forall q :: IsPath(q, n) && q != p[..k - 1] ==> Walk(d', q) == Walk(d, q)
    requires var b, x := Walk(d0, p[..k - 2]), Walk(d0, p[..k - 1]);
             && b in d && x in d && p[k - 2] < |d[b]|
             && (d', free') == if Blank(d[x]) then (Put(d, b, p[k - 2], 0) - {x}, free + [x]) else (d, free)
    ensures Pruned(d0, free0, d', free', n, p, k - 1)
  {
    hide Walk, Good, IsLeaf, IsNode, LeadsTo, Linked;
    PrunedBlank(d0, free0, d, free, n, p, k);
    var b, x := Walk(d0, p[..k - 2]), Walk(d0, p[..k - 1]);
    PathNode(d0, n, p, k - 2, k - 1);
    LinkedAt(d0, p, k - 1);
    StepLeaves(d0, d, d', n, p, k - 1);
    StepGave(d0, free0, d, free, d', free', b, p[k - 2], x);
    forall j | 0 <= j < |p| && j != k - 1
      ensures Walk(d0, p[..j]) in d' <==> Walk(d0, p[..j]) in d
      ensures j < k - 1 ==> Walk(d', p[..j]) == Walk(d, p[..j])
      ensures j < k - 2 ==> d'[Walk(d0, p[..j])] == d[Walk(d0, p[..j])]
    {
      PathNode(d0, n, p, j, k - 1);
      PathNode(d0, n, p, j, k - 2);
      NodeIsPath(p[..j], n);
      assert |p[..j]| == j && |p[..k - 1]| == k - 1;
    }
  }

  lemma StepLeaves(d0: Disk, d: Disk, d': Disk, n: nat, p: seq<nat>, k: nat)
    requires IsLeaf(p, n) && k < |p| && LeadsTo(d0, d, n, p, 0) && forall q :: IsPath(q, n) && q != p[..k] ==> Walk(d', q) == Walk(d, q)
    ensures LeadsTo(d0, d', n, p, 0)
  {
    hide Walk;
    assert IsNode(p[..k], n);
  }

  lemma StepGave(d0: Disk, free0: seq<nat>, d: Disk, free: seq<nat>, d': Disk, free': seq<nat>, b: int, i: nat, x: int)
    requires Gave(d0, free0, d, free) && b in d && x in d && i < |d[b]| && x > 0 && b != x
    requires (d', free') == (d, free) || (d', free') == (Put(d, b, i, 0) - {x}, free + [x])
    ensures Gave(d0, free0, d', free')
  {
    if d' != d {
      assert free'[|free0|..] == free[|free0|..] + [x];
    }
  }

  lemma {:induction false} EmptyWalk(d: Disk, p: seq<nat>)
    requires d == map[INODE := Zeros(SLOTS)]
    ensures Walk(d, p) == if p == [] then INODE else 0
    decreases |p|
  {
    if p != [] {
      EmptyWalk(d, p[..|p| - 1]);
    }
  }

  lemma MapIs(d: Disk, n: nat, l: nat)
    requires n > 0 && PathOf(l, n).Some?
    ensures Map(d, n, l) == Walk(d, PathOf(l, n).value)
  {
  }

  lemma MapBeyond(d: Disk, n: nat, l: nat)
    requires n > 0 && PathOf(l, n) == None
    ensures Map(d, n, l) == 0
  {
  }

  lemma LinkedIs(d: Disk, p: seq<nat>)
    requires |p| <= 4 && (|p| > 0 ==> Walk(d, p[..0]) != 0) && (|p| > 1 ==> Walk(d, p[..1]) != 0) && (|p| > 2 ==> Walk(d, p[..2]) != 0) && (|p| > 3 ==> Walk(d, p[..3]) != 0)
    ensures Linked(d, p)
  {
    hide Walk;
    forall k | 0 <= k < |p| ensures Walk(d, p[..k]) != 0 {
      assert k == 0 || k == 1 || k == 2 || k == 3;
    }
  }

  lemma PruneAt(d0: Disk, free0: seq<nat>, d: Disk, free: seq<nat>, n: nat, p: seq<nat>, k: nat)
    requires Good(d0, n) && Good(d, n) && IsLeaf(p, n) && Linked(d0, p) && Pruned(d0, free0, d, free, n, p, k) && k >= 2
    ensures var q, i := p[..k - 2], p[k - 2];
            && IsNode(q, n) && IsNode(q + [i], n) && i < Width(q, n) && q + [i] == p[..k - 1]
            && Walk(d, q) == Walk(d0, q) != 0 && Walk(d, q + [i]) == Walk(d0, q + [i]) != 0
  {
    hide Walk, Good, IsLeaf, IsNode, LeadsTo, Linked;
    PathNode(d0, n, p, k - 2, k - 2);
    PathNode(d0, n, p, k - 1, k - 1);
    LinkedAt(d0, p, k - 2);
    LinkedAt(d0, p, k - 1);
    assert p[..k - 2] + [p[k - 2]] == p[..k - 1];
  }

  lemma PruneEnd(d0: Disk, free0: seq<nat>, d: Disk, free: seq<nat>, n: nat, p: seq<nat>, was: int)
    requires Linked(d0, p) && Pruned(d0, free0, d, free, n, p, 1) && was == Walk(d0, p)
    ensures Cleared(d0, free0, d, free, n, p, was)
  {
  }

  class File {
    var disk: Disk
    var free: seq<nat>
    const n: nat

    ghost predicate Valid() reads this { n > 0 && Good(disk, n) && FreeOk(disk, free) }

    /** An empty file. */
    constructor (n: nat, free: seq<nat>)
      requires n > 0 && forall i :: 0 <= i < |free| ==> 0 < free[i] <= LIMIT
      requires forall i, j :: 0 <= i < j < |free| ==> free[i] != free[j]
      ensures Valid() && this.n == n && this.free == free && forall l: nat :: At(l) == 0
    {
      this.n, this.free, disk := n, free, map[INODE := Zeros(SLOTS)];
      new;
      forall p ensures Walk(disk, p) == if p == [] then INODE else 0 {
        EmptyWalk(disk, p);
      }
      forall l: nat ensures At(l) == 0 {
        if PathOf(l, n).Some? {
          PathIsLeaf(l, n);
        }
      }
    }

    ghost function At(l: nat): int reads this requires n > 0 { Map(disk, n, l) }

    /** The inode's pointers are always there. */
    lemma Root()
      requires Valid()
      ensures INODE in disk && |disk[INODE]| == SLOTS && Walk(disk, []) == INODE && IsNode([], n)
    {
      assert NodeOk(disk, n, []);
    }

    lemma Node(p: seq<nat>, i: nat)
      requires Valid() && IsNode(p, n) && Walk(disk, p) != 0
      ensures Walk(disk, p) in disk && |disk[Walk(disk, p)]| == Width(p, n)
      ensures i < Width(p, n) ==> Walk(disk, p + [i]) == disk[Walk(disk, p)][i]
    {
      assert NodeOk(disk, n, p);
      WalkNext(disk, p, i);
    }

    /** The block of pointers that entry `i` of block `b` leads to, made if there is none. */
    method Ensure(ghost p: seq<nat>, b: int, i: nat) returns (ok: bool, child: nat)
      requires Valid() && IsNode(p, n) && b == Walk(disk, p) != 0 && IsNode(p + [i], n) && i < Width(p, n)
      modifies this
      ensures Valid() && SameLeaves(old(disk), disk, n) && forall q :: IsNode(q, n) && q != p + [i] ==> Walk(disk, q) == Walk(old(disk), q)
      ensures ok ==> child != 0 && child == Walk(disk, p + [i])
      ensures var m := Gap(old(disk), p + [i]); (ok <==> m <= |old(free)|) && Took(old(disk), old(free), disk, free, Fewer(m, |old(free)|))
    {
      hide Good, Walk, IsNode, IsPath, IsLeaf;
      Node(p, i);
      child := disk[b][i];
      ok := true;
      TookNone(disk, free, disk);
      if child == 0 {
        if free == [] {
          return false, 0;
        }
        PutKeys(disk[free[0] := Zeros(n)], b, i, free[0]);
        child := free[0];
        NodeNotLeaf(p + [i], n);
        Link(disk, n, p, i, child);
        LinkLeaves(p, b, i, child);
        disk, free := Put(disk[child := Zeros(n)], b, i, child), free[1..];
      }
    }

    lemma LinkLeaves(p: seq<nat>, b: int, i: nat, nb: nat)
      requires b in disk && i < |disk[b]| && nb !in disk && IsNode(p + [i], n)
      requires var d' := Put(disk[nb := Zeros(n)], b, i, nb); forall q :: IsPath(q, n) && q != p + [i] ==> Walk(d', q) == Walk(disk, q)
      ensures var d' := Put(disk[nb := Zeros(n)], b, i, nb);
              SameLeaves(disk, d', n) && forall q :: IsNode(q, n) && q != p + [i] ==> Walk(d', q) == Walk(disk, q)
    {
    }

    /** `ext4_indirect_set` on the last block of a path. */
    method SetPtr(ghost p: seq<nat>, b: int, i: nat, v: nat)
      requires Valid() && IsNode(p, n) && b == Walk(disk, p) != 0 && IsLeaf(p + [i], n) && i < Width(p, n)
      modifies this
      ensures Valid() && free == old(free) && disk.Keys == old(disk).Keys
      ensures LeadsTo(old(disk), disk, n, p + [i], v) && b in old(disk) && i < |old(disk)[b]| && disk == Put(old(disk), b, i, v)
      ensures forall q :: IsNode(q, n) ==> Walk(disk, q) == Walk(old(disk), q)
    {
      Node(p, i);
      SetLeaf(disk, n, p, i, v);
      disk := Put(disk, b, i, v);
    }

    method SetSingle(a: nat, v: nat) returns (ok: bool)
      requires Valid() && a < n
      modifies this
      ensures Valid() && if ok then LeadsTo(old(disk), disk, n, [12, a], v) else SameLeaves(old(disk), disk, n)
      ensures var m := Missing(old(disk), [12, a]); (ok <==> m <= |old(free)|) && Took(old(disk), old(free), disk, free, Fewer(m, |old(free)|))
    {
      hide Good, Walk, IsNode, IsPath, IsLeaf, FreeOk, LeadsTo, SameLeaves, Missing, Took;
      Shapes12(n, a);
      Missing12(disk, a);
      Root();
      var b;
      ok, b := Ensure([], INODE, 12);
      if ok {
        ghost var d, f := disk, free;
        SetPtr([12], b, a, v);
        Then(old(disk), d, disk, n, [12, a], v);
        TookNone(d, f, disk);
        TookMore(old(disk), old(free), d, f, disk, free, Gap(old(disk), [12]), 0);
      }
    }

    method SetDouble(i1: nat, i2: nat, v: nat) returns (ok: bool)
      requires Valid() && i1 < n && i2 < n
      modifies this
      ensures Valid() && if ok then LeadsTo(old(disk), disk, n, [13, i1, i2], v) else SameLeaves(old(disk), disk, n)
      ensures var m := Missing(old(disk), [13, i1, i2]); (ok <==> m <= |old(free)|) && Took(old(disk), old(free), disk, free, Fewer(m, |old(free)|))
    {
      hide Good, Walk, IsNode, IsPath, IsLeaf, FreeOk, LeadsTo, SameLeaves, Missing, Took;
      Shapes13(n, i1, i2);
      Missing13(disk, i1, i2);
      Root();
      var b, ind;
      ok, b := Ensure([], INODE, 13);
      if !ok {
        return;
      }
      ghost var d1, f1 := disk, free;
      ok, ind := Ensure([13], b, i1);
      ghost var d2, f2 := disk, free;
      Then(old(disk), d1, d2, n, [], 0);
      ghost var m1, m2 := Gap(old(disk), [13]), Gap(d1, [13, i1]);
      TookMore(old(disk), old(free), d1, f1, d2, f2, m1, m2);
      if ok {
        SetPtr([13, i1], ind, i2, v);
        Then(old(disk), d2, disk, n, [13, i1, i2], v);
        TookNone(d2, f2, disk);
        TookMore(old(disk), old(free), d2, f2, disk, free, m1 + m2, 0);
      }
    }

    method SetTriple(i1: nat, i2: nat, i3: nat, v: nat) returns (ok: bool)
      requires Valid() && i1 < n && i2 < n && i3 < n
      modifies this
      ensures Valid() && if ok then LeadsTo(old(disk), disk, n, [14, i1, i2, i3], v) else SameLeaves(old(disk), disk, n)
      ensures var m := Missing(old(disk), [14, i1, i2, i3]); (ok <==> m <= |old(free)|) && Took(old(disk), old(free), disk, free, Fewer(m, |old(free)|))
    {
      hide Good, Walk, IsNode, IsPath, IsLeaf, FreeOk, LeadsTo, SameLeaves, Missing, Took;
      Shapes14(n, i1, i2, i3);
      Missing14(disk, i1, i2, i3);
      Root();
      var b, dind, ind;
      ok, b := Ensure([], INODE, 14);
      if !ok {
        return;
      }
      ghost var d1, f1 := disk, free;
      ok, dind := Ensure([14], b, i1);
      ghost var d2, f2 := disk, free;
      Then(old(disk), d1, d2, n, [], 0);
      ghost var m1, m2 := Gap(old(disk), [14]), Gap(d1, [14, i1]);
      TookMore(old(disk), old(free), d1, f1, d2, f2, m1, m2);
      if !ok {
        return;
      }
      ok, ind := Ensure([14, i1], dind, i2);
      ghost var d3, f3, m3 := disk, free, Gap(d2, [14, i1, i2]);
      Then(old(disk), d2, d3, n, [], 0);
      TookMore(old(disk), old(free), d2, f2, d3, f3, m1 + m2, m3);
      if ok {
        SetPtr([14, i1, i2], ind, i3, v);
        Then(old(disk), d3, disk, n, [14, i1, i2, i3], v);
        TookNone(d3, f3, disk);
        TookMore(old(disk), old(free), d3, f3, disk, free, m1 + m2 + m3, 0);
      }
    }

    /** `ext4_ptr_block_is_empty`, and if so the block is unlinked and given back. */
    method TryFree(ghost p: seq<nat>, b: int, i: nat) returns (freed: bool)
      requires Valid() && IsNode(p, n) && b == Walk(disk, p) != 0 && IsNode(p + [i], n) && i < Width(p, n) && Walk(disk, p + [i]) != 0
      modifies this
      ensures Valid() && forall q :: IsPath(q, n) && q != p + [i] ==> Walk(disk, q) == Walk(old(disk), q)
      ensures Walk(old(disk), p + [i]) in old(disk) && (freed <==> Blank(old(disk)[Walk(old(disk), p + [i])]))
      ensures !freed ==> disk == old(disk) && free == old(free)
      ensures freed ==> b in old(disk) && i < |old(disk)[b]| && disk == Put(old(disk), b, i, 0) - {Walk(old(disk), p + [i])}
      ensures freed ==> Walk(disk, p + [i]) == 0 && free == old(free) + [Walk(old(disk), p + [i])]
    {
      hide Good, Walk, IsNode, IsPath, Put;
      Node(p, i);
      Node(p + [i], 0);
      var x := disk[b][i];
      freed := IsBlank(disk[x]);
      if freed {
        Unlink(disk, n, p, i);
        PutKeys(disk, b, i, 0);
        disk, free := Put(disk, b, i, 0) - {x}, free + [x];
      }
    }

    /** The block at `p[..k - 1]` is looked at and perhaps given back; `b` is the one above it. */
    method Prune(ghost d0: Disk, ghost free0: seq<nat>, ghost p: seq<nat>, ghost k: nat, b: int, i: nat)
      requires Valid() && Good(d0, n) && IsLeaf(p, n) && Linked(d0, p) && Pruned(d0, free0, disk, free, n, p, k)
      requires k >= 2 && i == p[k - 2] && b == Walk(d0, p[..k - 2])
      modifies this
      ensures Valid() && Pruned(d0, free0, disk, free, n, p, k - 1)
    {
      ghost var d, f := disk, free;
      PruneAt(d0, free0, d, f, n, p, k);
      var freed := TryFree(p[..k - 2], b, i);
      PruneStep(d0, free0, d, f, disk, free, n, p, k);
    }

    /** The last pointer of a path that is all there is emptied. */
    method Empty(ghost p: seq<nat>, b: int, i: nat) returns (was: nat)
      requires Valid() && IsLeaf(p, n) && p != [] && Linked(disk, p) && b == Walk(disk, p[..|p| - 1]) && i == p[|p| - 1]
      modifies this
      ensures Valid() && was == Walk(old(disk), p) && Pruned(old(disk), old(free), disk, free, n, p, |p|)
    {
      hide Good, Walk, IsNode, IsPath, IsLeaf, FreeOk, LeadsTo, Put, Pruned, Linked;
      ghost var d, m := disk, |p| - 1;
      PathNode(d, n, p, m, m);
      LinkedAt(d, p, m);
      assert p[..m] + [i] == p && p[..m + 1] == p;
      was := disk[b][i];
      SetPtr(p[..m], b, i, 0);
      PruneStart(d, free, disk, n, p, b);
    }

    method ClearSingle(a: nat) returns (was: nat)
      requires Valid() && a < n
      modifies this
      ensures Valid() && Cleared(old(disk), old(free), disk, free, n, [12, a], was)
    {
      hide Good, Walk, IsNode, IsPath, IsLeaf, FreeOk, LeadsTo, Put, Pruned, Linked, Cleared;
      ghost var p, d, f := [12, a], disk, free;
      assert p[..0] == [] && p[..1] == [12];
      Shapes12(n, a);
      Root();
      Node([], 12);
      var b := disk[INODE][12];
      if b == 0 {
        Absent(disk, free, n, p, 1);
        return 0;
      }
      LinkedIs(d, p);
      was := Empty(p, b, a);
      Prune(d, f, p, 2, INODE, 12);
      PruneEnd(d, f, disk, free, n, p, was);
    }

    method ClearDouble(i1: nat, i2: nat) returns (was: nat)
      requires Valid() && i1 < n && i2 < n
      modifies this
      ensures Valid() && Cleared(old(disk), old(free), disk, free, n, [13, i1, i2], was)
    {
      hide Good, Walk, IsNode, IsPath, IsLeaf, FreeOk, LeadsTo, Put, Pruned, Linked, Cleared;
      ghost var p, d, f := [13, i1, i2], disk, free;
      assert p[..0] == [] && p[..1] == [13] && p[..2] == [13, i1];
      Shapes13(n, i1, i2);
      Root();
      Node([], 13);
      var b := disk[INODE][13];
      if b == 0 {
        Absent(disk, free, n, p, 1);
        return 0;
      }
      Node([13], i1);
      var ind := disk[b][i1];
      if ind == 0 {
        Absent(disk, free, n, p, 2);
        return 0;
      }
      LinkedIs(d, p);
      was := Empty(p, ind, i2);
      Prune(d, f, p, 3, b, i1);
      Prune(d, f, p, 2, INODE, 13);
      PruneEnd(d, f, disk, free, n, p, was);
    }

    method ClearTriple(i1: nat, i2: nat, i3: nat) returns (was: nat)
      requires Valid() && i1 < n && i2 < n && i3 < n
      modifies this
      ensures Valid() && Cleared(old(disk), old(free), disk, free, n, [14, i1, i2, i3], was)
    {
      hide Good, Walk, IsNode, IsPath, IsLeaf, FreeOk, LeadsTo, Put, Pruned, Linked, Cleared;
      ghost var p, d, f := [14, i1, i2, i3], disk, free;
      assert p[..0] == [] && p[..1] == [14] && p[..2] == [14, i1] && p[..3] == [14, i1, i2];
      Shapes14(n, i1, i2, i3);
      Root();
      Node([], 14);
      var b := disk[INODE][14];
      if b == 0 {
        Absent(disk, free, n, p, 1);
        return 0;
      }
      Node([14], i1);
      var dind := disk[b][i1];
      if dind == 0 {
        Absent(disk, free, n, p, 2);
        return 0;
      }
      Node([14, i1], i2);
      var ind := disk[dind][i2];
      if ind == 0 {
        Absent(disk, free, n, p, 3);
        return 0;
      }
      LinkedIs(d, p);
      was := Empty(p, ind, i3);
      Prune(d, f, p, 4, dind, i2);
      Prune(d, f, p, 3, b, i1);
      Prune(d, f, p, 2, INODE, 14);
      PruneEnd(d, f, disk, free, n, p, was);
    }

    method ClearDirect(l: nat) returns (was: nat)
      requires Valid() && l < DIRECT
      modifies this
      ensures Valid() && Cleared(old(disk), old(free), disk, free, n, [l], was)
    {
      hide Good, Walk, IsNode, IsPath, IsLeaf, FreeOk, LeadsTo, Put, Pruned, Linked, Cleared;
      ghost var p, d, f := [l], disk, free;
      assert p[..0] == [];
      DirectShape(n, l);
      Root();
      LinkedIs(d, p);
      was := Empty(p, INODE, l);
      PruneEnd(d, f, disk, free, n, p, was);
    }

    /** `ext4_clear_block_direct`: what the block led to is returned, the block is a hole now,
        and the blocks of pointers that served nothing else are given back. */
    method ClearBlock(l: nat) returns (ok: bool, was: nat)
      requires Valid()
      modifies this
      ensures Valid() && (ok <==> PathOf(l, n).Some?)
      ensures !ok ==> disk == old(disk) && free == old(free)
      ensures ok ==> was == old(At(l)) && forall m: nat :: At(m) == if m == l then 0 else old(At(m))
      ensures ok ==> Cleared(old(disk), old(free), disk, free, n, PathOf(l, n).value, was)
    {
      hide Good, Walk, IsNode, IsPath, IsLeaf, FreeOk, LeadsTo, Map, PathOf, Gave, Linked, TookHollow;
      var s, i1, i2, i3 := Locate(n, l);
      if s < DIRECT {
        was := ClearDirect(l);
      } else if s == 12 {
        was := ClearSingle(i1);
      } else if s == 13 {
        was := ClearDouble(i1, i2);
      } else if s == 14 {
        was := ClearTriple(i1, i2, i3);
      } else {
        return false, 0;
      }
      ok := true;
      MapIs(old(disk), n, l);
      forall m: nat ensures At(m) == if m == l then 0 else old(At(m)) {
        MapSet(old(disk), disk, n, l, 0, m);
      }
    }

    /** `ext4_map_block_direct`. */
    method MapBlock(l: nat) returns (p: nat)
      requires Valid()
      ensures p == At(l)
    {
      hide Good, Walk, IsNode, IsPath, IsLeaf, FreeOk, Map, PathOf;
      var s, i1, i2, i3 := Locate(n, l);
      Root();
      if s == SLOTS {
        MapBeyond(disk, n, l);
        return 0;
      }
      MapIs(disk, n, l);
      if s < DIRECT {
        DirectShape(n, l);
        Node([], l);
        return disk[INODE][l];
      }
      Node([], s);
      var b := disk[INODE][s];
      if s == 12 {
        Shapes12(n, i1);
        p := Follow([12], b, i1);
      } else if s == 13 {
        Shapes13(n, i1, i2);
        p := Follow([13], b, i1);
        p := Follow([13, i1], p, i2);
      } else {
        Shapes14(n, i1, i2, i3);
        p := Follow([14], b, i1);
        p := Follow([14, i1], p, i2);
        p := Follow([14, i1, i2], p, i3);
      }
    }

    /** One pointer further, 0 where there is no block to read. */
    method Follow(ghost p: seq<nat>, b: nat, i: nat) returns (x: nat)
      requires Valid() && IsNode(p, n) && p != [] && b == Walk(disk, p) && i < n
      ensures x == Walk(disk, p + [i])
    {
      hide Good, IsNode, IsPath, Walk;
      WalkNext(disk, p, i);
      if b == 0 {
        return 0;
      }
      Node(p, i);
      x := disk[b][i];
    }

    /** `ext4_set_block_direct`. */
    method SetBlock(l: nat, v: nat) returns (ok: bool)
      requires Valid()
      modifies this
      ensures Valid()
      ensures forall m: nat :: At(m) == if ok && m == l then v else old(At(m))
      ensures v > LIMIT || PathOf(l, n) == None ==> !ok && disk == old(disk) && free == old(free)
      ensures v <= LIMIT && PathOf(l, n).Some? ==>
        var m := Missing(old(disk), PathOf(l, n).value); (ok <==> m <= |old(free)|) && Took(old(disk), old(free), disk, free, Fewer(m, |old(free)|))
    {
      hide Good, Walk, IsNode, IsPath, IsLeaf, FreeOk, LeadsTo, SameLeaves, Map, PathOf, Took;
      if v > LIMIT {
        return false;
      }
      var s, i1, i2, i3 := Locate(n, l);
      if s < DIRECT {
        DirectShape(n, l);
        Root();
        SetPtr([], INODE, l, v);
        TookNone(old(disk), free, disk);
        ok := true;
      } else if s == 12 {
        ok := SetSingle(i1, v);
      } else if s == 13 {
        ok := SetDouble(i1, i2, v);
      } else if s == 14 {
        ok := SetTriple(i1, i2, i3, v);
      } else {
        return false;
      }
      forall m: nat ensures At(m) == if ok && m == l then v else old(At(m)) {
        if ok {
          MapSet(old(disk), disk, n, l, v, m);
        } else {
          MapSame(old(disk), disk, n, m);
        }
      }
    }
  }

  /** The slot and the indices below it; `SLOTS` when the block is out of reach. */
  method Locate(n: nat, l: nat) returns (s: nat, i1: nat, i2: nat, i3: nat)
    requires n > 0
    ensures s == SLOTS <==> PathOf(l, n) == None
    ensures s < DIRECT ==> s == l && PathOf(l, n) == Some([l])
    ensures s == 12 ==> i1 < n && PathOf(l, n) == Some([12, i1])
    ensures s == 13 ==> i1 < n && i2 < n && PathOf(l, n) == Some([13, i1, i2])
    ensures s == 14 ==> i1 < n && i2 < n && i3 < n && PathOf(l, n) == Some([14, i1, i2, i3])
    ensures s <= SLOTS
  {
    hide Square, Cube, Quot, Rem;
    ghost var p := if PathOf(l, n).Some? then PathOf(l, n).value else [];
    if PathOf(l, n).Some? {
      PathIsLeaf(l, n);
    }
    s, i1, i2, i3 := SLOTS, 0, 0, 0;
    if l < DIRECT {
      s := l;
      return;
    }
    var a := l - DIRECT;
    if a < n {
      s, i1 := 12, a;
      return;
    }
    var b := a - n;
    if b < Square(n) {
      s, i1, i2 := 13, Quot(b, n), Rem(b, n);
      assert p[1] == i1;
      return;
    }
    var c := b - Square(n);
    if c < Cube(n) {
      var rem := Rem(c, Square(n));
      s, i1, i2, i3 := 14, Quot(c, Square(n)), Quot(rem, n), Rem(rem, n);
      assert p[1] == i1 && p[2] == i2;
    }
  }

  /** Where a block of pointers is missing there is nothing to clear. */
  lemma Absent(d: Disk, free: seq<nat>, n: nat, p: seq<nat>, k: nat)
    requires k < |p| && Walk(d, p[..k]) == 0
    ensures Cleared(d, free, d, free, n, p, 0)
  {
    ZeroBelow(d, p[..k], p);
    assert !Linked(d, p);
  }

  method IsBlank(w: seq<nat>) returns (blank: bool)
    ensures blank == Blank(w)
  {
    var i := 0;
    while i < |w|
      invariant 0 <= i <= |w| && forall j :: 0 <= j < i ==> w[j] == 0
    {
      if w[i] != 0 {
        return false;
      }
      i := i + 1;
    }
    blank := true;
  }

  lemma PutKeys(d: Disk, b: int, i: nat, v: nat)
    requires b in d && i < |d[b]|
    ensures Put(d, b, i, v).Keys == d.Keys
  {
  }

  lemma NodeNotLeaf(p: seq<nat>, n: nat)
    requires IsNode(p, n)
    ensures !IsLeaf(p, n)
  {
  }

  lemma DirectShape(n: nat, l: nat)
    requires l < DIRECT
    ensures IsLeaf([] + [l], n) && [] + [l] == [l] && l < Width([], n)
  {
  }

  /** The paths of the three indirect ranges. */
  lemma Shapes12(n: nat, i1: nat)
    requires i1 < n
    ensures IsNode([], n) && IsNode([12], n) && IsLeaf([12, i1], n) && [] + [12] == [12] && [12] + [i1] == [12, i1]
  {
  }

  lemma Shapes13(n: nat, i1: nat, i2: nat)
    requires i1 < n && i2 < n
    ensures IsNode([], n) && IsNode([13], n) && IsNode([13, i1], n) && IsLeaf([13, i1, i2], n)
    ensures [] + [13] == [13] && [13] + [i1] == [13, i1] && [13, i1] + [i2] == [13, i1, i2]
  {
  }

  lemma Shapes14(n: nat, i1: nat, i2: nat, i3: nat)
    requires i1 < n && i2 < n && i3 < n
    ensures IsNode([], n) && IsNode([14], n) && IsNode([14, i1], n) && IsNode([14, i1, i2], n) && IsLeaf([14, i1, i2, i3], n)
    ensures [] + [14] == [14] && [14] + [i1] == [14, i1] && [14, i1] + [i2] == [14, i1, i2] && [14, i1, i2] + [i3] == [14, i1, i2, i3]
  {
  }

  lemma Missing12(d: Disk, i1: nat)
    ensures Missing(d, [12, i1]) == Gap(d, [12])
  {
    assert [12, i1][..1] == [12];
  }

  lemma Missing13(d: Disk, i1: nat, i2: nat)
    ensures Missing(d, [13, i1, i2]) == Gap(d, [13]) + Gap(d, [13, i1])
  {
    assert [13, i1, i2][..2] == [13, i1] && [13, i1][..1] == [13];
    assert Missing(d, [13, i1]) == Gap(d, [13]);
  }

  lemma Missing14(d: Disk, i1: nat, i2: nat, i3: nat)
    ensures Missing(d, [14, i1, i2, i3]) == Gap(d, [14]) + Gap(d, [14, i1]) + Gap(d, [14, i1, i2])
  {
    assert [14, i1, i2, i3][..3] == [14, i1, i2] && [14, i1, i2][..2] == [14, i1] && [14, i1][..1] == [14];
    assert Missing(d, [14, i1]) == Gap(d, [14]);
    assert Missing(d, [14, i1, i2]) == Gap(d, [14]) + Gap(d, [14, i1]);
  }

  lemma Then(d: Disk, d': Disk, d'': Disk, n: nat, p: seq<nat>, v: nat)
    ensures SameLeaves(d, d', n) && SameLeaves(d', d'', n) ==> SameLeaves(d, d'', n)
    ensures SameLeaves(d, d', n) && LeadsTo(d', d'', n, p, v) ==> LeadsTo(d, d'', n, p, v)
    ensures LeadsTo(d, d', n, p, v) && SameLeaves(d', d'', n) ==> LeadsTo(d, d'', n, p, v)
  {
  }
}
