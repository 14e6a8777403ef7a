/** The indirect-block tree of kernel/ext4.c as a map from file blocks to disk blocks: blocks of
    pointers that are read, linked, written and given back one at a time. */
module Indirect {

  const DIRECT: nat := 12
  const SLOTS: nat := 15
  const LIMIT: nat := 0xFFFF_FFFF

  /** The inode's own pointers; every other key of a disk is a block number. */
  const INODE: int := -1

  type Disk = map<int, seq<nat>>

  datatype Option<T> = None | Some(value: T)

  // ---- where a file block hangs ----

  /** How many pointers lead from the inode to a data block below a slot. */
  function Depth(slot: nat): nat { if slot < DIRECT then 1 else slot - 10 }

  predicate IsPath(p: seq<nat>, n: nat) {
    && (p != [] ==> p[0] < SLOTS && |p| <= Depth(p[0]))
    && forall k :: 0 < k < |p| ==> p[k] < n
  }

  /** A path to a block of pointers. */
  predicate IsNode(p: seq<nat>, n: nat) { IsPath(p, n) && (p != [] ==> |p| < Depth(p[0])) }

  /** A path to a data block. */
  predicate IsLeaf(p: seq<nat>, n: nat) { IsPath(p, n) && p != [] && |p| == Depth(p[0]) }

  function Square(n: nat): (r: nat)
    ensures n > 0 ==> r > 0
  {
    n * n
  }

  function Cube(n: nat): nat { n * n * n }

  function Quot(x: nat, m: nat): nat
    requires m > 0
  {
    x / m
  }

  function Rem(x: nat, m: nat): (r: nat)
    requires m > 0
    ensures r < m
  {
    x % m
  }

  /** The four ranges of `ext4_map_block_direct`: the slot, then the index in each block. */
  function PathOf(l: nat, n: nat): Option<seq<nat>>
    requires n > 0
  {
    if l < DIRECT then Some([l])
    else
      var a := l - DIRECT;
      if a < n then Some([12, a])
      else
        var b := a - n;
        if b < Square(n) then Some([13, Quot(b, n), Rem(b, n)])
        else
          var c := b - Square(n);
          if c < Cube(n) then Some([14, Quot(c, Square(n)), Quot(Rem(c, Square(n)), n), Rem(Rem(c, Square(n)), n)]) else None
  }

  lemma QuotientBound(x: nat, m: nat, k: nat)
    requires m > 0 && x < k * m
    ensures x / m < k
  {
    Rejoin(x, m);
    if x / m >= k {
      Times(k, x / m, m);
    }
  }

  lemma Times(a: nat, b: nat, m: nat)
    requires a <= b
    ensures a * m <= b * m
  {
    assert (b - a) * m >= 0;
  }

  lemma PathIsLeaf(l: nat, n: nat)
    requires n > 0 && PathOf(l, n).Some?
    ensures IsLeaf(PathOf(l, n).value, n)
  {
    var p := PathOf(l, n).value;
    if |p| == 3 {
      QuotientBound(l - DIRECT - n, n, n);
    } else if |p| == 4 {
      var c := l - DIRECT - n - n * n;
      QuotientBound(c, n * n, n);
      QuotientBound(c % (n * n), n, n);
    }
  }

  /** Different file blocks hang at different places. */
  lemma PathInjective(l: nat, m: nat, n: nat)
    requires n > 0 && PathOf(l, n).Some? && PathOf(m, n) == PathOf(l, n)
    ensures l == m
  {
    var p := PathOf(l, n).value;
    if |p| == 3 {
      Rejoin(l - DIRECT - n, n);
      Rejoin(m - DIRECT - n, n);
    } else if |p| == 4 {
      var c, d := l - DIRECT - n - n * n, m - DIRECT - n - n * n;
      Rejoin(c, n * n);
      Rejoin(d, n * n);
      Rejoin(c % (n * n), n);
      Rejoin(d % (n * n), n);
    }
  }

  /** The places in order: the direct blocks, then each range from its first block on, the last
      index running fastest; what lies behind all four has no place. */
  lemma PathPosition(l: nat, n: nat)
    requires n > 0
    ensures match PathOf(l, n)
            case None => l >= DIRECT + n + n * n + n * n * n
            case Some(p) =>
              if |p| == 1 then p[0] == l < DIRECT
              else if |p| == 2 then p[0] == 12 && p[1] < n && l == DIRECT + p[1]
              else if |p| == 3 then p[0] == 13 && p[1] < n && p[2] < n && l == DIRECT + n + p[1] * n + p[2]
              else |p| == 4 && p[0] == 14 && p[1] < n && p[2] < n && p[3] < n && l == DIRECT + n + n * n + (p[1] * n + p[2]) * n + p[3]
  {
    if PathOf(l, n).Some? {
      var p := PathOf(l, n).value;
      PathIsLeaf(l, n);
      if |p| == 3 {
        Rejoin(l - DIRECT - n, n);
      } else if |p| == 4 {
        var c := l - DIRECT - n - n * n;
        Rejoin(c, n * n);
        Rejoin(c % (n * n), n);
        Spread(p[1], p[2], n);
      }
    }
  }

  lemma Spread(a: nat, b: nat, n: nat)
    ensures (a * n + b) * n == a * (n * n) + b * n
  {
  }

  lemma Rejoin(x: nat, m: nat)
    requires m > 0
    ensures x == x / m * m + x % m
  {
  }

  // ---- walking ----

  /** One pointer further; 0 when there is none. */
  function Step(d: Disk, x: int, j: nat): nat {
    if x != 0 && x in d && j < |d[x]| then d[x][j] else 0
  }

  function Walk(d: Disk, p: seq<nat>): int
    decreases |p|
  {
    if p == [] then INODE else Step(d, Walk(d, p[..|p| - 1]), p[|p| - 1])
  }

  /** `ext4_map_block_direct`. */
  function Map(d: Disk, n: nat, l: nat): int
    requires n > 0
  {
    match PathOf(l, n)
    case None => 0
    case Some(p) => Walk(d, p)
  }

  function Width(p: seq<nat>, n: nat): nat { if p == [] then SLOTS else n }

  ghost predicate NodeOk(d: Disk, n: nat, p: seq<nat>) {
    Walk(d, p) != 0 ==> Walk(d, p) in d && |d[Walk(d, p)]| == Width(p, n)
  }

  /** Every block of pointers that can be reached is on the disk, and by one path only. */
  ghost predicate Good(d: Disk, n: nat) {
    && (forall p :: IsNode(p, n) ==> NodeOk(d, n, p))
    && (forall p, q :: IsNode(p, n) && IsNode(q, n) && Walk(d, p) == Walk(d, q) != 0 ==> p == q)
  }

  lemma WalkNext(d: Disk, p: seq<nat>, i: nat)
    ensures Walk(d, p + [i]) == Step(d, Walk(d, p), i)
  {
    assert (p + [i])[..|p + [i]| - 1] == p;
  }

  lemma {:induction false} ZeroBelow(d: Disk, p: seq<nat>, q: seq<nat>)
    requires Walk(d, p) == 0 && p <= q
    ensures Walk(d, q) == 0
    decreases |q|
  {
    if q != p {
      assert p <= q[..|q| - 1];
      ZeroBelow(d, p, q[..|q| - 1]);
    }
  }

  lemma FrontPath(q: seq<nat>, n: nat)
    requires IsPath(q, n) && q != []
    ensures IsNode(q[..|q| - 1], n)
  {
  }

  lemma PrefixTrans(a: seq<nat>, r: seq<nat>, q: seq<nat>)
    requires r <= q
    ensures a <= r ==> a <= q
  {
  }

  // ---- changing one pointer ----

  /** Pointer `i` of the block at `p` becomes `v`; block `gone` may vanish, others may appear. */
  ghost predicate Wrote(d: Disk, d': Disk, p: seq<nat>, i: nat, v: nat, gone: int) {
    var b := Walk(d, p);
    && b in d && b in d' && i < |d[b]| && d'[b] == d[b][i := v]
    && forall x :: x in d && x != b && x != gone ==> x in d' && d'[x] == d[x]
  }

  lemma GoodAt(d: Disk, n: nat, p: seq<nat>, q: seq<nat>)
    requires Good(d, n) && IsNode(p, n) && IsNode(q, n)
    ensures NodeOk(d, n, q) && (Walk(d, p) == Walk(d, q) != 0 ==> p == q)
  {
  }

  lemma WalkLast(d: Disk, q: seq<nat>)
    requires q != []
    ensures Walk(d, q) == Step(d, Walk(d, q[..|q| - 1]), q[|q| - 1])
  {
  }

  /** Whatever does not lead through the changed pointer is found as before. */
  lemma {:induction false} WalkSame(d: Disk, d': Disk, n: nat, p: seq<nat>, i: nat, v: nat, gone: int, q: seq<nat>)
    requires Good(d, n) && IsNode(p, n) && Walk(d, p) != 0 && Wrote(d, d', p, i, v, gone)
    requires gone == 0 || (IsNode(p + [i], n) && gone == Walk(d, p + [i]))
    requires IsPath(q, n) && !(p + [i] <= q)
    ensures Walk(d', q) == Walk(d, q)
    decreases |q|
  {
    hide Walk, Good, IsNode, IsPath;
    if q == [] {
      WalkNone(d, d');
    } else {
      var r, j := q[..|q| - 1], q[|q| - 1];
      FrontPath(q, n);
      NodeIsPath(r, n);
      PrefixTrans(p + [i], r, q);
      WalkSame(d, d', n, p, i, v, gone, r);
      WalkLast(d, q);
      WalkLast(d', q);
      GoodAt(d, n, p, r);
      if gone != 0 {
        GoodAt(d, n, p + [i], r);
      }
      if Walk(d, r) == Walk(d, p) {
        assert q == p + [j];
      }
    }
  }

  lemma WalkNone(d: Disk, d': Disk)
    ensures Walk(d, []) == Walk(d', []) == INODE
  {
  }

  lemma NodeIsPath(p: seq<nat>, n: nat)
    requires IsNode(p, n)
    ensures IsPath(p, n)
  {
  }

  /** `ext4_indirect_set`. */
  function Put(d: Disk, b: int, i: nat, v: nat): Disk
    requires b in d && i < |d[b]|
  {
    var w: seq<nat> := d[b][i := v];
    d[b := w]
  }

  /** An empty block of pointers. */
  function Zeros(n: nat): (z: seq<nat>)
    ensures |z| == n && forall j :: 0 <= j < n ==> z[j] == 0
  {
    seq(n, _ => 0)
  }

  /** Through it, the new pointer is found. */
  lemma WalkNew(d: Disk, d': Disk, n: nat, p: seq<nat>, i: nat, v: nat, gone: int)
    requires Good(d, n) && IsNode(p, n) && Walk(d, p) != 0 && Wrote(d, d', p, i, v, gone)
    requires gone == 0 || (IsNode(p + [i], n) && gone == Walk(d, p + [i]))
    ensures Walk(d', p + [i]) == v
  {
    hide Walk, Good;
    WalkSame(d, d', n, p, i, v, gone, p);
    WalkNext(d', p, i);
  }

  /** Writing a pointer to data changes the map at one place. */
  lemma SetLeaf(d: Disk, n: nat, p: seq<nat>, i: nat, v: nat)
    requires Good(d, n) && IsNode(p, n) && Walk(d, p) != 0 && IsLeaf(p + [i], n) && Walk(d, p) in d && i < |d[Walk(d, p)]|
    ensures var b := Walk(d, p);
            var d' := Put(d, b, i, v);
            Good(d', n) && forall q :: IsPath(q, n) ==> Walk(d', q) == if q == p + [i] then v else Walk(d, q)
  {
    hide Walk;
    var b := Walk(d, p);
    var d' := Put(d, b, i, v);
    forall q | IsNode(q, n) ensures Walk(d', q) == Walk(d, q) {
      LeafNotBelow(p + [i], q, n);
      WalkSame(d, d', n, p, i, v, 0, q);
    }
    forall q | IsNode(q, n) ensures NodeOk(d', n, q) {
      assert NodeOk(d, n, q);
      if Walk(d, q) == b {
        assert q == p;
      }
    }
    WalkNew(d, d', n, p, i, v, 0);
    forall q | IsPath(q, n) ensures Walk(d', q) == if q == p + [i] then v else Walk(d, q) {
      if q != p + [i] {
        LeafNotBelow(p + [i], q, n);
        WalkSame(d, d', n, p, i, v, 0, q);
      }
    }
  }

  /** Nothing lies below a data block. */
  lemma LeafNotBelow(p: seq<nat>, q: seq<nat>, n: nat)
    requires IsLeaf(p, n) && IsPath(q, n) && q != p
    ensures !(p <= q)
  {
  }

  /** Linking an empty block of pointers changes nothing in the map. */
  lemma Link(d: Disk, n: nat, p: seq<nat>, i: nat, nb: nat)
    requires Good(d, n) && IsNode(p, n) && Walk(d, p) != 0 && IsNode(p + [i], n) && Walk(d, p + [i]) == 0
    requires Walk(d, p) in d && i < |d[Walk(d, p)]| && nb > 0 && nb !in d
    ensures var b := Walk(d, p);
            var d' := Put(d[nb := Zeros(n)], b, i, nb);
            Good(d', n) && Walk(d', p + [i]) == nb && forall q :: IsPath(q, n) && q != p + [i] ==> Walk(d', q) == Walk(d, q)
  {
    hide Walk;
    var b := Walk(d, p);
    var d' := Put(d[nb := Zeros(n)], b, i, nb);
    WalkNew(d, d', n, p, i, nb, 0);
    forall q | IsPath(q, n) && q != p + [i] ensures Walk(d', q) == Walk(d, q) {
      if p + [i] <= q {
        ZeroBelow(d, p + [i], q);
        EmptyBelow(d', nb, p + [i], q);
      } else {
        WalkSame(d, d', n, p, i, nb, 0, q);
      }
    }
    forall q | IsNode(q, n) ensures NodeOk(d', n, q) {
      assert NodeOk(d, n, q);
      if Walk(d, q) == b {
        assert q == p;
      }
    }
    forall q, r | IsNode(q, n) && IsNode(r, n) && Walk(d', q) == Walk(d', r) != 0 ensures q == r {
      assert NodeOk(d, n, q) && NodeOk(d, n, r);
    }
  }

  lemma {:induction false} EmptyBelow(d: Disk, x: int, p: seq<nat>, q: seq<nat>)
    requires Walk(d, p) == x && x in d && (forall j :: 0 <= j < |d[x]| ==> d[x][j] == 0) && p <= q && q != p
    ensures Walk(d, q) == 0
    decreases |q|
  {
    var r := q[..|q| - 1];
    if r != p {
      assert p <= r;
      EmptyBelow(d, x, p, r);
    }
  }

  /** Unlinking a block of pointers that is empty changes nothing in the map. */
  lemma Unlink(d: Disk, n: nat, p: seq<nat>, i: nat)
    requires Good(d, n) && IsNode(p, n) && Walk(d, p) != 0 && IsNode(p + [i], n) && Walk(d, p + [i]) != 0
    requires Walk(d, p) in d && i < |d[Walk(d, p)]| && Walk(d, p + [i]) in d && (forall j :: 0 <= j < |d[Walk(d, p + [i])]| ==> d[Walk(d, p + [i])][j] == 0)
    ensures var b, x := Walk(d, p), Walk(d, p + [i]);
            var d' := Put(d, b, i, 0) - {x};
            Good(d', n) && Walk(d', p + [i]) == 0 && forall q :: IsPath(q, n) && q != p + [i] ==> Walk(d', q) == Walk(d, q)
  {
    hide Walk;
    var b, x := Walk(d, p), Walk(d, p + [i]);
    var d' := Put(d, b, i, 0) - {x};
    assert b != x;
    WalkNew(d, d', n, p, i, 0, x);
    forall q | IsPath(q, n) && q != p + [i] ensures Walk(d', q) == Walk(d, q) {
      if p + [i] <= q {
        ZeroBelow(d', p + [i], q);
        EmptyBelow(d, x, p + [i], q);
      } else {
        WalkSame(d, d', n, p, i, 0, x, q);
      }
    }
    forall q | IsNode(q, n) ensures NodeOk(d', n, q) {
      assert NodeOk(d, n, q);
      if Walk(d, q) == b {
        assert q == p;
      }
    }
    forall q, r | IsNode(q, n) && IsNode(r, n) && Walk(d', q) == Walk(d', r) != 0 ensures q == r {
      assert NodeOk(d, n, q) && NodeOk(d, n, r);
    }
  }

  // ---- the map ----

  /** Every place but one is found as before, and that one leads to `v`. */
  ghost predicate LeadsTo(d: Disk, d': Disk, n: nat, p: seq<nat>, v: nat) {
    forall q :: IsLeaf(q, n) ==> Walk(d', q) == if q == p then v else Walk(d, q)
  }

  ghost predicate SameLeaves(d: Disk, d': Disk, n: nat) { forall q :: IsLeaf(q, n) ==> Walk(d', q) == Walk(d, q) }

  lemma MapSame(d: Disk, d': Disk, n: nat, l: nat)
    requires n > 0 && SameLeaves(d, d', n)
    ensures Map(d', n, l) == Map(d, n, l)
  {
    if PathOf(l, n).Some? {
      PathIsLeaf(l, n);
    }
  }

  lemma MapSet(d: Disk, d': Disk, n: nat, l: nat, v: nat, m: nat)
    requires n > 0 && PathOf(l, n).Some? && LeadsTo(d, d', n, PathOf(l, n).value, v)
    ensures Map(d', n, m) == if m == l then v else Map(d, n, m)
  {
    hide Walk, PathOf, IsLeaf;
    if PathOf(m, n).Some? {
      PathIsLeaf(m, n);
      if PathOf(m, n) == PathOf(l, n) {
        PathInjective(l, m, n);
      }
    }
  }
}
