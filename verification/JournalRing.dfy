/** The circular log of the JBD2 journal: ring arithmetic, free space and the blocks a
    transaction needs (kernel/ext4.c). Block 0 of the journal file is its superblock;
    the ring is made of the blocks from `first` up to `maxlen`. */
module JournalRing {
  const TX_MAX_BLOCKS: nat := 256
  const TX_MAX_REVOKES: nat := 512
  const MAX_PENDING: nat := 4

  /** Positions and counts are unsigned 32-bit numbers in the code. */
  const WORD32: nat := 0x1_0000_0000

  /** What the journal superblock fixes at mount: the ring, the block size, whether block
      numbers take 64 bits, whether revoke records are allowed, and the number of blocks of the file system. */
  datatype Geometry = Geometry(first: nat, maxlen: nat, bs: nat, wide: bool, hasRevoke: bool, blocks: nat) {
    /** The checks of `ext4_jbd2_load_state`, the block sizes ext4 mounts, and block
        numbers that fit the width of a tag. */
    ghost predicate Valid() {
      0 < first < maxlen < 0x1_0000_0000 && 1024 <= bs <= 4096 &&
      (!wide ==> blocks <= 0x1_0000_0000) && blocks <= 0x1_0000_0000_0000_0000
    }

    function Ring(): int { maxlen - first }

    predicate In(p: nat) { first <= p < maxlen }

    /** The position `n` blocks after `p`, for at most one turn of the ring. */
    function At(p: nat, n: nat): (r: nat)
      requires In(p) && n <= Ring()
      ensures In(r)
    {
      if p + n >= maxlen then p + n - Ring() else p + n
    }
  }

  // ---- ring arithmetic, as coded ----

  function NextBlock(cur: nat, first: nat, maxlen: nat): nat {
    if maxlen <= first || cur < first || cur >= maxlen then 0
    else if cur + 1 >= maxlen then first
    else cur + 1
  }

  function RingAdvance(g: Geometry, cur: nat, steps: nat): nat
    requires g.first <= g.maxlen
  {
    if g.Ring() == 0 || cur < g.first || cur >= g.maxlen then 0
    else g.first + ModAdd(cur - g.first, steps, g.Ring())
  }

  /** The index `n` steps after index `x` of a ring of `m`, as coded: the sum is taken in 32 bits. */
  function ModAdd(x: nat, n: nat, m: nat): (r: nat)
    requires m > 0
    ensures r < m
  {
    (x + n % m) % WORD32 % m
  }

  function RingDistance(g: Geometry, from: nat, to: nat): nat
    requires g.first <= g.maxlen
  {
    if g.Ring() == 0 || !g.In(from) || !g.In(to) then 0
    else if to >= from then to - from
    else g.Ring() - (from - to)
  }

  function Clamp(g: Geometry, p: nat): nat {
    if g.In(p) then p else g.first
  }

  /** `ext4_jbd2_ring_free_blocks`. */
  function RingFree(g: Geometry, head: nat, tail: nat, pending: nat): nat
    requires g.first <= g.maxlen
  {
    if g.Ring() <= 1 then 0
    else if pending == 0 then g.Ring() - 1
    else
      var h, t := Clamp(g, head), Clamp(g, tail);
      if h == t then 0
      else
        var d := RingDistance(g, h, t);
        if d <= 1 then 0 else d - 1
  }

  datatype Reservation = NoRoom | Reserved(start: nat, nextHead: nat)

  /** `ext4_jbd2_reserve_ring`. */
  function ReserveRing(g: Geometry, head: nat, tail: nat, pending: nat, blocks: nat): (r: Reservation)
    requires g.first <= g.maxlen
    ensures r.Reserved? ==> g.In(r.start) && 0 < blocks < g.Ring()
  {
    if blocks == 0 || g.Ring() <= 1 || blocks >= g.Ring() || blocks > RingFree(g, head, tail, pending) then NoRoom
    else
      var h := Clamp(g, head);
      var next := RingAdvance(g, h, blocks);
      if next == 0 then NoRoom
      else if (if pending == 0 then next != h else next != Clamp(g, tail)) then Reserved(h, next)
      else NoRoom
  }

  // ---- sizes, as coded ----

  function TagBytes(g: Geometry): nat { if g.wide then 12 else 8 }

  function RevokeBytes(g: Geometry): nat { if g.wide then 8 else 4 }

  /** The bytes of `n` tags, and of `n` revoke entries. */
  function TagSpan(g: Geometry, n: nat): nat { if g.wide then 12 * n else 8 * n }

  function RevokeSpan(g: Geometry, n: nat): nat { if g.wide then 8 * n else 4 * n }

  function TagsPerDesc(g: Geometry): (n: nat)
    requires g.Valid()
    ensures n > 0 && 12 + TagSpan(g, n) <= g.bs
  {
    (g.bs - 12) / TagBytes(g)
  }

  function RevokesPerBlock(g: Geometry): (n: nat)
    requires g.Valid()
    ensures n > 0 && 16 + RevokeSpan(g, n) <= g.bs
  {
    (g.bs - 16) / RevokeBytes(g)
  }

  function CeilDiv(a: nat, b: nat): nat
    requires b > 0
  {
    (a + b - 1) / b
  }

  /** The blocks `ext4_jbd2_tx_commit` reserves for `dirty` images and `revokes`. */
  function TotalBlocks(g: Geometry, dirty: nat, revokes: nat): nat
    requires g.Valid()
  {
    dirty + CeilDiv(dirty, TagsPerDesc(g))
      + (if revokes == 0 then 0 else CeilDiv(revokes, RevokesPerBlock(g))) + 1
  }

  /** `ext4_jbd2_tx_reserve_blocks`: the largest transaction, or all the ring can give. */
  function ReserveBlocks(g: Geometry): int
    requires g.Valid()
  {
    if g.Ring() <= 1 then 0
    else
      var total := TX_MAX_BLOCKS + CeilDiv(TX_MAX_BLOCKS, TagsPerDesc(g))
                     + CeilDiv(TX_MAX_REVOKES, RevokesPerBlock(g)) + 1;
      if total >= g.Ring() then g.Ring() - 1 else total
  }

  function TargetFree(g: Geometry): int
    requires g.Valid()
  {
    if g.Ring() <= 1 then 0
    else
      var target := if g.Ring() / 4 < 8 then 8 else g.Ring() / 4;
      if target >= g.Ring() then g.Ring() - 1 else target
  }

  /** `ext4_jbd2_pressure_min_free_blocks`: what `tx_start` insists on. */
  function MinFree(g: Geometry): (m: nat)
    requires g.Valid()
    ensures if g.Ring() > 1 then m < g.Ring() else m == 0
  {
    if ReserveBlocks(g) > TargetFree(g) then ReserveBlocks(g) else TargetFree(g)
  }

  // ---- ring arithmetic: the closed forms are what stepping gives ----

  function StepBlocks(g: Geometry, cur: nat, n: nat): nat
    decreases n
  {
    if n == 0 then cur else NextBlock(StepBlocks(g, cur, n - 1), g.first, g.maxlen)
  }

  lemma ModSucc(n: nat, m: nat)
    requires m > 0
    ensures (n + 1) % m == if n % m + 1 == m then 0 else n % m + 1
  {
    var q, r := n / m, n % m;
    assert n + 1 == q * m + (r + 1);
    if r + 1 == m {
      assert n + 1 == (q + 1) * m + 0;
      ModUnique(n + 1, m, q + 1, 0);
    } else {
      ModUnique(n + 1, m, q, r + 1);
    }
  }

  lemma ModUnique(n: nat, m: nat, q: nat, r: nat)
    requires m > 0 && n == q * m + r && r < m
    ensures n % m == r && n / m == q
  {
    var q', r' := n / m, n % m;
    assert n == q' * m + r' && 0 <= r' < m;
    if q' < q {
      assert (q - q') * m >= m by { MulAtLeast(q - q', m); }
    } else if q' > q {
      assert (q' - q) * m >= m by { MulAtLeast(q' - q, m); }
    }
    assert (q - q') * m == r' - r;
  }

  lemma MulAtLeast(k: nat, m: nat)
    requires k >= 1
    ensures k * m >= m
  {
    assert k * m == m + (k - 1) * m;
  }

  /** The jump as it would be in unbounded numbers. */
  function PlainAdd(x: nat, n: nat, m: nat): (r: nat)
    requires m > 0
    ensures r < m
  {
    (x + n % m) % m
  }

  /** The sum of the jump fits in 32 bits. */
  predicate Fits32(g: Geometry, cur: nat, n: nat)
    requires g.Ring() > 0 && g.In(cur)
  {
    cur - g.first + n % g.Ring() < WORD32
  }

  lemma WrapIff(x: nat, n: nat, m: nat)
    requires x < m < WORD32
    ensures ModAdd(x, n, m) == PlainAdd(x, n, m) <==> x + n % m < WORD32
  {
    var k := n % m;
    if x + k < WORD32 {
      ModUnique(x + k, WORD32, 0, x + k);
    } else {
      ModUnique(x + k, WORD32, 1, x + k - WORD32);
      ModUnique(x + k - WORD32, m, 0, x + k - WORD32);
      ModUnique(x + k, m, 1, x + k - m);
    }
  }

  /** Jumping `n` blocks ahead is taking `n` single steps, for every `n`, if and only if the sum
      of index and jump fits in 32 bits. */
  lemma AdvanceIsStepping(g: Geometry, cur: nat, n: nat)
    requires g.Valid() && g.In(cur)
    ensures RingAdvance(g, cur, n) == StepBlocks(g, cur, n) <==> Fits32(g, cur, n)
    ensures g.In(RingAdvance(g, cur, n))
  {
    hide ModAdd, PlainAdd, StepBlocks;
    SteppingIsPlain(g, cur, n);
    WrapIff(cur - g.first, n, g.Ring());
  }

  /** A ring of at most 2^31 blocks is safe for every jump, a larger one is not. */
  lemma EveryJumpIff(g: Geometry)
    requires g.Valid()
    ensures (forall cur: nat, n: nat :: g.In(cur) ==> RingAdvance(g, cur, n) == StepBlocks(g, cur, n)) <==> g.Ring() <= 0x8000_0000
  {
    hide RingAdvance, StepBlocks;
    if g.Ring() <= 0x8000_0000 {
      forall cur: nat, n: nat | g.In(cur) ensures RingAdvance(g, cur, n) == StepBlocks(g, cur, n) {
        AdvanceIsStepping(g, cur, n);
      }
    } else {
      var cur, n := g.maxlen - 1, g.Ring() - 1;
      AdvanceIsStepping(g, cur, n);
      ModUnique(n, g.Ring(), 0, n);
    }
  }

  lemma {:induction false} SteppingIsPlain(g: Geometry, cur: nat, n: nat)
    requires g.Valid() && g.In(cur)
    ensures StepBlocks(g, cur, n) == g.first + PlainAdd(cur - g.first, n, g.Ring())
  {
    hide PlainAdd;
    var m := g.Ring();
    if n == 0 {
      PlainAddZero(cur - g.first, m);
    } else {
      SteppingIsPlain(g, cur, n - 1);
      PlainAddSucc(cur - g.first, n - 1, m);
    }
  }

  lemma PlainAddZero(x: nat, m: nat)
    requires x < m
    ensures PlainAdd(x, 0, m) == x
  {
    ModUnique(0, m, 0, 0);
    ModUnique(x, m, 0, x);
  }

  lemma PlainAddSucc(x: nat, n: nat, m: nat)
    requires x < m
    ensures var r := PlainAdd(x, n, m); PlainAdd(x, n + 1, m) == if r + 1 == m then 0 else r + 1
  {
    var k := n % m;
    ModSucc(n, m);
    ModSucc(x + k, m);
    if k + 1 == m {
      ModUnique(x + m, m, 1, x);
      ModUnique(x, m, 0, x);
    }
  }

  /** Within one turn the coded jump is `At`, if and only if its sum fits. */
  lemma AdvanceIsAt(g: Geometry, cur: nat, n: nat)
    requires g.Valid() && g.In(cur) && n < g.Ring()
    ensures RingAdvance(g, cur, n) == g.At(cur, n) <==> cur - g.first + n < WORD32
    ensures g.In(RingAdvance(g, cur, n)) && Fits32(g, cur, n) == (cur - g.first + n < WORD32)
  {
    hide ModAdd;
    var x := cur - g.first + n;
    WrapIff(cur - g.first, n, g.Ring());
    ModUnique(n, g.Ring(), 0, n);
    if x >= g.Ring() {
      ModUnique(x, g.Ring(), 1, x - g.Ring());
    } else {
      ModUnique(x, g.Ring(), 0, x);
    }
  }

  /** Distance and jump are inverse to each other, if and only if the sum of the jump fits. */
  lemma DistanceInvertsAdvance(g: Geometry, from: nat, to: nat, n: nat)
    requires g.Valid() && g.In(from) && g.In(to) && n < g.Ring()
    ensures RingAdvance(g, from, RingDistance(g, from, to)) == to <==> from - g.first + RingDistance(g, from, to) < WORD32
    ensures RingDistance(g, from, RingAdvance(g, from, n)) == n <==> from - g.first + n < WORD32
  {
    AdvanceIsAt(g, from, RingDistance(g, from, to));
    AdvanceIsAt(g, from, n);
  }

  // ---- space ----

  /** `used` blocks from `tail` to `head` are live; this is what free space must protect. */
  ghost predicate Live(g: Geometry, head: nat, tail: nat, pending: nat, used: nat) {
    g.Valid() && g.In(head) && g.In(tail) && used < g.Ring() && head == g.At(tail, used) &&
    (pending > 0 <==> used > 0)
  }

  /** The free count is exact: the ring less the live blocks less one. */
  lemma FreeIsExact(g: Geometry, head: nat, tail: nat, pending: nat, used: nat)
    requires Live(g, head, tail, pending, used)
    ensures RingFree(g, head, tail, pending) == g.Ring() - 1 - used
  {
  }

  /** A reservation is granted exactly when the blocks fit beside the live ones with one
      block to spare, wherever the 32-bit jump past its end lands; it starts at the head, no
      reserved block is a live block, and the end it names is right if the jump fits. */
  lemma ReserveIsExact(g: Geometry, head: nat, tail: nat, pending: nat, used: nat, blocks: nat)
    requires Live(g, head, tail, pending, used) && blocks > 0
    ensures ReserveRing(g, head, tail, pending, blocks) ==
            if used + blocks < g.Ring() then Reserved(head, RingAdvance(g, head, blocks)) else NoRoom
    ensures used + blocks < g.Ring() ==> (RingAdvance(g, head, blocks) == g.At(head, blocks) <==> head - g.first + blocks < WORD32)
    ensures used + blocks < g.Ring() ==>
              forall i, j :: 0 <= i < used && 0 <= j < blocks ==> g.At(tail, i) != g.At(head, j)
  {
    hide RingAdvance;
    FreeIsExact(g, head, tail, pending, used);
    if used + blocks < g.Ring() {
      AdvanceIsAt(g, head, blocks);
      if head - g.first + blocks >= WORD32 {
        AdvanceWraps(g, head, blocks);
      }
    }
  }

  /** Where a jump lands whose sum does not fit: short of the right place. */
  lemma AdvanceWraps(g: Geometry, cur: nat, n: nat)
    requires g.Valid() && g.In(cur) && n < g.Ring() && cur - g.first + n >= WORD32
    ensures RingAdvance(g, cur, n) == g.first + (cur - g.first + n - WORD32) < g.At(cur, n)
  {
    var x := cur - g.first + n;
    ModUnique(n, g.Ring(), 0, n);
    ModUnique(x, WORD32, 1, x - WORD32);
    ModUnique(x - WORD32, g.Ring(), 0, x - WORD32);
  }

  lemma CeilDivMono(a: nat, c: nat, b: nat)
    requires b > 0 && a <= c
    ensures CeilDiv(a, b) <= CeilDiv(c, b)
  {
    var x, y := (a + b - 1) / b, (c + b - 1) / b;
    if x > y {
      MulAtLeast(x - y, b);
    }
  }

  /** A transaction within the source's limits never needs more than the reserve. */
  lemma ReserveCoversTx(g: Geometry, dirty: nat, revokes: nat)
    requires g.Valid() && dirty <= TX_MAX_BLOCKS && revokes <= TX_MAX_REVOKES
    requires TotalBlocks(g, dirty, revokes) < g.Ring()
    ensures TotalBlocks(g, dirty, revokes) <= MinFree(g)
  {
    CeilDivMono(dirty, TX_MAX_BLOCKS, TagsPerDesc(g));
    CeilDivMono(revokes, TX_MAX_REVOKES, RevokesPerBlock(g));
  }

  /** The space guarantee: once `tx_start` has seen `MinFree` blocks free, the commit of any
      transaction within the limits gets its reservation unless it is as long as the ring. */
  lemma AdmittedTxCommits(g: Geometry, head: nat, tail: nat, pending: nat, used: nat, dirty: nat, revokes: nat)
    requires Live(g, head, tail, pending, used)
    requires RingFree(g, head, tail, pending) >= MinFree(g)
    requires dirty <= TX_MAX_BLOCKS && revokes <= TX_MAX_REVOKES
    ensures ReserveRing(g, head, tail, pending, TotalBlocks(g, dirty, revokes)).Reserved?
            <==> TotalBlocks(g, dirty, revokes) < g.Ring()
  {
    var total := TotalBlocks(g, dirty, revokes);
    FreeIsExact(g, head, tail, pending, used);
    ReserveIsExact(g, head, tail, pending, used, total);
    if total < g.Ring() {
      ReserveCoversTx(g, dirty, revokes);
    }
  }
}
