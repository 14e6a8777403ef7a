/** What a crashed commit leaves in the ring. Replay hands out the sequence number of a
    crashed commit again (kernel/ext4.c), so the ring may hold headers with the number of
    the next transaction. They lie behind the head, and a new transaction is safe as long as
    it does not reach them. */
module JournalStale {
  import opened Bytes
  import opened JournalRing
  import opened JournalFormat
  import opened JournalScan
  import opened JournalChain
  import opened JournalCrash
  import opened JournalRecovery
  import opened JournalState
  import opened JournalRun
  import opened JournalCommit

  /** Every header with number `q` lies in the `n` blocks behind `head`. */
  ghost predicate StaleWithin(g: Geometry, log: Log, q: nat, head: nat, n: nat): (r: bool)
    ensures r ==> LogOk(g, log) && g.In(head)
  {
    LogOk(g, log) && g.In(head) && forall p: nat :: g.In(p) && IsHeader(log[p], q) ==> 0 < RingDistance(g, p, head) <= n
  }

  lemma {:induction false} StaleFreshFrom(g: Geometry, log: Log, q: nat, head: nat, a: nat, n: nat, dirty: seq<Image>, revs: seq<nat>)
    requires StaleWithin(g, log, q, head, n) && Images(g, dirty) && n + a + |Body(g, q, dirty, revs)| < g.Ring()
    ensures FreshHeads(g, log, q, g.At(head, a), dirty, revs)
    decreases |dirty| + |revs|
  {
    hide IsHeader, Body, TagsPerDesc, RevokesPerBlock, GroupBlocks, RevokeBlock;
    var pos := g.At(head, a);
    BodyNonEmpty(g, q, dirty, revs);
    assert !IsHeader(log[pos], q) by {
      assert RingDistance(g, pos, head) == if a == 0 then 0 else g.Ring() - a;
    }
    if dirty != [] {
      var c := Chunk(|dirty|, TagsPerDesc(g));
      BodyDesc(g, q, dirty, revs, c);
      StaleFreshFrom(g, log, q, head, a + c + 1, n, dirty[c..], revs);
      assert g.At(head, a + c + 1) == g.At(pos, c + 1);
    } else if revs != [] {
      var c := Chunk(|revs|, RevokesPerBlock(g));
      BodyRevoke(g, q, revs, c);
      StaleFreshFrom(g, log, q, head, a + 1, n, [], revs[c..]);
      assert g.At(head, a + 1) == g.At(pos, 1);
    }
  }

  /** A transaction that does not reach the stale headers is safe to log. */
  lemma StaleFresh(g: Geometry, log: Log, q: nat, head: nat, n: nat, t: Tx)
    requires StaleWithin(g, log, q, head, n) && TxOk(g, t) && n + TxLen(g, q, t) < g.Ring()
    ensures FreshFor(g, log, q, head, t)
  {
    hide IsHeader, Body, FreshHeads, Images, RingDistance;
    TxImages(g, t);
    StaleFreshFrom(g, log, q, head, 0, n, t.dirty, t.revokes);
  }

  lemma TxImages(g: Geometry, t: Tx)
    requires TxOk(g, t)
    ensures Images(g, t.dirty)
  {
  }

  // ---- a crashed commit ----

  /** Any writes to the `c` blocks at the head, which then moves past them. */
  lemma StaleStep(g: Geometry, log: Log, q: nat, pos: nat, n: nat, ws: seq<Write>, c: nat)
    requires StaleWithin(g, log, q, pos, n) && Within(g, pos, 0, c, ws) && n + c < g.Ring()
    ensures StaleWithin(g, Put(log, ws), q, g.At(pos, c), n + c)
  {
    hide IsHeader, Put;
    PutFrame(g, log, pos, 0, c, ws);
    var log', pos' := Put(log, ws), g.At(pos, c);
    forall p: nat | g.In(p) && IsHeader(log'[p], q) ensures 0 < RingDistance(g, p, pos') <= n + c {
      if RingDistance(g, pos, p) >= c {
        assert log'[p] == log[p];
      }
    }
  }

  /** Writes of blocks that are no headers leave nothing new behind. */
  lemma {:induction false} StaleData(g: Geometry, log: Log, q: nat, pos: nat, n: nat, ws: seq<Write>)
    requires StaleWithin(g, log, q, pos, n) && forall i :: 0 <= i < |ws| ==> |ws[i].blk| == g.bs && !IsHeader(ws[i].blk, q)
    ensures StaleWithin(g, Put(log, ws), q, pos, n)
    decreases |ws|
  {
    hide IsHeader, RingDistance;
    if ws != [] {
      StaleData(g, PutOne(log, ws[0]), q, pos, n, ws[1..]);
    }
  }

  lemma StaleInGroup(g: Geometry, log: Log, q: nat, pos: nat, n: nat, imgs: seq<Image>, k: nat)
    requires StaleWithin(g, log, q, pos, n) && Images(g, imgs) && |imgs| <= TagsPerDesc(g) && |imgs| < g.Ring() && k <= |imgs|
    ensures StaleWithin(g, Put(log, GroupWrites(g, q, pos, imgs)[..k]), q, pos, n)
  {
    hide IsHeader, Put, DescBlock, TagsPerDesc, Escaped, StaleWithin;
    var ws := GroupWrites(g, q, pos, imgs)[..k];
    forall i | 0 <= i < |ws| ensures |ws[i].blk| == g.bs && !IsHeader(ws[i].blk, q) {
      assert ws[i].blk == Escaped(imgs[i].data);
      EscapeRoundTrip(imgs[i].data, q);
    }
    StaleData(g, log, q, pos, n, ws);
  }

  /** A commit that crashes before its commit block leaves its headers behind the place
      where the next mount puts the head. */
  lemma {:induction false} StaleCrash(g: Geometry, log: Log, q: nat, pos: nat, n: nat, dirty: seq<Image>, revs: seq<nat>, k: nat)
    requires StaleWithin(g, log, q, pos, n) && Images(g, dirty) && n + |Body(g, q, dirty, revs)| < g.Ring()
    requires k < |BodyWrites(g, q, pos, dirty, revs)|
    ensures StaleWithin(g, Put(log, BodyWrites(g, q, pos, dirty, revs)[..k]), q,
                        Boundary(g, q, pos, dirty, revs, k), n + |Body(g, q, dirty, revs)|)
    decreases |dirty| + |revs|, 1
  {
    hide IsHeader, Body, TagsPerDesc, RevokesPerBlock, GroupBlocks, RevokeBlock, CommitBlock, Put, StaleWithin, GroupWrites;
    var ws := BodyWrites(g, q, pos, dirty, revs);
    StaleGrow(g, log, q, pos, n, n + |Body(g, q, dirty, revs)|);
    BodyAtLeast(g, q, dirty, revs);
    if dirty != [] && k <= Chunk(|dirty|, TagsPerDesc(g)) {
      var c := Chunk(|dirty|, TagsPerDesc(g));
      assert ws[..k] == GroupWrites(g, q, pos, dirty[..c])[..k];
      StaleInGroup(g, log, q, pos, n + |Body(g, q, dirty, revs)|, dirty[..c], k);
    } else if dirty != [] {
      StalePastGroup(g, log, q, pos, n, dirty, revs, Chunk(|dirty|, TagsPerDesc(g)), k);
    } else if revs != [] && k > 0 {
      StalePastRevokes(g, log, q, pos, n, revs, Chunk(|revs|, RevokesPerBlock(g)), k);
    } else {
      assert ws[..k] == [];
      PutNothing(log);
    }
  }

  lemma StaleGrow(g: Geometry, log: Log, q: nat, pos: nat, n: nat, n': nat)
    requires StaleWithin(g, log, q, pos, n) && n <= n'
    ensures StaleWithin(g, log, q, pos, n')
  {
    hide IsHeader, RingDistance;
  }

  lemma {:induction false} StalePastGroup(g: Geometry, log: Log, q: nat, pos: nat, n: nat, dirty: seq<Image>, revs: seq<nat>, c: nat, k: nat)
    requires StaleWithin(g, log, q, pos, n) && Images(g, dirty) && n + |Body(g, q, dirty, revs)| < g.Ring()
    requires dirty != [] && c == Chunk(|dirty|, TagsPerDesc(g)) && c < k < |BodyWrites(g, q, pos, dirty, revs)|
    ensures StaleWithin(g, Put(log, BodyWrites(g, q, pos, dirty, revs)[..k]), q,
                        Boundary(g, q, pos, dirty, revs, k), n + |Body(g, q, dirty, revs)|)
    decreases |dirty| + |revs|, 0
  {
    hide IsHeader, Body, TagsPerDesc, GroupBlocks, Put, GroupWrites, Holds, StaleWithin, Within, BodyWrites, Boundary;
    BodyDesc(g, q, dirty, revs, c);
    BodyAtLeast(g, q, dirty, revs);
    var wa, wb := GroupWrites(g, q, pos, dirty[..c]), BodyWrites(g, q, g.At(pos, c + 1), dirty[c..], revs);
    PastFirstGroup(g, q, pos, dirty, revs, c, k);
    assert BodyWrites(g, q, pos, dirty, revs)[..k] == wa + wb[..k - c - 1];
    PutAppend(log, wa, wb[..k - c - 1]);
    PutGroup(g, log, q, pos, dirty[..c]);
    StaleStep(g, log, q, pos, n, wa, c + 1);
    StaleCrash(g, Put(log, wa), q, g.At(pos, c + 1), n + c + 1, dirty[c..], revs, k - c - 1);
  }

  lemma PastFirstGroup(g: Geometry, q: nat, pos: nat, dirty: seq<Image>, revs: seq<nat>, c: nat, k: nat)
    requires g.Valid() && Images(g, dirty) && g.In(pos) && |Body(g, q, dirty, revs)| < g.Ring()
    requires dirty != [] && c == Chunk(|dirty|, TagsPerDesc(g)) && c < k && c + 1 < g.Ring()
    requires Images(g, dirty[..c]) && Images(g, dirty[c..]) && |Body(g, q, dirty[c..], revs)| < g.Ring()
    ensures BodyWrites(g, q, pos, dirty, revs)
            == GroupWrites(g, q, pos, dirty[..c]) + BodyWrites(g, q, g.At(pos, c + 1), dirty[c..], revs)
    ensures Boundary(g, q, pos, dirty, revs, k) == Boundary(g, q, g.At(pos, c + 1), dirty[c..], revs, k - c - 1)
  {
    hide Body, TagsPerDesc, GroupWrites, GroupBlocks;
  }

  lemma {:induction false} StalePastRevokes(g: Geometry, log: Log, q: nat, pos: nat, n: nat, revs: seq<nat>, c: nat, k: nat)
    requires StaleWithin(g, log, q, pos, n) && n + |Body(g, q, [], revs)| < g.Ring()
    requires revs != [] && c == Chunk(|revs|, RevokesPerBlock(g)) && 0 < k < |BodyWrites(g, q, pos, [], revs)|
    ensures StaleWithin(g, Put(log, BodyWrites(g, q, pos, [], revs)[..k]), q,
                        Boundary(g, q, pos, [], revs, k), n + |Body(g, q, [], revs)|)
    decreases |revs|, 0
  {
    hide IsHeader, Body, RevokesPerBlock, RevokeBlock, Put, Holds, StaleWithin, Within;
    BodyRevoke(g, q, revs, c);
    BodyAtLeast(g, q, [], revs);
    var wa, wb := [Write(pos, RevokeBlock(g, q, revs[..c]))], BodyWrites(g, q, g.At(pos, 1), [], revs[c..]);
    assert BodyWrites(g, q, pos, [], revs)[..k] == wa + wb[..k - 1];
    PutAppend(log, wa, wb[..k - 1]);
    PutSingle(g, log, pos, wa[0].blk);
    StaleStep(g, log, q, pos, n, wa, 1);
    StaleCrash(g, Put(log, wa), q, g.At(pos, 1), n + 1, [], revs[c..], k - 1);
  }
}
