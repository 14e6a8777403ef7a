/** The replay scan over a whole chain of committed transactions, and over the log that a
    crash in the middle of a commit leaves behind (kernel/ext4.c). */
module JournalChain {
  import opened Bytes
  import opened JournalRing
  import opened JournalFormat
  import opened JournalScan

  // ---- one committed transaction ----

  lemma {:induction false} AddUpdatesAppends(g: Geometry, ups: seq<Update>, more: seq<Update>)
    requires |ups| + |more| <= MAX_UPDATES
    requires forall i :: 0 <= i < |more| ==> more[i].fs < g.blocks && g.In(more[i].jblock)
    ensures AddUpdates(g, ups, more) == Some(ups + more)
    decreases |more|
  {
    if more == [] {
      assert ups + more == ups;
    } else {
      AddUpdatesAppends(g, ups + [more[0]], more[1..]);
      assert ups + [more[0]] + more[1..] == ups + more;
    }
  }

  /** A replay table blocks an update when it holds a revoke of the block with a sequence
      number that is not smaller: `ext4_jbd2_revoke_hits_update`. */
  predicate Hits(revs: seq<Revoked>, fs: nat, seqno: nat) {
    exists i :: 0 <= i < |revs| && revs[i].fs == fs && revs[i].seqno >= seqno
  }

  lemma AddRevokeHits(g: Geometry, revs: seq<Revoked>, fs: nat, q: nat)
    requires fs < g.blocks && |revs| < MAX_REVOKES
    ensures AddRevoke(g, revs, MAX_REVOKES, fs, q, true).Some?
    ensures |AddRevoke(g, revs, MAX_REVOKES, fs, q, true).value| <= |revs| + 1
    ensures forall b, n :: Hits(AddRevoke(g, revs, MAX_REVOKES, fs, q, true).value, b, n)
                           <==> Hits(revs, b, n) || (b == fs && q >= n)
  {
    var revs' := AddRevoke(g, revs, MAX_REVOKES, fs, q, true).value;
    var k := FindRevoke(revs, fs, 0);
    forall b, n ensures Hits(revs', b, n) <==> Hits(revs, b, n) || (b == fs && q >= n) {
      if Hits(revs, b, n) {
        var i :| 0 <= i < |revs| && revs[i].fs == b && revs[i].seqno >= n;
        assert revs'[i].fs == b && revs'[i].seqno >= n;
      }
      if b == fs && q >= n {
        assert revs'[k].fs == b && revs'[k].seqno >= n;
      }
    }
  }

  /** Whether `t`, committed under `q`, revokes `fs`, and `q` is not below `n`. */
  ghost predicate RevokedBy(revokes: seq<nat>, q: nat, fs: nat, n: nat) {
    fs in revokes && q >= n
  }

  lemma {:induction false} AddRevokesHits(g: Geometry, revs: seq<Revoked>, revokes: seq<nat>, q: nat)
    requires |revs| + |revokes| <= MAX_REVOKES && forall i :: 0 <= i < |revokes| ==> revokes[i] < g.blocks
    ensures AddRevokes(g, revs, RevokedOf(revokes, q)).Some?
    ensures |AddRevokes(g, revs, RevokedOf(revokes, q)).value| <= |revs| + |revokes|
    ensures forall b, n :: Hits(AddRevokes(g, revs, RevokedOf(revokes, q)).value, b, n)
                           <==> Hits(revs, b, n) || RevokedBy(revokes, q, b, n)
    decreases |revokes|
  {
    hide Hits, AddRevoke;
    var more := RevokedOf(revokes, q);
    if revokes != [] {
      AddRevokeHits(g, revs, revokes[0], q);
      var revs' := AddRevoke(g, revs, MAX_REVOKES, revokes[0], q, true).value;
      assert more[1..] == RevokedOf(revokes[1..], q);
      AddRevokesHits(g, revs', revokes[1..], q);
    }
  }

  /** The revoke table once the revokes of `t` have been merged in. */
  function Merge(g: Geometry, revs: seq<Revoked>, q: nat, t: Tx): seq<Revoked> {
    match AddRevokes(g, revs, RevokedOf(t.revokes, q))
    case Some(r) => r
    case None => revs
  }

  /** Room left in the replay tables for `k` more transactions. */
  ghost predicate Room(ups: seq<Update>, revs: seq<Revoked>, k: nat) {
    |ups| + k * TX_MAX_BLOCKS <= MAX_UPDATES && |revs| + k * TX_MAX_REVOKES <= MAX_REVOKES
  }

  lemma ScanCommit(g: Geometry, log: Log, s: Scan, t: Tx)
    requires LogOk(g, log) && g.In(s.cursor) && s.seqno < WORD && s.open && TxOk(g, t)
    requires log[s.cursor] == CommitBlock(g, s.seqno)
    requires Room(s.ups, s.revs, 1) && s.txRevs == RevokedOf(t.revokes, s.seqno)
    requires |s.txUps| <= TX_MAX_BLOCKS && forall i :: 0 <= i < |s.txUps| ==> s.txUps[i].fs < g.blocks && g.In(s.txUps[i].jblock)
    ensures ScanStep(g, log, s) ==
            Next(Idle(g.At(s.cursor, 1), (s.seqno + 1) % WORD, s.ups + s.txUps, Merge(g, s.revs, s.seqno, t), s.replayed + 1))
  {
    hide RdBe32, CommitBlock, IsHeader, Header, AddRevokes, AddUpdates, Hits;
    RecordHeaders(g, s.seqno, [], []);
    HeaderOf(g, log[s.cursor], COMMIT, s.seqno);
    AddUpdatesAppends(g, s.ups, s.txUps);
    AddRevokesHits(g, s.revs, t.revokes, s.seqno);
  }

  function TxSteps(g: Geometry, t: Tx): nat
    requires g.Valid()
  {
    DescCount(g, |t.dirty|) + RevokeCount(g, |t.revokes|) + 1
  }

  /** Replay reads revoke blocks only on a journal that has the feature. */
  predicate Readable(g: Geometry, t: Tx) { g.hasRevoke || t.revokes == [] }

  /** The scan of one committed transaction: its images and revokes join the tables, the
      cursor is just past its commit block, and the next sequence number is expected. */
  lemma ScanTx(g: Geometry, log: Log, pos: nat, q: nat, t: Tx, ups: seq<Update>, revs: seq<Revoked>, n: nat, fuel: nat)
    requires Readable(g, t) && LogOk(g, log) && g.In(pos) && q < WORD && TxOk(g, t) && Room(ups, revs, 1)
    requires |Emit(g, q, t)| < g.Ring() && Holds(g, log, pos, Emit(g, q, t))
    ensures ScanLoop(g, log, Idle(pos, q, ups, revs, n), TxSteps(g, t) + fuel)
            == ScanLoop(g, log, Idle(g.At(pos, |Emit(g, q, t)|), (q + 1) % WORD,
                                     ups + TxUpdates(g, q, pos, t.dirty), Merge(g, revs, q, t), n + 1), fuel)
  {
    hide ScanStep, ScanLoop, EmitDescs, EmitRevokes, CommitBlock, Holds, TxUpdates, Merge, DescCount, RevokeCount;
    var a, b, c := EmitDescs(g, q, t.dirty), EmitRevokes(g, q, t.revokes), [CommitBlock(g, q)];
    HoldsSplit(g, log, pos, a + b, c);
    HoldsSplit(g, log, pos, a, b);
    var s0 := Idle(pos, q, ups, revs, n);
    var nr := RevokeCount(g, |t.revokes|);
    ScanDescs(g, log, s0, t.dirty, nr + 1 + fuel);
    var s1 := AfterDescs(g, s0, t.dirty);
    ScanRevokes(g, log, s1, t.revokes, 1 + fuel);
    var s2 := AfterRevokes(g, s1, t.revokes);
    assert s2.txUps == TxUpdates(g, q, pos, t.dirty) && s2.txRevs == RevokedOf(t.revokes, q);
    HoldsOne(g, log, s2.cursor, CommitBlock(g, q));
    assert |t.dirty| + |t.revokes| > 0;
    ScanCommit(g, log, s2, t);
    ScanLoopStep(g, log, s2, Idle(g.At(s2.cursor, 1), (q + 1) % WORD, ups + s2.txUps, Merge(g, revs, q, t), n + 1), 1, fuel);
  }

  /** The scan of one that revokes something on a journal without the feature. */
  lemma ScanTxFails(g: Geometry, log: Log, pos: nat, q: nat, t: Tx, ups: seq<Update>, revs: seq<Revoked>, n: nat, fuel: nat)
    requires !Readable(g, t) && LogOk(g, log) && g.In(pos) && q < WORD && TxOk(g, t)
    requires |Emit(g, q, t)| < g.Ring() && Holds(g, log, pos, Emit(g, q, t))
    ensures ScanLoop(g, log, Idle(pos, q, ups, revs, n), TxSteps(g, t) + fuel) == Failed
  {
    hide ScanStep, EmitDescs, EmitRevokes, CommitBlock, Holds, TxUpdates, DescCount;
    var a, b, c := EmitDescs(g, q, t.dirty), EmitRevokes(g, q, t.revokes), [CommitBlock(g, q)];
    HoldsSplit(g, log, pos, a + b, c);
    HoldsSplit(g, log, pos, a, b);
    var s0 := Idle(pos, q, ups, revs, n);
    var nr := RevokeCount(g, |t.revokes|);
    ScanDescs(g, log, s0, t.dirty, nr + 1 + fuel);
    ScanRevokesFail(g, log, AfterDescs(g, s0, t.dirty), t.revokes);
  }

  lemma HoldsOne(g: Geometry, log: Log, pos: nat, b: Block)
    requires Holds(g, log, pos, [b])
    ensures log[pos] == b
  {
    assert log[g.At(pos, 0)] == [b][0];
  }

  // ---- a chain of committed transactions ----

  /** Every transaction is well formed and no sequence number passes the top of 32 bits. */
  ghost predicate ChainOk(g: Geometry, d: seq<Tx>) {
    g.Valid() && forall i :: 0 <= i < |d| ==> TxOk(g, d[i])
  }

  /** The log of the transactions `d`, numbered from `q`, in ring order. */
  function Chain(g: Geometry, q: nat, d: seq<Tx>): seq<Block>
    requires ChainOk(g, d)
    decreases |d|
  {
    if d == [] then [] else Emit(g, q, d[0]) + Chain(g, (q + 1) % WORD, d[1..])
  }

  /** The sequence number of transaction `i` of a chain that starts at `q`. */
  function SeqAt(q: nat, i: nat): (r: nat)
    ensures q < WORD ==> r < WORD
    decreases i
  {
    if i == 0 then q else (SeqAt(q, i - 1) + 1) % WORD
  }

  lemma {:induction false} SeqAtNext(q: nat, i: nat)
    ensures SeqAt((q + 1) % WORD, i) == SeqAt(q, i + 1)
  {
    if i > 0 {
      SeqAtNext(q, i - 1);
    }
  }

  function ChainUpdates(g: Geometry, q: nat, pos: nat, d: seq<Tx>): (s: seq<Update>)
    requires ChainOk(g, d) && g.In(pos) && |Chain(g, q, d)| < g.Ring()
    decreases |d|
  {
    if d == [] then []
    else TxUpdates(g, q, pos, d[0].dirty) + ChainUpdates(g, (q + 1) % WORD, g.At(pos, |Emit(g, q, d[0])|), d[1..])
  }

  function ChainRevokes(g: Geometry, revs: seq<Revoked>, q: nat, d: seq<Tx>): seq<Revoked>
    requires ChainOk(g, d)
    decreases |d|
  {
    if d == [] then revs else ChainRevokes(g, Merge(g, revs, q, d[0]), (q + 1) % WORD, d[1..])
  }

  function ChainSteps(g: Geometry, d: seq<Tx>): nat
    requires ChainOk(g, d)
    decreases |d|
  {
    if d == [] then 0 else TxSteps(g, d[0]) + ChainSteps(g, d[1..])
  }

  lemma MergeRoom(g: Geometry, ups: seq<Update>, more: seq<Update>, revs: seq<Revoked>, q: nat, t: Tx, k: nat)
    requires TxOk(g, t) && Room(ups, revs, k + 1) && |more| == |t.dirty|
    ensures Room(ups + more, Merge(g, revs, q, t), k)
  {
    hide AddRevokes, Hits;
    AddRevokesHits(g, revs, t.revokes, q);
  }

  /** The first transaction of a chain and the rest. */
  lemma ChainCons(g: Geometry, q: nat, pos: nat, d: seq<Tx>, revs: seq<Revoked>)
    requires ChainOk(g, d) && d != [] && g.In(pos) && |Chain(g, q, d)| < g.Ring()
    ensures g.Valid() && TxOk(g, d[0]) && Images(g, d[0].dirty) && |d[0].dirty| <= TX_MAX_BLOCKS && ChainOk(g, d[1..])
    ensures Chain(g, q, d) == Emit(g, q, d[0]) + Chain(g, (q + 1) % WORD, d[1..])
    ensures |EmitDescs(g, q, d[0].dirty)| < |Emit(g, q, d[0])| < g.Ring()
    ensures ChainUpdates(g, q, pos, d)
            == TxUpdates(g, q, pos, d[0].dirty) + ChainUpdates(g, (q + 1) % WORD, g.At(pos, |Emit(g, q, d[0])|), d[1..])
    ensures ChainRevokes(g, revs, q, d) == ChainRevokes(g, Merge(g, revs, q, d[0]), (q + 1) % WORD, d[1..])
    ensures ChainSteps(g, d) == TxSteps(g, d[0]) + ChainSteps(g, d[1..])
  {
    hide TxUpdates, EmitDescs, EmitRevokes, CommitBlock, Merge, TxSteps;
  }

  lemma ChainNil(g: Geometry, q: nat, pos: nat, revs: seq<Revoked>)
    requires g.Valid() && g.In(pos)
    ensures Chain(g, q, []) == [] && ChainUpdates(g, q, pos, []) == [] && ChainRevokes(g, revs, q, []) == revs
    ensures ChainSteps(g, []) == 0 && SeqAt(q, 0) == q
  {
  }

  ghost predicate AllReadable(g: Geometry, d: seq<Tx>) { forall i :: 0 <= i < |d| ==> Readable(g, d[i]) }

  /** Scanning a chain adds exactly its transactions to the tables, in order. */
  lemma {:induction false} ScanChain(g: Geometry, log: Log, pos: nat, q: nat, d: seq<Tx>, ups: seq<Update>, revs: seq<Revoked>, n: nat, fuel: nat)
    requires AllReadable(g, d) && g.Valid() && LogOk(g, log) && ChainOk(g, d) && g.In(pos) && q < WORD && Room(ups, revs, |d|)
    requires |Chain(g, q, d)| < g.Ring() && Holds(g, log, pos, Chain(g, q, d))
    ensures ScanLoop(g, log, Idle(pos, q, ups, revs, n), ChainSteps(g, d) + fuel)
            == ScanLoop(g, log, Idle(g.At(pos, |Chain(g, q, d)|), SeqAt(q, |d|), ups + ChainUpdates(g, q, pos, d),
                                     ChainRevokes(g, revs, q, d), n + |d|), fuel)
    decreases |d|
  {
    hide ScanLoop, Emit, Holds, TxUpdates, Merge, TxSteps, TxOk, Room, LogOk, ChainOk,
         Chain, ChainUpdates, ChainRevokes, ChainSteps, SeqAt, EmitDescs;
    if d == [] {
      ChainNil(g, q, pos, revs);
      assert ups + [] == ups;
    } else {
      var t, q1 := d[0], (q + 1) % WORD;
      ChainCons(g, q, pos, d, revs);
      var e, rest := Emit(g, q, t), Chain(g, q1, d[1..]);
      HoldsSplit(g, log, pos, e, rest);
      RoomOne(ups, revs, |d|);
      ScanTx(g, log, pos, q, t, ups, revs, n, ChainSteps(g, d[1..]) + fuel);
      var ups1, revs1, pos1 := TxUpdates(g, q, pos, t.dirty), Merge(g, revs, q, t), g.At(pos, |e|);
      MergeRoom(g, ups, ups1, revs, q, t, |d| - 1);
      ScanChain(g, log, pos1, q1, d[1..], ups + ups1, revs1, n + 1, fuel);
      SeqAtNext(q, |d| - 1);
      assert ups + ups1 + ChainUpdates(g, q1, pos1, d[1..]) == ups + (ups1 + ChainUpdates(g, q1, pos1, d[1..]));
      assert g.At(pos1, |rest|) == g.At(pos, |e + rest|);
    }
  }

  lemma RoomOne(ups: seq<Update>, revs: seq<Revoked>, k: nat)
    requires Room(ups, revs, k) && k > 0
    ensures Room(ups, revs, 1)
  {
  }

  /** ... unless one of them cannot be read: then it fails there. */
  lemma {:induction false} ScanChainFails(g: Geometry, log: Log, pos: nat, q: nat, d: seq<Tx>, ups: seq<Update>, revs: seq<Revoked>, n: nat, fuel: nat)
    requires !AllReadable(g, d) && g.Valid() && LogOk(g, log) && ChainOk(g, d) && g.In(pos) && q < WORD && Room(ups, revs, |d|)
    requires |Chain(g, q, d)| < g.Ring() && Holds(g, log, pos, Chain(g, q, d))
    ensures ScanLoop(g, log, Idle(pos, q, ups, revs, n), ChainSteps(g, d) + fuel) == Failed
    decreases |d|
  {
    hide ScanLoop, Emit, Holds, TxUpdates, Merge, TxSteps, TxOk, Room, LogOk, ChainOk,
         Chain, ChainUpdates, ChainRevokes, ChainSteps, SeqAt, EmitDescs;
    var t, q1 := d[0], (q + 1) % WORD;
    ChainCons(g, q, pos, d, revs);
    var e, rest := Emit(g, q, t), Chain(g, q1, d[1..]);
    HoldsSplit(g, log, pos, e, rest);
    if !Readable(g, t) {
      ScanTxFails(g, log, pos, q, t, ups, revs, n, ChainSteps(g, d[1..]) + fuel);
    } else {
      RoomOne(ups, revs, |d|);
      ScanTx(g, log, pos, q, t, ups, revs, n, ChainSteps(g, d[1..]) + fuel);
      var ups1, revs1, pos1 := TxUpdates(g, q, pos, t.dirty), Merge(g, revs, q, t), g.At(pos, |e|);
      MergeRoom(g, ups, ups1, revs, q, t, |d| - 1);
      assert !AllReadable(g, d[1..]) by {
        var i :| 0 <= i < |d| && !Readable(g, d[i]);
        assert d[1..][i - 1] == d[i];
      }
      ScanChainFails(g, log, pos1, q1, d[1..], ups + ups1, revs1, n + 1, fuel);
    }
  }

  /** Replay of an intact log. If every transaction can be read it stops just past the last
      commit block, having found every transaction of the chain and nothing else; otherwise, on
      a journal without the revoke feature that holds a revoke, it fails. */
  lemma ReplayFindsChain(g: Geometry, log: Log, pos: nat, q: nat, d: seq<Tx>)
    requires LogOk(g, log) && ChainOk(g, d) && g.In(pos) && q < WORD && |d| <= 16 && ChainSteps(g, d) < Guard(g)
    requires |Chain(g, q, d)| < g.Ring() && Holds(g, log, pos, Chain(g, q, d))
    requires !IsHeader(log[g.At(pos, |Chain(g, q, d)|)], SeqAt(q, |d|))
    ensures Replay(g, log, pos, q) ==
            if AllReadable(g, d)
            then Done(Idle(g.At(pos, |Chain(g, q, d)|), SeqAt(q, |d|), ChainUpdates(g, q, pos, d), ChainRevokes(g, [], q, d), |d|))
            else Failed
  {
    hide Chain, Holds, ChainUpdates, ChainRevokes, IsHeader, ChainSteps, SeqAt, Guard;
    var fuel := Guard(g) - ChainSteps(g, d);
    if AllReadable(g, d) {
      ScanChain(g, log, pos, q, d, [], [], 0, fuel);
      assert [] + ChainUpdates(g, q, pos, d) == ChainUpdates(g, q, pos, d);
    } else {
      ScanChainFails(g, log, pos, q, d, [], [], 0, fuel);
    }
  }

  // ---- the guard ----

  lemma {:induction false} DescCountAtMost(g: Geometry, n: nat, k: nat)
    requires g.Valid() && n <= k * TagsPerDesc(g)
    ensures DescCount(g, n) <= k
    decreases k
  {
    hide TagsPerDesc;
    if n > 0 {
      var c := Chunk(n, TagsPerDesc(g));
      assert k * TagsPerDesc(g) == (k - 1) * TagsPerDesc(g) + TagsPerDesc(g);
      DescCountAtMost(g, n - c, k - 1);
    }
  }

  lemma {:induction false} RevokeCountAtMost(g: Geometry, n: nat, k: nat)
    requires g.Valid() && n <= k * RevokesPerBlock(g)
    ensures RevokeCount(g, n) <= k
    decreases k
  {
    hide RevokesPerBlock;
    if n > 0 {
      var c := Chunk(n, RevokesPerBlock(g));
      assert k * RevokesPerBlock(g) == (k - 1) * RevokesPerBlock(g) + RevokesPerBlock(g);
      RevokeCountAtMost(g, n - c, k - 1);
    }
  }

  /** The records of a transaction take at most ten turns of the scan. */
  lemma TxStepsAtMost(g: Geometry, t: Tx)
    requires g.Valid() && TxOk(g, t)
    ensures TxSteps(g, t) <= 10
  {
    hide DescCount, RevokeCount;
    assert TagsPerDesc(g) >= 84 && RevokesPerBlock(g) >= 126;
    DescCountAtMost(g, |t.dirty|, 4);
    RevokeCountAtMost(g, |t.revokes|, 5);
  }

  /** So the floor of 64 turns is enough for six transactions, one more than recovery ever
      meets, whatever the 32-bit product of the guard is. */
  lemma {:induction false} GuardCovers(g: Geometry, d: seq<Tx>)
    requires ChainOk(g, d) && |d| <= 6
    ensures ChainSteps(g, d) <= 10 * |d| && ChainSteps(g, d) < Guard(g)
    decreases |d|
  {
    hide TxOk, TxSteps;
    if d != [] {
      assert TxOk(g, d[0]);
      TxStepsAtMost(g, d[0]);
      GuardCovers(g, d[1..]);
    }
  }
}
