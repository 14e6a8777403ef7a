/** The writes of a commit in program order, and what replay makes of the log when a crash
    lets only a prefix of them reach the disk (kernel/ext4.c). */
module JournalCrash {
  import opened Bytes
  import opened JournalRing
  import opened JournalFormat
  import opened JournalScan
  import opened JournalChain

  datatype Write = Write(pos: nat, blk: Block)

  function PutOne(log: Log, w: Write): Log {
    if w.pos < |log| then log[w.pos := w.blk] else log
  }

  function Put(log: Log, ws: seq<Write>): (r: Log)
    ensures |r| == |log|
    decreases |ws|
  {
    if ws == [] then log else Put(PutOne(log, ws[0]), ws[1..])
  }

  lemma {:induction false} PutAppend(log: Log, a: seq<Write>, b: seq<Write>)
    ensures Put(log, a + b) == Put(Put(log, a), b)
    decreases |a|
  {
    if a == [] {
      assert a + b == b;
    } else {
      assert (a + b)[1..] == a[1..] + b;
      PutAppend(PutOne(log, a[0]), a[1..], b);
    }
  }

  /** Every write goes to the segment of `n` ring blocks at `pos`, skipping its first `k`. */
  ghost predicate Within(g: Geometry, pos: nat, k: nat, n: nat, ws: seq<Write>) {
    forall i :: 0 <= i < |ws| ==> g.In(ws[i].pos) && k <= RingDistance(g, pos, ws[i].pos) < n && |ws[i].blk| == g.bs
  }

  lemma {:induction false} PutFrame(g: Geometry, log: Log, pos: nat, k: nat, n: nat, ws: seq<Write>)
    requires LogOk(g, log) && g.In(pos) && Within(g, pos, k, n, ws)
    ensures LogOk(g, Put(log, ws))
    ensures forall p :: 0 <= p < |log| && !(g.In(p) && k <= RingDistance(g, pos, p) < n) ==> Put(log, ws)[p] == log[p]
    decreases |ws|
  {
    hide RingDistance;
    if ws != [] {
      PutFrame(g, PutOne(log, ws[0]), pos, k, n, ws[1..]);
    }
  }

  // ---- the writes of a commit ----

  function DataWrites(g: Geometry, pos: nat, imgs: seq<Image>): (ws: seq<Write>)
    requires g.In(pos) && |imgs| <= g.Ring() && forall i :: 0 <= i < |imgs| ==> |imgs[i].data| >= 4
    ensures |ws| == |imgs|
  {
    seq(|imgs|, i requires 0 <= i < |imgs| => Write(g.At(pos, i), Escaped(imgs[i].data)))
  }

  /** One descriptor group: the data blocks are written before the descriptor. */
  function GroupWrites(g: Geometry, q: nat, pos: nat, imgs: seq<Image>): (ws: seq<Write>)
    requires g.Valid() && Images(g, imgs) && |imgs| <= TagsPerDesc(g) && g.In(pos) && |imgs| < g.Ring()
    ensures |ws| == |imgs| + 1
  {
    DataWrites(g, g.At(pos, 1), imgs) + [Write(pos, DescBlock(g, q, imgs))]
  }

  function GroupBlocks(g: Geometry, q: nat, imgs: seq<Image>): (bs: seq<Block>)
    requires g.Valid() && Images(g, imgs) && |imgs| <= TagsPerDesc(g)
    ensures |bs| == |imgs| + 1
  {
    [DescBlock(g, q, imgs)] + DataBlocks(imgs)
  }

  /** The ring blocks of what is left of a transaction: images, revokes, commit block. */
  function Body(g: Geometry, q: nat, dirty: seq<Image>, revs: seq<nat>): seq<Block>
    requires g.Valid() && Images(g, dirty)
  {
    EmitDescs(g, q, dirty) + EmitRevokes(g, q, revs) + [CommitBlock(g, q)]
  }

  /** Program order: the data blocks of a group, then its descriptor; the revoke blocks; the
      commit block last. */
  function BodyWrites(g: Geometry, q: nat, pos: nat, dirty: seq<Image>, revs: seq<nat>): (ws: seq<Write>)
    requires g.Valid() && Images(g, dirty) && g.In(pos) && |Body(g, q, dirty, revs)| <= g.Ring()
    ensures |ws| > 0
    decreases |dirty| + |revs|
  {
    hide Body, GroupWrites, TagsPerDesc, RevokesPerBlock, RevokeBlock, CommitBlock, GroupBlocks;
    BodyAtLeast(g, q, dirty, revs);
    if dirty != [] then
      var c := Chunk(|dirty|, TagsPerDesc(g));
      BodyDesc(g, q, dirty, revs, c);
      GroupWrites(g, q, pos, dirty[..c]) + BodyWrites(g, q, g.At(pos, c + 1), dirty[c..], revs)
    else if revs != [] then
      var c := Chunk(|revs|, RevokesPerBlock(g));
      BodyRevoke(g, q, revs, c);
      [Write(pos, RevokeBlock(g, q, revs[..c]))] + BodyWrites(g, q, g.At(pos, 1), dirty, revs[c..])
    else [Write(pos, CommitBlock(g, q))]
  }

  lemma BodyDesc(g: Geometry, q: nat, dirty: seq<Image>, revs: seq<nat>, c: nat)
    requires g.Valid() && Images(g, dirty) && dirty != [] && c == Chunk(|dirty|, TagsPerDesc(g))
    ensures Body(g, q, dirty, revs)
            == GroupBlocks(g, q, dirty[..c]) + Body(g, q, dirty[c..], revs)
  {
    hide DescBlock, DataBlocks, EmitRevokes, CommitBlock, TagsPerDesc;
  }

  lemma BodyRevoke(g: Geometry, q: nat, revs: seq<nat>, c: nat)
    requires g.Valid() && revs != [] && c == Chunk(|revs|, RevokesPerBlock(g))
    ensures Body(g, q, [], revs) == [RevokeBlock(g, q, revs[..c])] + Body(g, q, [], revs[c..])
  {
    hide RevokeBlock, CommitBlock, RevokesPerBlock;
  }

  lemma DataWithin(g: Geometry, pos: nat, imgs: seq<Image>)
    requires g.Valid() && g.In(pos) && Images(g, imgs) && |imgs| < g.Ring()
    ensures Within(g, pos, 0, |imgs|, DataWrites(g, pos, imgs))
  {
    hide Escaped;
  }

  lemma {:induction false} PutData(g: Geometry, log: Log, pos: nat, imgs: seq<Image>)
    requires LogOk(g, log) && g.In(pos) && Images(g, imgs) && |imgs| < g.Ring()
    ensures Holds(g, Put(log, DataWrites(g, pos, imgs)), pos, DataBlocks(imgs))
    decreases |imgs|
  {
    hide Escaped, Put, Within;
    if imgs == [] {
      PutNothing(log);
    } else {
      var n := |imgs| - 1;
      var ws, blk := DataWrites(g, pos, imgs[..n]), Escaped(imgs[n].data);
      PutData(g, log, pos, imgs[..n]);
      assert DataWrites(g, pos, imgs) == ws + [Write(g.At(pos, n), blk)];
      PutAppend(log, ws, [Write(g.At(pos, n), blk)]);
      assert DataBlocks(imgs) == DataBlocks(imgs[..n]) + [blk];
      DataWithin(g, pos, imgs[..n]);
      PutFrame(g, log, pos, 0, n, ws);
      PutLast(g, Put(log, ws), pos, DataBlocks(imgs[..n]), blk);
    }
  }

  lemma PutNothing(log: Log)
    ensures Put(log, []) == log
  {
  }

  lemma PutLast(g: Geometry, log: Log, pos: nat, a: seq<Block>, blk: Block)
    requires Holds(g, log, pos, a) && |a| < g.Ring() && |blk| == g.bs
    ensures Holds(g, Put(log, [Write(g.At(pos, |a|), blk)]), pos, a + [blk])
  {
    assert Put(log, [Write(g.At(pos, |a|), blk)]) == PutOne(log, Write(g.At(pos, |a|), blk));
  }

  lemma WithinShift(g: Geometry, pos: nat, k: nat, n: nat, ws: seq<Write>)
    requires g.Valid() && g.In(pos) && k + n <= g.Ring() && k < g.Ring() && Within(g, g.At(pos, k), 0, n, ws)
    ensures Within(g, pos, k, k + n, ws)
  {
    forall i | 0 <= i < |ws| ensures k <= RingDistance(g, pos, ws[i].pos) < k + n {
      assert RingDistance(g, g.At(pos, k), ws[i].pos) < n;
    }
  }

  lemma HoldsJoin(g: Geometry, log: Log, pos: nat, a: seq<Block>, b: seq<Block>)
    requires |a| + |b| <= g.Ring() && Holds(g, log, pos, a) && Holds(g, log, g.At(pos, |a|), b)
    ensures Holds(g, log, pos, a + b)
  {
    forall i | 0 <= i < |a + b| ensures log[g.At(pos, i)] == (a + b)[i] {
      if i >= |a| {
        assert g.At(pos, i) == g.At(g.At(pos, |a|), i - |a|);
      }
    }
  }

  /** Writes past the first `|a|` blocks of a segment leave those blocks alone. */
  lemma HoldsFrame(g: Geometry, log: Log, pos: nat, a: seq<Block>, n: nat, ws: seq<Write>)
    requires Holds(g, log, pos, a) && |a| < g.Ring() && Within(g, pos, |a|, n, ws)
    ensures Holds(g, Put(log, ws), pos, a)
  {
    PutFrame(g, log, pos, |a|, n, ws);
    forall i | 0 <= i < |a| ensures Put(log, ws)[g.At(pos, i)] == a[i] {
      assert RingDistance(g, pos, g.At(pos, i)) == i;
    }
  }

  lemma PutGroup(g: Geometry, log: Log, q: nat, pos: nat, imgs: seq<Image>)
    requires LogOk(g, log) && g.In(pos) && Images(g, imgs) && |imgs| <= TagsPerDesc(g) && |imgs| + 1 < g.Ring()
    ensures Within(g, pos, 0, |imgs| + 1, GroupWrites(g, q, pos, imgs))
    ensures Holds(g, Put(log, GroupWrites(g, q, pos, imgs)), pos, GroupBlocks(g, q, imgs))
  {
    hide DescBlock, DataBlocks, DataWrites, TagsPerDesc, Holds, Put;
    var ws, blk := DataWrites(g, g.At(pos, 1), imgs), DescBlock(g, q, imgs);
    PutData(g, log, g.At(pos, 1), imgs);
    DataWithin(g, g.At(pos, 1), imgs);
    WithinShift(g, pos, 1, |imgs|, ws);
    PutAppend(log, ws, [Write(pos, blk)]);
    PutBefore(g, Put(log, ws), pos, blk, DataBlocks(imgs));
  }

  lemma PutBefore(g: Geometry, log: Log, pos: nat, blk: Block, a: seq<Block>)
    requires g.In(pos) && Holds(g, log, g.At(pos, 1), a) && |a| + 1 <= g.Ring() && |blk| == g.bs
    ensures Holds(g, Put(log, [Write(pos, blk)]), pos, [blk] + a)
  {
    var log' := Put(log, [Write(pos, blk)]);
    assert log' == PutOne(log, Write(pos, blk));
    forall i | 0 <= i < |a| + 1 ensures log'[g.At(pos, i)] == ([blk] + a)[i] {
      if i > 0 {
        assert g.At(pos, i) == g.At(g.At(pos, 1), i - 1);
      }
    }
  }

  /** All writes of a commit together: the segment then holds the emitted blocks in ring
      order, and nothing outside the segment has changed. */
  lemma {:induction false} PutBody(g: Geometry, log: Log, q: nat, pos: nat, dirty: seq<Image>, revs: seq<nat>)
    requires LogOk(g, log) && g.In(pos) && Images(g, dirty) && |Body(g, q, dirty, revs)| < g.Ring()
    ensures Within(g, pos, 0, |Body(g, q, dirty, revs)|, BodyWrites(g, q, pos, dirty, revs))
    ensures Holds(g, Put(log, BodyWrites(g, q, pos, dirty, revs)), pos, Body(g, q, dirty, revs))
    decreases |dirty| + |revs|, 0
  {
    hide Holds, Within, Put, TagsPerDesc, RevokesPerBlock, Body, GroupBlocks, GroupWrites, RevokeBlock, CommitBlock;
    if dirty != [] {
      var c := Chunk(|dirty|, TagsPerDesc(g));
      BodyDesc(g, q, dirty, revs, c);
      var a, b := GroupBlocks(g, q, dirty[..c]), Body(g, q, dirty[c..], revs);
      var wa, wb := GroupWrites(g, q, pos, dirty[..c]), BodyWrites(g, q, g.At(pos, c + 1), dirty[c..], revs);
      PutGroup(g, log, q, pos, dirty[..c]);
      PutThen(g, log, q, pos, a, b, wa, wb, dirty[c..], revs);
    } else if revs != [] {
      var c := Chunk(|revs|, RevokesPerBlock(g));
      BodyRevoke(g, q, revs, c);
      var a, b := [RevokeBlock(g, q, revs[..c])], Body(g, q, [], revs[c..]);
      var wa, wb := [Write(pos, a[0])], BodyWrites(g, q, g.At(pos, 1), [], revs[c..]);
      PutSingle(g, log, pos, a[0]);
      PutThen(g, log, q, pos, a, b, wa, wb, [], revs[c..]);
    } else {
      BodyNil(g, q);
      PutSingle(g, log, pos, CommitBlock(g, q));
    }
  }

  lemma BodyNil(g: Geometry, q: nat)
    requires g.Valid()
    ensures Body(g, q, [], []) == [CommitBlock(g, q)]
  {
    hide CommitBlock;
  }

  lemma PutSingle(g: Geometry, log: Log, pos: nat, blk: Block)
    requires LogOk(g, log) && g.In(pos) && |blk| == g.bs && 1 < g.Ring()
    ensures Within(g, pos, 0, 1, [Write(pos, blk)]) && Holds(g, Put(log, [Write(pos, blk)]), pos, [blk])
  {
    assert Put(log, [Write(pos, blk)]) == PutOne(log, Write(pos, blk));
  }

  /** The writes of a first part followed by those of the rest. */
  lemma {:induction false} PutThen(g: Geometry, log: Log, q: nat, pos: nat, a: seq<Block>, b: seq<Block>,
                wa: seq<Write>, wb: seq<Write>, dirty: seq<Image>, revs: seq<nat>)
    requires LogOk(g, log) && g.In(pos) && Images(g, dirty) && 0 < |a| && |a| + |b| < g.Ring()
    requires Within(g, pos, 0, |a|, wa) && Holds(g, Put(log, wa), pos, a)
    requires b == Body(g, q, dirty, revs) && wb == BodyWrites(g, q, g.At(pos, |a|), dirty, revs)
    ensures Within(g, pos, 0, |a| + |b|, wa + wb) && Holds(g, Put(log, wa + wb), pos, a + b)
    decreases |dirty| + |revs|, 1
  {
    hide Put, Body, BodyWrites;
    PutBody(g, Put(log, wa), q, g.At(pos, |a|), dirty, revs);
    WithinShift(g, pos, |a|, |b|, wb);
    HoldsFrame(g, Put(log, wa), pos, a, |a| + |b|, wb);
    PutAppend(log, wa, wb);
    HoldsJoin(g, Put(log, wa + wb), pos, a, b);
  }

  // ---- a crash in the middle of a commit ----

  /** No place where this transaction will put a descriptor, revoke or commit block holds a
      header with its sequence number already. */
  ghost predicate FreshHeads(g: Geometry, log: Log, q: nat, pos: nat, dirty: seq<Image>, revs: seq<nat>)
    requires LogOk(g, log) && Images(g, dirty) && g.In(pos) && |Body(g, q, dirty, revs)| < g.Ring()
    decreases |dirty| + |revs|
  {
    hide Body, TagsPerDesc, RevokesPerBlock, RevokeBlock, GroupBlocks, IsHeader;
    BodyAtLeast(g, q, dirty, revs);
    !IsHeader(log[pos], q) &&
    if dirty != [] then
      var c := Chunk(|dirty|, TagsPerDesc(g));
      BodyDesc(g, q, dirty, revs, c);
      FreshHeads(g, log, q, g.At(pos, c + 1), dirty[c..], revs)
    else if revs != [] then
      var c := Chunk(|revs|, RevokesPerBlock(g));
      BodyRevoke(g, q, revs, c);
      FreshHeads(g, log, q, g.At(pos, 1), [], revs[c..])
    else true
  }

  /** The place of the first descriptor, revoke or commit block that is not on disk when
      only the first `k` writes are. */
  function Boundary(g: Geometry, q: nat, pos: nat, dirty: seq<Image>, revs: seq<nat>, k: nat): (p: nat)
    requires g.Valid() && Images(g, dirty) && g.In(pos) && |Body(g, q, dirty, revs)| < g.Ring()
    ensures g.In(p)
    decreases |dirty| + |revs|
  {
    hide Body, TagsPerDesc, RevokesPerBlock, RevokeBlock, GroupBlocks;
    BodyAtLeast(g, q, dirty, revs);
    if dirty != [] then
      var c := Chunk(|dirty|, TagsPerDesc(g));
      BodyDesc(g, q, dirty, revs, c);
      if k <= c then pos else Boundary(g, q, g.At(pos, c + 1), dirty[c..], revs, k - c - 1)
    else if revs != [] then
      var c := Chunk(|revs|, RevokesPerBlock(g));
      BodyRevoke(g, q, revs, c);
      if k == 0 then pos else Boundary(g, q, g.At(pos, 1), [], revs[c..], k - 1)
    else pos
  }

  lemma {:induction false} FreshFrame(g: Geometry, log: Log, log': Log, q: nat, pos: nat, dirty: seq<Image>, revs: seq<nat>)
    requires LogOk(g, log) && LogOk(g, log') && Images(g, dirty) && g.In(pos) && |Body(g, q, dirty, revs)| < g.Ring()
    requires forall p: nat :: g.In(p) && RingDistance(g, pos, p) < |Body(g, q, dirty, revs)| ==> log'[p] == log[p]
    ensures FreshHeads(g, log, q, pos, dirty, revs) == FreshHeads(g, log', q, pos, dirty, revs)
    decreases |dirty| + |revs|
  {
    hide Body, IsHeader, TagsPerDesc, RevokesPerBlock, DescBlock, RevokeBlock, GroupBlocks;
    BodyNonEmpty(g, q, dirty, revs);
    assert RingDistance(g, pos, pos) == 0;
    if dirty != [] {
      var c := Chunk(|dirty|, TagsPerDesc(g));
      BodyDesc(g, q, dirty, revs, c);
      DistanceShift(g, pos, c + 1);
      FreshFrame(g, log, log', q, g.At(pos, c + 1), dirty[c..], revs);
    } else if revs != [] {
      var c := Chunk(|revs|, RevokesPerBlock(g));
      BodyRevoke(g, q, revs, c);
      DistanceShift(g, pos, 1);
      FreshFrame(g, log, log', q, g.At(pos, 1), [], revs[c..]);
    }
  }

  lemma BodyNonEmpty(g: Geometry, q: nat, dirty: seq<Image>, revs: seq<nat>)
    requires g.Valid() && Images(g, dirty)
    ensures |Body(g, q, dirty, revs)| > 0
  {
    hide CommitBlock, EmitDescs, EmitRevokes;
  }

  lemma DistanceShift(g: Geometry, pos: nat, k: nat)
    requires g.Valid() && g.In(pos) && k < g.Ring()
    ensures forall p: nat :: g.In(p) && k + RingDistance(g, g.At(pos, k), p) < g.Ring()
              ==> RingDistance(g, pos, p) == k + RingDistance(g, g.At(pos, k), p)
  {
  }

  /** The scan can take up the rest of the transaction from here. */
  ghost predicate Ready(g: Geometry, s: Scan, dirty: seq<Image>, revs: seq<nat>) {
    && g.Valid() && g.In(s.cursor) && s.seqno < WORD
    && Images(g, dirty) && Distinct(dirty) && Unseen(s.txUps, dirty, s.seqno) && |s.txUps| + |dirty| <= TX_MAX_BLOCKS
    && (dirty != [] ==> s.txRevs == []) && (g.hasRevoke || revs == [])
    && DistinctNats(revs) && (forall i :: 0 <= i < |revs| ==> revs[i] < g.blocks) && |s.txRevs| + |revs| <= TX_MAX_REVOKES
    && (forall i, k :: 0 <= i < |s.txRevs| && 0 <= k < |revs| ==> s.txRevs[i].fs != revs[k])
    && |Body(g, s.seqno, dirty, revs)| < g.Ring()
  }

  /** What replay must return: it stopped at `p` and kept nothing of the open transaction. */
  function Stopped(s: Scan, p: nat): Scanned { Done(Idle(p, s.seqno, s.ups, s.revs, s.replayed)) }

  lemma StopsHere(g: Geometry, log: Log, s: Scan, fuel: nat)
    requires LogOk(g, log) && g.In(s.cursor) && fuel > 0 && !IsHeader(log[s.cursor], s.seqno)
    ensures ScanLoop(g, log, s, fuel) == Stopped(s, s.cursor)
  {
    hide IsHeader, ParseDescriptor, ParseRevoke, RdBe32;
  }

  /** Before the descriptor of the first group is written, the scan stops at its place. */
  lemma CrashInGroup(g: Geometry, log: Log, s: Scan, imgs: seq<Image>, k: nat, fuel: nat)
    requires LogOk(g, log) && g.In(s.cursor) && Images(g, imgs) && |imgs| <= TagsPerDesc(g) && |imgs| + 1 < g.Ring()
    requires k <= |imgs| && fuel > 0 && !IsHeader(log[s.cursor], s.seqno)
    ensures LogOk(g, Put(log, GroupWrites(g, s.seqno, s.cursor, imgs)[..k]))
    ensures ScanLoop(g, Put(log, GroupWrites(g, s.seqno, s.cursor, imgs)[..k]), s, fuel) == Stopped(s, s.cursor)
  {
    hide IsHeader, Put, DescBlock, TagsPerDesc, DataWrites;
    var ws := DataWrites(g, g.At(s.cursor, 1), imgs);
    DataWithin(g, g.At(s.cursor, 1), imgs);
    WithinShift(g, s.cursor, 1, |imgs|, ws);
    assert GroupWrites(g, s.seqno, s.cursor, imgs)[..k] == ws[..k];
    PutFrame(g, log, s.cursor, 1, |imgs| + 1, ws[..k]);
    StopsHere(g, Put(log, ws[..k]), s, fuel);
  }

  /** The scan once it has collected the descriptor group of `imgs`. */
  function PastGroup(g: Geometry, s: Scan, imgs: seq<Image>): (r: Scan)
    requires g.In(s.cursor) && Images(g, imgs) && g.Valid() && |imgs| + 1 < g.Ring()
    ensures r.cursor == g.At(s.cursor, |imgs| + 1) && r.(cursor := s.cursor, open := s.open, txUps := s.txUps) == s
  {
    s.(cursor := g.At(s.cursor, |imgs| + 1), open := true, txUps := s.txUps + UpdatesOf(g, imgs, g.At(s.cursor, 1), s.seqno))
  }

  /** One more descriptor group is on disk: the scan collects it and goes on behind it. */
  lemma ScanGroup(g: Geometry, log: Log, s: Scan, dirty: seq<Image>, revs: seq<nat>, c: nat)
    requires LogOk(g, log) && Ready(g, s, dirty, revs) && dirty != [] && c == Chunk(|dirty|, TagsPerDesc(g))
    requires Images(g, dirty[..c]) && log[s.cursor] == DescBlock(g, s.seqno, dirty[..c]) && c + 1 < g.Ring()
    ensures ScanStep(g, log, s) == Next(PastGroup(g, s, dirty[..c])) && Ready(g, PastGroup(g, s, dirty[..c]), dirty[c..], revs)
  {
    hide ScanStep, DescBlock, UpdatesOf, TagsPerDesc, Body;
    UnseenLater(g, s.txUps, dirty, c, g.At(s.cursor, 1), s.seqno);
    ScanDesc(g, log, s, dirty[..c]);
    BodyDesc(g, s.seqno, dirty, revs, c);
  }

  lemma ScanRevokeGroup(g: Geometry, log: Log, s: Scan, revs: seq<nat>, c: nat)
    requires LogOk(g, log) && Ready(g, s, [], revs) && revs != [] && c == Chunk(|revs|, RevokesPerBlock(g))
    requires log[s.cursor] == RevokeBlock(g, s.seqno, revs[..c]) && 1 < g.Ring()
    ensures var s' := s.(cursor := g.At(s.cursor, 1), open := true, txRevs := s.txRevs + RevokedOf(revs[..c], s.seqno));
            ScanStep(g, log, s) == Next(s') && Ready(g, s', [], revs[c..])
  {
    hide ScanStep, RevokeBlock, RevokesPerBlock, Body;
    ScanRevoke(g, log, s, revs[..c]);
    BodyRevoke(g, s.seqno, revs, c);
  }

  /** Where the writes of the rest go, and that the group at `pos` stays as it is. */
  lemma RestLeavesHead(g: Geometry, log: Log, q: nat, pos: nat, a: nat, dirty: seq<Image>, revs: seq<nat>, k: nat)
    requires LogOk(g, log) && g.In(pos) && Images(g, dirty) && 0 < a && a + |Body(g, q, dirty, revs)| < g.Ring()
    requires k <= |BodyWrites(g, q, g.At(pos, a), dirty, revs)|
    ensures var log' := Put(log, BodyWrites(g, q, g.At(pos, a), dirty, revs)[..k]);
            LogOk(g, log') && log'[pos] == log[pos]
  {
    hide Put, Body, BodyWrites;
    var ws := BodyWrites(g, q, g.At(pos, a), dirty, revs);
    PutBody(g, log, q, g.At(pos, a), dirty, revs);
    WithinShift(g, pos, a, |Body(g, q, dirty, revs)|, ws);
    PutFrame(g, log, pos, a, a + |Body(g, q, dirty, revs)|, ws[..k]);
    assert RingDistance(g, pos, pos) == 0;
  }

  /** Writing the first group leaves the places of the rest as they were. */
  lemma HeadLeavesRest(g: Geometry, log: Log, q: nat, pos: nat, a: nat, wa: seq<Write>, dirty: seq<Image>, revs: seq<nat>)
    requires LogOk(g, log) && g.In(pos) && Images(g, dirty) && a + |Body(g, q, dirty, revs)| < g.Ring()
    requires Within(g, pos, 0, a, wa)
    ensures LogOk(g, Put(log, wa))
    ensures FreshHeads(g, log, q, g.At(pos, a), dirty, revs) == FreshHeads(g, Put(log, wa), q, g.At(pos, a), dirty, revs)
  {
    hide Put, Body, FreshHeads;
    PutFrame(g, log, pos, 0, a, wa);
    forall p: nat | g.In(p) && RingDistance(g, g.At(pos, a), p) < |Body(g, q, dirty, revs)|
      ensures Put(log, wa)[p] == log[p]
    {
      assert RingDistance(g, pos, p) >= a;
    }
    FreshFrame(g, log, Put(log, wa), q, g.At(pos, a), dirty, revs);
  }

  /** What is claimed of a crash after `k` writes of what is left of a transaction. */
  ghost predicate StopsAtBoundary(g: Geometry, log: Log, s: Scan, dirty: seq<Image>, revs: seq<nat>, k: nat, fuel: nat)
    requires LogOk(g, log) && Ready(g, s, dirty, revs)
  {
    var ws := BodyWrites(g, s.seqno, s.cursor, dirty, revs);
    k <= |ws| && LogOk(g, Put(log, ws[..k])) &&
    ScanLoop(g, Put(log, ws[..k]), s, fuel) == Stopped(s, Boundary(g, s.seqno, s.cursor, dirty, revs, k))
  }

  /** `n` writes and one turn of the scan later, with less left to write, the claim is the same. */
  ghost predicate SameStop(g: Geometry, log: Log, s: Scan, dirty: seq<Image>, revs: seq<nat>, k: nat,
                           log1: Log, s1: Scan, dirty1: seq<Image>, revs1: seq<nat>, n: nat, fuel: nat)
  {
    hide Body, BodyWrites, StopsAtBoundary, Unseen;
    && LogOk(g, log) && Ready(g, s, dirty, revs) && LogOk(g, log1) && Ready(g, s1, dirty1, revs1) && s1.seqno == s.seqno && n <= k && fuel > 0
    && |BodyWrites(g, s.seqno, s.cursor, dirty, revs)| == n + |BodyWrites(g, s.seqno, s1.cursor, dirty1, revs1)|
    && (StopsAtBoundary(g, log, s, dirty, revs, k, fuel) <==> StopsAtBoundary(g, log1, s1, dirty1, revs1, k - n, fuel - 1))
  }

  /** Past a complete descriptor group the question is the same about the rest. */
  lemma GroupShift(g: Geometry, log: Log, s: Scan, dirty: seq<Image>, revs: seq<nat>, c: nat, k: nat, fuel: nat)
    requires LogOk(g, log) && Ready(g, s, dirty, revs) && dirty != [] && c == Chunk(|dirty|, TagsPerDesc(g))
    requires c < k <= |BodyWrites(g, s.seqno, s.cursor, dirty, revs)| && fuel > 0 && c + 1 < g.Ring()
    ensures SameStop(g, log, s, dirty, revs, k, Put(log, GroupWrites(g, s.seqno, s.cursor, dirty[..c])), PastGroup(g, s, dirty[..c]), dirty[c..], revs, c + 1, fuel)
  {
    hide Put, Body, ScanStep, ScanLoop, TagsPerDesc, DescBlock, GroupWrites, Unseen, LogOk, Within, IsHeader, Holds, PastGroup, GroupBlocks, BodyWrites;
    var q, pos, j := s.seqno, s.cursor, k - c - 1;
    BodyDesc(g, q, dirty, revs, c);
    GroupPut(g, log, q, pos, dirty, revs, c, k);
    var log1, wb := Put(log, GroupWrites(g, q, pos, dirty[..c])), BodyWrites(g, q, g.At(pos, c + 1), dirty[c..], revs);
    var log' := Put(log1, wb[..j]);
    ScanGroup(g, log', s, dirty, revs, c);
    ScanLoopStep(g, log', s, PastGroup(g, s, dirty[..c]), 1, fuel - 1);
  }

  lemma BodyWritesCut(g: Geometry, q: nat, pos: nat, dirty: seq<Image>, revs: seq<nat>, c: nat, k: nat)
    requires g.Valid() && g.In(pos) && Images(g, dirty) && |Body(g, q, dirty, revs)| < g.Ring()
    requires dirty != [] && c == Chunk(|dirty|, TagsPerDesc(g)) && c < k <= |BodyWrites(g, q, pos, dirty, revs)| && c + 1 < g.Ring()
    requires Images(g, dirty[..c]) && Images(g, dirty[c..]) && |Body(g, q, dirty[c..], revs)| < g.Ring()
    ensures var wb := BodyWrites(g, q, g.At(pos, c + 1), dirty[c..], revs);
            |BodyWrites(g, q, pos, dirty, revs)| == c + 1 + |wb| &&
            BodyWrites(g, q, pos, dirty, revs)[..k] == GroupWrites(g, q, pos, dirty[..c]) + wb[..k - c - 1]
  {
    hide Body, TagsPerDesc, DescBlock, GroupWrites, GroupBlocks;
  }

  /** The first `k` writes are the whole group, whose descriptor then stays in place, and some of the rest. */
  lemma GroupPut(g: Geometry, log: Log, q: nat, pos: nat, dirty: seq<Image>, revs: seq<nat>, c: nat, k: nat)
    requires g.Valid() && LogOk(g, log) && g.In(pos) && Images(g, dirty) && |Body(g, q, dirty, revs)| < g.Ring()
    requires dirty != [] && c == Chunk(|dirty|, TagsPerDesc(g)) && c < k <= |BodyWrites(g, q, pos, dirty, revs)| && c + 1 < g.Ring()
    requires Images(g, dirty[..c]) && Images(g, dirty[c..]) && |Body(g, q, dirty[c..], revs)| < g.Ring()
    ensures var log1, wb := Put(log, GroupWrites(g, q, pos, dirty[..c])), BodyWrites(g, q, g.At(pos, c + 1), dirty[c..], revs);
            |BodyWrites(g, q, pos, dirty, revs)| == c + 1 + |wb| && LogOk(g, log1) &&
            var log' := Put(log1, wb[..k - c - 1]);
            log' == Put(log, BodyWrites(g, q, pos, dirty, revs)[..k]) && LogOk(g, log') && log'[pos] == DescBlock(g, q, dirty[..c])
  {
    hide Put, Body, TagsPerDesc, DescBlock, GroupWrites, LogOk, Within, Holds, GroupBlocks, BodyWrites;
    var j := k - c - 1;
    BodyDesc(g, q, dirty, revs, c);
    BodyWritesCut(g, q, pos, dirty, revs, c, k);
    var wa, wb := GroupWrites(g, q, pos, dirty[..c]), BodyWrites(g, q, g.At(pos, c + 1), dirty[c..], revs);
    PutAppend(log, wa, wb[..j]);
    PutGroup(g, log, q, pos, dirty[..c]);
    HeadLeavesRest(g, log, q, pos, c + 1, wa, dirty[c..], revs);
    var log1 := Put(log, wa);
    RestLeavesHead(g, log1, q, pos, c + 1, dirty[c..], revs, j);
    GroupAtHead(g, log1, pos, q, dirty[..c]);
  }

  /** The same with its own preconditions. */
  ghost predicate FreshAll(g: Geometry, log: Log, q: nat, pos: nat, dirty: seq<Image>, revs: seq<nat>) {
    hide Body, FreshHeads;
    LogOk(g, log) && Images(g, dirty) && g.In(pos) && |Body(g, q, dirty, revs)| < g.Ring() && FreshHeads(g, log, q, pos, dirty, revs)
  }

  lemma GroupShiftFresh(g: Geometry, log: Log, q: nat, pos: nat, dirty: seq<Image>, revs: seq<nat>, c: nat, log1: Log)
    requires LogOk(g, log) && g.In(pos) && Images(g, dirty) && |Body(g, q, dirty, revs)| < g.Ring()
    requires dirty != [] && c == Chunk(|dirty|, TagsPerDesc(g)) && c + 1 < g.Ring() && |dirty[..c]| == c
    requires Images(g, dirty[..c]) && Images(g, dirty[c..]) && log1 == Put(log, GroupWrites(g, q, pos, dirty[..c]))
    ensures LogOk(g, log1)
    ensures FreshAll(g, log, q, pos, dirty, revs) <==> !IsHeader(log[pos], q) && FreshAll(g, log1, q, g.At(pos, c + 1), dirty[c..], revs)
  {
    hide Put, Body, TagsPerDesc, GroupWrites, Within, IsHeader, Holds, GroupBlocks;
    BodyDesc(g, q, dirty, revs, c);
    PutGroup(g, log, q, pos, dirty[..c]);
    HeadLeavesRest(g, log, q, pos, c + 1, GroupWrites(g, q, pos, dirty[..c]), dirty[c..], revs);
  }

  function PastRevokes(g: Geometry, s: Scan, revs: seq<nat>): (r: Scan)
    requires g.In(s.cursor) && 1 < g.Ring()
    ensures r.cursor == g.At(s.cursor, 1) && r.(cursor := s.cursor, open := s.open, txRevs := s.txRevs) == s
  {
    s.(cursor := g.At(s.cursor, 1), open := true, txRevs := s.txRevs + RevokedOf(revs, s.seqno))
  }

  /** The same for a revoke block. */
  lemma RevokeShift(g: Geometry, log: Log, s: Scan, revs: seq<nat>, c: nat, k: nat, fuel: nat)
    requires LogOk(g, log) && Ready(g, s, [], revs) && revs != [] && c == Chunk(|revs|, RevokesPerBlock(g))
    requires 0 < k <= |BodyWrites(g, s.seqno, s.cursor, [], revs)| && fuel > 0 && 1 < g.Ring()
    ensures var log1, s' := Put(log, [Write(s.cursor, RevokeBlock(g, s.seqno, revs[..c]))]), PastRevokes(g, s, revs[..c]);
            SameStop(g, log, s, [], revs, k, log1, s', [], revs[c..], 1, fuel) &&
            (FreshHeads(g, log, s.seqno, s.cursor, [], revs)
             <==> !IsHeader(log[s.cursor], s.seqno) && FreshHeads(g, log1, s.seqno, s'.cursor, [], revs[c..]))
  {
    hide Put, Body, ScanStep, ScanLoop, RevokesPerBlock, RevokeBlock, Unseen, LogOk, Within, IsHeader, Holds;
    var q, pos, j := s.seqno, s.cursor, k - 1;
    BodyRevoke(g, q, revs, c);
    var blk := RevokeBlock(g, q, revs[..c]);
    var wa, wb := [Write(pos, blk)], BodyWrites(g, q, g.At(pos, 1), [], revs[c..]);
    assert BodyWrites(g, q, pos, [], revs)[..k] == wa + wb[..j];
    PutAppend(log, wa, wb[..j]);
    PutSingle(g, log, pos, blk);
    HeadLeavesRest(g, log, q, pos, 1, wa, [], revs[c..]);
    var log1 := Put(log, wa);
    RestLeavesHead(g, log1, q, pos, 1, [], revs[c..], j);
    HoldsOne(g, log1, pos, blk);
    var log' := Put(log1, wb[..j]);
    ScanRevokeGroup(g, log', s, revs, c);
    ScanLoopStep(g, log', s, PastRevokes(g, s, revs[..c]), 1, fuel - 1);
  }

  lemma BodyAtLeast(g: Geometry, q: nat, dirty: seq<Image>, revs: seq<nat>)
    requires g.Valid() && Images(g, dirty)
    ensures dirty != [] ==> |Body(g, q, dirty, revs)| > Chunk(|dirty|, TagsPerDesc(g)) + 1
    ensures revs != [] ==> |Body(g, q, dirty, revs)| > 1
  {
    hide Body, TagsPerDesc, RevokesPerBlock, GroupBlocks, RevokeBlock;
    if dirty != [] {
      BodyDesc(g, q, dirty, revs, Chunk(|dirty|, TagsPerDesc(g)));
      BodyNonEmpty(g, q, dirty[Chunk(|dirty|, TagsPerDesc(g))..], revs);
    } else if revs != [] {
      BodyRevoke(g, q, revs, Chunk(|revs|, RevokesPerBlock(g)));
      BodyNonEmpty(g, q, dirty, revs[Chunk(|revs|, RevokesPerBlock(g))..]);
    }
  }

  /** A crash after `k` of the commit's writes: replay stops at the first header that is
      missing and returns the tables it had before this transaction. */
  lemma {:induction false} CrashStops(g: Geometry, log: Log, s: Scan, dirty: seq<Image>, revs: seq<nat>, k: nat, fuel: nat)
    requires LogOk(g, log) && Ready(g, s, dirty, revs) && FreshHeads(g, log, s.seqno, s.cursor, dirty, revs)
    requires k < |BodyWrites(g, s.seqno, s.cursor, dirty, revs)| && fuel > DescCount(g, |dirty|) + RevokeCount(g, |revs|)
    ensures StopsAtBoundary(g, log, s, dirty, revs, k, fuel)
    decreases |dirty| + |revs|, 1
  {
    hide Put, Body, ScanLoop, TagsPerDesc, RevokesPerBlock, GroupWrites, Unseen, LogOk, IsHeader, CommitBlock, RevokeBlock, FreshHeads;
    var q, pos := s.seqno, s.cursor;
    var ws := BodyWrites(g, q, pos, dirty, revs);
    BodyAtLeast(g, q, dirty, revs);
    FreshHere(g, log, q, pos, dirty, revs);
    if dirty != [] {
      var c := Chunk(|dirty|, TagsPerDesc(g));
      if k <= c {
        assert ws[..k] == GroupWrites(g, q, pos, dirty[..c])[..k];
        CrashInGroup(g, log, s, dirty[..c], k, fuel);
      } else {
        CrashPastGroup(g, log, s, dirty, revs, c, k, fuel);
      }
    } else if revs != [] && k > 0 {
      CrashPastRevokes(g, log, s, revs, Chunk(|revs|, RevokesPerBlock(g)), k, fuel);
    } else {
      assert ws[..k] == [];
      PutNothing(log);
      StopsHere(g, log, s, fuel);
    }
  }

  lemma {:induction false} CrashPastGroup(g: Geometry, log: Log, s: Scan, dirty: seq<Image>, revs: seq<nat>, c: nat, k: nat, fuel: nat)
    requires LogOk(g, log) && Ready(g, s, dirty, revs) && FreshHeads(g, log, s.seqno, s.cursor, dirty, revs)
    requires dirty != [] && c == Chunk(|dirty|, TagsPerDesc(g)) && c < k < |BodyWrites(g, s.seqno, s.cursor, dirty, revs)|
    requires fuel > DescCount(g, |dirty|) + RevokeCount(g, |revs|)
    ensures StopsAtBoundary(g, log, s, dirty, revs, k, fuel)
    decreases |dirty| + |revs|, 0
  {
    hide Put, Body, TagsPerDesc, GroupWrites, Unseen, LogOk, IsHeader, PastGroup, FreshHeads, StopsAtBoundary, BodyWrites;
    BodyAtLeast(g, s.seqno, dirty, revs);
    BodyDesc(g, s.seqno, dirty, revs, c);
    GroupShift(g, log, s, dirty, revs, c, k, fuel);
    GroupShiftFresh(g, log, s.seqno, s.cursor, dirty, revs, c, Put(log, GroupWrites(g, s.seqno, s.cursor, dirty[..c])));
    CrashStops(g, Put(log, GroupWrites(g, s.seqno, s.cursor, dirty[..c])), PastGroup(g, s, dirty[..c]), dirty[c..], revs, k - c - 1, fuel - 1);
  }

  lemma {:induction false} CrashPastRevokes(g: Geometry, log: Log, s: Scan, revs: seq<nat>, c: nat, k: nat, fuel: nat)
    requires LogOk(g, log) && Ready(g, s, [], revs) && FreshHeads(g, log, s.seqno, s.cursor, [], revs)
    requires revs != [] && c == Chunk(|revs|, RevokesPerBlock(g)) && 0 < k < |BodyWrites(g, s.seqno, s.cursor, [], revs)|
    requires fuel > RevokeCount(g, |revs|)
    ensures StopsAtBoundary(g, log, s, [], revs, k, fuel)
    decreases |revs|, 0
  {
    hide Put, Body, RevokesPerBlock, RevokeBlock, Unseen, LogOk, IsHeader, PastRevokes, FreshHeads, StopsAtBoundary, BodyWrites;
    BodyAtLeast(g, s.seqno, [], revs);
    RevokeShift(g, log, s, revs, c, k, fuel);
    CrashStops(g, Put(log, [Write(s.cursor, RevokeBlock(g, s.seqno, revs[..c]))]), PastRevokes(g, s, revs[..c]), [], revs[c..], k - 1, fuel - 1);
  }

  lemma FreshHere(g: Geometry, log: Log, q: nat, pos: nat, dirty: seq<Image>, revs: seq<nat>)
    requires LogOk(g, log) && Images(g, dirty) && g.In(pos) && |Body(g, q, dirty, revs)| < g.Ring()
    requires FreshHeads(g, log, q, pos, dirty, revs)
    ensures !IsHeader(log[pos], q)
  {
  }

  /** Where a scan ends there is no header with the number it was looking for. */
  lemma {:induction false} DoneMeansNoHeader(g: Geometry, log: Log, s: Scan, fuel: nat)
    requires LogOk(g, log) && ScanLoop(g, log, s, fuel).Done?
    ensures var r := ScanLoop(g, log, s, fuel).s; r.cursor < |log| && !IsHeader(log[r.cursor], r.seqno)
    decreases fuel
  {
    hide IsHeader, ParseDescriptor, ParseRevoke, RdBe32, AddRevokes, AddUpdates;
    match ScanStep(g, log, s)
    case Next(s') => DoneMeansNoHeader(g, log, s', fuel - 1);
    case _ =>
  }

  lemma GroupAtHead(g: Geometry, log: Log, pos: nat, q: nat, imgs: seq<Image>)
    requires Images(g, imgs) && g.Valid() && |imgs| <= TagsPerDesc(g) && Holds(g, log, pos, GroupBlocks(g, q, imgs))
    ensures log[pos] == DescBlock(g, q, imgs)
  {
    assert log[g.At(pos, 0)] == GroupBlocks(g, q, imgs)[0];
  }

  lemma StaleHere(g: Geometry, log: Log, s: Scan, dirty: seq<Image>, revs: seq<nat>, fuel: nat)
    requires LogOk(g, log) && Ready(g, s, dirty, revs) && IsHeader(log[s.cursor], s.seqno)
    ensures !StopsAtBoundary(g, log, s, dirty, revs, 0, fuel)
  {
    hide Put, Body, ScanLoop, IsHeader, BodyWrites, Unseen;
    assert BodyWrites(g, s.seqno, s.cursor, dirty, revs)[..0] == [];
    PutNothing(log);
    if StopsAtBoundary(g, log, s, dirty, revs, 0, fuel) {
      DoneMeansNoHeader(g, log, s, fuel);
    }
  }

  /** The converse: a stale header in one of those places makes replay miss the boundary for
      some crash point. */
  lemma {:induction false} StaleHeadMisleads(g: Geometry, log: Log, s: Scan, dirty: seq<Image>, revs: seq<nat>, fuel: nat) returns (k: nat)
    requires LogOk(g, log) && Ready(g, s, dirty, revs) && !FreshHeads(g, log, s.seqno, s.cursor, dirty, revs)
    requires fuel > DescCount(g, |dirty|) + RevokeCount(g, |revs|)
    ensures k < |BodyWrites(g, s.seqno, s.cursor, dirty, revs)| && !StopsAtBoundary(g, log, s, dirty, revs, k, fuel)
    decreases |dirty| + |revs|, 1
  {
    if IsHeader(log[s.cursor], s.seqno) {
      hide *;
      k := 0;
      StaleHere(g, log, s, dirty, revs, fuel);
    } else if dirty != [] {
      hide *;
      k := StaleInGroups(g, log, s, dirty, revs, fuel);
    } else if revs != [] {
      hide *;
      k := StaleInRevokes(g, log, s, revs, fuel);
    } else {
      FreshNil(g, log, s.seqno, s.cursor);
      assert false;
    }
  }

  lemma {:induction false} StaleInGroups(g: Geometry, log: Log, s: Scan, dirty: seq<Image>, revs: seq<nat>, fuel: nat) returns (k: nat)
    requires LogOk(g, log) && Ready(g, s, dirty, revs) && !FreshHeads(g, log, s.seqno, s.cursor, dirty, revs)
    requires dirty != [] && !IsHeader(log[s.cursor], s.seqno) && fuel > DescCount(g, |dirty|) + RevokeCount(g, |revs|)
    ensures k < |BodyWrites(g, s.seqno, s.cursor, dirty, revs)| && !StopsAtBoundary(g, log, s, dirty, revs, k, fuel)
    decreases |dirty| + |revs|, 0
  {
    hide Put, Body, TagsPerDesc, GroupWrites, LogOk, IsHeader, PastGroup, FreshHeads, StopsAtBoundary, BodyWrites, Unseen;
    var q, pos := s.seqno, s.cursor;
    var c := Chunk(|dirty|, TagsPerDesc(g));
    BodyAtLeast(g, q, dirty, revs);
    GroupFirst(g, q, pos, dirty, revs, c);
    GroupShift(g, log, s, dirty, revs, c, c + 1, fuel);
    BodyDesc(g, q, dirty, revs, c);
    GroupShiftFresh(g, log, q, pos, dirty, revs, c, Put(log, GroupWrites(g, q, pos, dirty[..c])));
    var j := StaleHeadMisleads(g, Put(log, GroupWrites(g, q, pos, dirty[..c])), PastGroup(g, s, dirty[..c]), dirty[c..], revs, fuel - 1);
    k := c + 1 + j;
    MissedPastGroup(g, log, s, dirty, revs, c, j, fuel);
  }

  /** What goes wrong with the rest goes wrong with the whole. */
  lemma MissedPastGroup(g: Geometry, log: Log, s: Scan, dirty: seq<Image>, revs: seq<nat>, c: nat, j: nat, fuel: nat)
    requires Ready(g, s, dirty, revs) && dirty != [] && c == Chunk(|dirty|, TagsPerDesc(g)) && Images(g, dirty[..c]) && c + 1 < g.Ring() && fuel > 0
    requires var log1, s1 := Put(log, GroupWrites(g, s.seqno, s.cursor, dirty[..c])), PastGroup(g, s, dirty[..c]);
             SameStop(g, log, s, dirty, revs, c + 1, log1, s1, dirty[c..], revs, c + 1, fuel) &&
             j < |BodyWrites(g, s.seqno, s1.cursor, dirty[c..], revs)| && !StopsAtBoundary(g, log1, s1, dirty[c..], revs, j, fuel - 1)
    ensures c + 1 + j < |BodyWrites(g, s.seqno, s.cursor, dirty, revs)| && !StopsAtBoundary(g, log, s, dirty, revs, c + 1 + j, fuel)
  {
    hide Put, Body, TagsPerDesc, GroupWrites, LogOk, PastGroup, StopsAtBoundary, BodyWrites, Unseen;
    GroupShift(g, log, s, dirty, revs, c, c + 1 + j, fuel);
  }

  lemma {:induction false} StaleInRevokes(g: Geometry, log: Log, s: Scan, revs: seq<nat>, fuel: nat) returns (k: nat)
    requires LogOk(g, log) && Ready(g, s, [], revs) && !FreshHeads(g, log, s.seqno, s.cursor, [], revs)
    requires revs != [] && !IsHeader(log[s.cursor], s.seqno) && fuel > RevokeCount(g, |revs|)
    ensures k < |BodyWrites(g, s.seqno, s.cursor, [], revs)| && !StopsAtBoundary(g, log, s, [], revs, k, fuel)
    decreases |revs|, 0
  {
    hide Put, Body, RevokesPerBlock, RevokeBlock, LogOk, IsHeader, PastRevokes, FreshHeads, StopsAtBoundary, BodyWrites, Unseen;
    var q, pos := s.seqno, s.cursor;
    var c := Chunk(|revs|, RevokesPerBlock(g));
    BodyAtLeast(g, q, [], revs);
    RevokeShift(g, log, s, revs, c, 1, fuel);
    var j := StaleHeadMisleads(g, Put(log, [Write(pos, RevokeBlock(g, q, revs[..c]))]), PastRevokes(g, s, revs[..c]), [], revs[c..], fuel - 1);
    k := 1 + j;
    RevokeShift(g, log, s, revs, c, k, fuel);
  }

  lemma FreshNil(g: Geometry, log: Log, q: nat, pos: nat)
    requires LogOk(g, log) && g.In(pos) && |Body(g, q, [], [])| < g.Ring()
    ensures FreshHeads(g, log, q, pos, [], []) == !IsHeader(log[pos], q)
  {
  }

  lemma GroupFirst(g: Geometry, q: nat, pos: nat, dirty: seq<Image>, revs: seq<nat>, c: nat)
    requires g.Valid() && Images(g, dirty) && g.In(pos) && |Body(g, q, dirty, revs)| <= g.Ring()
    requires dirty != [] && c == Chunk(|dirty|, TagsPerDesc(g))
    ensures c < |BodyWrites(g, q, pos, dirty, revs)|
  {
    hide Body, GroupWrites, TagsPerDesc;
    BodyDesc(g, q, dirty, revs, c);
  }

  /** The exact condition under which a crash anywhere in a commit is harmless to the scan:
      replay stops at the crash boundary for every crash point if and only if none of the
      places of the transaction's own headers holds a stale header with its number. */
  lemma CrashBoundaryIff(g: Geometry, log: Log, s: Scan, dirty: seq<Image>, revs: seq<nat>, fuel: nat)
    requires LogOk(g, log) && Ready(g, s, dirty, revs) && fuel > DescCount(g, |dirty|) + RevokeCount(g, |revs|)
    ensures FreshHeads(g, log, s.seqno, s.cursor, dirty, revs) <==>
            forall k :: 0 <= k < |BodyWrites(g, s.seqno, s.cursor, dirty, revs)| ==> StopsAtBoundary(g, log, s, dirty, revs, k, fuel)
  {
    hide FreshHeads, StopsAtBoundary, BodyWrites, DescCount, RevokeCount, Body, Unseen;
    if FreshHeads(g, log, s.seqno, s.cursor, dirty, revs) {
      forall k | 0 <= k < |BodyWrites(g, s.seqno, s.cursor, dirty, revs)| ensures StopsAtBoundary(g, log, s, dirty, revs, k, fuel) {
        CrashStops(g, log, s, dirty, revs, k, fuel);
      }
    } else {
      var k := StaleHeadMisleads(g, log, s, dirty, revs, fuel);
    }
  }

  /** No block of the ring is a commit block for `q`. */
  ghost predicate NoCommit(g: Geometry, log: Log, q: nat)
    requires LogOk(g, log)
  {
    forall p :: 0 <= p < |log| ==> !(IsHeader(log[p], q) && RdBe32(log[p], 4) == COMMIT)
  }

  /** Whatever stale headers the ring holds, a transaction without a commit block is never
      replayed: a scan that ends at all ends with the tables it started from. */
  lemma {:induction false} UncommittedIsNeverReplayed(g: Geometry, log: Log, s: Scan, fuel: nat)
    requires LogOk(g, log) && NoCommit(g, log, s.seqno)
    ensures var r := ScanLoop(g, log, s, fuel);
            r.Done? ==> r.s.ups == s.ups && r.s.revs == s.revs && r.s.seqno == s.seqno && r.s.replayed == s.replayed
    decreases fuel
  {
    hide IsHeader, ParseDescriptor, ParseRevoke, RdBe32, AddRevokes, AddUpdates;
    if fuel > 0 {
      match ScanStep(g, log, s)
      case Next(s') => UncommittedIsNeverReplayed(g, log, s', fuel - 1);
      case _ =>
    }
  }
}
