/** The blocks a commit puts in the ring, in ring order and in the order they are written,
    and the scan of `ext4_jbd2_replay_if_needed` that finds them again (kernel/ext4.c). */
module JournalScan {
  import opened Bytes
  import opened JournalRing
  import opened JournalFormat

  const MAX_UPDATES: nat := 8192
  const MAX_REVOKES: nat := 8192

  /** A transaction as it is committed: block images and revoked blocks. */
  datatype Tx = Tx(dirty: seq<Image>, revokes: seq<nat>)

  ghost predicate TxOk(g: Geometry, t: Tx) {
    && Images(g, t.dirty) && Distinct(t.dirty) && |t.dirty| <= TX_MAX_BLOCKS
    && DistinctNats(t.revokes) && |t.revokes| <= TX_MAX_REVOKES && (forall i :: 0 <= i < |t.revokes| ==> t.revokes[i] < g.blocks)
    && (forall i, j :: 0 <= i < |t.dirty| && 0 <= j < |t.revokes| ==> t.dirty[i].fs != t.revokes[j])
    && |t.dirty| + |t.revokes| > 0
  }

  /** The journal file: one block per journal block number. */
  type Log = seq<Block>

  ghost predicate LogOk(g: Geometry, log: Log) {
    g.Valid() && |log| == g.maxlen && forall i :: 0 <= i < |log| ==> |log[i]| == g.bs
  }

  // ---- what a commit emits ----

  function Chunk(n: nat, cap: nat): nat { if n <= cap then n else cap }

  function DataBlocks(imgs: seq<Image>): (s: seq<Block>)
    requires forall i :: 0 <= i < |imgs| ==> |imgs[i].data| >= 4
    ensures |s| == |imgs|
  {
    seq(|imgs|, i requires 0 <= i < |imgs| => Escaped(imgs[i].data))
  }

  function EmitDescs(g: Geometry, q: nat, dirty: seq<Image>): seq<Block>
    requires g.Valid() && Images(g, dirty)
    decreases |dirty|
  {
    if dirty == [] then []
    else
      var c := Chunk(|dirty|, TagsPerDesc(g));
      [DescBlock(g, q, dirty[..c])] + DataBlocks(dirty[..c]) + EmitDescs(g, q, dirty[c..])
  }

  function EmitRevokes(g: Geometry, q: nat, revs: seq<nat>): seq<Block>
    requires g.Valid()
    decreases |revs|
  {
    if revs == [] then []
    else
      var c := Chunk(|revs|, RevokesPerBlock(g));
      [RevokeBlock(g, q, revs[..c])] + EmitRevokes(g, q, revs[c..])
  }

  /** The log of transaction `t` with sequence number `q`, in ring order. */
  function Emit(g: Geometry, q: nat, t: Tx): seq<Block>
    requires g.Valid() && Images(g, t.dirty)
  {
    EmitDescs(g, q, t.dirty) + EmitRevokes(g, q, t.revokes) + [CommitBlock(g, q)]
  }

  lemma CeilDivStep(n: nat, b: nat)
    requires b > 0 && n > 0
    ensures CeilDiv(n, b) == 1 + CeilDiv(n - Chunk(n, b), b)
  {
    if n <= b {
      ModUnique(n + b - 1, b, 1, n - 1);
      ModUnique(b - 1, b, 0, b - 1);
    } else {
      var m := n - b + b - 1;
      ModUnique(n + b - 1, b, m / b + 1, m % b);
    }
  }

  lemma {:induction false} EmitDescsLength(g: Geometry, q: nat, dirty: seq<Image>)
    requires g.Valid() && Images(g, dirty)
    ensures |EmitDescs(g, q, dirty)| == |dirty| + CeilDiv(|dirty|, TagsPerDesc(g))
    decreases |dirty|
  {
    hide CeilDiv, TagsPerDesc, DescBlock, DataBlocks;
    if dirty != [] {
      CeilDivStep(|dirty|, TagsPerDesc(g));
      EmitDescsLength(g, q, dirty[Chunk(|dirty|, TagsPerDesc(g))..]);
    } else {
      CeilDivZero(TagsPerDesc(g));
    }
  }

  lemma CeilDivZero(b: nat)
    requires b > 0
    ensures CeilDiv(0, b) == 0
  {
    ModUnique(b - 1, b, 0, b - 1);
  }

  lemma {:induction false} EmitRevokesLength(g: Geometry, q: nat, revs: seq<nat>)
    requires g.Valid()
    ensures |EmitRevokes(g, q, revs)| == if |revs| == 0 then 0 else CeilDiv(|revs|, RevokesPerBlock(g))
    decreases |revs|
  {
    hide CeilDiv, RevokesPerBlock, RevokeBlock;
    if revs != [] {
      CeilDivStep(|revs|, RevokesPerBlock(g));
      EmitRevokesLength(g, q, revs[Chunk(|revs|, RevokesPerBlock(g))..]);
      CeilDivZero(RevokesPerBlock(g));
    }
  }

  /** The emitted blocks fill exactly the segment that was reserved for them. */
  lemma EmitFillsReservation(g: Geometry, q: nat, t: Tx)
    requires g.Valid() && Images(g, t.dirty)
    ensures |Emit(g, q, t)| == TotalBlocks(g, |t.dirty|, |t.revokes|)
  {
    hide CeilDiv, EmitDescs, EmitRevokes;
    EmitDescsLength(g, q, t.dirty);
    EmitRevokesLength(g, q, t.revokes);
  }

  // ---- the scan, as coded ----

  datatype Scan = Scan(cursor: nat, seqno: nat, ups: seq<Update>, revs: seq<Revoked>,
                       txUps: seq<Update>, txRevs: seq<Revoked>, open: bool, replayed: nat)

  datatype Step = Stop | Fail | Next(s: Scan)

  function AddRevokes(g: Geometry, revs: seq<Revoked>, more: seq<Revoked>): Option<seq<Revoked>>
    decreases |more|
  {
    if more == [] then Some(revs)
    else
      match AddRevoke(g, revs, MAX_REVOKES, more[0].fs, more[0].seqno, true)
      case None => None
      case Some(revs') => AddRevokes(g, revs', more[1..])
  }

  function AddUpdates(g: Geometry, ups: seq<Update>, more: seq<Update>): Option<seq<Update>>
    decreases |more|
  {
    if more == [] then Some(ups)
    else
      match AddUpdate(g, ups, MAX_UPDATES, more[0], false)
      case None => None
      case Some(ups') => AddUpdates(g, ups', more[1..])
  }

  /** Moving on to the next journal block; the source gives up when there is none. */
  function Advance(g: Geometry, s: Scan): Step {
    var next := NextBlock(s.cursor, g.first, g.maxlen);
    if next == 0 then Fail else Next(s.(cursor := next))
  }

  /** One turn of the replay loop. */
  function ScanStep(g: Geometry, log: Log, s: Scan): Step
    requires LogOk(g, log)
  {
    if s.cursor >= |log| then Fail
    else
      var blk := log[s.cursor];
      if !IsHeader(blk, s.seqno) then Stop
      else
        var kind := RdBe32(blk, 4);
        if kind == DESCRIPTOR then
          match ParseDescriptor(g, blk, s.cursor, s.seqno, s.txRevs, s.txUps)
          case Malformed => Fail
          case Parsed(next, ups) => Next(s.(cursor := next, txUps := ups, open := true))
        else if kind == REVOKE then
          if !g.hasRevoke then Fail
          else
            match ParseRevoke(g, blk, s.seqno, s.txRevs)
            case None => Fail
            case Some(revs) => Advance(g, s.(txRevs := revs, open := true))
        else if kind == COMMIT then
          if !s.open then Fail
          else
            var revs := AddRevokes(g, s.revs, s.txRevs);
            if revs.None? then Fail
            else
              var ups := AddUpdates(g, s.ups, s.txUps);
              if ups.None? then Fail
              else Advance(g, Scan(s.cursor, (s.seqno + 1) % WORD, ups.value, revs.value, [], [], false, s.replayed + 1))
        else if kind == SUPER_V1 || kind == SUPER_V2 then
          if s.open || s.txUps != [] || s.txRevs != [] then Fail else Advance(g, s)
        else Fail
  }

  datatype Scanned = Done(s: Scan) | Failed | Exhausted

  /** The replay loop with `fuel` turns left of its guard. On a stop the source drops what
      it holds of an unfinished transaction. */
  function ScanLoop(g: Geometry, log: Log, s: Scan, fuel: nat): Scanned
    requires LogOk(g, log)
    decreases fuel
  {
    if fuel == 0 then Exhausted
    else
      match ScanStep(g, log, s)
      case Stop => Done(Idle(s.cursor, s.seqno, s.ups, s.revs, s.replayed))
      case Fail => Failed
      case Next(s') => ScanLoop(g, log, s', fuel - 1)
  }

  /** The turns the loop allows itself, in 32 bits. */
  function Guard(g: Geometry): (n: nat)
    ensures n >= 64
  {
    var n := g.maxlen * 4 % WORD32;
    if n < 64 then 64 else n
  }

  /** Between transactions nothing of an open one is held. */
  function Idle(cursor: nat, q: nat, ups: seq<Update>, revs: seq<Revoked>, replayed: nat): Scan {
    Scan(cursor, q, ups, revs, [], [], false, replayed)
  }

  /** The scan of a journal whose superblock names `start` and `q`. */
  function Replay(g: Geometry, log: Log, start: nat, q: nat): Scanned
    requires LogOk(g, log)
  {
    ScanLoop(g, log, Idle(start, q, [], [], 0), Guard(g))
  }

  // ---- the scan over what a commit emitted ----

  ghost predicate Holds(g: Geometry, log: Log, pos: nat, blocks: seq<Block>) {
    LogOk(g, log) && g.In(pos) && |blocks| <= g.Ring() &&
    forall i :: 0 <= i < |blocks| ==> log[g.At(pos, i)] == blocks[i]
  }

  lemma HoldsSplit(g: Geometry, log: Log, pos: nat, a: seq<Block>, b: seq<Block>)
    requires Holds(g, log, pos, a + b)
    ensures Holds(g, log, pos, a)
    ensures Holds(g, log, g.At(pos, |a|), b)
  {
    forall i | 0 <= i < |a| ensures log[g.At(pos, i)] == a[i] {
      assert (a + b)[i] == a[i];
    }
    forall i | 0 <= i < |b| ensures log[g.At(g.At(pos, |a|), i)] == b[i] {
      assert (a + b)[|a| + i] == b[i];
      assert g.At(g.At(pos, |a|), i) == g.At(pos, |a| + i);
    }
  }

  /** The replay entries of a transaction whose log starts at `pos`. */
  function TxUpdates(g: Geometry, q: nat, pos: nat, dirty: seq<Image>): (s: seq<Update>)
    requires g.Valid() && Images(g, dirty) && g.In(pos) && |EmitDescs(g, q, dirty)| < g.Ring()
    ensures |s| == |dirty|
    ensures forall i :: 0 <= i < |s| ==> s[i].fs == dirty[i].fs && s[i].seqno == q && g.In(s[i].jblock)
    decreases |dirty|
  {
    if dirty == [] then []
    else
      var c := Chunk(|dirty|, TagsPerDesc(g));
      UpdatesOf(g, dirty[..c], g.At(pos, 1), q) + TxUpdates(g, q, g.At(pos, c + 1), dirty[c..])
  }

  function DescCount(g: Geometry, n: nat): nat
    requires g.Valid()
    decreases n
  {
    if n == 0 then 0 else 1 + DescCount(g, n - Chunk(n, TagsPerDesc(g)))
  }

  function RevokeCount(g: Geometry, n: nat): nat
    requires g.Valid()
    decreases n
  {
    if n == 0 then 0 else 1 + RevokeCount(g, n - Chunk(n, RevokesPerBlock(g)))
  }

  lemma HeaderOf(g: Geometry, b: Block, kind: nat, q: nat)
    requires |b| >= 12 && b[..12] == Header(kind, q) && kind < WORD && q < WORD
    ensures IsHeader(b, q) && RdBe32(b, 4) == kind
  {
    hide RdBe32, Header;
    HeaderReadBack(b, kind, q);
  }

  /** One descriptor group: the scan collects its images and moves past their data. */
  lemma ScanDesc(g: Geometry, log: Log, s: Scan, imgs: seq<Image>)
    requires LogOk(g, log) && g.In(s.cursor) && s.seqno < WORD && s.txRevs == []
    requires Images(g, imgs) && 0 < |imgs| <= TagsPerDesc(g) && |imgs| + 1 < g.Ring()
    requires Distinct(imgs) && Unseen(s.txUps, imgs, s.seqno) && |s.txUps| + |imgs| <= TX_MAX_BLOCKS
    requires log[s.cursor] == DescBlock(g, s.seqno, imgs)
    ensures ScanStep(g, log, s) ==
            Next(s.(cursor := g.At(s.cursor, |imgs| + 1),
                    txUps := s.txUps + UpdatesOf(g, imgs, g.At(s.cursor, 1), s.seqno), open := true))
  {
    hide RdBe32, ParseDescriptor, DescBlock, UpdatesOf, TagsPerDesc, IsHeader, Header;
    RecordHeaders(g, s.seqno, imgs, []);
    HeaderOf(g, log[s.cursor], DESCRIPTOR, s.seqno);
    DescriptorRoundTrip(g, imgs, s.cursor, s.seqno, s.txUps);
  }

  lemma ScanRevoke(g: Geometry, log: Log, s: Scan, revs: seq<nat>)
    requires g.hasRevoke && LogOk(g, log) && g.In(s.cursor) && s.seqno < WORD && |revs| <= RevokesPerBlock(g)
    requires DistinctNats(revs) && forall i :: 0 <= i < |revs| ==> revs[i] < g.blocks
    requires |s.txRevs| + |revs| <= TX_MAX_REVOKES
    requires forall i, k :: 0 <= i < |s.txRevs| && 0 <= k < |revs| ==> s.txRevs[i].fs != revs[k]
    requires log[s.cursor] == RevokeBlock(g, s.seqno, revs)
    ensures ScanStep(g, log, s) ==
            Next(s.(cursor := g.At(s.cursor, 1), txRevs := s.txRevs + RevokedOf(revs, s.seqno), open := true))
  {
    hide RdBe32, ParseRevoke, RevokeBlock, RevokesPerBlock, IsHeader, Header;
    RecordHeaders(g, s.seqno, [], revs);
    HeaderOf(g, log[s.cursor], REVOKE, s.seqno);
    RevokeRoundTrip(g, revs, s.seqno, s.txRevs);
  }

  /** On a journal without the revoke feature a revoke block ends the scan in a failure. */
  lemma ScanRevokeFails(g: Geometry, log: Log, s: Scan, revs: seq<nat>)
    requires !g.hasRevoke && LogOk(g, log) && g.In(s.cursor) && s.seqno < WORD && |revs| <= RevokesPerBlock(g)
    requires log[s.cursor] == RevokeBlock(g, s.seqno, revs)
    ensures ScanStep(g, log, s) == Fail
  {
    hide RdBe32, ParseRevoke, RevokeBlock, RevokesPerBlock, IsHeader, Header;
    RecordHeaders(g, s.seqno, [], revs);
    HeaderOf(g, log[s.cursor], REVOKE, s.seqno);
  }

  lemma UnseenLater(g: Geometry, ups: seq<Update>, dirty: seq<Image>, c: nat, pos: nat, q: nat)
    requires c <= |dirty| && Images(g, dirty) && g.In(pos) && c <= g.Ring() && g.Valid()
    requires Distinct(dirty) && Unseen(ups, dirty, q)
    ensures Distinct(dirty[..c]) && Distinct(dirty[c..]) && Unseen(ups, dirty[..c], q)
    ensures Unseen(ups + UpdatesOf(g, dirty[..c], pos, q), dirty[c..], q)
  {
    hide Escapes;
    var ups', rest := ups + UpdatesOf(g, dirty[..c], pos, q), dirty[c..];
    forall i, j | 0 <= i < |ups'| && 0 <= j < |rest|
      ensures !(ups'[i].fs == rest[j].fs && ups'[i].seqno == q)
    {
      assert rest[j] == dirty[c + j];
    }
  }

  lemma ScanLoopStep(g: Geometry, log: Log, s: Scan, s': Scan, n: nat, fuel: nat)
    requires LogOk(g, log) && n > 0 && ScanStep(g, log, s) == Next(s')
    ensures ScanLoop(g, log, s, n + fuel) == ScanLoop(g, log, s', n - 1 + fuel)
  {
  }

  /** The first descriptor group of `dirty`, as emitted and as scanned. */
  lemma ScanFirstDesc(g: Geometry, log: Log, s: Scan, dirty: seq<Image>, c: nat)
    requires g.Valid() && Images(g, dirty) && dirty != [] && c == Chunk(|dirty|, TagsPerDesc(g))
    requires g.In(s.cursor) && s.seqno < WORD && s.txRevs == []
    requires |EmitDescs(g, s.seqno, dirty)| < g.Ring() && Holds(g, log, s.cursor, EmitDescs(g, s.seqno, dirty))
    requires Distinct(dirty) && Unseen(s.txUps, dirty, s.seqno) && |s.txUps| + |dirty| <= TX_MAX_BLOCKS
    ensures |EmitDescs(g, s.seqno, dirty)| == c + 1 + |EmitDescs(g, s.seqno, dirty[c..])|
    ensures Holds(g, log, g.At(s.cursor, c + 1), EmitDescs(g, s.seqno, dirty[c..]))
    ensures ScanStep(g, log, s) ==
            Next(s.(cursor := g.At(s.cursor, c + 1),
                    txUps := s.txUps + UpdatesOf(g, dirty[..c], g.At(s.cursor, 1), s.seqno), open := true))
  {
    hide ScanStep, DescBlock, UpdatesOf, TagsPerDesc, DataBlocks;
    var first, rest := [DescBlock(g, s.seqno, dirty[..c])] + DataBlocks(dirty[..c]), EmitDescs(g, s.seqno, dirty[c..]);
    assert EmitDescs(g, s.seqno, dirty) == first + rest;
    HoldsSplit(g, log, s.cursor, first, rest);
    assert log[g.At(s.cursor, 0)] == first[0];
    UnseenLater(g, s.txUps, dirty, c, g.At(s.cursor, 1), s.seqno);
    ScanDesc(g, log, s, dirty[..c]);
  }

  /** The state after all descriptor groups of `dirty`. */
  function AfterDescs(g: Geometry, s: Scan, dirty: seq<Image>): Scan
    requires g.Valid() && Images(g, dirty) && g.In(s.cursor) && |EmitDescs(g, s.seqno, dirty)| < g.Ring()
  {
    s.(cursor := g.At(s.cursor, |EmitDescs(g, s.seqno, dirty)|),
       txUps := s.txUps + TxUpdates(g, s.seqno, s.cursor, dirty), open := s.open || dirty != [])
  }

  lemma {:induction false} ScanDescs(g: Geometry, log: Log, s: Scan, dirty: seq<Image>, fuel: nat)
    requires LogOk(g, log) && Images(g, dirty) && g.In(s.cursor) && s.seqno < WORD && s.txRevs == []
    requires |EmitDescs(g, s.seqno, dirty)| < g.Ring() && Holds(g, log, s.cursor, EmitDescs(g, s.seqno, dirty))
    requires Distinct(dirty) && Unseen(s.txUps, dirty, s.seqno) && |s.txUps| + |dirty| <= TX_MAX_BLOCKS
    ensures ScanLoop(g, log, s, DescCount(g, |dirty|) + fuel) == ScanLoop(g, log, AfterDescs(g, s, dirty), fuel)
    decreases |dirty|
  {
    hide ScanStep, UpdatesOf, TagsPerDesc, EmitDescs, Holds, ScanLoop;
    if dirty == [] {
      assert EmitDescs(g, s.seqno, dirty) == [] by { EmitDescsLength(g, s.seqno, []); CeilDivZero(TagsPerDesc(g)); }
      assert s.txUps + TxUpdates(g, s.seqno, s.cursor, dirty) == s.txUps;
    } else {
      var c := Chunk(|dirty|, TagsPerDesc(g));
      ScanFirstDesc(g, log, s, dirty, c);
      var ups1 := UpdatesOf(g, dirty[..c], g.At(s.cursor, 1), s.seqno);
      var s1 := s.(cursor := g.At(s.cursor, c + 1), txUps := s.txUps + ups1, open := true);
      UnseenLater(g, s.txUps, dirty, c, g.At(s.cursor, 1), s.seqno);
      ScanLoopStep(g, log, s, s1, DescCount(g, |dirty|), fuel);
      ScanDescs(g, log, s1, dirty[c..], fuel);
      var ups2 := TxUpdates(g, s.seqno, s1.cursor, dirty[c..]);
      assert s1.txUps + ups2 == s.txUps + (ups1 + ups2);
    }
  }

  function AfterRevokes(g: Geometry, s: Scan, revs: seq<nat>): Scan
    requires g.Valid() && g.In(s.cursor) && |EmitRevokes(g, s.seqno, revs)| < g.Ring()
  {
    s.(cursor := g.At(s.cursor, |EmitRevokes(g, s.seqno, revs)|),
       txRevs := s.txRevs + RevokedOf(revs, s.seqno), open := s.open || revs != [])
  }

  lemma ScanFirstRevoke(g: Geometry, log: Log, s: Scan, revs: seq<nat>, c: nat)
    requires g.Valid() && g.hasRevoke && g.In(s.cursor) && s.seqno < WORD && revs != [] && c == Chunk(|revs|, RevokesPerBlock(g))
    requires |EmitRevokes(g, s.seqno, revs)| < g.Ring() && Holds(g, log, s.cursor, EmitRevokes(g, s.seqno, revs))
    requires DistinctNats(revs) && forall i :: 0 <= i < |revs| ==> revs[i] < g.blocks
    requires |s.txRevs| + |revs| <= TX_MAX_REVOKES
    requires forall i, k :: 0 <= i < |s.txRevs| && 0 <= k < |revs| ==> s.txRevs[i].fs != revs[k]
    ensures |EmitRevokes(g, s.seqno, revs)| == 1 + |EmitRevokes(g, s.seqno, revs[c..])|
    ensures Holds(g, log, g.At(s.cursor, 1), EmitRevokes(g, s.seqno, revs[c..]))
    ensures ScanStep(g, log, s) ==
            Next(s.(cursor := g.At(s.cursor, 1), txRevs := s.txRevs + RevokedOf(revs[..c], s.seqno), open := true))
  {
    hide ScanStep, RevokeBlock, RevokesPerBlock;
    var first, rest := [RevokeBlock(g, s.seqno, revs[..c])], EmitRevokes(g, s.seqno, revs[c..]);
    assert EmitRevokes(g, s.seqno, revs) == first + rest;
    HoldsSplit(g, log, s.cursor, first, rest);
    assert log[g.At(s.cursor, 0)] == first[0];
    ScanRevoke(g, log, s, revs[..c]);
  }

  /** What the first revoke block does to a scan that may not meet one. */
  lemma ScanRevokesFail(g: Geometry, log: Log, s: Scan, revs: seq<nat>)
    requires LogOk(g, log) && !g.hasRevoke && g.In(s.cursor) && s.seqno < WORD && revs != []
    requires |EmitRevokes(g, s.seqno, revs)| < g.Ring() && Holds(g, log, s.cursor, EmitRevokes(g, s.seqno, revs))
    ensures ScanStep(g, log, s) == Fail
  {
    hide ScanStep, RevokeBlock, RevokesPerBlock;
    var c := Chunk(|revs|, RevokesPerBlock(g));
    var first, rest := [RevokeBlock(g, s.seqno, revs[..c])], EmitRevokes(g, s.seqno, revs[c..]);
    assert EmitRevokes(g, s.seqno, revs) == first + rest;
    HoldsSplit(g, log, s.cursor, first, rest);
    assert log[g.At(s.cursor, 0)] == first[0];
    ScanRevokeFails(g, log, s, revs[..c]);
  }

  lemma {:induction false} ScanRevokes(g: Geometry, log: Log, s: Scan, revs: seq<nat>, fuel: nat)
    requires (g.hasRevoke || revs == []) && LogOk(g, log) && g.In(s.cursor) && s.seqno < WORD
    requires |EmitRevokes(g, s.seqno, revs)| < g.Ring() && Holds(g, log, s.cursor, EmitRevokes(g, s.seqno, revs))
    requires DistinctNats(revs) && forall i :: 0 <= i < |revs| ==> revs[i] < g.blocks
    requires |s.txRevs| + |revs| <= TX_MAX_REVOKES
    requires forall i, k :: 0 <= i < |s.txRevs| && 0 <= k < |revs| ==> s.txRevs[i].fs != revs[k]
    ensures ScanLoop(g, log, s, RevokeCount(g, |revs|) + fuel) == ScanLoop(g, log, AfterRevokes(g, s, revs), fuel)
    decreases |revs|
  {
    hide ScanStep, RevokesPerBlock, EmitRevokes, Holds, ScanLoop;
    if revs == [] {
      assert EmitRevokes(g, s.seqno, revs) == [] by { EmitRevokesLength(g, s.seqno, []); }
      assert s.txRevs + RevokedOf(revs, s.seqno) == s.txRevs;
    } else {
      var c := Chunk(|revs|, RevokesPerBlock(g));
      ScanFirstRevoke(g, log, s, revs, c);
      var s1 := s.(cursor := g.At(s.cursor, 1), txRevs := s.txRevs + RevokedOf(revs[..c], s.seqno), open := true);
      ScanLoopStep(g, log, s, s1, RevokeCount(g, |revs|), fuel);
      ScanRevokes(g, log, s1, revs[c..], fuel);
      assert s.txRevs + RevokedOf(revs, s.seqno) == s1.txRevs + RevokedOf(revs[c..], s.seqno);
    }
  }
}
