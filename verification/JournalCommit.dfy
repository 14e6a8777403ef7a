/** The commit of a transaction as one operation: what a crash at any of its disk writes
    leaves to the next mount (kernel/ext4.c). */
module JournalCommit {
  import opened Bytes
  import opened JournalRing
  import opened JournalFormat
  import opened JournalScan
  import opened JournalChain
  import opened JournalCrash
  import opened JournalRecovery
  import opened JournalState
  import opened JournalRun

  // ---- sequence numbers in the ring ----

  /** A block that looks like a header carries the number `q`. */
  ghost predicate Numbered(b: Block, q: nat) {
    |b| >= 12 && (RdBe32(b, 0) == MAGIC ==> RdBe32(b, 8) == q)
  }

  lemma RecordsNumbered(g: Geometry, q: nat, imgs: seq<Image>, revs: seq<nat>)
    requires g.Valid() && Images(g, imgs) && |imgs| <= TagsPerDesc(g) && |revs| <= RevokesPerBlock(g) && q < WORD
    ensures Numbered(DescBlock(g, q, imgs), q) && Numbered(RevokeBlock(g, q, revs), q) && Numbered(CommitBlock(g, q), q)
  {
    hide RdBe32, Header, DescBlock, RevokeBlock, CommitBlock, TagsPerDesc, RevokesPerBlock;
    RecordHeaders(g, q, imgs, revs);
    HeaderReadBack(DescBlock(g, q, imgs), DESCRIPTOR, q);
    HeaderReadBack(RevokeBlock(g, q, revs), REVOKE, q);
    HeaderReadBack(CommitBlock(g, q), COMMIT, q);
  }

  lemma DataNumbered(data: Block, q: nat)
    requires |data| >= 12
    ensures Numbered(Escaped(data), q)
  {
    hide RdBe32, Escaped;
    EscapeRoundTrip(data, RdBe32(Escaped(data), 8));
  }

  ghost predicate AllNumbered(ws: seq<Write>, q: nat) {
    forall i :: 0 <= i < |ws| ==> Numbered(ws[i].blk, q)
  }

  lemma GroupNumbered(g: Geometry, q: nat, pos: nat, imgs: seq<Image>)
    requires g.Valid() && Images(g, imgs) && |imgs| <= TagsPerDesc(g) && g.In(pos) && |imgs| < g.Ring() && q < WORD
    ensures AllNumbered(GroupWrites(g, q, pos, imgs), q)
  {
    hide Numbered, DescBlock, Escaped, TagsPerDesc;
    RecordsNumbered(g, q, imgs, []);
    forall i | 0 <= i < |imgs| ensures Numbered(Escaped(imgs[i].data), q) {
      DataNumbered(imgs[i].data, q);
    }
  }

  lemma {:induction false} BodyNumbered(g: Geometry, q: nat, pos: nat, dirty: seq<Image>, revs: seq<nat>)
    requires g.Valid() && Images(g, dirty) && g.In(pos) && |Body(g, q, dirty, revs)| <= g.Ring() && q < WORD
    ensures AllNumbered(BodyWrites(g, q, pos, dirty, revs), q)
    decreases |dirty| + |revs|
  {
    hide Numbered, Body, TagsPerDesc, RevokesPerBlock, GroupWrites, RevokeBlock, CommitBlock;
    if dirty != [] {
      var c := Chunk(|dirty|, TagsPerDesc(g));
      BodyDesc(g, q, dirty, revs, c);
      GroupNumbered(g, q, pos, dirty[..c]);
      BodyNumbered(g, q, g.At(pos, c + 1), dirty[c..], revs);
    } else if revs != [] {
      var c := Chunk(|revs|, RevokesPerBlock(g));
      BodyRevoke(g, q, revs, c);
      RecordsNumbered(g, q, [], revs[..c]);
      BodyNumbered(g, q, g.At(pos, 1), [], revs[c..]);
    } else {
      RecordsNumbered(g, q, [], []);
    }
  }

  lemma {:induction false} PutBelow(g: Geometry, log: Log, ws: seq<Write>, q: nat)
    requires LogOk(g, log) && SeqBelow(g, log, q + 1) && AllNumbered(ws, q) && forall i :: 0 <= i < |ws| ==> |ws[i].blk| == g.bs
    ensures LogOk(g, Put(log, ws)) && SeqBelow(g, Put(log, ws), q + 1)
    decreases |ws|
  {
    hide RdBe32;
    if ws != [] {
      PutBelow(g, PutOne(log, ws[0]), ws[1..], q);
    }
  }

  // ---- replay after a crash in a commit ----

  lemma ReadyIdle(g: Geometry, t: Tx, pos: nat, q: nat, ups: seq<Update>, revs: seq<Revoked>, n: nat)
    requires g.Valid() && TxOk(g, t) && Readable(g, t) && g.In(pos) && q < WORD && |Body(g, q, t.dirty, t.revokes)| < g.Ring()
    ensures Ready(g, Idle(pos, q, ups, revs, n), t.dirty, t.revokes)
  {
    hide Body;
  }

  /** The chain of committed transactions is untouched by writes behind it. */
  lemma ChainUntouched(g: Geometry, log: Log, start: nat, a: seq<Block>, head: nat, n: nat, ws: seq<Write>)
    requires Holds(g, log, start, a) && |a| + n < g.Ring() && head == g.At(start, |a|) && Within(g, head, 0, n, ws)
    ensures LogOk(g, Put(log, ws)) && Holds(g, Put(log, ws), start, a)
  {
    hide Put;
    WithinShift(g, start, |a|, n, ws);
    PutFrame(g, log, head, 0, n, ws);
    HoldsFrame(g, log, start, a, |a| + n, ws);
  }

  /** A transaction `t` is about to be logged at `head`, behind the transactions `d`. */
  ghost predicate Appends(g: Geometry, log: Log, start: nat, head: nat, q0: nat, d: seq<Tx>, t: Tx) {
    hide Chain, Holds, Body;
    && g.Valid() && LogOk(g, log) && ChainOk(g, d) && LogHolds(g, log, start, head, q0, d) && |d| <= MAX_PENDING && q0 + |d| + 1 < WORD
    && TxOk(g, t) && Images(g, t.dirty) && |Chain(g, q0, d)| + |Body(g, q0 + |d|, t.dirty, t.revokes)| < g.Ring()
  }

  /** The writes of the transaction's body. */
  ghost function TxWrites(g: Geometry, q: nat, pos: nat, t: Tx): seq<Write> {
    hide Body, BodyWrites;
    if g.Valid() && g.In(pos) && Images(g, t.dirty) && |Body(g, q, t.dirty, t.revokes)| < g.Ring()
    then BodyWrites(g, q, pos, t.dirty, t.revokes) else []
  }

  /** The place of the first header of the transaction that is not on disk after `j` writes. */
  ghost function TxBoundary(g: Geometry, q: nat, pos: nat, t: Tx, j: nat): nat {
    hide Body, Boundary;
    if g.Valid() && g.In(pos) && Images(g, t.dirty) && |Body(g, q, t.dirty, t.revokes)| < g.Ring()
    then Boundary(g, q, pos, t.dirty, t.revokes, j) else 0
  }

  /** Where replay stops; 0 when it fails. */
  ghost function ReplayEnd(g: Geometry, log: Log, start: nat, q: nat): nat {
    hide Replay;
    if LogOk(g, log) && g.In(start) then
      match Replay(g, log, start, q)
      case Done(s) => s.cursor
      case _ => 0
    else 0
  }

  /** No header with number `q` stands where the transaction's own headers will go. */
  ghost predicate FreshFor(g: Geometry, log: Log, q: nat, pos: nat, t: Tx) {
    hide Body, FreshHeads;
    LogOk(g, log) && g.In(pos) && Images(g, t.dirty) && |Body(g, q, t.dirty, t.revokes)| < g.Ring() &&
    FreshHeads(g, log, q, pos, t.dirty, t.revokes)
  }

  /** With the first `j` body writes on disk, and the commit block not among them, replay
      finds the transactions committed before and nothing of this one. */
  lemma CrashFinds(g: Geometry, log: Log, start: nat, head: nat, q0: nat, d: seq<Tx>, t: Tx, j: nat)
    requires Appends(g, log, start, head, q0, d, t) && FreshFor(g, log, q0 + |d|, head, t) && AllReadable(g, d) && Readable(g, t)
    requires j < |TxWrites(g, q0 + |d|, head, t)|
    ensures LogOk(g, Put(log, TxWrites(g, q0 + |d|, head, t)[..j]))
    ensures ChainOk(g, d) && Finds(g, Put(log, TxWrites(g, q0 + |d|, head, t)[..j]), start, q0, d)
    ensures ReplayEnd(g, Put(log, TxWrites(g, q0 + |d|, head, t)[..j]), start, q0) == TxBoundary(g, q0 + |d|, head, t, j)
  {
    hide Chain, Holds, Body, BodyWrites, Images, TxOk, ChainOk, LogOk, Put, Within, FreshHeads, ScanLoop, ChainUpdates, ChainRevokes,
         Boundary, DescCount, RevokeCount, ChainSteps, SeqAt, Finds, Ready, Guard, StopsAtBoundary, Room;
    var q := q0 + |d|;
    var ws := TxWrites(g, q, head, t);
    var a, n := Chain(g, q0, d), |Body(g, q, t.dirty, t.revokes)|;
    PutBody(g, log, q, head, t.dirty, t.revokes);
    WithinPrefix(g, head, n, ws, j);
    ChainUntouched(g, log, start, a, head, n, ws[..j]);
    var log' := Put(log, ws[..j]);
    var ups, revs := ChainUpdates(g, q0, start, d), ChainRevokes(g, [], q0, d);
    ReadyIdle(g, t, head, q, ups, revs, |d|);
    StepsFit(g, d, t);
    var fuel := Guard(g) - ChainSteps(g, d);
    SeqAtNoWrap(q0, |d|);
    RoomAtStart(d);
    ScanChain(g, log', start, q0, d, [], [], 0, fuel);
    assert [] + ups == ups;
    CrashStops(g, log, Idle(head, q, ups, revs, |d|), t.dirty, t.revokes, j, fuel);
    StoppedIdle(g, log, head, q, ups, revs, |d|, t, j, fuel);
    FindsIntro(g, log', start, q0, d, Boundary(g, q, head, t.dirty, t.revokes, j));
  }

  lemma RoomAtStart(d: seq<Tx>)
    requires |d| <= MAX_PENDING
    ensures Room([], [], |d|)
  {
  }

  lemma StoppedIdle(g: Geometry, log: Log, head: nat, q: nat, ups: seq<Update>, revs: seq<Revoked>, n: nat, t: Tx, j: nat, fuel: nat)
    requires LogOk(g, log) && Ready(g, Idle(head, q, ups, revs, n), t.dirty, t.revokes)
    requires StopsAtBoundary(g, log, Idle(head, q, ups, revs, n), t.dirty, t.revokes, j, fuel)
    ensures j <= |TxWrites(g, q, head, t)| && LogOk(g, Put(log, TxWrites(g, q, head, t)[..j]))
    ensures ScanLoop(g, Put(log, TxWrites(g, q, head, t)[..j]), Idle(head, q, ups, revs, n), fuel)
            == Done(Idle(Boundary(g, q, head, t.dirty, t.revokes, j), q, ups, revs, n))
  {
    hide Body, BodyWrites, Put, ScanLoop, Boundary, LogOk, Unseen;
  }

  lemma StepsFit(g: Geometry, d: seq<Tx>, t: Tx)
    requires g.Valid() && ChainOk(g, d) && |d| <= MAX_PENDING && TxOk(g, t)
    ensures ChainSteps(g, d) + DescCount(g, |t.dirty|) + RevokeCount(g, |t.revokes|) + 1 <= Guard(g)
  {
    hide ChainOk, ChainSteps, DescCount, RevokeCount, TxOk, Guard;
    GuardCovers(g, d);
    TxStepsAtMost(g, t);
  }

  lemma FindsIntro(g: Geometry, log: Log, start: nat, q: nat, d: seq<Tx>, p: nat)
    requires LogOk(g, log) && ChainOk(g, d) && g.In(start) && |Chain(g, q, d)| < g.Ring() && Holds(g, log, start, Chain(g, q, d)) && g.In(p)
    requires ScanLoop(g, log, Idle(start, q, [], [], 0), Guard(g))
             == Done(Idle(p, q + |d|, ChainUpdates(g, q, start, d), ChainRevokes(g, [], q, d), |d|))
    ensures Finds(g, log, start, q, d) && ReplayEnd(g, log, start, q) == p
  {
    hide Chain, ChainOk, Holds, ChainUpdates, ChainRevokes, ScanLoop;
  }

  lemma WithinPrefix(g: Geometry, pos: nat, n: nat, ws: seq<Write>, j: nat)
    requires Within(g, pos, 0, n, ws) && j <= |ws|
    ensures Within(g, pos, 0, n, ws[..j])
  {
    hide RingDistance;
  }

  /** With all body writes on disk, the log holds the new transaction behind the others. */
  lemma CommitExtends(g: Geometry, log: Log, start: nat, head: nat, q0: nat, d: seq<Tx>, t: Tx)
    requires Appends(g, log, start, head, q0, d, t)
    ensures ChainOk(g, d + [t]) && |TxWrites(g, q0 + |d|, head, t)| > 0 && TxLen(g, q0 + |d|, t) < g.Ring() && g.In(head)
    ensures LogHolds(g, Put(log, TxWrites(g, q0 + |d|, head, t)), start, g.At(head, TxLen(g, q0 + |d|, t)), q0, d + [t])
  {
    hide Chain, Holds, Body, BodyWrites, Images, TxOk, ChainOk, LogOk, Put, Within;
    var q := q0 + |d|;
    var ws := TxWrites(g, q, head, t);
    var a, b := Chain(g, q0, d), Body(g, q, t.dirty, t.revokes);
    PutBody(g, log, q, head, t.dirty, t.revokes);
    ChainUntouched(g, log, start, a, head, |b|, ws);
    HoldsJoin(g, Put(log, ws), start, a, b);
    OneTx(g, q, t);
    ChainAppend(g, q0, d, [t]);
    assert g.At(head, |b|) == g.At(start, |a + b|);
  }

  /** The number of ring blocks of the transaction. */
  ghost function TxLen(g: Geometry, q: nat, t: Tx): nat {
    hide Body;
    if g.Valid() && Images(g, t.dirty) then |Body(g, q, t.dirty, t.revokes)| else 0
  }

  lemma OneTx(g: Geometry, q: nat, t: Tx)
    requires g.Valid() && TxOk(g, t) && Images(g, t.dirty)
    ensures ChainOk(g, [t]) && Chain(g, q, [t]) == Body(g, q, t.dirty, t.revokes)
  {
    hide Emit, TxOk, Body;
    BodyFills(g, q, t.dirty, t.revokes);
    assert [t][1..] == [];
    assert Emit(g, q, t) + [] == Emit(g, q, t);
  }

  /** The body writes bring in no header number but `q`, and stay inside the ring. */
  lemma BodyBelow(g: Geometry, log: Log, start: nat, head: nat, q0: nat, d: seq<Tx>, t: Tx, j: nat)
    requires Appends(g, log, start, head, q0, d, t) && LogOk(g, log) && SeqBelow(g, log, q0 + |d| + 1)
    requires j <= |TxWrites(g, q0 + |d|, head, t)|
    ensures var log' := Put(log, TxWrites(g, q0 + |d|, head, t)[..j]);
            LogOk(g, log') && SeqBelow(g, log', q0 + |d| + 1) && log'[0] == log[0]
  {
    hide Chain, Holds, Body, BodyWrites, Images, TxOk, ChainOk, Put, Numbered, SeqBelow, RingDistance;
    var q := q0 + |d|;
    var ws := TxWrites(g, q, head, t);
    var n := |Body(g, q, t.dirty, t.revokes)|;
    PutBody(g, log, q, head, t.dirty, t.revokes);
    BodyNumbered(g, q, head, t.dirty, t.revokes);
    PutBelow(g, log, ws[..j], q);
    PutFrame(g, log, head, 0, n, ws[..j]);
  }

  // ---- commit ----

  lemma {:induction false} WriteLogs(disk: Disk, ws: seq<Write>)
    ensures WriteAll(disk, Logs(ws)) == disk.(log := Put(disk.log, ws))
    decreases |ws|
  {
    if ws != [] {
      assert Logs(ws)[1..] == Logs(ws[1..]);
      WriteLogs(disk.(log := PutOne(disk.log, ws[0])), ws[1..]);
    }
  }

  /** Where the transaction will end in the ring. */
  ghost function TxEnd(g: Geometry, m: Mem): nat {
    var n := TxLen(g, m.seqno, Tx(m.dirty, m.revokes));
    if n <= g.Ring() && g.In(m.head) then g.At(m.head, n) else 0
  }

  /** Where the 32-bit jump says that it will: the head that the superblock announces. */
  ghost function Announced(g: Geometry, m: Mem): nat {
    var n := TxLen(g, m.seqno, Tx(m.dirty, m.revokes));
    if g.Ring() > 0 && g.In(m.head) then RingAdvance(g, m.head, n) else 0
  }

  /** What a commit that is not refused does, given what is committed already. */
  lemma CommitForm(g: Geometry, disk: Disk, m: Mem, d: seq<Tx>)
    requires Inv(g, disk, m, d) && m.active && (m.dirty != [] || m.revokes != []) && Images(g, m.dirty) && Commit(g, m, disk.log).Settled?
    ensures Appends(g, disk.log, m.tail, m.head, m.seqno - |d|, d, Tx(m.dirty, m.revokes)) && |d| < MAX_PENDING
    ensures Commit(g, m, disk.log) == Settled(Settle(m, m.head, TxEnd(g, m)), CommitWrites(g, m, disk.log))
  {
    hide Chain, Holds, Body, BodyWrites, Images, ChainOk, TotalBlocks, ReserveRing, TxLen, Commit, Settle,
         CommitWrites, TxEnd, OpenOk, TxOk, LogOk, Inv, Emit;
    InvParts(g, disk, m, d);
    OpenTxOk(g, m);
    BodyFills(g, m.seqno, m.dirty, m.revokes);
    BodyNonEmpty(g, m.seqno, m.dirty, m.revokes);
    ChainPositive(g, m.seqno - |d|, d);
    CommitUnfold(g, m, disk.log, |Chain(g, m.seqno - |d|, d)|);
  }

  lemma InvParts(g: Geometry, disk: Disk, m: Mem, d: seq<Tx>)
    requires Inv(g, disk, m, d)
    ensures g.Valid() && LogOk(g, disk.log) && ChainOk(g, d) && |m.pending| == |d| <= m.seqno && |d| <= MAX_PENDING && m.seqno + 1 < WORD
    ensures LogHolds(g, disk.log, m.tail, m.head, m.seqno - |d|, d) && OpenOk(g, m) && Images(g, m.dirty)
  {
    hide Chain, Holds, SeqBelow, SuperSeq, SuperStart, SuperHead, HomeOk, TxOk;
  }

  lemma OpenTxOk(g: Geometry, m: Mem)
    requires OpenOk(g, m) && (m.dirty != [] || m.revokes != [])
    ensures TxOk(g, Tx(m.dirty, m.revokes))
  {
  }

  /** The log once the superblock names it, before the transaction is written to it. */
  ghost function AnnouncedLog(g: Geometry, m: Mem, log: Log): (r: Log)
    requires |log| > 0 && |log[0]| >= 1024
    ensures |r| == |log| && |r[0]| == |log[0]|
  {
    PutOne(log, StoreSuper(Announce(m, m.head, Announced(g, m)), log).w)
  }

  ghost function CommitWrites(g: Geometry, m: Mem, log: Log): seq<DiskWrite>
    requires |log| > 0 && |log[0]| >= 1024
  {
    [StoreSuper(Announce(m, m.head, Announced(g, m)), log)] + Logs(TxWrites(g, m.seqno, m.head, Tx(m.dirty, m.revokes)))
      + [StoreSuper(Settle(m, m.head, TxEnd(g, m)), AnnouncedLog(g, m, log))]
  }

  /** What is reserved for a commit that is not refused. */
  lemma CommitReserves(g: Geometry, m: Mem, log: Log, used: nat)
    requires LogOk(g, log) && Images(g, m.dirty) && m.active && (m.dirty != [] || m.revokes != []) && Commit(g, m, log).Settled?
    requires Live(g, m.head, m.tail, |m.pending|, used) && TotalBlocks(g, |m.dirty|, |m.revokes|) > 0
    ensures |m.pending| < MAX_PENDING && used + TotalBlocks(g, |m.dirty|, |m.revokes|) < g.Ring()
    ensures ReserveRing(g, m.head, m.tail, |m.pending|, TotalBlocks(g, |m.dirty|, |m.revokes|))
            == Reserved(m.head, RingAdvance(g, m.head, TotalBlocks(g, |m.dirty|, |m.revokes|)))
  {
    hide ReserveRing, TotalBlocks, Body, BodyWrites, Settle, Announce, StoreSuper, Images, RingAdvance;
    ReserveIsExact(g, m.head, m.tail, |m.pending|, used, TotalBlocks(g, |m.dirty|, |m.revokes|));
  }

  lemma CommitUnfold(g: Geometry, m: Mem, log: Log, used: nat)
    requires LogOk(g, log) && Images(g, m.dirty) && m.active && (m.dirty != [] || m.revokes != []) && Commit(g, m, log).Settled?
    requires Live(g, m.head, m.tail, |m.pending|, used) && TotalBlocks(g, |m.dirty|, |m.revokes|) > 0
    ensures |m.pending| < MAX_PENDING && used + TotalBlocks(g, |m.dirty|, |m.revokes|) < g.Ring()
    ensures Commit(g, m, log) == Settled(Settle(m, m.head, TxEnd(g, m)), CommitWrites(g, m, log))
  {
    hide ReserveRing, TotalBlocks, Body, BodyWrites, Settle, Announce, StoreSuper, Images, RingAdvance, Live;
    CommitReserves(g, m, log, used);
    BodyFills(g, m.seqno, m.dirty, m.revokes);
  }

  lemma ChainPositive(g: Geometry, q: nat, d: seq<Tx>)
    requires ChainOk(g, d)
    ensures |Chain(g, q, d)| > 0 <==> d != []
  {
    hide EmitDescs, EmitRevokes, CommitBlock, TxOk;
    if d != [] {
      assert TxOk(g, d[0]);
    }
  }

  /** The first write of a commit, to the superblock, changes nothing in the ring. */
  lemma AppendsSame(g: Geometry, log: Log, log': Log, start: nat, head: nat, q0: nat, d: seq<Tx>, t: Tx)
    requires Appends(g, log, start, head, q0, d, t) && LogOk(g, log') && forall p :: g.first <= p < g.maxlen ==> log'[p] == log[p]
    ensures Appends(g, log', start, head, q0, d, t)
    ensures FreshFor(g, log, q0 + |d|, head, t) ==> FreshFor(g, log', q0 + |d|, head, t)
  {
    hide Chain, Holds, Body, BodyWrites, Images, TxOk, ChainOk, FreshHeads;
    HoldsSame(g, log, log', start, Chain(g, q0, d));
    FreshFrame(g, log, log', q0 + |d|, head, t.dirty, t.revokes);
  }

  lemma AnnouncedOk(g: Geometry, disk: Disk, m: Mem, d: seq<Tx>)
    requires Inv(g, disk, m, d) && LogOk(g, disk.log)
    ensures var log1 := AnnouncedLog(g, m, disk.log);
            LogOk(g, log1) && SeqBelow(g, log1, m.seqno + 1) && SuperSays(log1, m.seqno - |m.pending|, m.tail, Announced(g, m)) &&
            forall p :: g.first <= p < g.maxlen ==> log1[p] == disk.log[p]
  {
    hide SeqBelow, RdBe32, ChainOk, Mirrors, SuperBlock, SuperSeq, SuperStart, SuperHead, HomeOk, Holds, TxEnd, OpenOk, Chain;
    MirrorsSeq(g, m, d);
    ChainNilOnly(g, m.seqno - |d|);
    SuperRoundTrip(disk.log[0], m.seqno - |d|, m.tail, Announced(g, m));
    SuperWriteKeepsRing(g, disk.log, SuperBlock(disk.log[0], m.seqno - |d|, m.tail, Announced(g, m)), m.seqno + 1);
  }

  lemma CommitPrefix(g: Geometry, disk: Disk, m: Mem, k: nat)
    requires |disk.log| > 0 && |disk.log[0]| >= 1024 && k <= |TxWrites(g, m.seqno, m.head, Tx(m.dirty, m.revokes))|
    ensures |CommitWrites(g, m, disk.log)| == |TxWrites(g, m.seqno, m.head, Tx(m.dirty, m.revokes))| + 2
    ensures WriteAll(disk, CommitWrites(g, m, disk.log)[..k + 1])
            == disk.(log := Put(AnnouncedLog(g, m, disk.log), TxWrites(g, m.seqno, m.head, Tx(m.dirty, m.revokes))[..k]))
  {
    hide TxWrites, StoreSuper, Put, WriteAll;
    var body := TxWrites(g, m.seqno, m.head, Tx(m.dirty, m.revokes));
    var w1 := StoreSuper(Announce(m, m.head, Announced(g, m)), disk.log);
    assert CommitWrites(g, m, disk.log)[..k + 1] == [w1] + Logs(body[..k]);
    WriteAppend(disk, [w1], Logs(body[..k]));
    WriteOneMore(disk, w1);
    WriteLogs(disk.(log := AnnouncedLog(g, m, disk.log)), body[..k]);
  }

  lemma CommitWhole(g: Geometry, disk: Disk, m: Mem)
    requires |disk.log| > 0 && |disk.log[0]| >= 1024
    ensures WriteAll(disk, CommitWrites(g, m, disk.log))
            == disk.(log := PutOne(Put(AnnouncedLog(g, m, disk.log), TxWrites(g, m.seqno, m.head, Tx(m.dirty, m.revokes))),
                                   StoreSuper(Settle(m, m.head, TxEnd(g, m)), AnnouncedLog(g, m, disk.log)).w))
  {
    hide TxWrites, StoreSuper, Put, WriteAll, Settle, AnnouncedLog;
    var body := TxWrites(g, m.seqno, m.head, Tx(m.dirty, m.revokes));
    var ws := CommitWrites(g, m, disk.log);
    CommitPrefix(g, disk, m, |body|);
    assert body[..|body|] == body;
    assert ws == ws[..|body| + 1] + [StoreSuper(Settle(m, m.head, TxEnd(g, m)), AnnouncedLog(g, m, disk.log))];
    WriteAppend(disk, ws[..|body| + 1], [ws[|body| + 1]]);
    WriteOneMore(WriteAll(disk, ws[..|body| + 1]), ws[|body| + 1]);
  }

  /** After a crash during a commit, or none. Until the commit block is on disk the mount
      gets back what was committed before; from then on it gets this transaction too. */
  ghost predicate CommitSafe(g: Geometry, disk: Disk, d: seq<Tx>, t: Tx, q: nat, m: Mem, ws: seq<DiskWrite>, k: nat)
    requires k <= |ws|
  {
    var disk' := WriteAll(disk, ws[..k]);
    disk'.home == disk.home &&
    if k + 1 < |ws| then Recoverable(g, disk', d, q)
    else if k < |ws| then Recoverable(g, disk', d + [t], q + 1)
    else Inv(g, disk', m, d + [t])
  }

  lemma CrashedBody(g: Geometry, disk: Disk, log1: Log, m: Mem, d: seq<Tx>, t: Tx, end: nat, j: nat)
    requires Inv(g, disk, m, d) && |d| <= m.seqno && Appends(g, log1, m.tail, m.head, m.seqno - |d|, d, t)
    requires FreshFor(g, log1, m.seqno, m.head, t) && AllReadable(g, d) && Readable(g, t)
    requires LogOk(g, log1) && SeqBelow(g, log1, m.seqno + 1) && SuperSays(log1, m.seqno - |d|, m.tail, end)
    requires j < |TxWrites(g, m.seqno, m.head, t)|
    ensures Recoverable(g, disk.(log := Put(log1, TxWrites(g, m.seqno, m.head, t)[..j])), d, m.seqno)
  {
    hide Chain, Holds, Put, TxWrites, FreshFor, Appends, SeqBelow, SuperSeq, SuperStart, SuperHead, HomeOk, ChainOk, Finds, OpenOk, Mirrors,
         ReplayEnd, TxBoundary, RdBe32;
    CrashFinds(g, log1, m.tail, m.head, m.seqno - |d|, d, t, j);
    BodyBelow(g, log1, m.tail, m.head, m.seqno - |d|, d, t, j);
  }

  lemma CommittedBody(g: Geometry, disk: Disk, log1: Log, m: Mem, d: seq<Tx>, t: Tx, end: nat)
    requires Inv(g, disk, m, d) && |d| <= m.seqno && Appends(g, log1, m.tail, m.head, m.seqno - |d|, d, t) && m.seqno + 2 < WORD
    requires |d| < MAX_PENDING && AllReadable(g, d) && Readable(g, t)
    requires LogOk(g, log1) && SeqBelow(g, log1, m.seqno + 1) && SuperSays(log1, m.seqno - |d|, m.tail, end)
    ensures Recoverable(g, disk.(log := Put(log1, TxWrites(g, m.seqno, m.head, t))), d + [t], m.seqno + 1)
  {
    hide Chain, Holds, Put, TxWrites, Appends, SeqBelow, SuperSeq, SuperStart, SuperHead, HomeOk, ChainOk, Finds, OpenOk, Mirrors, TxLen,
         IsHeader;
    var ws, q := TxWrites(g, m.seqno, m.head, t), m.seqno - |d|;
    BodyBelow(g, log1, m.tail, m.head, q, d, t, |ws|);
    assert ws[..|ws|] == ws;
    CommitExtends(g, log1, m.tail, m.head, q, d, t);
    var log2, head2 := Put(log1, ws), g.At(m.head, TxLen(g, m.seqno, t));
    SeqBelowMore(g, log2, m.seqno + 1);
    SeqBelowNoHeader(g, log2, m.seqno + 1, head2);
    LogHoldsFinds(g, log2, m.tail, head2, q, d + [t]);
  }

  lemma SeqBelowMore(g: Geometry, log: Log, q: nat)
    requires LogOk(g, log) && SeqBelow(g, log, q)
    ensures SeqBelow(g, log, q + 1)
  {
    hide RdBe32;
  }

  lemma SettledTail(g: Geometry, m: Mem, d: seq<Tx>, end: nat)
    requires g.Valid() && ChainOk(g, d) && Mirrors(g, m, d) && g.In(m.tail) && |Chain(g, m.seqno - |d|, d)| < g.Ring()
    requires m.head == g.At(m.tail, |Chain(g, m.seqno - |d|, d)|)
    ensures Settle(m, m.head, end).tail == m.tail
  {
    hide Chain, ChainOk;
    ChainNilOnly(g, m.seqno - |d|);
    assert d[..0] == [];
  }

  lemma SettledMirrors(g: Geometry, m: Mem, d: seq<Tx>, t: Tx, end: nat)
    requires g.Valid() && ChainOk(g, d + [t]) && ChainOk(g, d) && Mirrors(g, m, d) && g.In(m.tail) && |Chain(g, m.seqno - |d|, d)| < g.Ring()
    requires m.head == g.At(m.tail, |Chain(g, m.seqno - |d|, d)|) && t.dirty == m.dirty && m.seqno + 1 < WORD
    ensures Mirrors(g, Settle(m, m.head, end), d + [t]) && Settle(m, m.head, end).tail == m.tail
  {
    hide Chain, ChainOk;
    var m', d', q := Settle(m, m.head, end), d + [t], m.seqno - |d|;
    SettledTail(g, m, d, end);
    forall i | 0 <= i < |d'| ensures d'[..i] == d[..i] && ChainOk(g, d[..i]) && |Chain(g, q, d[..i])| < g.Ring() {
      assert d'[..i] == d[..i];
      ChainOkFront(g, d, i);
      if i == |d| {
        assert d[..i] == d;
      }
    }
    assert d[..|d|] == d;
  }

  lemma ChainNilOnly(g: Geometry, q: nat)
    requires g.Valid()
    ensures ChainOk(g, []) && Chain(g, q, []) == []
  {
  }

  lemma SettledOpen(g: Geometry, m: Mem, end: nat)
    ensures OpenOk(g, Settle(m, m.head, end))
  {
  }

  lemma SettledInv(g: Geometry, disk: Disk, log1: Log, m: Mem, d: seq<Tx>, t: Tx, end: nat)
    requires Inv(g, disk, m, d) && |d| < MAX_PENDING && Appends(g, log1, m.tail, m.head, m.seqno - |m.pending|, d, t) && m.seqno + 2 < WORD
    requires LogOk(g, log1) && SeqBelow(g, log1, m.seqno + 1) && t.dirty == m.dirty
    requires end == (if TxLen(g, m.seqno, t) <= g.Ring() && g.In(m.head) then g.At(m.head, TxLen(g, m.seqno, t)) else 0)
    ensures Inv(g, disk.(log := PutOne(Put(log1, TxWrites(g, m.seqno, m.head, t)), StoreSuper(Settle(m, m.head, end), log1).w)),
                Settle(m, m.head, end), d + [t])
  {
    hide Chain, Holds, Put, TxWrites, Appends, SeqBelow, SuperBlock, SuperSeq, SuperStart, SuperHead, HomeOk, ChainOk, Finds, OpenOk, Mirrors, TxLen;
    var ws, q := TxWrites(g, m.seqno, m.head, t), m.seqno - |d|;
    MirrorsSeq(g, m, d);
    BodyBelow(g, log1, m.tail, m.head, q, d, t, |ws|);
    assert ws[..|ws|] == ws;
    CommitExtends(g, log1, m.tail, m.head, q, d, t);
    var log2 := Put(log1, ws);
    SettledOpen(g, m, end);
    SettledMirrors(g, m, d, t, end);
    MirrorsSeq(g, Settle(m, m.head, end), d + [t]);
    var sb := SuperBlock(log1[0], q, m.tail, end);
    SuperRoundTrip(log1[0], q, m.tail, end);
    SuperWriteKeepsRing(g, log2, sb, m.seqno + 1);
    var log3 := PutOne(log2, Write(0, sb));
    HoldsSame(g, log2, log3, m.tail, Chain(g, q, d + [t]));
    SeqBelowMore(g, log3, m.seqno + 1);
  }

  /** A commit is safe against a crash at every write. */
  lemma CommitIsSafe(g: Geometry, disk: Disk, m: Mem, d: seq<Tx>, k: nat)
    requires Inv(g, disk, m, d) && m.active && (m.dirty != [] || m.revokes != []) && m.seqno + 2 < WORD
    requires LogOk(g, disk.log) && Images(g, m.dirty) && Commit(g, m, disk.log).Settled?
    requires FreshFor(g, disk.log, m.seqno, m.head, Tx(m.dirty, m.revokes))
    requires var n := |Commit(g, m, disk.log).ws|; k <= n && (k < n ==> AllReadable(g, d) && Readable(g, Tx(m.dirty, m.revokes)))
    ensures var o := Commit(g, m, disk.log);
            CommitSafe(g, disk, d, Tx(m.dirty, m.revokes), m.seqno, o.m, o.ws, k)
  {
    hide Inv, Chain, Holds, Put, PutOne, TxWrites, Appends, SeqBelow, SuperSays, StoreSuper, HomeOk, ChainOk, Recoverable, OpenOk, Mirrors, TxLen,
         Commit, CommitWrites, WriteAll, Settle, FreshFor, AnnouncedLog, LogHolds;
    var t, end := Tx(m.dirty, m.revokes), TxEnd(g, m);
    CommitForm(g, disk, m, d);
    InvParts(g, disk, m, d);
    var body, log1 := TxWrites(g, m.seqno, m.head, t), AnnouncedLog(g, m, disk.log);
    CommitExtends(g, disk.log, m.tail, m.head, m.seqno - |d|, d, t);
    AnnouncedOk(g, disk, m, d);
    AppendsSame(g, disk.log, log1, m.tail, m.head, m.seqno - |d|, d, t);
    if k == 0 {
      CommitPrefix(g, disk, m, 0);
      InvRecoverable(g, disk, m, d);
      WriteNothing(disk);
    } else if k <= |body| + 1 {
      CommitPrefix(g, disk, m, k - 1);
      if k <= |body| {
        CrashedBody(g, disk, log1, m, d, t, Announced(g, m), k - 1);
      } else {
        CommittedBody(g, disk, log1, m, d, t, Announced(g, m));
        assert body[..|body|] == body;
      }
    } else {
      CommitPrefix(g, disk, m, 0);
      CommitWhole(g, disk, m);
      SettledInv(g, disk, log1, m, d, t, end);
      assert CommitWrites(g, m, disk.log)[..k] == CommitWrites(g, m, disk.log);
    }
  }

  lemma WriteNothing(disk: Disk)
    ensures WriteAll(disk, []) == disk && forall ws: seq<DiskWrite> :: WriteAll(disk, ws[..0]) == disk
  {
  }
}
