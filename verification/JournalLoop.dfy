/** Why a commit must not reach the headers that crashed commits left: replay hands out the
    number of a crashed transaction again (kernel/ext4.c), so two such commits can fill a
    ring with descriptors of one number, and the scan then never leaves it. */
module JournalLoop {
  import opened Bytes
  import opened JournalRing
  import opened JournalFormat
  import opened JournalScan
  import opened JournalChain
  import opened JournalCrash
  import opened JournalRecovery
  import opened JournalState
  import opened JournalRun
  import opened JournalCommit
  import opened JournalStale
  import opened JournalHistory

  /** Parsing a descriptor of one image again replaces the entry it made before. */
  lemma ParseAgain(g: Geometry, img: Image, cursor: nat, q: nat, ups: seq<Update>)
    requires g.Valid() && Images(g, [img]) && g.In(cursor) && g.Ring() == 4
    requires |ups| <= 1 && (|ups| == 1 ==> ups[0].fs == img.fs && ups[0].seqno == q)
    ensures var r := ParseDescriptor(g, DescBlock(g, q, [img]), cursor, q, [], ups);
            r.Parsed? && r.next == g.At(cursor, 2) && |r.updates| == 1 && r.updates[0].fs == img.fs && r.updates[0].seqno == q
  {
    hide RdBe32, RdBe16, DescBlock, TagsPerDesc, Escapes, ParseTags, TagFlags;
    TagInDesc(g, [img], 0, q);
    var u := Update(img.fs, g.At(cursor, 1), q, Escapes(img.data));
    var ups' := AddUpdate(g, ups, TX_MAX_BLOCKS, u, true).value;
    ParseTagsStep(g, DescBlock(g, q, [img]), 12, g.At(cursor, 1), q, ups, u, ups', true);
  }

  /** The scan is somewhere on the two descriptors. */
  ghost predicate Caught(g: Geometry, log: Log, s: Scan, a: nat, img: Image) {
    && LogOk(g, log) && g.In(a) && g.Ring() == 4 && Images(g, [img]) && s.seqno < WORD
    && (s.cursor == a || s.cursor == g.At(a, 2))
    && log[a] == DescBlock(g, s.seqno, [img]) && log[g.At(a, 2)] == DescBlock(g, s.seqno, [img])
    && s.txRevs == [] && |s.txUps| <= 1 && (|s.txUps| == 1 ==> s.txUps[0].fs == img.fs && s.txUps[0].seqno == s.seqno)
  }

  lemma StaysCaught(g: Geometry, log: Log, s: Scan, a: nat, img: Image)
    requires Caught(g, log, s, a, img)
    ensures ScanStep(g, log, s).Next? && Caught(g, log, ScanStep(g, log, s).s, a, img)
  {
    hide RdBe32, ParseDescriptor, DescBlock, TagsPerDesc, IsHeader, Header;
    RecordHeaders(g, s.seqno, [img], []);
    HeaderOf(g, log[s.cursor], DESCRIPTOR, s.seqno);
    ParseAgain(g, img, s.cursor, s.seqno, s.txUps);
  }

  lemma {:induction false} NeverLeaves(g: Geometry, log: Log, s: Scan, a: nat, img: Image, fuel: nat)
    requires Caught(g, log, s, a, img)
    ensures LogOk(g, log) && ScanLoop(g, log, s, fuel) == Exhausted
    decreases fuel
  {
    hide Caught, ScanStep, LogOk;
    CaughtLog(g, log, s, a, img);
    if fuel > 0 {
      StaysCaught(g, log, s, a, img);
      NeverLeaves(g, log, ScanStep(g, log, s).s, a, img, fuel - 1);
    }
  }

  lemma CaughtLog(g: Geometry, log: Log, s: Scan, a: nat, img: Image)
    requires Caught(g, log, s, a, img)
    ensures LogOk(g, log)
  {
  }

  // ---- a commit of one whole block, cut short before its commit block ----

  /** What it leaves in the ring. */
  function CutShort(g: Geometry, q: nat, pos: nat, img: Image): seq<Write>
    requires g.Valid() && Images(g, [img]) && g.In(pos) && g.Ring() == 4
  {
    GroupWrites(g, q, pos, [img])
  }

  function Attempt(fs: nat, data: Block): seq<Move> {
    [Do(TxStart), Do(TxWrite(fs, 0, data)), CrashIn(TxCommit, 3)]
  }

  /** The memory when the commit is attempted. */
  function Writing(q: nat, head: nat, fs: nat, data: Block): Mem {
    Fresh(q, head).(active := true, dirty := [Image(fs, data)])
  }

  lemma StartMoves(g: Geometry, disk: Disk, q: nat, head: nat)
    requires Inv(g, disk, Fresh(q, head), []) && g.Ring() == 4
    ensures Moved(g, Up(disk, Fresh(q, head)), Do(TxStart)) == Up(disk, Fresh(q, head).(active := true)) && Sized(g, disk, Fresh(q, head).(active := true))
    ensures DiskOk(g, disk)
  {
    hide Inv, CeilDiv;
    InvOpen(g, disk, Fresh(q, head), []);
    WriteNothing(disk);
  }

  lemma WriteMoves(g: Geometry, disk: Disk, q: nat, head: nat, fs: nat, data: Block)
    requires DiskOk(g, disk) && fs < g.blocks && |data| == g.bs
    ensures Moved(g, Up(disk, Fresh(q, head).(active := true)), Do(TxWrite(fs, 0, data))) == Up(disk, Writing(q, head, fs, data))
  {
    hide View, LogOk;
    var m := Fresh(q, head).(active := true);
    SeenSize(g, disk, m, fs);
    assert Splice(View(m, disk.home, fs), 0, data) == data;
    WriteNothing(disk);
  }

  lemma WritingOk(g: Geometry, disk: Disk, q: nat, head: nat, fs: nat, data: Block)
    requires Inv(g, disk, Fresh(q, head), []) && g.Ring() == 4 && fs < g.blocks && |data| == g.bs
    ensures var m := Writing(q, head, fs, data); Inv(g, disk, m, []) && Sized(g, disk, m)
  {
    hide Inv;
    InvSameLog(g, disk, Fresh(q, head), Writing(q, head, fs, data), []);
    InvOpen(g, disk, Writing(q, head, fs, data), []);
  }

  /** The body of the transaction: one group, then the commit block. */
  lemma OneImageBody(g: Geometry, q: nat, head: nat, img: Image)
    requires g.Valid() && g.Ring() == 4 && g.In(head) && Images(g, [img])
    ensures TxLen(g, q, Tx([img], [])) == TotalBlocks(g, 1, 0) == 3
    ensures var ws := TxWrites(g, q, head, Tx([img], [])); |ws| == 3 && ws[..2] == CutShort(g, q, head, img)
  {
    hide Body, DescBlock, CommitBlock, TagsPerDesc, Emit, GroupWrites, GroupBlocks, TotalBlocks;
    BodyFills(g, q, [img], []);
    OneBlockTotal(g);
    BodyDesc(g, q, [img], [], 1);
    assert [img][..1] == [img] && [img][1..] == [];
    var rest := BodyWrites(g, q, g.At(head, 2), [], []);
    assert |rest| == 1;
  }

  lemma OneBlockTotal(g: Geometry)
    requires g.Valid()
    ensures TotalBlocks(g, 1, 0) == 3 && Chunk(1, TagsPerDesc(g)) == 1
  {
    hide TagsPerDesc;
    var n := TagsPerDesc(g);
    assert (1 + n - 1) / n == 1;
  }

  /** The commit goes ahead, and the crash comes when superblock, data and descriptor are on disk. */
  lemma CommitCut(g: Geometry, disk: Disk, m: Mem, q: nat, head: nat, img: Image)
    requires g.Ring() == 4 && Images(g, [img]) && m == Writing(q, head, img.fs, img.data) && Inv(g, disk, m, []) && Sized(g, disk, m)
    ensures g.In(head) && Commit(g, m, disk.log).Settled?
    ensures Moved(g, Up(disk, m), CrashIn(TxCommit, 3)) == Down(disk.(log := Put(AnnouncedLog(g, m, disk.log), CutShort(g, q, head, img))))
  {
    hide Inv, OpenOk, LogHolds, ChainOk, TotalBlocks, ReserveRing, BodyWrites, Body, TxWrites, AnnouncedLog, CommitWrites, Put, WriteAll, Settle,
         GroupWrites, TxLen, StoreSuper, HomeOk, Chain, Live;
    CommitSettles(g, disk, m, q, head, img);
    CommitForm(g, disk, m, []);
    OneImageBody(g, q, head, img);
    CommitPrefix(g, disk, m, 2);
    assert Chunk(3, 5) == 3;
  }

  lemma CommitSettles(g: Geometry, disk: Disk, m: Mem, q: nat, head: nat, img: Image)
    requires g.Ring() == 4 && Images(g, [img]) && m == Writing(q, head, img.fs, img.data) && Inv(g, disk, m, [])
    ensures LogOk(g, disk.log) && g.In(head) && Commit(g, m, disk.log).Settled?
  {
    hide Inv, OpenOk, TotalBlocks, ReserveRing, BodyWrites, Body, Settle, StoreSuper, Emit;
    InvParts(g, disk, m, []);
    ChainNilOnly(g, q);
    OneBlockTotal(g);
    ReserveIsExact(g, head, head, 0, 0, 3);
  }

  /** One attempt from a mounted, idle journal. */
  lemma AttemptLeaves(g: Geometry, disk: Disk, q: nat, head: nat, img: Image) returns (log1: Log)
    requires Inv(g, disk, Fresh(q, head), []) && g.Ring() == 4 && Images(g, [img]) && img.fs < g.blocks
    ensures g.In(head) && LogOk(g, log1) && SuperSeq(log1[0]) == q && SuperStart(log1[0]) == head && SeqBelow(g, log1, q + 1)
    ensures LogOk(g, disk.log) && forall p :: g.first <= p < g.maxlen ==> log1[p] == disk.log[p]
    ensures RunAll(g, Up(disk, Fresh(q, head)), Attempt(img.fs, img.data)) == Down(disk.(log := Put(log1, CutShort(g, q, head, img))))
  {
    hide Inv, Moved, AnnouncedLog, Put, CutShort, SeqBelow, SuperSeq, SuperStart, SuperHead, RunAll, Attempt, Sized, Admitted, Commit, HomeOk;
    var m := Writing(q, head, img.fs, img.data);
    assert [img][0] == img;
    StartMoves(g, disk, q, head);
    WriteMoves(g, disk, q, head, img.fs, img.data);
    WritingOk(g, disk, q, head, img.fs, img.data);
    CommitCut(g, disk, m, q, head, img);
    AnnouncedOk(g, disk, m, []);
    log1 := AnnouncedLog(g, m, disk.log);
    AttemptRuns(g, Up(disk, Fresh(q, head)), img.fs, img.data);
  }

  /** The ring after an attempt: the descriptor stands at the head, and two blocks on nothing has changed. */
  lemma CutLeaves(g: Geometry, log: Log, q: nat, head: nat, img: Image)
    requires LogOk(g, log) && g.In(head) && g.Ring() == 4 && Images(g, [img]) && q + 1 < WORD && SeqBelow(g, log, q + 1)
    ensures var log' := Put(log, CutShort(g, q, head, img));
            && LogOk(g, log') && log'[0] == log[0] && log'[head] == DescBlock(g, q, [img]) && log'[g.At(head, 2)] == log[g.At(head, 2)]
            && SeqBelow(g, log', q + 1)
  {
    hide RdBe32, DescBlock, TagsPerDesc, Put, GroupWrites, Within, Holds, SeqBelow;
    var w := CutShort(g, q, head, img);
    PutGroup(g, log, q, head, [img]);
    PutFrame(g, log, head, 0, 2, w);
    GroupAtHead(g, Put(log, w), head, q, [img]);
    assert RingDistance(g, head, g.At(head, 2)) == 2;
    CutBelow(g, log, q, head, img);
  }

  lemma CutBelow(g: Geometry, log: Log, q: nat, head: nat, img: Image)
    requires LogOk(g, log) && g.In(head) && g.Ring() == 4 && Images(g, [img]) && q + 1 < WORD && SeqBelow(g, log, q + 1)
    requires LogOk(g, Put(log, CutShort(g, q, head, img)))
    ensures SeqBelow(g, Put(log, CutShort(g, q, head, img)), q + 1)
  {
    hide Body, TxWrites, Put, SeqBelow, GroupWrites, DescBlock;
    OneImageBody(g, q, head, img);
    OneBlockTotal(g);
    ChainNilOnly(g, q);
    BodyBelow(g, log, head, head, q, [], Tx([img], []), 2);
  }

  /** An empty journal's superblock is stored again. */
  ghost function Remounted(disk: Disk, q: nat, head: nat): (r: Disk)
    ensures |r.log| == |disk.log| && forall p :: 0 < p < |r.log| ==> r.log[p] == disk.log[p]
  {
    if |disk.log| > 0 && |disk.log[0]| >= 1024 then WriteOne(disk, StoreSuper(Fresh(q, head), disk.log)) else disk
  }

  /** The mount after the first attempt stops just behind its descriptor and data. */
  lemma FirstMount(g: Geometry, disk: Disk, q: nat, head: nat, img: Image)
    requires DiskOk(g, disk) && g.In(head) && g.Ring() == 4 && Images(g, [img]) && q + 1 < WORD && SeqBelow(g, disk.log, q + 1)
    requires disk.log[head] == DescBlock(g, q, [img]) && !IsHeader(disk.log[g.At(head, 2)], q)
    requires SuperSeq(disk.log[0]) == q && SuperStart(disk.log[0]) == head
    ensures Moved(g, Down(disk), Boot) == Up(Remounted(disk, q, g.At(head, 2)), Fresh(q, g.At(head, 2)))
    ensures Inv(g, Remounted(disk, q, g.At(head, 2)), Fresh(q, g.At(head, 2)), [])
  {
    hide RdBe32, DescBlock, TagsPerDesc, IsHeader, SeqBelow, Inv, SuperSeq, SuperStart, SuperHead, StoreSuper, HomeOk, WriteAll, Replay;
    StopsBehind(g, disk.log, q, head, img);
    StoreFreshSuper(g, disk, q, g.At(head, 2));
    WriteOneMore(disk, StoreSuper(Fresh(q, g.At(head, 2)), disk.log));
    assert AppliedImages(disk.log, [], []) == [] && Homes([]) == [];
    assert [] + [StoreSuper(Fresh(q, g.At(head, 2)), disk.log)] == [StoreSuper(Fresh(q, g.At(head, 2)), disk.log)];
  }

  lemma StopsBehind(g: Geometry, log: Log, q: nat, head: nat, img: Image)
    requires LogOk(g, log) && g.In(head) && g.Ring() == 4 && Images(g, [img]) && q < WORD
    requires log[head] == DescBlock(g, q, [img]) && !IsHeader(log[g.At(head, 2)], q)
    ensures Replay(g, log, head, q) == Done(Idle(g.At(head, 2), q, [], [], 0))
  {
    hide RdBe32, DescBlock, TagsPerDesc, IsHeader, ScanStep, UpdatesOf, Guard;
    var s := Idle(head, q, [], [], 0);
    ScanDesc(g, log, s, [img]);
    var s' := s.(cursor := g.At(head, 2), txUps := [] + UpdatesOf(g, [img], g.At(head, 1), q), open := true);
    ScanLoopStep(g, log, s, s', 1, Guard(g) - 1);
    StopsHere(g, log, s', Guard(g) - 1);
  }

  /** Two commits of one block that are cut short in a ring of four blocks, with a mount between
      them: from then on no mount succeeds. The history starts from a freshly made journal, and
      nothing but the crashes is out of the ordinary. */
  lemma TwoCrashesBlockMount(g: Geometry, disk: Disk, q: nat, head: nat, img: Image)
    requires DiskOk(g, disk) && q + 1 < WORD && g.In(head) && SuperSays(disk.log, q, 0, head) && SeqBelow(g, disk.log, q)
    requires g.Ring() == 4 && Images(g, [img])
    ensures var steps := Attempt(img.fs, img.data) + [Boot] + Attempt(img.fs, img.data);
            var s := RunAll(g, Up(disk, Fresh(q, head)), steps);
            s.Down? && Moved(g, s, Boot) == s
  {
    hide Inv, Moved, RunAll, Attempt, Put, CutShort, DescBlock, SeqBelow, IsHeader, SuperSeq, SuperStart, SuperHead, HomeOk, StoreSuper, Remounted;
    var try, next := Attempt(img.fs, img.data), g.At(head, 2);
    assert [img][0] == img;
    SeqBelowMore(g, disk.log, q);
    SeqBelowNoHeader(g, disk.log, q, next);
    FreshInv(g, disk, q, head);
    var log1 := AttemptLeaves(g, disk, q, head, img);
    CutLeaves(g, log1, q, head, img);
    var disk1 := disk.(log := Put(log1, CutShort(g, q, head, img)));
    FirstMount(g, disk1, q, head, img);
    var disk2 := Remounted(disk1, q, next);
    var log3 := AttemptLeaves(g, disk2, q, next, img);
    CutLeaves(g, log3, q, next, img);
    var disk3 := disk2.(log := Put(log3, CutShort(g, q, next, img)));
    LastMount(g, disk3, q, next, img);
    RunTwice(g, Up(disk, Fresh(q, head)), try, Boot);
  }

  /** With descriptors of one number two blocks apart the scan goes round until its guard runs out. */
  lemma LastMount(g: Geometry, disk: Disk, q: nat, a: nat, img: Image)
    requires LogOk(g, disk.log) && g.In(a) && g.Ring() == 4 && Images(g, [img]) && q < WORD
    requires SuperSeq(disk.log[0]) == q && SuperStart(disk.log[0]) == a
    requires disk.log[a] == DescBlock(g, q, [img]) && disk.log[g.At(a, 2)] == DescBlock(g, q, [img])
    ensures Moved(g, Down(disk), Boot) == Down(disk)
  {
    hide DescBlock, SuperSeq, SuperStart, ScanLoop, WriteAll, Guard, SuperHead, RdBe32;
    NeverLeaves(g, disk.log, Idle(a, q, [], [], 0), a, img, Guard(g));
  }

  lemma RunTwice(g: Geometry, s: Sys, try: seq<Move>, boot: Move)
    ensures RunAll(g, s, try + [boot] + try) == RunAll(g, Moved(g, RunAll(g, s, try), boot), try)
  {
    hide Moved, RunAll;
    assert try + [boot] + try == try + ([boot] + try);
    RunAppend(g, s, try, [boot] + try);
    RunHead(g, RunAll(g, s, try), boot, try);
  }

  lemma {:induction false} RunAppend(g: Geometry, s: Sys, a: seq<Move>, b: seq<Move>)
    ensures RunAll(g, s, a + b) == RunAll(g, RunAll(g, s, a), b)
    decreases |a|
  {
    hide Moved;
    if a == [] {
      assert a + b == b;
    } else {
      assert (a + b)[1..] == a[1..] + b;
      RunAppend(g, Moved(g, s, a[0]), a[1..], b);
    }
  }

  lemma AttemptRuns(g: Geometry, s: Sys, fs: nat, data: Block)
    ensures RunAll(g, s, Attempt(fs, data)) == Moved(g, Moved(g, Moved(g, s, Do(TxStart)), Do(TxWrite(fs, 0, data))), CrashIn(TxCommit, 3))
  {
    hide Moved, RunAll;
    var a, b, c := Do(TxStart), Do(TxWrite(fs, 0, data)), CrashIn(TxCommit, 3);
    assert Attempt(fs, data) == [a] + [b, c];
    RunHead(g, s, a, [b, c]);
    assert [b, c] == [b] + [c];
    RunHead(g, Moved(g, s, a), b, [c]);
    RunOne(g, Moved(g, Moved(g, s, a), b), c);
  }

  lemma RunOne(g: Geometry, s: Sys, step: Move)
    ensures RunAll(g, s, [step]) == Moved(g, s, step)
  {
    hide Moved;
    assert [step][1..] == [];
  }
}
