/** Commit, checkpoint and mount as whole operations, and what a crash at any of their disk
    writes leaves to the next mount (kernel/ext4.c). Writes reach the disk in program order
    and a block write is atomic. */
module JournalRun {
  import opened Bytes
  import opened JournalRing
  import opened JournalFormat
  import opened JournalScan
  import opened JournalChain
  import opened JournalCrash
  import opened JournalRecovery
  import opened JournalState

  // ---- the operations ----

  function Logs(ws: seq<Write>): (r: seq<DiskWrite>)
    ensures |r| == |ws|
  {
    seq(|ws|, i requires 0 <= i < |ws| => ToLog(ws[i]))
  }

  function Homes(imgs: seq<Image>): (r: seq<DiskWrite>)
    ensures |r| == |imgs|
  {
    seq(|imgs|, i requires 0 <= i < |imgs| => ToHome(imgs[i].fs, imgs[i].data))
  }

  lemma BodyFills(g: Geometry, q: nat, dirty: seq<Image>, revs: seq<nat>)
    requires g.Valid() && Images(g, dirty)
    ensures |Body(g, q, dirty, revs)| == TotalBlocks(g, |dirty|, |revs|)
    ensures Body(g, q, dirty, revs) == Emit(g, q, Tx(dirty, revs))
  {
    hide EmitDescs, EmitRevokes, CommitBlock, TotalBlocks;
    EmitFillsReservation(g, q, Tx(dirty, revs));
  }

  datatype Outcome = Refused | Settled(m: Mem, ws: seq<DiskWrite>)

  /** The start of a commit: the superblock names the log before anything is written to it. */
  function Announce(m: Mem, start: nat, next: nat): Mem {
    m.(start := if m.pending == [] then start else m.start, head := next)
  }

  /** The end of a commit: the transaction joins the pending list. The head is where the writing
      stopped, which the announced one is only if the 32-bit jump to it was right. */
  function Settle(m: Mem, start: nat, end: nat): Mem {
    RefreshStartTail(m.(pending := m.pending + [Pending(m.seqno, start, end, m.dirty)])).(
      head := end, seqno := (m.seqno + 1) % WORD, active := false, dirty := [], revokes := [], overflow := false)
  }

  /** `ext4_jbd2_tx_commit`. While a transaction is open `ext4_jbd2_checkpoint_some` does
      nothing, so a full pending list or a refused reservation is final. */
  function Commit(g: Geometry, m: Mem, log: Log): Outcome
    requires g.Valid() && Images(g, m.dirty) && LogOk(g, log)
  {
    if !m.active || m.overflow then Refused
    else if m.dirty == [] && m.revokes == [] then Settled(m.(active := false), [])
    else if |m.pending| >= MAX_PENDING then Refused
    else
      var total := TotalBlocks(g, |m.dirty|, |m.revokes|);
      var r := ReserveRing(g, m.head, m.tail, |m.pending|, total);
      if r.NoRoom? then Refused
      else
        BodyFills(g, m.seqno, m.dirty, m.revokes);
        var super := StoreSuper(Announce(m, r.start, r.nextHead), log);
        var body := BodyWrites(g, m.seqno, r.start, m.dirty, m.revokes);
        var m' := Settle(m, r.start, g.At(r.start, total));
        Settled(m', [super] + Logs(body) + [StoreSuper(m', PutOne(log, super.w))])
  }

  /** `ext4_jbd2_checkpoint_some` with a budget of `k` transactions. */
  function CheckpointSome(m: Mem, log: Log, k: nat): (o: Outcome)
    requires |log| > 0 && |log[0]| >= 1024
    ensures o.Settled?
  {
    if m.active || m.pending == [] then Settled(m, [])
    else
      var n := Chunk(|m.pending|, k);
      var m' := RefreshStartTail(m.(pending := m.pending[n..]));
      Settled(m', Homes(PendingImages(m.pending[..n])) + [StoreSuper(m', log)])
  }

  /** The images `ext4_jbd2_apply_updates` stores. */
  function AppliedImages(log: Log, ups: seq<Update>, revs: seq<Revoked>): seq<Image>
    requires InLog(log, ups)
    decreases |ups|
  {
    if ups == [] then []
    else if Hits(revs, ups[0].fs, ups[0].seqno) then AppliedImages(log, ups[1..], revs)
    else [Image(ups[0].fs, Unescaped(log[ups[0].jblock], ups[0].escape))] + AppliedImages(log, ups[1..], revs)
  }

  function Fresh(seqno: nat, head: nat): Mem { Mem(seqno, 0, head, head, [], false, [], [], false) }

  /** `ext4_jbd2_load_state` and `ext4_jbd2_replay_if_needed`. */
  function Mount(g: Geometry, log: Log): Outcome
    requires LogOk(g, log)
  {
    var sb := log[0];
    if SuperStart(sb) == 0 then Settled(Fresh(SuperSeq(sb), Clamp(g, SuperHead(sb))), [])
    else if !g.In(SuperStart(sb)) then Refused
    else
      match Replay(g, log, SuperStart(sb), SuperSeq(sb))
      case Failed => Refused
      case Exhausted => Refused
      case Done(s) =>
        if !InLog(log, s.ups) then Refused
        else
          var m := Fresh(s.seqno, s.cursor);
          Settled(m, Homes(AppliedImages(log, s.ups, s.revs)) + [StoreSuper(m, log)])
  }

  // ---- the invariant between operations ----

  /** Every header in the ring carries a sequence number below `q`. */
  ghost predicate SeqBelow(g: Geometry, log: Log, q: nat)
    requires LogOk(g, log)
  {
    forall p :: g.first <= p < g.maxlen && RdBe32(log[p], 0) == MAGIC ==> RdBe32(log[p], 8) < q
  }

  /** The pending list mirrors the committed transactions `d`, whose log starts at `tail`. */
  ghost predicate Mirrors(g: Geometry, m: Mem, d: seq<Tx>)
    requires ChainOk(g, d)
  {
    |m.pending| == |d| <= m.seqno && forall i :: 0 <= i < |d| ==>
      m.pending[i].dirty == d[i].dirty && m.pending[i].seqno == m.seqno - |d| + i &&
      |Chain(g, m.seqno - |d|, d[..i])| < g.Ring() && g.In(m.tail) &&
      m.pending[i].start == g.At(m.tail, |Chain(g, m.seqno - |d|, d[..i])|)
  }

  /** The log holds exactly the committed transactions `d`, from `tail` up to `head`. */
  ghost predicate LogHolds(g: Geometry, log: Log, tail: nat, head: nat, q: nat, d: seq<Tx>)
    requires ChainOk(g, d)
  {
    LogOk(g, log) && g.In(tail) && |Chain(g, q, d)| < g.Ring() && Holds(g, log, tail, Chain(g, q, d)) && head == g.At(tail, |Chain(g, q, d)|)
  }

  ghost predicate SuperSays(log: Log, seqno: nat, start: nat, head: nat)
    requires |log| > 0 && |log[0]| >= 1024
  {
    SuperSeq(log[0]) == seqno && SuperStart(log[0]) == start && SuperHead(log[0]) == head
  }

  ghost predicate Inv(g: Geometry, disk: Disk, m: Mem, d: seq<Tx>) {
    && DiskOk(g, disk) && ChainOk(g, d) && |d| <= MAX_PENDING && m.seqno + 1 < WORD
    && Mirrors(g, m, d)
    && LogHolds(g, disk.log, m.tail, m.head, m.seqno - |d|, d)
    && m.start == (if d == [] then 0 else m.tail)
    && SuperSays(disk.log, m.seqno - |d|, m.start, m.head)
    && SeqBelow(g, disk.log, m.seqno + 1) && (d != [] ==> SeqBelow(g, disk.log, m.seqno))
    && OpenOk(g, m)
  }

  /** Replay from `start` finds the transactions `d`, numbered from `q`, and nothing else. */
  ghost predicate Finds(g: Geometry, log: Log, start: nat, q: nat, d: seq<Tx>)
    requires LogOk(g, log) && ChainOk(g, d)
  {
    g.In(start) && |Chain(g, q, d)| < g.Ring() && Holds(g, log, start, Chain(g, q, d)) &&
    exists p :: g.In(p) && Replay(g, log, start, q) == Done(Idle(p, q + |d|, ChainUpdates(g, q, start, d), ChainRevokes(g, [], q, d), |d|))
  }

  /** A disk from which the next mount gets back exactly the transactions `d`, to go on with
      sequence number `q`. */
  ghost predicate Recoverable(g: Geometry, disk: Disk, d: seq<Tx>, q: nat) {
    && DiskOk(g, disk) && ChainOk(g, d) && |d| <= MAX_PENDING + 1 && |d| <= q && q + 1 < WORD
    && SeqBelow(g, disk.log, q + 1)
    && SuperSeq(disk.log[0]) == q - |d|
    && var start := SuperStart(disk.log[0]);
       if start == 0 then d == [] && g.In(SuperHead(disk.log[0])) else Finds(g, disk.log, start, q - |d|, d)
  }

  lemma {:induction false} SeqAtNoWrap(q: nat, n: nat)
    requires q + n < WORD
    ensures SeqAt(q, n) == q + n
  {
    if n > 0 {
      SeqAtNoWrap(q, n - 1);
    }
  }

  lemma SeqBelowNoHeader(g: Geometry, log: Log, q: nat, p: nat)
    requires LogOk(g, log) && SeqBelow(g, log, q) && g.In(p)
    ensures !IsHeader(log[p], q)
  {
    hide RdBe32;
  }

  lemma LogHoldsFinds(g: Geometry, log: Log, tail: nat, head: nat, q: nat, d: seq<Tx>)
    requires LogOk(g, log) && ChainOk(g, d) && AllReadable(g, d) && LogHolds(g, log, tail, head, q, d) && |d| <= MAX_PENDING && q + |d| < WORD
    requires !IsHeader(log[head], q + |d|)
    ensures Finds(g, log, tail, q, d)
  {
    hide Chain, Holds, ChainOk, Replay, ChainUpdates, ChainRevokes, IsHeader, LogOk, AllReadable;
    SeqAtNoWrap(q, |d|);
    GuardCovers(g, d);
    ReplayFindsChain(g, log, tail, q, d);
  }

  /** Between operations the disk is recoverable, with nothing lost, if replay can read what is
      committed. */
  lemma InvRecoverable(g: Geometry, disk: Disk, m: Mem, d: seq<Tx>)
    requires Inv(g, disk, m, d) && AllReadable(g, d)
    ensures Recoverable(g, disk, d, m.seqno)
  {
    hide Finds, SeqBelow, ChainOk, RdBe32, IsHeader, OpenOk, HomeOk, Chain, Holds, AllReadable;
    if d != [] {
      SeqBelowNoHeader(g, disk.log, m.seqno, m.head);
      LogHoldsFinds(g, disk.log, m.tail, m.head, m.seqno - |d|, d);
    }
  }

  /** If it cannot, the next mount is refused: a transaction with revokes is committed, shown and
      checkpointed like any other, but on a journal without the revoke feature no mount gets past it. */
  lemma InvMountIff(g: Geometry, disk: Disk, m: Mem, d: seq<Tx>)
    requires Inv(g, disk, m, d)
    ensures LogOk(g, disk.log) && (Mount(g, disk.log).Settled? <==> AllReadable(g, d))
  {
    hide SeqBelow, ChainOk, RdBe32, IsHeader, OpenOk, HomeOk, Chain, Holds, Mirrors, SuperSeq, SuperStart, SuperHead, Mount, Replay;
    if AllReadable(g, d) {
      InvRecoverable(g, disk, m, d);
      MountRecovers(g, disk, d, m.seqno);
    } else {
      SeqBelowNoHeader(g, disk.log, m.seqno, m.head);
      SeqAtNoWrap(m.seqno - |d|, |d|);
      GuardCovers(g, d);
      ReplayFindsChain(g, disk.log, m.tail, m.seqno - |d|, d);
      MountFails(g, disk.log);
    }
  }

  lemma MountFails(g: Geometry, log: Log)
    requires LogOk(g, log) && SuperStart(log[0]) != 0 && Replay(g, log, SuperStart(log[0]), SuperSeq(log[0])) == Failed
    ensures Mount(g, log) == Refused
  {
    hide Replay, SuperSeq, SuperStart, SuperHead;
  }

  // ---- images in order ----

  /** All images of the transactions `d`, in order. */
  function AllImages(d: seq<Tx>): seq<Image>
    decreases |d|
  {
    if d == [] then [] else d[0].dirty + AllImages(d[1..])
  }

  lemma {:induction false} CheckpointedIsLast(d: seq<Tx>, b: nat, x: Block)
    ensures Checkpointed(d, b, x) == Or(LastImage(AllImages(d), b), x)
    decreases |d|
  {
    if d == [] {
      NoImage(b);
    } else {
      hide LastImage;
      LastImageAppend(d[0].dirty, AllImages(d[1..]), b);
      CheckpointedIsLast(d[1..], b, Or(LastImage(d[0].dirty, b), x));
    }
  }

  lemma CheckpointAllIsLast(home: Home, d: seq<Tx>, b: nat)
    requires b < |home|
    ensures CheckpointAll(home, d)[b] == Or(LastImage(AllImages(d), b), home[b])
  {
    CheckpointAllAt(home, d, b);
    CheckpointedIsLast(d, b, home[b]);
  }

  /** Every block that `part` stores is one that `all` stores too. */
  ghost predicate Covers(all: seq<Image>, part: seq<Image>) {
    forall i :: 0 <= i < |part| ==> LastImage(all, part[i].fs).Some?
  }

  /** Storing some of the blocks early does not change what storing all of them leaves. */
  lemma StoredEarly(home: Home, d: seq<Tx>, part: seq<Image>, b: nat)
    requires b < |home| && Covers(AllImages(d), part)
    ensures CheckpointAll(Checkpoint(home, part), d)[b] == CheckpointAll(home, d)[b]
    ensures LastImage(AllImages(d), b).None? ==> Checkpoint(home, part)[b] == home[b]
  {
    hide LastImage;
    CheckpointAllIsLast(home, d, b);
    CheckpointAllIsLast(Checkpoint(home, part), d, b);
    CheckpointAt(home, part, b);
    LastImageIn(part, b);
  }

  lemma {:induction false} WriteHomes(disk: Disk, imgs: seq<Image>)
    ensures WriteAll(disk, Homes(imgs)) == disk.(home := Checkpoint(disk.home, imgs))
    decreases |imgs|
  {
    if imgs != [] {
      assert Homes(imgs)[1..] == Homes(imgs[1..]);
      WriteHomes(disk.(home := Store(disk.home, imgs[0].fs, imgs[0].data)), imgs[1..]);
    }
  }

  lemma {:induction false} WriteAppend(disk: Disk, a: seq<DiskWrite>, b: seq<DiskWrite>)
    ensures WriteAll(disk, a + b) == WriteAll(WriteAll(disk, a), b)
    decreases |a|
  {
    if a == [] {
      assert a + b == b;
    } else {
      assert (a + b)[1..] == a[1..] + b;
      WriteAppend(WriteOne(disk, a[0]), a[1..], b);
    }
  }

  lemma WriteOneMore(disk: Disk, w: DiskWrite)
    ensures WriteAll(disk, [w]) == WriteOne(disk, w)
  {
    assert [w][1..] == [];
  }

  lemma {:induction false} HomeOkStored(g: Geometry, home: Home, imgs: seq<Image>)
    requires HomeOk(g, home) && forall i :: 0 <= i < |imgs| ==> |imgs[i].data| == g.bs
    ensures HomeOk(g, Checkpoint(home, imgs))
    decreases |imgs|
  {
    if imgs != [] {
      HomeOkStored(g, Store(home, imgs[0].fs, imgs[0].data), imgs[1..]);
    }
  }

  lemma {:induction false} AppliedIsApply(home: Home, log: Log, ups: seq<Update>, revs: seq<Revoked>)
    requires InLog(log, ups)
    ensures Checkpoint(home, AppliedImages(log, ups, revs)) == ApplyUpdates(home, log, ups, revs)
    decreases |ups|
  {
    hide Hits, Unescaped;
    if ups != [] {
      var u := ups[0];
      if !Hits(revs, u.fs, u.seqno) {
        AppliedIsApply(Store(home, u.fs, Unescaped(log[u.jblock], u.escape)), log, ups[1..], revs);
        var img, rest := Image(u.fs, Unescaped(log[u.jblock], u.escape)), AppliedImages(log, ups[1..], revs);
        assert ([img] + rest)[1..] == rest;
      } else {
        AppliedIsApply(home, log, ups[1..], revs);
      }
    }
  }

  /** What replay stores are images of the log's size, of blocks that the log writes. */
  lemma {:induction false} AppliedFrom(log: Log, ups: seq<Update>, revs: seq<Revoked>, i: nat)
    requires InLog(log, ups) && i < |AppliedImages(log, ups, revs)|
    ensures exists k :: 0 <= k < |ups| && AppliedImages(log, ups, revs)[i] == Image(ups[k].fs, Unescaped(log[ups[k].jblock], ups[k].escape))
    decreases |ups|
  {
    hide Hits, Unescaped;
    var rest := AppliedImages(log, ups[1..], revs);
    if Hits(revs, ups[0].fs, ups[0].seqno) || i > 0 {
      var j := if Hits(revs, ups[0].fs, ups[0].seqno) then i else i - 1;
      assert AppliedImages(log, ups, revs)[i] == rest[j];
      AppliedFrom(log, ups[1..], revs, j);
      var k :| 0 <= k < |ups[1..]| && rest[j] == Image(ups[1..][k].fs, Unescaped(log[ups[1..][k].jblock], ups[1..][k].escape));
      assert ups[1..][k] == ups[k + 1];
    } else {
      assert AppliedImages(log, ups, revs)[0].fs == ups[0].fs;
    }
  }

  lemma {:induction false} ChainUpdatesAre(g: Geometry, q: nat, pos: nat, d: seq<Tx>)
    requires ChainOk(g, d) && g.Valid() && g.In(pos) && |Chain(g, q, d)| < g.Ring()
    ensures |ChainUpdates(g, q, pos, d)| == |AllImages(d)|
    ensures forall i :: 0 <= i < |AllImages(d)| ==> ChainUpdates(g, q, pos, d)[i].fs == AllImages(d)[i].fs
    decreases |d|
  {
    hide Chain, ChainUpdates, Emit, TxUpdates, ChainOk, EmitDescs;
    if d == [] {
      ChainNil(g, q, pos, []);
    } else {
      ChainCons(g, q, pos, d, []);
      ChainUpdatesAre(g, (q + 1) % WORD, g.At(pos, |Emit(g, q, d[0])|), d[1..]);
    }
  }

  lemma LastImageSome(imgs: seq<Image>, i: nat)
    requires i < |imgs|
    ensures LastImage(imgs, imgs[i].fs).Some?
  {
    LastImageIn(imgs, imgs[i].fs);
  }

  lemma AppliedCovered(g: Geometry, log: Log, q: nat, pos: nat, d: seq<Tx>, revs: seq<Revoked>)
    requires ChainOk(g, d) && LogOk(g, log) && g.In(pos) && |Chain(g, q, d)| < g.Ring() && InLog(log, ChainUpdates(g, q, pos, d))
    ensures Covers(AllImages(d), AppliedImages(log, ChainUpdates(g, q, pos, d), revs))
    ensures forall i :: 0 <= i < |AppliedImages(log, ChainUpdates(g, q, pos, d), revs)|
                        ==> |AppliedImages(log, ChainUpdates(g, q, pos, d), revs)[i].data| == g.bs
  {
    hide LastImage, Chain, ChainUpdates, AppliedImages, Unescaped, ChainOk, AllImages;
    var ups := ChainUpdates(g, q, pos, d);
    var imgs := AppliedImages(log, ups, revs);
    ChainUpdatesAre(g, q, pos, d);
    forall i | 0 <= i < |imgs| ensures LastImage(AllImages(d), imgs[i].fs).Some? && |imgs[i].data| == g.bs {
      AppliedFrom(log, ups, revs, i);
      var k :| 0 <= k < |ups| && imgs[i] == Image(ups[k].fs, Unescaped(log[ups[k].jblock], ups[k].escape));
      LastImageSome(AllImages(d), k);
    }
  }

  // ---- mount ----

  /** What the file system may rely on after recovery: on every block whose last mention in
      `d` is not a revoke, `after` holds what checkpointing `d` onto `before` would leave. */
  ghost predicate Restores(before: Home, d: seq<Tx>, after: Home) {
    |before| == |after| && forall b :: 0 <= b < |before| && LastEvent(d, b) != RevokedAway ==> after[b] == CheckpointAll(before, d)[b]
  }

  /** Changing only journal block 0 leaves the ring alone. */
  lemma SuperWriteKeepsRing(g: Geometry, log: Log, sb: Block, q: nat)
    requires LogOk(g, log) && |sb| == g.bs && SeqBelow(g, log, q)
    ensures LogOk(g, PutOne(log, Write(0, sb))) && SeqBelow(g, PutOne(log, Write(0, sb)), q)
    ensures PutOne(log, Write(0, sb))[0] == sb && forall p :: g.first <= p < g.maxlen ==> PutOne(log, Write(0, sb))[p] == log[p]
  {
    hide RdBe32;
  }

  /** An empty journal, just mounted. */
  lemma FreshInv(g: Geometry, disk: Disk, q: nat, head: nat)
    requires DiskOk(g, disk) && q + 1 < WORD && g.In(head) && SeqBelow(g, disk.log, q + 1) && SuperSays(disk.log, q, 0, head)
    ensures Inv(g, disk, Fresh(q, head), [])
  {
    hide RdBe32, SeqBelow;
  }

  lemma StoreFreshSuper(g: Geometry, disk: Disk, q: nat, head: nat)
    requires DiskOk(g, disk) && q + 1 < WORD && g.In(head) && SeqBelow(g, disk.log, q + 1)
    ensures Inv(g, WriteOne(disk, StoreSuper(Fresh(q, head), disk.log)), Fresh(q, head), [])
  {
    hide RdBe32, SeqBelow, SuperBlock, Inv, SuperSeq, SuperStart, SuperHead, HomeOk;
    var sb := SuperBlock(disk.log[0], q, 0, head);
    SuperRoundTrip(disk.log[0], q, 0, head);
    SuperWriteKeepsRing(g, disk.log, sb, q + 1);
    FreshInv(g, WriteOne(disk, StoreSuper(Fresh(q, head), disk.log)), q, head);
  }

  /** Replay's own crash: a home area that replay has only partly rewritten is still
      recoverable, and nothing the log promises is lost. */
  lemma PartReplayedRecoverable(g: Geometry, disk: Disk, d: seq<Tx>, q: nat, part: seq<Image>)
    requires Recoverable(g, disk, d, q) && Covers(AllImages(d), part) && forall i :: 0 <= i < |part| ==> |part[i].data| == g.bs
    ensures Recoverable(g, disk.(home := Checkpoint(disk.home, part)), d, q)
    ensures CheckpointAll(Checkpoint(disk.home, part), d) == CheckpointAll(disk.home, d)
  {
    hide Finds, SeqBelow, RdBe32, ChainOk, Covers, AllImages, Checkpoint, CheckpointAll, SuperSeq, SuperStart, SuperHead;
    HomeOkStored(g, disk.home, part);
    forall b | 0 <= b < |disk.home| ensures CheckpointAll(Checkpoint(disk.home, part), d)[b] == CheckpointAll(disk.home, d)[b] {
      StoredEarly(disk.home, d, part, b);
    }
  }

  lemma CoversPrefix(all: seq<Image>, part: seq<Image>, k: nat)
    requires Covers(all, part) && k <= |part|
    ensures Covers(all, part[..k])
  {
    hide LastImage;
  }

  lemma {:induction false} EventUntouched(d: seq<Tx>, b: nat)
    ensures LastEvent(d, b) == Untouched ==> LastImage(AllImages(d), b).None?
    decreases |d|
  {
    if d == [] {
      NoImage(b);
    } else {
      hide LastImage;
      LastImageAppend(d[0].dirty, AllImages(d[1..]), b);
      EventUntouched(d[1..], b);
    }
  }

  /** What mount makes of a disk on which it finds a log to replay. */
  lemma MountFinds(g: Geometry, disk: Disk, d: seq<Tx>, q0: nat, start: nat, p: nat, ups: seq<Update>, revs: seq<Revoked>)
    requires DiskOk(g, disk) && ChainOk(g, d) && |d| <= 16 && q0 + |d| < WORD && g.In(start) && |Chain(g, q0, d)| < g.Ring()
    requires Holds(g, disk.log, start, Chain(g, q0, d)) && SuperStart(disk.log[0]) == start && SuperSeq(disk.log[0]) == q0
    requires ups == ChainUpdates(g, q0, start, d) && revs == ChainRevokes(g, [], q0, d)
    requires Replay(g, disk.log, start, q0) == Done(Idle(p, q0 + |d|, ups, revs, |d|))
    ensures InLog(disk.log, ups)
    ensures Mount(g, disk.log) ==
            Settled(Fresh(q0 + |d|, p), Homes(AppliedImages(disk.log, ups, revs)) + [StoreSuper(Fresh(q0 + |d|, p), disk.log)])
    ensures Restores(disk.home, d, ApplyUpdates(disk.home, disk.log, ups, revs))
  {
    hide Replay, RdBe32, ChainOk, Chain, Holds, ChainUpdates, ChainRevokes, AppliedImages, SuperBlock, InLog,
         ApplyUpdates, CheckpointAll, LastEvent, SuperSeq, SuperStart, SuperHead;
    ChainUpdatesInLog(g, disk.log, q0, start, d);
    forall b | 0 <= b < |disk.home| && LastEvent(d, b) != RevokedAway
      ensures ApplyUpdates(disk.home, disk.log, ups, revs)[b] == CheckpointAll(disk.home, d)[b]
    {
      RecoveryIsCheckpoint(g, disk.home, disk.home, disk.log, q0, start, d, b);
    }
  }

  lemma {:induction false} ChainUpdatesInLog(g: Geometry, log: Log, q: nat, pos: nat, d: seq<Tx>)
    requires ChainOk(g, d) && LogOk(g, log) && g.In(pos) && |Chain(g, q, d)| < g.Ring()
    ensures InLog(log, ChainUpdates(g, q, pos, d))
    decreases |d|
  {
    hide Chain, ChainUpdates, Emit, TxUpdates, ChainOk, EmitDescs;
    if d == [] {
      ChainNil(g, q, pos, []);
    } else {
      ChainCons(g, q, pos, d, []);
      ChainUpdatesInLog(g, log, (q + 1) % WORD, g.At(pos, |Emit(g, q, d[0])|), d[1..]);
    }
  }

  /** After a crash during mount, or none: the first `k` writes of mount are on disk. Until
      the last of them the disk is as recoverable as before; with the last one the journal
      is empty and the promised contents are in place. */
  ghost predicate MountSafe(g: Geometry, disk: Disk, d: seq<Tx>, q: nat, m: Mem, ws: seq<DiskWrite>, k: nat)
    requires k <= |ws|
  {
    var disk' := WriteAll(disk, ws[..k]);
    if k < |ws| then Recoverable(g, disk', d, q) && CheckpointAll(disk'.home, d) == CheckpointAll(disk.home, d)
    else Inv(g, disk', m, []) && m.seqno == q && Restores(disk.home, d, disk'.home)
  }

  /** Mount succeeds on every recoverable disk, and is safe against a crash at every write. */
  lemma MountRecovers(g: Geometry, disk: Disk, d: seq<Tx>, q: nat)
    requires Recoverable(g, disk, d, q)
    ensures Mount(g, disk.log).Settled?
    ensures var o := Mount(g, disk.log); forall k :: 0 <= k <= |o.ws| ==> MountSafe(g, disk, d, q, o.m, o.ws, k)
  {
    hide Finds, SeqBelow, RdBe32, ChainOk, Chain, SuperSeq, SuperStart, SuperHead, HomeOk, MountSafe, Replay, CheckpointAll;
    var start := SuperStart(disk.log[0]);
    if start == 0 {
      MountIdle(g, disk, q);
    } else {
      MountReplays(g, disk, d, q, start);
    }
  }

  lemma MountIdle(g: Geometry, disk: Disk, q: nat)
    requires Recoverable(g, disk, [], q) && SuperStart(disk.log[0]) == 0
    ensures Mount(g, disk.log).Settled? && Mount(g, disk.log).ws == []
    ensures MountSafe(g, disk, [], q, Mount(g, disk.log).m, [], 0)
  {
    hide Finds, SeqBelow, RdBe32, ChainOk, SuperSeq, SuperStart, SuperHead, HomeOk, Inv, Replay;
    FreshInv(g, disk, q, SuperHead(disk.log[0]));
  }

  lemma FoundAt(g: Geometry, log: Log, start: nat, q: nat, d: seq<Tx>) returns (p: nat)
    requires LogOk(g, log) && ChainOk(g, d) && Finds(g, log, start, q, d)
    ensures g.In(start) && |Chain(g, q, d)| < g.Ring() && Holds(g, log, start, Chain(g, q, d)) && g.In(p)
    ensures Replay(g, log, start, q) == Done(Idle(p, q + |d|, ChainUpdates(g, q, start, d), ChainRevokes(g, [], q, d), |d|))
  {
    hide Holds, Chain, ChainUpdates, ChainRevokes, Replay, ChainOk, LogOk;
    p :| g.In(p) && Replay(g, log, start, q) == Done(Idle(p, q + |d|, ChainUpdates(g, q, start, d), ChainRevokes(g, [], q, d), |d|));
  }

  lemma MountReplays(g: Geometry, disk: Disk, d: seq<Tx>, q: nat, start: nat)
    requires Recoverable(g, disk, d, q) && SuperStart(disk.log[0]) == start && start != 0
    ensures Mount(g, disk.log).Settled?
    ensures var o := Mount(g, disk.log); forall k :: 0 <= k <= |o.ws| ==> MountSafe(g, disk, d, q, o.m, o.ws, k)
  {
    hide SeqBelow, RdBe32, ChainOk, Chain, Holds, ChainUpdates, ChainRevokes, SuperSeq, SuperStart, SuperHead, HomeOk, MountSafe, Replay,
         Finds, CheckpointAll, Mount, AppliedImages, InLog, ApplyUpdates, Restores, WriteAll, Covers, AllImages, StoreSuper, Checkpoint;
    var q0 := q - |d|;
    var p := FoundAt(g, disk.log, start, q0, d);
    var ups, revs := ChainUpdates(g, q0, start, d), ChainRevokes(g, [], q0, d);
    MountFinds(g, disk, d, q0, start, p, ups, revs);
    AppliedCovered(g, disk.log, q0, start, d, revs);
    AppliedIsApply(disk.home, disk.log, ups, revs);
    var imgs := AppliedImages(disk.log, ups, revs);
    forall k | 0 <= k <= |imgs| + 1
      ensures MountSafe(g, disk, d, q, Fresh(q, p), Homes(imgs) + [StoreSuper(Fresh(q, p), disk.log)], k)
    {
      MountStep(g, disk, d, q, p, imgs, k);
    }
  }

  lemma MountStep(g: Geometry, disk: Disk, d: seq<Tx>, q: nat, p: nat, imgs: seq<Image>, k: nat)
    requires Recoverable(g, disk, d, q) && g.In(p) && Covers(AllImages(d), imgs) && Restores(disk.home, d, Checkpoint(disk.home, imgs))
    requires k <= |imgs| + 1 && forall i :: 0 <= i < |imgs| ==> |imgs[i].data| == g.bs
    ensures MountSafe(g, disk, d, q, Fresh(q, p), Homes(imgs) + [StoreSuper(Fresh(q, p), disk.log)], k)
  {
    hide SeqBelow, RdBe32, ChainOk, Finds, SuperSeq, SuperStart, SuperHead, CheckpointAll, Restores, WriteAll, Covers, AllImages,
         Checkpoint, Inv, SuperBlock, HomeOk, StoreSuper;
    var w := StoreSuper(Fresh(q, p), disk.log);
    var ws := Homes(imgs) + [w];
    if k < |ws| {
      assert ws[..k] == Homes(imgs[..k]);
      WriteHomes(disk, imgs[..k]);
      CoversPrefix(AllImages(d), imgs, k);
      PartReplayedRecoverable(g, disk, d, q, imgs[..k]);
    } else {
      assert ws[..k] == ws;
      WriteAppend(disk, Homes(imgs), [w]);
      WriteHomes(disk, imgs);
      var disk1 := disk.(home := Checkpoint(disk.home, imgs));
      WriteOneMore(disk1, w);
      HomeOkStored(g, disk.home, imgs);
      StoreFreshSuper(g, disk1, q, p);
      StoreSuperHome(disk1, w);
    }
  }

  lemma StoreSuperHome(disk: Disk, w: DiskWrite)
    ensures w.ToLog? ==> WriteOne(disk, w).home == disk.home
  {
  }

  // ---- checkpoint ----

  lemma {:induction false} ChainAppend(g: Geometry, q: nat, x: seq<Tx>, y: seq<Tx>)
    requires ChainOk(g, x) && ChainOk(g, y) && q + |x| < WORD
    ensures ChainOk(g, x + y) && Chain(g, q, x + y) == Chain(g, q, x) + Chain(g, q + |x|, y)
    decreases |x|
  {
    hide Emit, TxOk, Chain, ChainOk;
    if x == [] {
      assert x + y == y;
      ChainHead(g, q, []);
    } else {
      assert (x + y)[1..] == x[1..] + y && (x + y)[0] == x[0];
      ChainHead(g, q, x);
      ChainAppend(g, q + 1, x[1..], y);
      ChainOkCons(g, x + y);
      ChainHead(g, q, x + y);
      assert Emit(g, q, x[0]) + (Chain(g, q + 1, x[1..]) + Chain(g, q + |x|, y)) == Emit(g, q, x[0]) + Chain(g, q + 1, x[1..]) + Chain(g, q + |x|, y);
    }
  }

  lemma ChainHead(g: Geometry, q: nat, d: seq<Tx>)
    requires ChainOk(g, d)
    ensures d == [] ==> Chain(g, q, d) == []
    ensures d != [] ==> g.Valid() && TxOk(g, d[0]) && Images(g, d[0].dirty) && ChainOk(g, d[1..])
    ensures d != [] ==> Chain(g, q, d) == Emit(g, q, d[0]) + Chain(g, (q + 1) % WORD, d[1..])
  {
    hide Emit;
  }

  lemma ChainOkCons(g: Geometry, d: seq<Tx>)
    requires d != [] && TxOk(g, d[0]) && ChainOk(g, d[1..])
    ensures ChainOk(g, d)
  {
    hide TxOk;
    forall i | 0 <= i < |d| ensures TxOk(g, d[i]) {
      if i > 0 {
        assert d[i] == d[1..][i - 1];
      }
    }
  }

  lemma ChainSplit(g: Geometry, q: nat, d: seq<Tx>, n: nat)
    requires ChainOk(g, d) && n <= |d| && q + |d| < WORD
    ensures ChainOk(g, d[..n]) && ChainOk(g, d[n..]) && Chain(g, q, d) == Chain(g, q, d[..n]) + Chain(g, q + n, d[n..])
  {
    hide Emit, TxOk, Chain;
    assert d == d[..n] + d[n..];
    ChainAppend(g, q, d[..n], d[n..]);
  }

  lemma {:induction false} AllImagesAppend(x: seq<Tx>, y: seq<Tx>)
    ensures AllImages(x + y) == AllImages(x) + AllImages(y)
    decreases |x|
  {
    if x == [] {
      assert x + y == y;
    } else {
      assert (x + y)[1..] == x[1..] + y;
      AllImagesAppend(x[1..], y);
    }
  }

  lemma {:induction false} CheckpointAppend(home: Home, x: seq<Image>, y: seq<Image>)
    ensures Checkpoint(home, x + y) == Checkpoint(Checkpoint(home, x), y)
    decreases |x|
  {
    if x == [] {
      assert x + y == y;
    } else {
      assert (x + y)[1..] == x[1..] + y;
      CheckpointAppend(Store(home, x[0].fs, x[0].data), x[1..], y);
    }
  }

  lemma {:induction false} CheckpointAllImages(home: Home, d: seq<Tx>)
    ensures CheckpointAll(home, d) == Checkpoint(home, AllImages(d))
    decreases |d|
  {
    hide Checkpoint;
    if d == [] {
      CheckpointNothing(home);
    } else {
      CheckpointAppend(home, d[0].dirty, AllImages(d[1..]));
      CheckpointAllImages(Checkpoint(home, d[0].dirty), d[1..]);
    }
  }

  lemma CheckpointNothing(home: Home)
    ensures Checkpoint(home, []) == home
  {
  }

  /** The pending list holds the images of the committed transactions. */
  lemma {:induction false} PendingAre(ps: seq<Pending>, d: seq<Tx>)
    requires |ps| == |d| && forall i :: 0 <= i < |d| ==> ps[i].dirty == d[i].dirty
    ensures PendingImages(ps) == AllImages(d)
    decreases |d|
  {
    if d != [] {
      PendingAre(ps[1..], d[1..]);
    }
  }

  lemma CoversFront(d: seq<Tx>, n: nat)
    requires n <= |d|
    ensures Covers(AllImages(d), AllImages(d[..n]))
  {
    hide LastImage;
    var x, y := AllImages(d[..n]), AllImages(d[n..]);
    assert d == d[..n] + d[n..];
    AllImagesAppend(d[..n], d[n..]);
    forall i | 0 <= i < |x| ensures LastImage(x + y, x[i].fs).Some? {
      assert (x + y)[i] == x[i];
      LastImageSome(x + y, i);
    }
  }

  lemma ImagesSized(g: Geometry, d: seq<Tx>)
    requires ChainOk(g, d)
    ensures forall i :: 0 <= i < |AllImages(d)| ==> |AllImages(d)[i].data| == g.bs
    decreases |d|
  {
    if d != [] {
      ImagesSized(g, d[1..]);
      assert TxOk(g, d[0]);
    }
  }

  /** What the committed transactions leave is the same whether the first `n` of them are
      already home or not. */
  lemma CheckpointKeepsView(home: Home, d: seq<Tx>, n: nat)
    requires n <= |d|
    ensures CheckpointAll(Checkpoint(home, AllImages(d[..n])), d[n..]) == CheckpointAll(home, d)
  {
    hide Checkpoint, CheckpointAll, AllImages;
    assert d == d[..n] + d[n..];
    AllImagesAppend(d[..n], d[n..]);
    CheckpointAllImages(home, d);
    CheckpointAllImages(Checkpoint(home, AllImages(d[..n])), d[n..]);
    CheckpointAppend(home, AllImages(d[..n]), AllImages(d[n..]));
  }

  /** The memory after the first `n` pending transactions are home. */
  function Popped(m: Mem, n: nat): Mem
    requires n <= |m.pending|
  {
    RefreshStartTail(m.(pending := m.pending[n..]))
  }

  lemma PoppedMirrors(g: Geometry, m: Mem, d: seq<Tx>, n: nat)
    requires ChainOk(g, d) && Mirrors(g, m, d) && n <= |d| && m.seqno < WORD
    requires |Chain(g, m.seqno - |d|, d)| < g.Ring() && g.In(m.head)
    ensures ChainOk(g, d[n..]) && Mirrors(g, Popped(m, n), d[n..])
  {
    hide Chain, ChainOk;
    var q := m.seqno - |d|;
    var m', d' := Popped(m, n), d[n..];
    ChainSplit(g, q, d, n);
    forall i | 0 <= i < |d'|
      ensures m'.pending[i].dirty == d'[i].dirty && m'.pending[i].seqno == m'.seqno - |d'| + i
      ensures ChainOk(g, d'[..i]) && |Chain(g, q + n, d'[..i])| < g.Ring() && g.In(m'.tail)
      ensures m'.pending[i].start == g.At(m'.tail, |Chain(g, q + n, d'[..i])|)
    {
      assert m.pending[n].start == g.At(m.tail, |Chain(g, q, d[..n])|);
      assert m'.pending[i] == m.pending[n + i] && d'[i] == d[n + i];
      ChainSplit(g, q, d, n + i);
      ChainSplit(g, q, d[..n + i], n);
      assert d[..n + i][..n] == d[..n] && d[..n + i][n..] == d'[..i];
    }
  }

  lemma PoppedLogHolds(g: Geometry, log: Log, m: Mem, d: seq<Tx>, n: nat)
    requires ChainOk(g, d) && Mirrors(g, m, d) && n <= |d| && m.seqno < WORD && LogHolds(g, log, m.tail, m.head, m.seqno - |d|, d)
    ensures ChainOk(g, d[n..]) && LogHolds(g, log, Popped(m, n).tail, m.head, m.seqno - |d| + n, d[n..])
  {
    hide Chain, ChainOk, Holds;
    var q := m.seqno - |d|;
    ChainSplit(g, q, d, n);
    HoldsSplit(g, log, m.tail, Chain(g, q, d[..n]), Chain(g, q + n, d[n..]));
    if n == |d| {
      assert d[n..] == [];
      ChainNil(g, q + n, m.head, []);
    }
  }

  lemma HoldsSame(g: Geometry, log: Log, log': Log, pos: nat, blocks: seq<Block>)
    requires Holds(g, log, pos, blocks) && LogOk(g, log') && forall p :: g.first <= p < g.maxlen ==> log'[p] == log[p]
    ensures Holds(g, log', pos, blocks)
  {
  }

  /** After a crash during a checkpoint, or none. */
  ghost predicate CheckpointSafe(g: Geometry, disk: Disk, d: seq<Tx>, n: nat, m: Mem, ws: seq<DiskWrite>, k: nat)
    requires k <= |ws| && n <= |d|
  {
    var disk' := WriteAll(disk, ws[..k]);
    if k < |ws| then Recoverable(g, disk', d, m.seqno) && CheckpointAll(disk'.home, d) == CheckpointAll(disk.home, d)
    else Inv(g, disk', m, d[n..]) && CheckpointAll(disk'.home, d[n..]) == CheckpointAll(disk.home, d)
  }

  lemma PoppedInv(g: Geometry, disk: Disk, m: Mem, d: seq<Tx>, n: nat, home': Home)
    requires Inv(g, disk, m, d) && !m.active && 0 < n <= |d| && HomeOk(g, home')
    ensures Inv(g, WriteOne(disk.(home := home'), StoreSuper(Popped(m, n), disk.log)), Popped(m, n), d[n..])
  {
    hide SeqBelow, RdBe32, ChainOk, Mirrors, SuperBlock, SuperSeq, SuperStart, SuperHead, HomeOk, Chain, Holds;
    MirrorsSeq(g, m, d);
    var m', d' := Popped(m, n), d[n..];
    var q := m.seqno - |d|;
    PoppedMirrors(g, m, d, n);
    MirrorsSeq(g, m', d');
    PoppedLogHolds(g, disk.log, m, d, n);
    var seq' := SuperSeqOf(m');
    var start := m'.start;
    assert start == if d' == [] then 0 else m'.tail;
    SuperRoundTrip(disk.log[0], seq', start, m'.head);
    var sb := SuperBlock(disk.log[0], seq', start, m'.head);
    var log' := PutOne(disk.log, Write(0, sb));
    SuperWriteKeepsRing(g, disk.log, sb, m.seqno + 1);
    SuperWriteKeepsRing(g, disk.log, sb, m.seqno);
    HoldsSame(g, disk.log, log', m'.tail, Chain(g, q + n, d'));
  }

  lemma MirrorsSeq(g: Geometry, m: Mem, d: seq<Tx>)
    requires ChainOk(g, d) && Mirrors(g, m, d)
    ensures |m.pending| == |d| <= m.seqno && SuperSeqOf(m) == m.seqno - |d|
  {
  }

  lemma MirrorsImages(g: Geometry, m: Mem, d: seq<Tx>, n: nat)
    requires ChainOk(g, d) && Mirrors(g, m, d) && n <= |d|
    ensures PendingImages(m.pending[..n]) == AllImages(d[..n])
  {
    hide Chain;
    PendingAre(m.pending[..n], d[..n]);
  }

  /** A checkpoint is safe against a crash at every write, and does not change the view. */
  lemma CheckpointIsSafe(g: Geometry, disk: Disk, m: Mem, d: seq<Tx>, budget: nat, k: nat)
    requires Inv(g, disk, m, d) && !m.active && d != [] && budget > 0
    requires var o := CheckpointSome(m, disk.log, budget); k <= |o.ws| && (k < |o.ws| ==> AllReadable(g, d))
    ensures var o := CheckpointSome(m, disk.log, budget);
            CheckpointSafe(g, disk, d, Chunk(|d|, budget), o.m, o.ws, k)
  {
    hide SeqBelow, RdBe32, ChainOk, Mirrors, SuperBlock, SuperSeq, SuperStart, SuperHead, HomeOk, Chain, Holds, WriteAll,
         AllImages, PendingImages, Checkpoint, CheckpointAll, Covers, CheckpointSafe, StoreSuper, OpenOk;
    var n := Chunk(|d|, budget);
    MirrorsSeq(g, m, d);
    MirrorsImages(g, m, d, n);
    CoversFront(d, n);
    CheckpointStep(g, disk, m, d, n, PendingImages(m.pending[..n]), k);
  }

  lemma CheckpointStep(g: Geometry, disk: Disk, m: Mem, d: seq<Tx>, n: nat, imgs: seq<Image>, k: nat)
    requires Inv(g, disk, m, d) && !m.active && 0 < n <= |d| && n <= |m.pending|
    requires imgs == AllImages(d[..n]) && Covers(AllImages(d), imgs) && k <= |imgs| + 1 && (k <= |imgs| ==> AllReadable(g, d))
    ensures CheckpointSafe(g, disk, d, n, Popped(m, n), Homes(imgs) + [StoreSuper(Popped(m, n), disk.log)], k)
  {
    hide SeqBelow, RdBe32, Mirrors, SuperBlock, SuperSeq, SuperStart, SuperHead, HomeOk, Chain, Holds, WriteAll,
         AllImages, PendingImages, Checkpoint, CheckpointAll, Covers, Recoverable, StoreSuper, TxOk, OpenOk;
    var w := StoreSuper(Popped(m, n), disk.log);
    var ws := Homes(imgs) + [w];
    ChainOkFront(g, d, n);
    ImagesSized(g, d[..n]);
    if k < |ws| {
      assert ws[..k] == Homes(imgs[..k]);
      WriteHomes(disk, imgs[..k]);
      CoversPrefix(AllImages(d), imgs, k);
      InvRecoverable(g, disk, m, d);
      PartReplayedRecoverable(g, disk, d, m.seqno, imgs[..k]);
    } else {
      assert ws[..k] == ws;
      WriteAppend(disk, Homes(imgs), [w]);
      WriteHomes(disk, imgs);
      WriteOneMore(disk.(home := Checkpoint(disk.home, imgs)), w);
      HomeOkStored(g, disk.home, imgs);
      PoppedInv(g, disk, m, d, n, Checkpoint(disk.home, imgs));
      CheckpointKeepsView(disk.home, d, n);
      StoreSuperHome(disk.(home := Checkpoint(disk.home, imgs)), w);
    }
  }

  lemma ChainOkFront(g: Geometry, d: seq<Tx>, n: nat)
    requires ChainOk(g, d) && n <= |d|
    ensures ChainOk(g, d[..n])
  {
    hide TxOk;
  }
}
