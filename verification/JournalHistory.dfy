/** Whole histories of the journal: any sequence of transactions, checkpoints, crashes and
    mounts, compared with a store in which a commit takes effect at once (kernel/ext4.c). */
module JournalHistory {
  import opened Bytes
  import opened JournalRing
  import opened JournalFormat
  import opened JournalScan
  import opened JournalChain
  import opened JournalCrash
  import opened JournalRecovery
  import opened JournalState
  import opened JournalRun
  import opened JournalCommit
  import opened JournalStale

  // ---- the system ----

  datatype Op = TxStart | TxWrite(fs: nat, off: nat, bytes: seq<Byte>) | TxRevoke(fs: nat) | TxAbort | TxCommit | Flush(more: nat)

  /** `CrashIn(op, k)`: the machine stops after `k` of the disk writes of `op`. */
  datatype Move = Do(op: Op) | CrashIn(op: Op, k: nat) | Boot | CrashInBoot(k: nat)

  datatype Sys = Up(disk: Disk, m: Mem) | Down(disk: Disk)

  ghost predicate Sized(g: Geometry, disk: Disk, m: Mem) {
    DiskOk(g, disk) && Images(g, m.dirty) && Images(g, PendingImages(m.pending))
  }

  lemma SeenSize(g: Geometry, disk: Disk, m: Mem, b: nat)
    requires Sized(g, disk, m) && b < g.blocks
    ensures |View(m, disk.home, b)| == g.bs
  {
    hide LastImage, PendingImages;
    LastImageIn(m.dirty, b);
    LastImageIn(PendingImages(m.pending), b);
  }

  ghost predicate Admitted(g: Geometry, m: Mem) {
    g.Valid() && |m.pending| < MAX_PENDING && RingFree(g, m.head, m.tail, |m.pending|) >= MinFree(g)
  }

  /** One operation on the mounted file system: the new memory and its disk writes. */
  ghost function Perform(g: Geometry, disk: Disk, m: Mem, op: Op): Outcome {
    hide View, WriteChunk, NoteRevoke, Commit, CheckpointSome, PendingImages, RingFree, MinFree;
    if op.TxAbort? then Settled(Abort(m), [])
    else if !Sized(g, disk, m) then Refused
    else
      match op
      case TxStart =>
        if m.active || !Admitted(g, m) then Refused
        else Settled(m.(active := true, dirty := [], revokes := [], overflow := false), [])
      case TxWrite(fs, off, bytes) =>
        if !m.active || fs >= g.blocks || off + |bytes| > g.bs then Refused
        else
          SeenSize(g, disk, m, fs);
          (match WriteChunk(m, View(m, disk.home, fs), fs, off, bytes)
           case None => Refused
           case Some(m') => Settled(m', []))
      case TxRevoke(fs) => Settled(NoteRevoke(g, m, fs), [])
      case TxCommit => Commit(g, m, disk.log)
      case Flush(more) => CheckpointSome(m, disk.log, more + 1)
  }

  ghost function Moved(g: Geometry, s: Sys, step: Move): Sys {
    hide Perform, Mount, WriteAll;
    match s
    case Up(disk, m) =>
      (match step
       case Do(op) =>
         var o := Perform(g, disk, m, op);
         if o.Refused? then s else Up(WriteAll(disk, o.ws), o.m)
       case CrashIn(op, k) =>
         var o := Perform(g, disk, m, op);
         if o.Refused? then Down(disk) else Down(WriteAll(disk, o.ws[..Chunk(k, |o.ws|)]))
       case _ => s)
    case Down(disk) =>
      if !DiskOk(g, disk) then s
      else
        (match step
         case Boot =>
           var o := Mount(g, disk.log);
           if o.Refused? then s else Up(WriteAll(disk, o.ws), o.m)
         case CrashInBoot(k) =>
           var o := Mount(g, disk.log);
           if o.Refused? then s else Down(WriteAll(disk, o.ws[..Chunk(k, |o.ws|)]))
         case _ => s)
  }

  ghost function RunAll(g: Geometry, s: Sys, steps: seq<Move>): Sys
    decreases |steps|
  {
    if steps == [] then s else RunAll(g, Moved(g, s, steps[0]), steps[1..])
  }

  // ---- the store it stands for ----

  function StoreAll(durable: map<nat, Block>, imgs: seq<Image>): map<nat, Block>
    decreases |imgs|
  {
    if imgs == [] then durable else StoreAll(durable[imgs[0].fs := imgs[0].data], imgs[1..])
  }

  /** A committed transaction: its images are stored, and what it revokes is no longer
      promised. */
  function Effect(durable: map<nat, Block>, t: Tx): map<nat, Block> {
    StoreAll(durable - (set i | 0 <= i < |t.revokes| :: t.revokes[i]), t.dirty)
  }

  /** The step is a commit, whole or cut short, that has something to write. */
  ghost predicate Commits(g: Geometry, s: Sys, step: Move) {
    s.Up? && (step == Do(TxCommit) || (step.CrashIn? && step.op == TxCommit)) && (s.m.dirty != [] || s.m.revokes != []) &&
    Perform(g, s.disk, s.m, TxCommit).Settled?
  }

  /** ... and its commit block is on disk. */
  ghost predicate Takes(g: Geometry, s: Sys, step: Move) {
    Commits(g, s, step) && (step.CrashIn? ==> step.k + 1 >= |Perform(g, s.disk, s.m, TxCommit).ws|)
  }

  ghost function DurableNext(g: Geometry, s: Sys, durable: map<nat, Block>, step: Move): map<nat, Block> {
    if Takes(g, s, step) then Effect(durable, Tx(s.m.dirty, s.m.revokes)) else durable
  }

  /** The log blocks of commits that crashed since the last one that succeeded. */
  ghost function StaleNext(g: Geometry, s: Sys, stale: nat, step: Move): nat {
    if Takes(g, s, step) then 0
    else if Commits(g, s, step) then stale + TxLen(g, s.m.seqno, Tx(s.m.dirty, s.m.revokes))
    else stale
  }

  /** A commit must not reach round the ring to what crashed commits left there, it must revoke
      nothing unless the journal has the revoke feature, and sequence numbers must not have run out. */
  ghost predicate Allowed(g: Geometry, s: Sys, stale: nat, step: Move) {
    Commits(g, s, step) ==>
      s.m.seqno + 2 < WORD && Readable(g, Tx(s.m.dirty, s.m.revokes)) && stale + TxLen(g, s.m.seqno, Tx(s.m.dirty, s.m.revokes)) < g.Ring()
  }

  ghost predicate AllowedRun(g: Geometry, s: Sys, stale: nat, steps: seq<Move>)
    decreases |steps|
  {
    steps != [] ==> Allowed(g, s, stale, steps[0]) && AllowedRun(g, Moved(g, s, steps[0]), StaleNext(g, s, stale, steps[0]), steps[1..])
  }

  ghost function DurableRun(g: Geometry, s: Sys, durable: map<nat, Block>, steps: seq<Move>): map<nat, Block>
    decreases |steps|
  {
    if steps == [] then durable else DurableRun(g, Moved(g, s, steps[0]), DurableNext(g, s, durable, steps[0]), steps[1..])
  }

  // ---- the relation between the two ----

  ghost predicate Agrees(home: Home, d: seq<Tx>, durable: map<nat, Block>) {
    forall b :: b in durable ==> b < |home| && LastEvent(d, b) != RevokedAway && CheckpointAll(home, d)[b] == durable[b]
  }

  ghost predicate UpOk(g: Geometry, disk: Disk, m: Mem, d: seq<Tx>, durable: map<nat, Block>, stale: nat) {
    && Inv(g, disk, m, d) && AllReadable(g, d) && Agrees(disk.home, d, durable)
    && StaleWithin(g, disk.log, m.seqno, m.head, stale) && (m.active ==> Admitted(g, m))
  }

  ghost predicate DownOk(g: Geometry, disk: Disk, d: seq<Tx>, q: nat, durable: map<nat, Block>, stale: nat) {
    && Recoverable(g, disk, d, q) && Agrees(disk.home, d, durable) && LogOk(g, disk.log)
    && Mount(g, disk.log).Settled? && StaleWithin(g, disk.log, q, Mount(g, disk.log).m.head, stale)
  }

  ghost predicate SysOk(g: Geometry, s: Sys, d: seq<Tx>, q: nat, durable: map<nat, Block>, stale: nat) {
    match s
    case Up(disk, m) => q == m.seqno && UpOk(g, disk, m, d, durable, stale)
    case Down(disk) => DownOk(g, disk, d, q, durable, stale)
  }

  // ---- what the store holds ----

  lemma {:induction false} StoreAllAt(durable: map<nat, Block>, imgs: seq<Image>, b: nat)
    ensures b in StoreAll(durable, imgs) <==> b in durable || LastImage(imgs, b).Some?
    ensures b in StoreAll(durable, imgs) ==>
              StoreAll(durable, imgs)[b] == if LastImage(imgs, b).Some? then LastImage(imgs, b).value else durable[b]
    decreases |imgs|
  {
    if imgs != [] {
      StoreAllAt(durable[imgs[0].fs := imgs[0].data], imgs[1..], b);
    }
  }

  lemma {:induction false} LastEventAppend(d: seq<Tx>, t: Tx, b: nat)
    ensures LastEvent(d + [t], b) == if LastImage(t.dirty, b).Some? then Logged else if b in t.revokes then RevokedAway else LastEvent(d, b)
    decreases |d|
  {
    hide LastImage;
    if d == [] {
      assert d + [t] == [t] && [t][1..] == [];
    } else {
      assert (d + [t])[1..] == d[1..] + [t];
      LastEventAppend(d[1..], t, b);
    }
  }

  lemma {:induction false} LastEventSuffix(d: seq<Tx>, n: nat, b: nat)
    requires n <= |d|
    ensures LastEvent(d[n..], b) == RevokedAway ==> LastEvent(d, b) == RevokedAway
    decreases n
  {
    hide LastImage;
    if n == 0 {
      assert d[0..] == d;
    } else {
      assert d[n..] == d[1..][n - 1..];
      LastEventSuffix(d[1..], n - 1, b);
    }
  }

  /** A commit has the effect it promises. */
  lemma AgreesCommit(g: Geometry, home: Home, d: seq<Tx>, t: Tx, durable: map<nat, Block>)
    requires Agrees(home, d, durable) && TxOk(g, t) && |home| == g.blocks
    ensures Agrees(home, d + [t], Effect(durable, t))
  {
    hide LastImage, StoreAll, LastEvent, CheckpointAll, AllImages;
    var kept := durable - (set i | 0 <= i < |t.revokes| :: t.revokes[i]);
    forall b | b in Effect(durable, t)
      ensures b < |home| && LastEvent(d + [t], b) != RevokedAway && CheckpointAll(home, d + [t])[b] == Effect(durable, t)[b]
    {
      StoreAllAt(kept, t.dirty, b);
      LastEventAppend(d, t, b);
      LastImageIn(t.dirty, b);
      CheckpointAllIsLast(home, d, b);
      CheckpointAllIsLast(home, d + [t], b);
      AllImagesLast(d, t);
      LastImageAppend(AllImages(d), t.dirty, b);
    }
  }

  lemma AllImagesLast(d: seq<Tx>, t: Tx)
    ensures AllImages(d + [t]) == AllImages(d) + t.dirty
  {
    AllImagesAppend(d, [t]);
    assert [t][1..] == [];
    assert t.dirty + [] == t.dirty;
  }

  lemma AgreesPopped(home: Home, home': Home, d: seq<Tx>, n: nat, durable: map<nat, Block>)
    requires Agrees(home, d, durable) && n <= |d| && CheckpointAll(home', d[n..]) == CheckpointAll(home, d)
    ensures Agrees(home', d[n..], durable)
  {
    hide LastEvent, CheckpointAll;
    forall b | b in durable ensures LastEvent(d[n..], b) != RevokedAway {
      LastEventSuffix(d, n, b);
    }
  }

  lemma AgreesRestored(home: Home, home': Home, d: seq<Tx>, durable: map<nat, Block>)
    requires Agrees(home, d, durable) && Restores(home, d, home')
    ensures Agrees(home', [], durable)
  {
    hide CheckpointAll, LastEvent;
    forall b | b in durable ensures LastEvent([], b) != RevokedAway && CheckpointAll(home', []) == home' {
      NothingCommitted(home', b);
    }
  }

  lemma NothingCommitted(home: Home, b: nat)
    ensures LastEvent([], b) == Untouched && CheckpointAll(home, []) == home
  {
  }

  // ---- stale headers, and where the next mount puts the head ----

  lemma StaleSame(g: Geometry, log: Log, log': Log, q: nat, head: nat, n: nat)
    requires StaleWithin(g, log, q, head, n) && LogOk(g, log') && forall p :: g.first <= p < g.maxlen ==> log'[p] == log[p]
    ensures StaleWithin(g, log', q, head, n)
  {
    hide IsHeader, RingDistance;
  }

  lemma BelowNoStale(g: Geometry, log: Log, q: nat, head: nat, n: nat)
    requires LogOk(g, log) && SeqBelow(g, log, q) && g.In(head)
    ensures StaleWithin(g, log, q, head, n)
  {
    hide IsHeader, RingDistance, SeqBelow;
    forall p: nat | g.In(p) ensures !IsHeader(log[p], q) {
      SeqBelowNoHeader(g, log, q, p);
    }
  }

  lemma MountHead(g: Geometry, log: Log)
    requires LogOk(g, log) && Mount(g, log).Settled?
    ensures Mount(g, log).m.head ==
            if SuperStart(log[0]) == 0 then Clamp(g, SuperHead(log[0])) else ReplayEnd(g, log, SuperStart(log[0]), SuperSeq(log[0]))
  {
    hide Replay, SuperStart, SuperHead, SuperSeq, AppliedImages, StoreSuper;
  }

  /** A crash between operations loses nothing, and the next mount starts from the same head. */
  lemma InvDown(g: Geometry, disk: Disk, m: Mem, d: seq<Tx>)
    requires Inv(g, disk, m, d) && AllReadable(g, d)
    ensures Recoverable(g, disk, d, m.seqno) && LogOk(g, disk.log) && Mount(g, disk.log).Settled? && Mount(g, disk.log).m.head == m.head
  {
    hide SuperStart, SuperHead, SuperSeq, Chain, Holds, ChainOk, SeqBelow, Mirrors, OpenOk, HomeOk, Mount, Replay, Recoverable, IsHeader,
         ChainUpdates, ChainRevokes;
    InvRecoverable(g, disk, m, d);
    MountRecovers(g, disk, d, m.seqno);
    MountHead(g, disk.log);
    if d != [] {
      SeqBelowNoHeader(g, disk.log, m.seqno, m.head);
      SeqAtNoWrap(m.seqno - |d|, |d|);
      GuardCovers(g, d);
      ReplayFindsChain(g, disk.log, m.tail, m.seqno - |d|, d);
    }
  }

  lemma InvOpen(g: Geometry, disk: Disk, m: Mem, d: seq<Tx>)
    requires Inv(g, disk, m, d)
    ensures Sized(g, disk, m) && OpenOk(g, m)
  {
    hide Chain, Holds, SeqBelow, SuperSeq, SuperStart, SuperHead, PendingImages, AllImages, TxOk;
    MirrorsImages(g, m, d, |d|);
    assert m.pending[..|d|] == m.pending && d[..|d|] == d;
    AllImagesOk(g, d);
  }

  lemma {:induction false} AllImagesOk(g: Geometry, d: seq<Tx>)
    requires ChainOk(g, d)
    ensures Images(g, AllImages(d))
    decreases |d|
  {
    if d != [] {
      AllImagesOk(g, d[1..]);
      assert TxOk(g, d[0]);
    }
  }

  // ---- operations without disk writes ----

  /** Only the open transaction differs. */
  ghost predicate SameLog(m: Mem, m': Mem) {
    m'.(active := m.active, dirty := m.dirty, revokes := m.revokes, overflow := m.overflow) == m
  }

  lemma InvSameLog(g: Geometry, disk: Disk, m: Mem, m': Mem, d: seq<Tx>)
    requires Inv(g, disk, m, d) && SameLog(m, m') && OpenOk(g, m')
    ensures Inv(g, disk, m', d)
  {
    hide Chain, Holds, SeqBelow, SuperSeq, SuperStart, SuperHead, HomeOk, ChainOk, OpenOk;
  }

  lemma QuietOk(g: Geometry, disk: Disk, m: Mem, m': Mem, d: seq<Tx>, durable: map<nat, Block>, stale: nat)
    requires UpOk(g, disk, m, d, durable, stale) && SameLog(m, m') && OpenOk(g, m') && (m'.active ==> Admitted(g, m'))
    ensures UpOk(g, disk, m', d, durable, stale) && DownOk(g, disk, d, m.seqno, durable, stale)
  {
    hide Inv, OpenOk, Agrees, StaleWithin, Recoverable, Mount, Admitted;
    InvSameLog(g, disk, m, m', d);
    InvDown(g, disk, m, d);
  }

  ghost predicate Quiet(op: Op) { !op.TxCommit? && !op.Flush? }

  lemma QuietPerform(g: Geometry, disk: Disk, m: Mem, d: seq<Tx>, op: Op)
    requires Inv(g, disk, m, d) && Quiet(op) && (m.active ==> Admitted(g, m))
    ensures var o := Perform(g, disk, m, op);
            o.Settled? ==> o.ws == [] && SameLog(m, o.m) && OpenOk(g, o.m) && (o.m.active ==> Admitted(g, o.m))
  {
    hide Inv, View, RingFree, MinFree;
    InvOpen(g, disk, m, d);
    match op
    case TxWrite(fs, off, bytes) =>
      if m.active && fs < g.blocks && off + |bytes| <= g.bs {
        SeenSize(g, disk, m, fs);
        WriteChunkView(g, m, disk.home, fs, off, bytes, fs);
      }
    case TxRevoke(fs) =>
      if m.active && fs < g.blocks {
        NoteRevokeView(g, m, disk.home, fs, fs);
      }
    case _ =>
  }

  // ---- commit ----

  lemma CrashLeaves(g: Geometry, log: Log, q: nat, head: nat, n: nat, t: Tx, j: nat)
    requires StaleWithin(g, log, q, head, n) && TxOk(g, t) && n + TxLen(g, q, t) < g.Ring() && j < |TxWrites(g, q, head, t)|
    ensures StaleWithin(g, Put(log, TxWrites(g, q, head, t)[..j]), q, TxBoundary(g, q, head, t, j), n + TxLen(g, q, t))
  {
    hide Body, Boundary, BodyWrites, Images, StaleWithin, Put;
    TxImages(g, t);
    StaleCrash(g, log, q, head, n, t.dirty, t.revokes, j);
  }

  /** What is known when a commit with something to write goes ahead. */
  ghost predicate Going(g: Geometry, disk: Disk, m: Mem, d: seq<Tx>, stale: nat) {
    && Inv(g, disk, m, d) && StaleWithin(g, disk.log, m.seqno, m.head, stale) && LogOk(g, disk.log) && Images(g, m.dirty)
    && (m.dirty != [] || m.revokes != []) && Commit(g, m, disk.log).Settled?
    && m.seqno + 2 < WORD && stale + TxLen(g, m.seqno, Tx(m.dirty, m.revokes)) < g.Ring()
  }

  lemma GoingOpen(g: Geometry, disk: Disk, m: Mem, d: seq<Tx>, stale: nat)
    requires Going(g, disk, m, d, stale)
    ensures m.active && TxOk(g, Tx(m.dirty, m.revokes)) && FreshFor(g, disk.log, m.seqno, m.head, Tx(m.dirty, m.revokes))
  {
    hide Inv, StaleWithin, OpenOk, TxLen, TxOk, FreshFor;
    CommitNeedsActive(g, m, disk.log);
    InvOpen(g, disk, m, d);
    OpenTxOk(g, m);
    StaleFresh(g, disk.log, m.seqno, m.head, stale, Tx(m.dirty, m.revokes));
  }

  /** ... and replay will be able to read all of it. */
  ghost predicate GoingOn(g: Geometry, disk: Disk, m: Mem, d: seq<Tx>, stale: nat) {
    Going(g, disk, m, d, stale) && AllReadable(g, d) && Readable(g, Tx(m.dirty, m.revokes))
  }

  lemma GoingSafe(g: Geometry, disk: Disk, m: Mem, d: seq<Tx>, stale: nat, k: nat)
    requires Going(g, disk, m, d, stale) && k <= |Commit(g, m, disk.log).ws|
    requires k < |Commit(g, m, disk.log).ws| ==> GoingOn(g, disk, m, d, stale)
    ensures var o := Commit(g, m, disk.log); CommitSafe(g, disk, d, Tx(m.dirty, m.revokes), m.seqno, o.m, o.ws, k)
  {
    hide Inv, StaleWithin, OpenOk, CommitSafe, TxLen, TxOk, FreshFor;
    GoingOpen(g, disk, m, d, stale);
    CommitIsSafe(g, disk, m, d, k);
  }

  lemma CommitNeedsActive(g: Geometry, m: Mem, log: Log)
    requires g.Valid() && Images(g, m.dirty) && LogOk(g, log) && Commit(g, m, log).Settled?
    ensures m.active
  {
    hide TotalBlocks, ReserveRing, BodyWrites, StoreSuper, Settle, Announce;
  }

  lemma MountHeadIn(g: Geometry, disk: Disk, d: seq<Tx>, q: nat)
    requires Recoverable(g, disk, d, q)
    ensures LogOk(g, disk.log) && Mount(g, disk.log).Settled? && g.In(Mount(g, disk.log).m.head)
  {
    hide Finds, SeqBelow, SuperSeq, SuperStart, SuperHead, HomeOk, ChainOk, WriteAll, CheckpointAll, Chain, Holds, Mirrors, Mount, OpenOk, RdBe32, Restores;
    MountRecovers(g, disk, d, q);
    var o := Mount(g, disk.log);
    assert MountSafe(g, disk, d, q, o.m, o.ws, |o.ws|);
  }

  /** The log of a commit that stops after `k` writes, once more with its stale headers. */
  lemma GoingStale(g: Geometry, disk: Disk, m: Mem, d: seq<Tx>, stale: nat, k: nat)
    requires GoingOn(g, disk, m, d, stale) && k + 1 < |Commit(g, m, disk.log).ws|
    ensures var disk' := WriteAll(disk, Commit(g, m, disk.log).ws[..k]);
            LogOk(g, disk'.log) && Mount(g, disk'.log).Settled? &&
            StaleWithin(g, disk'.log, m.seqno, Mount(g, disk'.log).m.head, stale + TxLen(g, m.seqno, Tx(m.dirty, m.revokes)))
  {
    hide Inv, StaleWithin, OpenOk, TxLen, TxOk, WriteAll, Mount, Commit, Recoverable, Images;
    var o, t := Commit(g, m, disk.log), Tx(m.dirty, m.revokes);
    GoingSafe(g, disk, m, d, stale, k);
    MountHeadIn(g, WriteAll(disk, o.ws[..k]), d, m.seqno);
    if k == 0 {
      WriteNothing(disk);
      InvDown(g, disk, m, d);
      StaleGrow(g, disk.log, m.seqno, m.head, stale, stale + TxLen(g, m.seqno, t));
    } else {
      GoingBody(g, disk, m, d, stale, k - 1);
    }
  }

  /** The log once the superblock names the coming transaction. */
  lemma GoingAnnounced(g: Geometry, disk: Disk, m: Mem, d: seq<Tx>, stale: nat)
    requires Going(g, disk, m, d, stale)
    ensures |d| <= m.seqno && m.tail != 0 && Commit(g, m, disk.log).ws == CommitWrites(g, m, disk.log)
    ensures |CommitWrites(g, m, disk.log)| == |TxWrites(g, m.seqno, m.head, Tx(m.dirty, m.revokes))| + 2
    ensures var log1 := AnnouncedLog(g, m, disk.log);
            && LogOk(g, log1) && SeqBelow(g, log1, m.seqno + 1) && SuperSays(log1, m.seqno - |d|, m.tail, Announced(g, m))
            && Appends(g, log1, m.tail, m.head, m.seqno - |d|, d, Tx(m.dirty, m.revokes))
            && FreshFor(g, log1, m.seqno, m.head, Tx(m.dirty, m.revokes)) && StaleWithin(g, log1, m.seqno, m.head, stale)
  {
    hide Inv, StaleWithin, OpenOk, TxLen, TxOk, WriteAll, Mount, Commit, Recoverable, Images, SuperStart, SuperSeq, SuperHead,
         TxWrites, TxEnd, AnnouncedLog, CommitWrites, Appends, FreshFor, SeqBelow, Put, LogHolds, ChainOk, Settle, CommitSafe;
    var t, q0 := Tx(m.dirty, m.revokes), m.seqno - |d|;
    GoingOpen(g, disk, m, d, stale);
    InvParts(g, disk, m, d);
    CommitForm(g, disk, m, d);
    CommitExtends(g, disk.log, m.tail, m.head, q0, d, t);
    AnnouncedOk(g, disk, m, d);
    StaleFresh(g, disk.log, m.seqno, m.head, stale, t);
    AppendsSame(g, disk.log, AnnouncedLog(g, m, disk.log), m.tail, m.head, q0, d, t);
    StaleSame(g, disk.log, AnnouncedLog(g, m, disk.log), m.seqno, m.head, stale);
    CommitPrefix(g, disk, m, 0);
    TailNotZero(g, disk.log, m.tail, m.head, q0, d);
  }

  lemma GoingBody(g: Geometry, disk: Disk, m: Mem, d: seq<Tx>, stale: nat, j: nat)
    requires GoingOn(g, disk, m, d, stale) && j + 2 < |Commit(g, m, disk.log).ws|
    requires LogOk(g, WriteAll(disk, Commit(g, m, disk.log).ws[..j + 1]).log)
    requires Mount(g, WriteAll(disk, Commit(g, m, disk.log).ws[..j + 1]).log).Settled?
    ensures var log' := WriteAll(disk, Commit(g, m, disk.log).ws[..j + 1]).log;
            StaleWithin(g, log', m.seqno, Mount(g, log').m.head, stale + TxLen(g, m.seqno, Tx(m.dirty, m.revokes)))
  {
    hide Inv, StaleWithin, OpenOk, TxLen, TxOk, WriteAll, Mount, Commit, Images, SuperStart, SuperSeq, SuperHead, CommitSafe, Finds,
         TxWrites, TxBoundary, TxEnd, AnnouncedLog, CommitWrites, Appends, FreshFor, SeqBelow, Put, ReplayEnd, ChainOk;
    var t, q0 := Tx(m.dirty, m.revokes), m.seqno - |d|;
    GoingOpen(g, disk, m, d, stale);
    GoingAnnounced(g, disk, m, d, stale);
    var log1, ws := AnnouncedLog(g, m, disk.log), TxWrites(g, m.seqno, m.head, t);
    CommitPrefix(g, disk, m, j);
    CrashFinds(g, log1, m.tail, m.head, q0, d, t, j);
    BodyBelow(g, log1, m.tail, m.head, q0, d, t, j);
    CrashLeaves(g, log1, m.seqno, m.head, stale, t, j);
    MountHead(g, Put(log1, ws[..j]));
  }

  lemma TailNotZero(g: Geometry, log: Log, tail: nat, head: nat, q: nat, d: seq<Tx>)
    requires g.Valid() && ChainOk(g, d) && LogHolds(g, log, tail, head, q, d)
    ensures tail != 0
  {
    hide Chain, Holds, ChainOk;
  }

  lemma GoingCommitted(g: Geometry, disk: Disk, m: Mem, d: seq<Tx>, stale: nat)
    requires Going(g, disk, m, d, stale)
    ensures var o := Commit(g, m, disk.log);
            |o.ws| >= 2 && o.m.seqno == m.seqno + 1 && !o.m.active &&
            var log' := WriteAll(disk, o.ws[..|o.ws| - 1]).log;
            LogOk(g, log') && SeqBelow(g, log', m.seqno + 1)
  {
    hide Inv, StaleWithin, OpenOk, TxLen, TxOk, WriteAll, Mount, Commit, Images, SuperStart, SuperSeq, SuperHead, CommitSafe,
         TxWrites, TxEnd, AnnouncedLog, CommitWrites, Appends, FreshFor, SeqBelow, Put, ChainOk;
    var t := Tx(m.dirty, m.revokes);
    GoingOpen(g, disk, m, d, stale);
    GoingAnnounced(g, disk, m, d, stale);
    CommitForm(g, disk, m, d);
    var n := |TxWrites(g, m.seqno, m.head, t)|;
    CommitPrefix(g, disk, m, n);
    BodyBelow(g, AnnouncedLog(g, m, disk.log), m.tail, m.head, m.seqno - |d|, d, t, n);
  }

  /** A commit cut short: before the commit block the store is as it was, from then on the
      transaction is in it. */
  lemma CommitDown(g: Geometry, disk: Disk, m: Mem, d: seq<Tx>, durable: map<nat, Block>, stale: nat, k: nat)
    requires UpOk(g, disk, m, d, durable, stale) && GoingOn(g, disk, m, d, stale) && k <= |Commit(g, m, disk.log).ws|
    ensures var o, t := Commit(g, m, disk.log), Tx(m.dirty, m.revokes);
            var disk' := WriteAll(disk, o.ws[..k]);
            if k + 1 < |o.ws| then DownOk(g, disk', d, m.seqno, durable, stale + TxLen(g, m.seqno, t))
            else DownOk(g, disk', d + [t], m.seqno + 1, Effect(durable, t), 0)
  {
    hide Inv, StaleWithin, TxLen, TxOk, WriteAll, Mount, Commit, Recoverable, Agrees, Effect, SeqBelow, Admitted;
    var o, t := Commit(g, m, disk.log), Tx(m.dirty, m.revokes);
    GoingOpen(g, disk, m, d, stale);
    GoingSafe(g, disk, m, d, stale, k);
    assert CommitSafe(g, disk, d, t, m.seqno, o.m, o.ws, k);
    if k + 1 < |o.ws| {
      GoingStale(g, disk, m, d, stale, k);
    } else {
      GoingCommitted(g, disk, m, d, stale);
      var disk' := WriteAll(disk, o.ws[..k]);
      InvHome(g, disk, m, d);
      AgreesCommit(g, disk.home, d, t, durable);
      if k == |o.ws| {
        InvDown(g, disk', o.m, d + [t]);
        InvBelow(g, disk', o.m, d + [t]);
      }
      MountHeadIn(g, disk', d + [t], m.seqno + 1);
      BelowNoStale(g, disk'.log, m.seqno + 1, Mount(g, disk'.log).m.head, 0);
    }
  }

  lemma InvHome(g: Geometry, disk: Disk, m: Mem, d: seq<Tx>)
    requires Inv(g, disk, m, d)
    ensures |disk.home| == g.blocks && g.In(m.head)
  {
    hide Chain, Holds, SeqBelow, SuperSeq, SuperStart, SuperHead, Mirrors, OpenOk;
  }

  lemma InvBelow(g: Geometry, disk: Disk, m: Mem, d: seq<Tx>)
    requires Inv(g, disk, m, d) && d != []
    ensures LogOk(g, disk.log) && SeqBelow(g, disk.log, m.seqno)
  {
    hide Chain, Holds, SeqBelow, SuperSeq, SuperStart, SuperHead, Mirrors, OpenOk;
  }

  lemma CommitUp(g: Geometry, disk: Disk, m: Mem, d: seq<Tx>, durable: map<nat, Block>, stale: nat)
    requires UpOk(g, disk, m, d, durable, stale) && GoingOn(g, disk, m, d, stale)
    ensures var o, t := Commit(g, m, disk.log), Tx(m.dirty, m.revokes);
            o.m.seqno == m.seqno + 1 && UpOk(g, WriteAll(disk, o.ws), o.m, d + [t], Effect(durable, t), 0)
  {
    hide Inv, StaleWithin, TxLen, TxOk, WriteAll, Commit, Recoverable, Agrees, Effect, SeqBelow, Admitted;
    var o, t := Commit(g, m, disk.log), Tx(m.dirty, m.revokes);
    GoingOpen(g, disk, m, d, stale);
    GoingSafe(g, disk, m, d, stale, |o.ws|);
    assert CommitSafe(g, disk, d, t, m.seqno, o.m, o.ws, |o.ws|);
    assert o.ws[..|o.ws|] == o.ws;
    GoingCommitted(g, disk, m, d, stale);
    var disk' := WriteAll(disk, o.ws);
    InvHome(g, disk, m, d);
    InvHome(g, disk', o.m, d + [t]);
    AgreesCommit(g, disk.home, d, t, durable);
    InvBelow(g, disk', o.m, d + [t]);
    BelowNoStale(g, disk'.log, m.seqno + 1, o.m.head, 0);
  }

  // ---- checkpoint and mount ----

  /** Checkpoint and mount write home blocks first and the superblock last. */
  ghost predicate HomesThenSuper(ws: seq<DiskWrite>) {
    forall i :: 0 <= i < |ws| ==> if i + 1 < |ws| then ws[i].ToHome? else ws[i].ToLog? && ws[i].w.pos == 0
  }

  lemma {:induction false} PrefixLog(disk: Disk, ws: seq<DiskWrite>, k: nat)
    requires HomesThenSuper(ws) && k <= |ws|
    ensures var log' := WriteAll(disk, ws[..k]).log;
            |log'| == |disk.log| && (k < |ws| ==> log' == disk.log) && forall p :: 0 < p < |log'| ==> log'[p] == disk.log[p]
    decreases k
  {
    if k > 0 {
      assert ws[..k] == ws[..k - 1] + [ws[k - 1]];
      WriteAppend(disk, ws[..k - 1], [ws[k - 1]]);
      WriteOneMore(WriteAll(disk, ws[..k - 1]), ws[k - 1]);
      PrefixLog(disk, ws, k - 1);
    } else {
      WriteNothing(disk);
    }
  }

  lemma FlushShape(m: Mem, log: Log, budget: nat)
    requires |log| > 0 && |log[0]| >= 1024
    ensures var o := CheckpointSome(m, log, budget);
            HomesThenSuper(o.ws) && o.m.head == m.head && o.m.seqno == m.seqno && o.m.active == m.active
    ensures !m.active && m.pending != [] ==> |CheckpointSome(m, log, budget).ws| > 0
  {
    hide StoreSuper, PendingImages;
  }

  lemma MountShape(g: Geometry, log: Log)
    requires LogOk(g, log)
    ensures Mount(g, log).Settled? ==> HomesThenSuper(Mount(g, log).ws)
  {
    hide StoreSuper, AppliedImages, Replay, SuperStart, SuperSeq, SuperHead;
  }

  lemma FlushDown(g: Geometry, disk: Disk, m: Mem, d: seq<Tx>, durable: map<nat, Block>, stale: nat, budget: nat, k: nat)
    requires UpOk(g, disk, m, d, durable, stale) && !m.active && d != [] && budget > 0 && LogOk(g, disk.log)
    requires k <= |CheckpointSome(m, disk.log, budget).ws|
    ensures var o := CheckpointSome(m, disk.log, budget);
            var disk' := WriteAll(disk, o.ws[..k]);
            DownOk(g, disk', if k < |o.ws| then d else d[Chunk(|d|, budget)..], m.seqno, durable, stale)
  {
    hide Inv, StaleWithin, WriteAll, Mount, CheckpointSome, Recoverable, Agrees, Admitted, CheckpointAll, LogHolds, OpenOk, HomesThenSuper;
    var o := CheckpointSome(m, disk.log, budget);
    var disk', n := WriteAll(disk, o.ws[..k]), Chunk(|d|, budget);
    CheckpointIsSafe(g, disk, m, d, budget, k);
    InvParts(g, disk, m, d);
    FlushShape(m, disk.log, budget);
    PrefixLog(disk, o.ws, k);
    if k < |o.ws| {
      AgreesSame(disk.home, disk'.home, d, durable);
      InvDown(g, disk, m, d);
      MountHeadIn(g, disk', d, m.seqno);
    } else {
      AgreesPopped(disk.home, disk'.home, d, n, durable);
      InvDown(g, disk', o.m, d[n..]);
      StaleSame(g, disk.log, disk'.log, m.seqno, m.head, stale);
    }
  }

  lemma AgreesSame(home: Home, home': Home, d: seq<Tx>, durable: map<nat, Block>)
    requires Agrees(home, d, durable) && CheckpointAll(home', d) == CheckpointAll(home, d)
    ensures Agrees(home', d, durable)
  {
    hide CheckpointAll, LastEvent;
  }

  lemma FlushUp(g: Geometry, disk: Disk, m: Mem, d: seq<Tx>, durable: map<nat, Block>, stale: nat, budget: nat)
    requires UpOk(g, disk, m, d, durable, stale) && !m.active && d != [] && budget > 0 && LogOk(g, disk.log)
    ensures var o := CheckpointSome(m, disk.log, budget);
            o.m.seqno == m.seqno && UpOk(g, WriteAll(disk, o.ws), o.m, d[Chunk(|d|, budget)..], durable, stale)
  {
    hide Inv, StaleWithin, WriteAll, Mount, CheckpointSome, Recoverable, Agrees, Admitted, CheckpointAll, LogHolds, OpenOk, HomesThenSuper;
    var o := CheckpointSome(m, disk.log, budget);
    var disk', n := WriteAll(disk, o.ws), Chunk(|d|, budget);
    assert o.ws[..|o.ws|] == o.ws;
    CheckpointIsSafe(g, disk, m, d, budget, |o.ws|);
    InvParts(g, disk, m, d);
    FlushShape(m, disk.log, budget);
    PrefixLog(disk, o.ws, |o.ws|);
    AgreesPopped(disk.home, disk'.home, d, n, durable);
    InvDown(g, disk', o.m, d[n..]);
    StaleSame(g, disk.log, disk'.log, m.seqno, m.head, stale);
  }

  /** Mount gets back what the store holds, and a crash during mount does no harm. */
  lemma BootOk(g: Geometry, disk: Disk, d: seq<Tx>, q: nat, durable: map<nat, Block>, stale: nat, k: nat)
    requires DownOk(g, disk, d, q, durable, stale) && k <= |Mount(g, disk.log).ws|
    ensures var o := Mount(g, disk.log);
            var disk' := WriteAll(disk, o.ws[..k]);
            if k < |o.ws| then DownOk(g, disk', d, q, durable, stale)
            else o.m.seqno == q && UpOk(g, disk', o.m, [], durable, stale)
  {
    hide Inv, StaleWithin, WriteAll, Mount, Recoverable, Agrees, Admitted, CheckpointAll, Restores, HomesThenSuper;
    var o := Mount(g, disk.log);
    var disk' := WriteAll(disk, o.ws[..k]);
    MountRecovers(g, disk, d, q);
    assert MountSafe(g, disk, d, q, o.m, o.ws, k);
    MountShape(g, disk.log);
    PrefixLog(disk, o.ws, k);
    if k < |o.ws| {
      AgreesSame(disk.home, disk'.home, d, durable);
    } else {
      AgreesRestored(disk.home, disk'.home, d, durable);
      InvDown(g, disk', o.m, []);
      StaleSame(g, disk.log, disk'.log, q, o.m.head, stale);
      MountIdleMem(g, disk.log);
    }
  }

  lemma MountIdleMem(g: Geometry, log: Log)
    requires LogOk(g, log)
    ensures Mount(g, log).Settled? ==> !Mount(g, log).m.active
  {
    hide StoreSuper, AppliedImages, Replay, SuperStart, SuperSeq, SuperHead;
  }

  // ---- one step, and whole histories ----

  lemma CommitStep(g: Geometry, disk: Disk, m: Mem, d: seq<Tx>, durable: map<nat, Block>, stale: nat, step: Move) returns (d': seq<Tx>, q': nat)
    requires UpOk(g, disk, m, d, durable, stale) && Allowed(g, Up(disk, m), stale, step) && (step == Do(TxCommit) || (step.CrashIn? && step.op == TxCommit))
    ensures SysOk(g, Moved(g, Up(disk, m), step), d', q', DurableNext(g, Up(disk, m), durable, step), StaleNext(g, Up(disk, m), stale, step))
  {
    hide Inv, StaleWithin, WriteAll, Mount, Recoverable, Agrees, Admitted, Commit, Effect, TxLen, OpenOk, LogHolds, ChainOk, Images;
    InvParts(g, disk, m, d);
    InvOpen(g, disk, m, d);
    var o, t := Commit(g, m, disk.log), Tx(m.dirty, m.revokes);
    d', q' := d, m.seqno;
    if o.Refused? {
      QuietOk(g, disk, m, m, d, durable, stale);
    } else if m.dirty == [] && m.revokes == [] {
      EmptyCommit(g, disk, m);
      QuietOk(g, disk, m, o.m, d, durable, stale);
      WriteNothing(disk);
    } else if step.Do? {
      CommitUp(g, disk, m, d, durable, stale);
      d', q' := d + [t], m.seqno + 1;
    } else {
      var k := Chunk(step.k, |o.ws|);
      CommitDown(g, disk, m, d, durable, stale, k);
      if k + 1 >= |o.ws| {
        d', q' := d + [t], m.seqno + 1;
      }
    }
  }

  lemma EmptyCommit(g: Geometry, disk: Disk, m: Mem)
    requires LogOk(g, disk.log) && Images(g, m.dirty) && OpenOk(g, m) && Commit(g, m, disk.log).Settled? && m.dirty == [] && m.revokes == []
    ensures var o := Commit(g, m, disk.log); o.ws == [] && SameLog(m, o.m) && OpenOk(g, o.m) && !o.m.active
  {
    hide TotalBlocks, ReserveRing, BodyWrites;
  }

  lemma OtherStep(g: Geometry, disk: Disk, m: Mem, d: seq<Tx>, durable: map<nat, Block>, stale: nat, step: Move) returns (d': seq<Tx>)
    requires UpOk(g, disk, m, d, durable, stale)
    requires (step.Do? || step.CrashIn?) && !step.op.TxCommit?
    ensures SysOk(g, Moved(g, Up(disk, m), step), d', m.seqno, durable, stale)
  {
    hide Inv, StaleWithin, WriteAll, Mount, Recoverable, Agrees, Admitted, OpenOk, LogHolds, ChainOk, Images, CheckpointSome, Perform;
    InvParts(g, disk, m, d);
    var o := Perform(g, disk, m, step.op);
    d' := d;
    WriteNothing(disk);
    if o.Refused? {
      QuietOk(g, disk, m, m, d, durable, stale);
    } else if Quiet(step.op) {
      QuietPerform(g, disk, m, d, step.op);
      QuietOk(g, disk, m, o.m, d, durable, stale);
    } else {
      FlushPerform(g, disk, m, d, step.op.more);
      if m.active || d == [] {
        QuietOk(g, disk, m, m, d, durable, stale);
      } else if step.Do? {
        FlushUp(g, disk, m, d, durable, stale, step.op.more + 1);
        d' := d[Chunk(|d|, step.op.more + 1)..];
      } else {
        FlushDown(g, disk, m, d, durable, stale, step.op.more + 1, Chunk(step.k, |o.ws|));
        if step.k >= |o.ws| {
          d' := d[Chunk(|d|, step.op.more + 1)..];
        }
      }
    }
  }

  lemma FlushPerform(g: Geometry, disk: Disk, m: Mem, d: seq<Tx>, more: nat)
    requires Inv(g, disk, m, d) && LogOk(g, disk.log) && |m.pending| == |d|
    ensures Perform(g, disk, m, Flush(more)) == CheckpointSome(m, disk.log, more + 1)
    ensures m.active || d == [] ==> CheckpointSome(m, disk.log, more + 1) == Settled(m, [])
  {
    hide Inv, PendingImages, StoreSuper;
    InvOpen(g, disk, m, d);
  }

  /** Every step keeps the relation between the disk and the store. */
  lemma StepOk(g: Geometry, s: Sys, d: seq<Tx>, q: nat, durable: map<nat, Block>, stale: nat, step: Move) returns (d': seq<Tx>, q': nat)
    requires SysOk(g, s, d, q, durable, stale) && Allowed(g, s, stale, step)
    ensures SysOk(g, Moved(g, s, step), d', q', DurableNext(g, s, durable, step), StaleNext(g, s, stale, step))
  {
    hide UpOk, DownOk, WriteAll, Mount, Perform, Effect;
    d', q' := d, q;
    match s
    case Up(disk, m) =>
      if step.Boot? || step.CrashInBoot? {
      } else if step.op.TxCommit? {
        d', q' := CommitStep(g, disk, m, d, durable, stale, step);
      } else {
        d' := OtherStep(g, disk, m, d, durable, stale, step);
      }
    case Down(disk) =>
      DownReady(g, disk, d, q, durable, stale);
      var n := |Mount(g, disk.log).ws|;
      var k := if step.CrashInBoot? then Chunk(step.k, n) else n;
      BootOk(g, disk, d, q, durable, stale, k);
      assert Mount(g, disk.log).ws[..n] == Mount(g, disk.log).ws;
      if k == n && (step.Boot? || step.CrashInBoot?) {
        d' := [];
        if step.CrashInBoot? {
          UpDown(g, WriteAll(disk, Mount(g, disk.log).ws), Mount(g, disk.log).m, [], durable, stale);
        }
      }
  }

  lemma DownReady(g: Geometry, disk: Disk, d: seq<Tx>, q: nat, durable: map<nat, Block>, stale: nat)
    requires DownOk(g, disk, d, q, durable, stale)
    ensures DiskOk(g, disk) && LogOk(g, disk.log) && Mount(g, disk.log).Settled?
  {
    hide Mount, Finds, SeqBelow, SuperSeq, SuperStart, SuperHead, StaleWithin, Agrees;
  }

  lemma UpDown(g: Geometry, disk: Disk, m: Mem, d: seq<Tx>, durable: map<nat, Block>, stale: nat)
    requires UpOk(g, disk, m, d, durable, stale)
    ensures DownOk(g, disk, d, m.seqno, durable, stale)
  {
    hide Inv, StaleWithin, Recoverable, Agrees, Admitted, Mount;
    InvDown(g, disk, m, d);
  }

  ghost function StaleRun(g: Geometry, s: Sys, stale: nat, steps: seq<Move>): nat
    decreases |steps|
  {
    if steps == [] then stale else StaleRun(g, Moved(g, s, steps[0]), StaleNext(g, s, stale, steps[0]), steps[1..])
  }

  // ---- abort ----

  ghost predicate Edits(steps: seq<Move>) {
    forall i :: 0 <= i < |steps| ==> steps[i].Do? && (steps[i].op.TxWrite? || steps[i].op.TxRevoke?)
  }

  lemma EditMoves(g: Geometry, disk: Disk, m: Mem, step: Move)
    requires Edits([step])
    ensures var s := Moved(g, Up(disk, m), step); s.Up? && s.disk == disk && SameLog(m, s.m) && s.m.active == m.active
  {
    hide View, Sized;
    assert [step][0] == step;
    WriteNothing(disk);
  }

  lemma {:induction false} EditsRun(g: Geometry, disk: Disk, m: Mem, steps: seq<Move>)
    requires Edits(steps)
    ensures var s := RunAll(g, Up(disk, m), steps); s.Up? && s.disk == disk && SameLog(m, s.m) && s.m.active == m.active
    decreases |steps|
  {
    hide Moved;
    if steps != [] {
      assert Edits([steps[0]]);
      EditMoves(g, disk, m, steps[0]);
      EditsRun(g, disk, Moved(g, Up(disk, m), steps[0]).m, steps[1..]);
    }
  }

  lemma {:induction false} RunThen(g: Geometry, s: Sys, a: seq<Move>, b: Move)
    ensures RunAll(g, s, a + [b]) == Moved(g, RunAll(g, s, a), b)
    decreases |a|
  {
    hide Moved;
    if a == [] {
      assert a + [b] == [b] && [b][1..] == [];
    } else {
      assert (a + [b])[1..] == a[1..] + [b];
      RunThen(g, Moved(g, s, a[0]), a[1..], b);
    }
  }

  /** A transaction that is started, given any writes and revokes, and aborted leaves the disk
      alone, and every block reads as it did before. */
  lemma AbortRestores(g: Geometry, disk: Disk, m: Mem, steps: seq<Move>, b: nat)
    requires !m.active && Edits(steps) && b < |disk.home|
    ensures var s := RunAll(g, Up(disk, m), [Do(TxStart)] + steps + [Do(TxAbort)]);
            s.Up? && s.disk == disk && !s.m.active && View(s.m, disk.home, b) == View(m, disk.home, b)
  {
    hide Moved, RunAll, View;
    var s0, steps1 := Up(disk, m), [Do(TxStart)] + steps;
    StartKeeps(g, disk, m);
    var s1 := Moved(g, s0, Do(TxStart));
    assert RunAll(g, s0, steps1) == RunAll(g, s1, steps) by { RunHead(g, s0, Do(TxStart), steps); }
    EditsRun(g, disk, s1.m, steps);
    var s2 := RunAll(g, s0, steps1);
    RunThen(g, s0, steps1, Do(TxAbort));
    AbortKeeps(g, disk, m, s2.m, b);
  }

  lemma RunHead(g: Geometry, s: Sys, step: Move, rest: seq<Move>)
    ensures RunAll(g, s, [step] + rest) == RunAll(g, Moved(g, s, step), rest)
  {
    hide Moved;
    assert ([step] + rest)[1..] == rest;
  }

  lemma StartKeeps(g: Geometry, disk: Disk, m: Mem)
    requires !m.active
    ensures var s := Moved(g, Up(disk, m), Do(TxStart)); s.Up? && s.disk == disk && SameLog(m, s.m)
  {
    hide Admitted, Sized;
    WriteNothing(disk);
  }

  lemma AbortKeeps(g: Geometry, disk: Disk, m: Mem, m2: Mem, b: nat)
    requires !m.active && SameLog(m, m2) && b < |disk.home|
    ensures var s := Moved(g, Up(disk, m2), Do(TxAbort));
            s.Up? && s.disk == disk && !s.m.active && View(s.m, disk.home, b) == View(m, disk.home, b)
  {
    WriteNothing(disk);
    CommittedSame(m, Abort(m2), disk.home, b);
  }

  /** For every history: what the disk holds and what the next mount will find is what the
      store holds. */
  lemma {:induction false} HistoryOk(g: Geometry, s: Sys, d: seq<Tx>, q: nat, durable: map<nat, Block>, stale: nat, steps: seq<Move>)
    returns (d': seq<Tx>, q': nat)
    requires SysOk(g, s, d, q, durable, stale) && AllowedRun(g, s, stale, steps)
    ensures SysOk(g, RunAll(g, s, steps), d', q', DurableRun(g, s, durable, steps), StaleRun(g, s, stale, steps))
    decreases |steps|
  {
    hide SysOk, Moved, DurableNext, StaleNext, Allowed;
    if steps == [] {
      d', q' := d, q;
    } else {
      d', q' := StepOk(g, s, d, q, durable, stale, steps[0]);
      d', q' := HistoryOk(g, Moved(g, s, steps[0]), d', q', DurableNext(g, s, durable, steps[0]), StaleNext(g, s, stale, steps[0]), steps[1..]);
    }
  }

  /** What reads see below the open transaction is the committed transactions in order. */
  lemma CommittedIsCheckpointed(g: Geometry, disk: Disk, m: Mem, d: seq<Tx>, b: nat)
    requires Inv(g, disk, m, d) && b < |disk.home|
    ensures Committed(m, disk.home, b) == CheckpointAll(disk.home, d)[b]
  {
    hide Chain, Holds, SeqBelow, SuperSeq, SuperStart, SuperHead, PendingImages, AllImages, LastImage, OpenOk, CheckpointAll;
    MirrorsImages(g, m, d, |d|);
    assert m.pending[..|d|] == m.pending && d[..|d|] == d;
    CheckpointAllIsLast(disk.home, d, b);
  }

  lemma UpReads(g: Geometry, disk: Disk, m: Mem, d: seq<Tx>, durable: map<nat, Block>, stale: nat, b: nat)
    requires UpOk(g, disk, m, d, durable, stale) && b in durable
    ensures b < |disk.home| && Committed(m, disk.home, b) == durable[b]
  {
    hide Inv, StaleWithin, Admitted, CheckpointAll, Committed, LastEvent;
    CommittedIsCheckpointed(g, disk, m, d, b);
  }

  lemma EmptyHomes(g: Geometry, disk: Disk, m: Mem, durable: map<nat, Block>, stale: nat, b: nat)
    requires UpOk(g, disk, m, [], durable, stale) && b in durable
    ensures b < |disk.home| && disk.home[b] == durable[b]
  {
    hide Inv, StaleWithin, Admitted, LastEvent;
  }

  /** The blocks of a freshly made file system, all of them promised. */
  function AllOf(home: Home): map<nat, Block> {
    map b: nat | b < |home| :: home[b]
  }

  /** A journal of zeroed blocks behind its superblock. */
  ghost function EmptyJournal(g: Geometry, q: nat, head: nat): Log
    requires g.bs >= 1024
  {
    seq(g.maxlen, i => if i == 0 then SuperBlock(Zeros(g.bs), q, 0, head) else Zeros(g.bs))
  }

  /** What mkfs writes is a disk that a history can start from, for every geometry. */
  lemma FormattedDisk(g: Geometry, home: Home, q: nat, head: nat)
    requires g.Valid() && HomeOk(g, home) && q + 1 < WORD && g.In(head)
    ensures var disk := Disk(home, EmptyJournal(g, q, head));
            && DiskOk(g, disk) && SuperSays(disk.log, q, 0, head) && SeqBelow(g, disk.log, q)
            && Inv(g, disk, Fresh(q, head), [])
  {
    hide Inv, SuperBlock, SuperSeq, SuperStart, SuperHead, RdBe32, Zeros;
    var disk := Disk(home, EmptyJournal(g, q, head));
    SuperRoundTrip(Zeros(g.bs), q, 0, head);
    NoMagic(g.bs);
    FreshInv(g, disk, q, head);
  }

  lemma NoMagic(n: nat)
    requires n >= 12
    ensures RdBe32(Zeros(n), 0) != MAGIC
  {
  }

  /** From a fresh journal, through any history of transactions, checkpoints, crashes at any
      disk write and mounts: a mounted system reads what the store holds on every block its
      open transaction has not touched, and a stopped one mounts and then holds at home
      everything the store holds. */
  lemma HistoryIsDurable(g: Geometry, disk: Disk, q: nat, head: nat, steps: seq<Move>)
    requires DiskOk(g, disk) && q + 1 < WORD && g.In(head) && SuperSays(disk.log, q, 0, head) && SeqBelow(g, disk.log, q)
    requires AllowedRun(g, Up(disk, Fresh(q, head)), 0, steps)
    ensures var s := RunAll(g, Up(disk, Fresh(q, head)), steps);
            var durable := DurableRun(g, Up(disk, Fresh(q, head)), AllOf(disk.home), steps);
            match s
            case Up(disk', m) =>
              forall b :: b in durable ==> b < |disk'.home| && Committed(m, disk'.home, b) == durable[b]
            case Down(disk') =>
              Moved(g, s, Boot).Up? && var home' := Moved(g, s, Boot).disk.home;
              forall b :: b in durable ==> b < |home'| && home'[b] == durable[b]
  {
    hide UpOk, DownOk, AllowedRun, RunAll, DurableRun, WriteAll, Mount, Committed, Fresh;
    var s0 := Up(disk, Fresh(q, head));
    FreshOk(g, disk, q, head);
    var d, q' := HistoryOk(g, s0, [], q, AllOf(disk.home), 0, steps);
    var s, durable := RunAll(g, s0, steps), DurableRun(g, s0, AllOf(disk.home), steps);
    var stale := StaleRun(g, s0, 0, steps);
    match s
    case Up(disk', m) =>
      forall b | b in durable ensures b < |disk'.home| && Committed(m, disk'.home, b) == durable[b] {
        UpReads(g, disk', m, d, durable, stale, b);
      }
    case Down(disk') =>
      DownReady(g, disk', d, q', durable, stale);
      var o := Mount(g, disk'.log);
      BootOk(g, disk', d, q', durable, stale, |o.ws|);
      assert o.ws[..|o.ws|] == o.ws;
      forall b | b in durable
        ensures b < |WriteAll(disk', o.ws).home| && WriteAll(disk', o.ws).home[b] == durable[b]
      {
        EmptyHomes(g, WriteAll(disk', o.ws), o.m, durable, stale, b);
      }
  }

  lemma FreshOk(g: Geometry, disk: Disk, q: nat, head: nat)
    requires DiskOk(g, disk) && q + 1 < WORD && g.In(head) && SuperSays(disk.log, q, 0, head) && SeqBelow(g, disk.log, q)
    ensures SysOk(g, Up(disk, Fresh(q, head)), [], q, AllOf(disk.home), 0)
  {
    hide Inv, SeqBelow, StaleWithin, HomeOk, SuperSays, CheckpointAll, LastEvent, Admitted;
    SeqBelowMore(g, disk.log, q);
    FreshInv(g, disk, q, head);
    BelowNoStale(g, disk.log, q, head, 0);
    forall b | b in AllOf(disk.home) ensures LastEvent([], b) != RevokedAway && CheckpointAll(disk.home, [])[b] == disk.home[b] {
      NothingCommitted(disk.home, b);
    }
  }

  /** The space guarantee, for every history: the transaction that `tx_start` admitted is
      refused only for too many revokes or for being as long as the ring. */
  lemma AdmittedCommits(g: Geometry, disk: Disk, m: Mem, d: seq<Tx>, durable: map<nat, Block>, stale: nat)
    requires UpOk(g, disk, m, d, durable, stale) && m.active && (m.dirty != [] || m.revokes != [])
    ensures g.Valid() && LogOk(g, disk.log) && Images(g, m.dirty)
    ensures Commit(g, m, disk.log).Settled? <==> !m.overflow && TotalBlocks(g, |m.dirty|, |m.revokes|) < g.Ring()
  {
    hide Inv, Agrees, StaleWithin, Chain, ChainOk, Holds, ReserveRing, TotalBlocks, RingFree, MinFree, BodyWrites, StoreSuper, Images, LogOk, Settle, Announce;
    InvParts(g, disk, m, d);
    InvSizes(g, disk, m, d);
    ChainPositive(g, m.seqno - |d|, d);
    AdmittedTxCommits(g, m.head, m.tail, |m.pending|, |Chain(g, m.seqno - |d|, d)|, |m.dirty|, |m.revokes|);
  }

  lemma InvSizes(g: Geometry, disk: Disk, m: Mem, d: seq<Tx>)
    requires Inv(g, disk, m, d)
    ensures |m.dirty| <= TX_MAX_BLOCKS && |m.revokes| <= TX_MAX_REVOKES && LogOk(g, disk.log) && g.Valid() && Images(g, m.dirty)
  {
    hide Chain, Holds, SeqBelow, SuperSeq, SuperStart, SuperHead, Mirrors;
  }
}
