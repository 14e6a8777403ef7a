/** The store that the journal of kernel/ext4.c stands for, on its own terms: promised blocks,
    and for the open transaction the blocks it has written and those it has revoked. It never
    looks at the journal's tables, only at which operations were accepted, and `AcceptedIff` says
    which those are. */
module JournalStore {
  import opened Bytes
  import opened JournalRing
  import opened JournalFormat
  import opened JournalScan
  import opened JournalChain
  import opened JournalCrash
  import opened JournalRecovery
  import opened JournalState
  import opened JournalRun
  import opened JournalCommit
  import opened JournalStale
  import opened JournalHistory

  /** `overflow`: more blocks were revoked than a transaction can, so it must not commit. */
  datatype Store = Store(durable: map<nat, Block>, written: map<nat, Block>, revoked: set<nat>, open: bool, overflow: bool)

  /** No transaction is open. */
  function Closed(durable: map<nat, Block>): Store { Store(durable, map[], {}, false, false) }

  /** The open transaction takes effect as a whole. */
  function Applied(w: Store): map<nat, Block> { (w.durable - w.revoked) + w.written }

  /** What a read of block `fs` must return; `other` on blocks that are not promised. */
  function Reads(w: Store, fs: nat, other: Block): Block {
    if fs in w.written then w.written[fs] else if fs in w.durable then w.durable[fs] else other
  }

  function Patched(x: Block, off: nat, bytes: seq<Byte>): Block {
    if off + |bytes| <= |x| then Splice(x, off, bytes) else x
  }

  /** An accepted operation. */
  function Accepted(w: Store, op: Op, other: Block): Store {
    match op
    case TxStart => Closed(w.durable).(open := true)
    case TxAbort => Closed(w.durable)
    case TxWrite(fs, off, bytes) =>
      w.(written := w.written[fs := Patched(Reads(w, fs, other), off, bytes)], revoked := w.revoked - {fs})
    case TxRevoke(fs) =>
      if fs in w.revoked || |w.revoked| < TX_MAX_REVOKES then w.(written := w.written - {fs}, revoked := w.revoked + {fs})
      else w.(written := w.written - {fs}, overflow := true)
    case TxCommit => Closed(Applied(w))
    case Flush(_) => w
  }

  /** What an operation needs of the store: a write an open transaction and a slot in it, a commit
      one that did not overflow and is shorter than the ring. */
  predicate Admits(g: Geometry, w: Store, op: Op)
    requires g.Valid()
  {
    match op
    case TxStart => !w.open
    case TxWrite(fs, off, bytes) => w.open && fs < g.blocks && off + |bytes| <= g.bs && (fs in w.written || |w.written| < TX_MAX_BLOCKS)
    case TxCommit => w.open && !w.overflow && ((w.written == map[] && w.revoked == {}) || TotalBlocks(g, |w.written|, |w.revoked|) < g.Ring())
    case _ => true
  }

  ghost function OtherBlock(s: Sys, op: Op): Block {
    if s.Up? && op.TxWrite? && op.fs < |s.disk.home| then View(s.m, s.disk.home, op.fs) else []
  }

  /** A crash closes the transaction, and it counts if its commit block is on disk; so does a
      commit. A revoke outside a transaction, or of no block, does nothing. */
  ghost function StoreNext(g: Geometry, s: Sys, w: Store, step: Move): Store {
    if s.Down? || step.Boot? || step.CrashInBoot? then w
    else if step.CrashIn? then Closed(if Takes(g, s, step) then Applied(w) else w.durable)
    else if Perform(g, s.disk, s.m, step.op).Refused? then w
    else if step.op.TxRevoke? && !(w.open && step.op.fs < g.blocks) then w
    else Accepted(w, step.op, OtherBlock(s, step.op))
  }

  ghost function StoreRun(g: Geometry, s: Sys, w: Store, steps: seq<Move>): Store
    decreases |steps|
  {
    if steps == [] then w else StoreRun(g, Moved(g, s, steps[0]), StoreNext(g, s, w, steps[0]), steps[1..])
  }

  // ---- the journal's tables hold what the store says ----

  ghost predicate TablesHold(m: Mem, w: Store) {
    && (forall b :: LastImage(m.dirty, b) == if b in w.written then Some(w.written[b]) else None)
    && Members(m.revokes) == w.revoked && m.active == w.open && m.overflow == w.overflow
    && (!m.active ==> m.dirty == [] && m.revokes == [] && !m.overflow)
  }

  lemma HoldsClosed(m: Mem, durable: map<nat, Block>)
    requires m.dirty == [] && m.revokes == [] && !m.overflow
    ensures TablesHold(m, Closed(durable).(open := m.active))
  {
    forall b ensures LastImage(m.dirty, b) == None {
      NoImage(b);
    }
  }

  /** With nothing in the tables there is nothing in the store's transaction. */
  lemma HoldsNothing(m: Mem, w: Store)
    requires TablesHold(m, w) && m.dirty == [] && m.revokes == []
    ensures w == Closed(w.durable).(open := m.active, overflow := m.overflow) && Applied(w) == w.durable
  {
    forall b ensures b !in w.written {
      NoImage(b);
    }
    assert w.written == map[];
    assert w.durable - {} == w.durable;
  }

  /** The effect of the journal's transaction is that of the store's. */
  lemma EffectIs(m: Mem, w: Store)
    requires TablesHold(m, w)
    ensures Effect(w.durable, Tx(m.dirty, m.revokes)) == Applied(w)
  {
    hide LastImage, StoreAll;
    var kept := w.durable - (set i | 0 <= i < |m.revokes| :: m.revokes[i]);
    assert kept == w.durable - w.revoked;
    forall b ensures b in StoreAll(kept, m.dirty) <==> b in Applied(w)
      ensures b in Applied(w) ==> StoreAll(kept, m.dirty)[b] == Applied(w)[b]
    {
      StoreAllAt(kept, m.dirty, b);
    }
  }

  lemma WriteHolds(g: Geometry, disk: Disk, m: Mem, d: seq<Tx>, w: Store, stale: nat, fs: nat, off: nat, bytes: seq<Byte>)
    requires UpOk(g, disk, m, d, w.durable, stale) && TablesHold(m, w) && Perform(g, disk, m, TxWrite(fs, off, bytes)).Settled?
    ensures fs < |disk.home| && TablesHold(Perform(g, disk, m, TxWrite(fs, off, bytes)).m, Accepted(w, TxWrite(fs, off, bytes), View(m, disk.home, fs)))
  {
    hide Inv, LastImage, WriteChunk, OpenOk, StaleWithin, Admitted, Committed, Agrees;
    InvOpen(g, disk, m, d);
    InvHome(g, disk, m, d);
    SeenSize(g, disk, m, fs);
    var seen := View(m, disk.home, fs);
    if fs in w.durable {
      UpReads(g, disk, m, d, w.durable, stale, fs);
    }
    assert Reads(w, fs, seen) == seen;
    WriteChunkView(g, m, disk.home, fs, off, bytes, fs);
    forall b ensures LastImage(WriteChunk(m, seen, fs, off, bytes).value.dirty, b) == if b == fs then Some(Splice(seen, off, bytes)) else LastImage(m.dirty, b) {
      WriteChunkImages(g, m, disk.home, fs, off, bytes, b);
    }
  }

  lemma RevokeHolds(g: Geometry, disk: Disk, m: Mem, d: seq<Tx>, w: Store, fs: nat)
    requires Inv(g, disk, m, d) && TablesHold(m, w) && m.active && fs < g.blocks
    ensures TablesHold(NoteRevoke(g, m, fs), Accepted(w, TxRevoke(fs), []))
  {
    hide Inv, LastImage, OpenOk, RemoveImage, NoteRevoke;
    InvOpen(g, disk, m, d);
    RevokeDrops(g, m, fs);
    NoteRevokeTable(g, m, fs);
    OpenDistinct(g, m);
    forall b ensures LastImage(NoteRevoke(g, m, fs).dirty, b) == if b == fs then None else LastImage(m.dirty, b) {
      RemoveImageView(m.dirty, fs, b);
    }
  }

  lemma RevokeDrops(g: Geometry, m: Mem, fs: nat)
    requires m.active && fs < g.blocks
    ensures var m' := NoteRevoke(g, m, fs); m'.dirty == RemoveImage(m.dirty, fs) && m'.active && (m.overflow ==> m'.overflow)
  {
  }

  lemma OpenDistinct(g: Geometry, m: Mem)
    requires OpenOk(g, m)
    ensures Distinct(m.dirty) && |Members(m.revokes)| <= TX_MAX_REVOKES
  {
    MembersSize(m.revokes);
  }

  /** What a commit leaves in the tables, whether it had something to write or not. */
  lemma CommitEmpties(g: Geometry, disk: Disk, m: Mem, d: seq<Tx>)
    requires Inv(g, disk, m, d) && Perform(g, disk, m, TxCommit).Settled?
    ensures var m' := Perform(g, disk, m, TxCommit).m; m'.dirty == [] && m'.revokes == [] && !m'.active && !m'.overflow
  {
    hide Inv, StoreSuper, ReserveRing, TotalBlocks, BodyWrites;
    InvOpen(g, disk, m, d);
  }

  /** Tables and store move together in one accepted operation, and promise the same. */
  ghost predicate InStep(g: Geometry, disk: Disk, m: Mem, w: Store, op: Op) {
    var o, w' := Perform(g, disk, m, op), StoreNext(g, Up(disk, m), w, Do(op));
    o.Settled? ==> TablesHold(o.m, w') && w'.durable == DurableNext(g, Up(disk, m), w.durable, Do(op))
  }

  lemma StartStep(g: Geometry, disk: Disk, m: Mem, w: Store)
    requires TablesHold(m, w)
    ensures InStep(g, disk, m, w, TxStart)
  {
    hide LastImage, Admitted, Sized;
    var o := Perform(g, disk, m, TxStart);
    if o.Settled? {
      HoldsClosed(o.m, w.durable);
    }
  }

  lemma AbortStep(g: Geometry, disk: Disk, m: Mem, w: Store)
    requires TablesHold(m, w)
    ensures InStep(g, disk, m, w, TxAbort)
  {
    hide LastImage;
    if m.active {
      HoldsClosed(Abort(m), w.durable);
    } else {
      HoldsNothing(m, w);
    }
  }

  lemma WriteStep(g: Geometry, disk: Disk, m: Mem, d: seq<Tx>, w: Store, stale: nat, fs: nat, off: nat, bytes: seq<Byte>)
    requires UpOk(g, disk, m, d, w.durable, stale) && TablesHold(m, w)
    ensures InStep(g, disk, m, w, TxWrite(fs, off, bytes))
  {
    hide UpOk, Perform, TablesHold, View;
    if Perform(g, disk, m, TxWrite(fs, off, bytes)).Settled? {
      WriteHolds(g, disk, m, d, w, stale, fs, off, bytes);
    }
  }

  lemma RevokeStep(g: Geometry, disk: Disk, m: Mem, d: seq<Tx>, w: Store, fs: nat)
    requires Inv(g, disk, m, d) && TablesHold(m, w)
    ensures InStep(g, disk, m, w, TxRevoke(fs))
  {
    hide Inv, LastImage, NoteRevoke, Sized;
    if m.active && fs < g.blocks {
      RevokeHolds(g, disk, m, d, w, fs);
    } else {
      RevokeNothing(g, m, fs);
    }
  }

  lemma CommitStep(g: Geometry, disk: Disk, m: Mem, d: seq<Tx>, w: Store)
    requires Inv(g, disk, m, d) && TablesHold(m, w)
    ensures InStep(g, disk, m, w, TxCommit)
  {
    hide Inv, LastImage, Perform, Effect, Applied;
    var o := Perform(g, disk, m, TxCommit);
    if o.Settled? {
      CommitEmpties(g, disk, m, d);
      HoldsClosed(o.m, Applied(w));
      EffectIs(m, w);
      if m.dirty == [] && m.revokes == [] {
        HoldsNothing(m, w);
      }
    }
  }

  lemma FlushStep(g: Geometry, disk: Disk, m: Mem, w: Store, more: nat)
    requires TablesHold(m, w) && Sized(g, disk, m)
    ensures InStep(g, disk, m, w, Flush(more))
  {
    hide LastImage, CheckpointSome;
    FlushKeepsTables(m, disk.log, more + 1);
  }

  lemma DoHolds(g: Geometry, disk: Disk, m: Mem, d: seq<Tx>, w: Store, stale: nat, op: Op)
    requires UpOk(g, disk, m, d, w.durable, stale) && TablesHold(m, w)
    ensures var s := Moved(g, Up(disk, m), Do(op)); s.Up? && TablesHold(s.m, StoreNext(g, Up(disk, m), w, Do(op)))
    ensures StoreNext(g, Up(disk, m), w, Do(op)).durable == DurableNext(g, Up(disk, m), w.durable, Do(op))
  {
    hide Inv, StaleWithin, Admitted, Agrees, WriteAll, Perform, TablesHold, Accepted, Effect, Sized;
    InvOpen(g, disk, m, d);
    match op
    case TxStart => StartStep(g, disk, m, w);
    case TxAbort => AbortStep(g, disk, m, w);
    case TxWrite(fs, off, bytes) => WriteStep(g, disk, m, d, w, stale, fs, off, bytes);
    case TxRevoke(fs) => RevokeStep(g, disk, m, d, w, fs);
    case TxCommit => CommitStep(g, disk, m, d, w);
    case Flush(more) => FlushStep(g, disk, m, w, more);
  }

  lemma RevokeNothing(g: Geometry, m: Mem, fs: nat)
    requires !(m.active && fs < g.blocks)
    ensures NoteRevoke(g, m, fs) == m
  {
  }

  lemma FlushKeepsTables(m: Mem, log: Log, budget: nat)
    requires |log| > 0 && |log[0]| >= 1024
    ensures var m' := CheckpointSome(m, log, budget).m; m'.dirty == m.dirty && m'.revokes == m.revokes && m'.active == m.active && m'.overflow == m.overflow
  {
    hide StoreSuper, PendingImages;
  }

  lemma {:induction false} ImagesAre(imgs: seq<Image>, written: map<nat, Block>)
    requires Distinct(imgs) && forall b :: LastImage(imgs, b) == if b in written then Some(written[b]) else None
    ensures |imgs| == |written|
    decreases |imgs|
  {
    if imgs == [] {
      forall b ensures b !in written {
        NoImage(b);
      }
      assert written == map[];
    } else {
      var n := |imgs| - 1;
      var rest, e := imgs[..n], imgs[n];
      assert rest + [e] == imgs;
      forall b ensures LastImage(imgs, b) == if e.fs == b then Some(e.data) else LastImage(rest, b) {
        LastImageAppend(rest, [e], b);
        LastImageOne(e, b);
      }
      assert LastImage(imgs, e.fs) == Some(e.data);
      forall b ensures LastImage(rest, b) == if b in written - {e.fs} then Some((written - {e.fs})[b]) else None {
        if b == e.fs {
          LastImageIn(rest, b);
        }
      }
      ImagesAre(rest, written - {e.fs});
      assert written.Keys == (written - {e.fs}).Keys + {e.fs};
    }
  }

  lemma StartIff(g: Geometry, disk: Disk, m: Mem, d: seq<Tx>)
    requires Inv(g, disk, m, d)
    ensures g.Valid() && |m.pending| == |d| <= m.seqno && ChainOk(g, d)
    ensures Admitted(g, m) <==> |d| < MAX_PENDING && |Chain(g, m.seqno - |d|, d)| + MinFree(g) < g.Ring()
  {
    hide Inv, Chain, ChainOk, Holds, RingFree, MinFree, Images, LogOk;
    InvParts(g, disk, m, d);
    ChainPositive(g, m.seqno - |d|, d);
    FreeIsExact(g, m.head, m.tail, |m.pending|, |Chain(g, m.seqno - |d|, d)|);
  }

  lemma SlotIff(m: Mem, fs: nat)
    ensures FindImage(m.dirty, fs, 0) < |m.dirty| <==> LastImage(m.dirty, fs).Some?
  {
    LastImageIn(m.dirty, fs);
    if FindImage(m.dirty, fs, 0) < |m.dirty| {
      LastImageSome(m.dirty, FindImage(m.dirty, fs, 0));
    }
  }

  lemma CommitIff(g: Geometry, disk: Disk, m: Mem, d: seq<Tx>, durable: map<nat, Block>, stale: nat)
    requires UpOk(g, disk, m, d, durable, stale)
    ensures g.Valid() && LogOk(g, disk.log) && Images(g, m.dirty)
    ensures Commit(g, m, disk.log).Settled? <==>
            m.active && !m.overflow && ((m.dirty == [] && m.revokes == []) || TotalBlocks(g, |m.dirty|, |m.revokes|) < g.Ring())
  {
    hide Inv, Agrees, StaleWithin, ReserveRing, TotalBlocks, BodyWrites, StoreSuper, Images, LogOk, Settle, Announce;
    InvSizes(g, disk, m, d);
    if m.active && (m.dirty != [] || m.revokes != []) {
      AdmittedCommits(g, disk, m, d, durable, stale);
    }
  }

  /** Which operations are accepted: those the store admits, but that a transaction starts only
      if the ring has the reserve for one. */
  lemma AcceptedIff(g: Geometry, disk: Disk, m: Mem, d: seq<Tx>, w: Store, stale: nat, op: Op)
    requires UpOk(g, disk, m, d, w.durable, stale) && TablesHold(m, w)
    ensures g.Valid() && |d| <= m.seqno && ChainOk(g, d)
    ensures Perform(g, disk, m, op).Settled? <==>
            Admits(g, w, op) && (op.TxStart? ==> |d| < MAX_PENDING && |Chain(g, m.seqno - |d|, d)| + MinFree(g) < g.Ring())
  {
    hide Inv, Agrees, StaleWithin, Chain, ChainOk, LastImage, TotalBlocks, RingFree, MinFree, Commit, CheckpointSome, NoteRevoke, View, Members;
    InvSizes(g, disk, m, d);
    InvHome(g, disk, m, d);
    InvOpen(g, disk, m, d);
    OpenDistinct(g, m);
    MembersSize(m.revokes);
    ImagesAre(m.dirty, w.written);
    StartIff(g, disk, m, d);
    if op.TxWrite? && m.active && op.fs < g.blocks && op.off + |op.bytes| <= g.bs {
      SeenSize(g, disk, m, op.fs);
      SlotIff(m, op.fs);
    }
    if op.TxCommit? {
      CommitIff(g, disk, m, d, w.durable, stale);
    }
  }

  /** Every step that the histories allow keeps the tables and the store in step, and promises
      exactly what the store says. */
  lemma StoreStep(g: Geometry, s: Sys, d: seq<Tx>, q: nat, w: Store, stale: nat, step: Move)
    requires SysOk(g, s, d, q, w.durable, stale) && (s.Up? ==> TablesHold(s.m, w)) && (s.Down? ==> w == Closed(w.durable))
    ensures var s', w' := Moved(g, s, step), StoreNext(g, s, w, step);
            w'.durable == DurableNext(g, s, w.durable, step) && (s'.Up? ==> TablesHold(s'.m, w')) && (s'.Down? ==> w' == Closed(w'.durable))
  {
    hide UpOk, DownOk, Perform, Effect, Applied, TablesHold, Mount, WriteAll;
    if s.Up? {
      if step.Do? {
        DoHolds(g, s.disk, s.m, d, w, stale, step.op);
      } else if step.CrashIn? {
        EffectIs(s.m, w);
      }
    } else if Moved(g, s, step).Up? {
      MountTables(g, s, step);
      HoldsClosed(Moved(g, s, step).m, w.durable);
    }
  }

  lemma MountTables(g: Geometry, s: Sys, step: Move)
    requires s.Down? && Moved(g, s, step).Up?
    ensures var m := Moved(g, s, step).m; m.dirty == [] && m.revokes == [] && !m.active && !m.overflow
  {
    hide Replay, WriteAll, AppliedImages, StoreSuper, SuperStart, SuperSeq, SuperHead;
  }

  lemma {:induction false} StoreRunIs(g: Geometry, s: Sys, d: seq<Tx>, q: nat, w: Store, stale: nat, steps: seq<Move>)
    requires SysOk(g, s, d, q, w.durable, stale) && AllowedRun(g, s, stale, steps)
    requires (s.Up? ==> TablesHold(s.m, w)) && (s.Down? ==> w == Closed(w.durable))
    ensures StoreRun(g, s, w, steps).durable == DurableRun(g, s, w.durable, steps)
    ensures RunAll(g, s, steps).Up? ==> TablesHold(RunAll(g, s, steps).m, StoreRun(g, s, w, steps))
    decreases |steps|
  {
    hide SysOk, Moved, DurableNext, StaleNext, Allowed, TablesHold, StoreNext;
    if steps != [] {
      StoreStep(g, s, d, q, w, stale, steps[0]);
      var d', q' := StepOk(g, s, d, q, w.durable, stale, steps[0]);
      StoreRunIs(g, Moved(g, s, steps[0]), d', q', StoreNext(g, s, w, steps[0]), StaleNext(g, s, stale, steps[0]), steps[1..]);
    }
  }

  /** Reads through the open transaction are the store's. */
  lemma ViewIsStore(g: Geometry, disk: Disk, m: Mem, d: seq<Tx>, w: Store, stale: nat, b: nat)
    requires UpOk(g, disk, m, d, w.durable, stale) && TablesHold(m, w) && (b in w.written || b in w.durable)
    ensures b < |disk.home| && View(m, disk.home, b) == Reads(w, b, [])
  {
    hide Inv, LastImage, StaleWithin, Admitted, Committed, Agrees, OpenOk;
    InvOpen(g, disk, m, d);
    InvHome(g, disk, m, d);
    if b in w.durable {
      UpReads(g, disk, m, d, w.durable, stale, b);
    }
    if b in w.written {
      LastImageIn(m.dirty, b);
      if !m.active {
        NoImage(b);
        assert false;
      }
    } else {
      assert LastImage(m.dirty, b) == None;
    }
  }

  /** The promise of the journal against that store, from a fresh journal through any history: a
      mounted system reads what the store holds, through its open transaction, and accepts what the
      store admits (a start only if there is room for one); and a stopped one
      mounts and then holds at home everything the store holds. */
  lemma HistoryIsStore(g: Geometry, disk: Disk, q: nat, head: nat, steps: seq<Move>)
    requires DiskOk(g, disk) && q + 1 < WORD && g.In(head) && SuperSays(disk.log, q, 0, head) && SeqBelow(g, disk.log, q)
    requires AllowedRun(g, Up(disk, Fresh(q, head)), 0, steps)
    ensures var s := RunAll(g, Up(disk, Fresh(q, head)), steps);
            var w := StoreRun(g, Up(disk, Fresh(q, head)), Closed(AllOf(disk.home)), steps);
            match s
            case Up(disk', m) =>
              && (forall b :: b in w.written || b in w.durable ==> b < |disk'.home| && View(m, disk'.home, b) == Reads(w, b, []))
              && g.Valid() && forall op: Op :: !op.TxStart? ==> (Perform(g, disk', m, op).Settled? <==> Admits(g, w, op))
            case Down(disk') =>
              Moved(g, s, Boot).Up? && var home' := Moved(g, s, Boot).disk.home;
              forall b :: b in w.durable ==> b < |home'| && home'[b] == w.durable[b]
  {
    hide UpOk, DownOk, AllowedRun, RunAll, DurableRun, StoreRun, Committed, Moved, View, TablesHold, Perform, Admits, Chain;
    var s0 := Up(disk, Fresh(q, head));
    FreshOk(g, disk, q, head);
    HoldsClosed(Fresh(q, head), AllOf(disk.home));
    StoreRunIs(g, s0, [], q, Closed(AllOf(disk.home)), 0, steps);
    HistoryIsDurable(g, disk, q, head, steps);
    var s, w := RunAll(g, s0, steps), StoreRun(g, s0, Closed(AllOf(disk.home)), steps);
    if s.Up? {
      var d, q' := HistoryOk(g, s0, [], q, AllOf(disk.home), 0, steps);
      forall b | b in w.written || b in w.durable ensures b < |s.disk.home| && View(s.m, s.disk.home, b) == Reads(w, b, []) {
        ViewIsStore(g, s.disk, s.m, d, w, StaleRun(g, s0, 0, steps), b);
      }
      AcceptedIff(g, s.disk, s.m, d, w, StaleRun(g, s0, 0, steps), TxAbort);
      forall op: Op | !op.TxStart? ensures Perform(g, s.disk, s.m, op).Settled? <==> Admits(g, w, op) {
        AcceptedIff(g, s.disk, s.m, d, w, StaleRun(g, s0, 0, steps), op);
      }
    }
  }
}
