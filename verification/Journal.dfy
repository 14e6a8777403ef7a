/** The journal object of kernel/ext4.c: `g_jbd2` and the disk below it, with the operations
    as methods that update it in place. Each method is tied to the function that the crash
    and history proofs are about. */
module JournalObject {
  import opened Bytes
  import opened JournalRing
  import opened JournalFormat
  import opened JournalScan
  import opened JournalChain
  import opened JournalCrash
  import opened JournalRecovery
  import opened JournalState
  import opened JournalRun
  import opened JournalCommit
  import opened JournalStale
  import opened JournalHistory
  import opened JournalCodec
  import opened JournalView

  method Locate(a: nat, bs: nat) returns (b: nat, o: nat)
    requires bs > 0
    ensures b == BlockOf(a, bs) && o == Inside(a, bs)
  {
    b, o := a / bs, a % bs;
    Addressed(a, bs);
  }

  /** Transactions are pending and the ring has less room than `tx_start` insists on. */
  ghost predicate Short(g: Geometry, m: Mem)
    requires g.Valid()
  {
    m.pending != [] && MinFree(g) != 0 && RingFree(g, m.head, m.tail, |m.pending|) < MinFree(g)
  }

  class Journal {
    const g: Geometry
    var home: Home
    var log: Log
    var seqno: nat
    var start: nat
    var head: nat
    var tail: nat
    var pending: seq<Pending>
    var active: bool
    var dirty: seq<Image>
    var revokes: seq<nat>
    var overflow: bool
    /** The disk at the start, and every write since then, in program order. */
    ghost const base: Disk
    ghost var trace: seq<DiskWrite>

    ghost function M(): Mem
      reads this
    {
      Mem(seqno, start, head, tail, pending, active, dirty, revokes, overflow)
    }

    ghost function D(): Disk
      reads this`home, this`log
    {
      Disk(home, log)
    }

    /** The disk is what the writes have made of it. */
    ghost predicate Traced()
      reads `home, `log, `trace
    {
      D() == WriteAll(base, trace)
    }

    ghost predicate Valid()
      reads this
    {
      g.Valid() && Sized(g, D(), M()) && Traced()
    }

    constructor (g: Geometry, home: Home, log: Log)
      requires g.Valid() && DiskOk(g, Disk(home, log))
      ensures this.g == g && D() == Disk(home, log) && trace == [] && M() == Fresh(0, g.first) && Valid()
    {
      this.g, this.home, this.log, base, trace := g, home, log, Disk(home, log), [];
      seqno, start, head, tail, pending := 0, 0, g.first, g.first, [];
      active, dirty, revokes, overflow := false, [], [], false;
    }

    // ---- the disk ----

    method WriteLog(pos: nat, blk: Block)
      requires Traced()
      modifies `log, `trace
      ensures Traced() && log == PutOne(old(log), Write(pos, blk)) && trace == old(trace) + [ToLog(Write(pos, blk))]
    {
      if pos < |log| {
        log := log[pos := blk];
      }
      TraceMore(base, trace, ToLog(Write(pos, blk)));
      trace := trace + [ToLog(Write(pos, blk))];
    }

    method WriteHome(fs: nat, data: Block)
      requires Traced()
      modifies `home, `trace
      ensures Traced() && home == Store(old(home), fs, data) && trace == old(trace) + [ToHome(fs, data)]
    {
      if fs < |home| {
        home := home[fs := data];
      }
      TraceMore(base, trace, ToHome(fs, data));
      trace := trace + [ToHome(fs, data)];
    }

    /** `ext4_jbd2_store_super`. */
    method StoreSuperBlock()
      requires |log| > 0 && |log[0]| >= 1024 && Traced()
      modifies `log, `trace
      ensures Traced() && var w := StoreSuper(M(), old(log)); log == PutOne(old(log), w.w) && trace == old(trace) + [w]
    {
      hide Be32;
      var sup := log[0];
      var sb := new Byte[|sup|](i requires 0 <= i < |sup| => sup[i]);
      assert sb[..] == log[0];
      WrBe32(sb, 24, if pending == [] then seqno else pending[0].seqno);
      WrBe32(sb, 28, start);
      WrBe32(sb, 88, head);
      WriteLog(0, sb[..]);
    }

    /** `ext4_jbd2_refresh_start_tail`. */
    method RefreshTail()
      modifies `start, `tail
      ensures M() == RefreshStartTail(old(M()))
    {
      if pending == [] {
        start, tail := 0, head;
      } else {
        start, tail := pending[0].start, pending[0].start;
      }
    }

    // ---- the open transaction ----

    /** `ext4_jbd2_find_dirty`. */
    method FindDirty(fs: nat) returns (k: nat)
      ensures k == FindImage(dirty, fs, 0)
    {
      k := 0;
      while k < |dirty|
        invariant k <= |dirty| && FindImage(dirty, fs, 0) == FindImage(dirty, fs, k)
      {
        if dirty[k].fs == fs {
          return;
        }
        k := k + 1;
      }
    }

    /** `ext4_jbd2_remove_revoke`: the later entries move down by one. */
    method RemoveRevoke(fs: nat)
      modifies `revokes
      ensures revokes == RemoveNat(old(revokes), fs)
    {
      ghost var was := revokes;
      var i := 0;
      while i < |revokes|
        invariant i <= |revokes| && revokes == was && FindNat(was, fs, 0) == FindNat(was, fs, i)
      {
        if revokes[i] == fs {
          revokes := RemoveAt(revokes, i);
          return;
        }
        i := i + 1;
      }
    }

    /** `ext4_jbd2_remove_dirty`. */
    method RemoveDirty(fs: nat)
      modifies `dirty
      ensures dirty == RemoveImage(old(dirty), fs)
    {
      ghost var was := dirty;
      var i := 0;
      while i < |dirty|
        invariant i <= |dirty| && dirty == was && FindImage(was, fs, 0) == FindImage(was, fs, i)
      {
        if dirty[i].fs == fs {
          dirty := RemoveAt(dirty, i);
          return;
        }
        i := i + 1;
      }
    }

    /** `ext4_jbd2_note_revoke`. */
    method Revoke(fs: nat)
      requires Valid()
      modifies `dirty, `revokes, `overflow
      ensures M() == NoteRevoke(g, old(M()), fs) && Valid()
      ensures active && fs < g.blocks && OpenOk(g, old(M())) ==>
        var full := fs !in old(revokes) && |old(revokes)| == TX_MAX_REVOKES;
        Members(revokes) == (if full then Members(old(revokes)) else Members(old(revokes)) + {fs}) && overflow == (old(overflow) || full)
    {
      hide OpenOk;
      RevokeTable(g, M(), fs);
      if !active || fs >= g.blocks {
        return;
      }
      RemoveDirty(fs);
      RemovedSized(g, old(dirty), fs);
      var i := 0;
      while i < |revokes|
        invariant i <= |revokes| && FindNat(revokes, fs, 0) == FindNat(revokes, fs, i)
      {
        if revokes[i] == fs {
          return;
        }
        i := i + 1;
      }
      if |revokes| < TX_MAX_REVOKES {
        revokes := revokes + [fs];
      } else {
        overflow := true;
      }
    }

    // ---- reads and writes ----

    /** `ext4_disk_read_bytes`: the home bytes, then the pending transactions in order, then
        the open one. */
    method ReadBytes(off: nat, len: nat) returns (ok: bool, buf: array<Byte>)
      requires Valid()
      ensures ok <==> len == 0 || AddressIn(g, off + len - 1)
      ensures fresh(buf) && (ok ==> buf.Length == len)
      ensures ok ==> Seen(g, D(), M(), off, buf[..])
    {
      hide OverByte, ByteView, PendingImages, BlockOf, Inside;
      if len > 0 {
        var last, _ := Locate(off + len - 1, g.bs);
        if last >= g.blocks {
          return false, new Byte[0];
        }
      }
      ok := true;
      buf := RawRead(off, len);
      ghost var raw := buf[..];
      OverlayPending(off, buf);
      ghost var mid := buf[..];
      if active {
        Overlay(dirty, g.bs, off, buf);
      }
      OverlaysSeen(g, D(), M(), off, raw, mid, buf[..]);
    }

    /** The home bytes. */
    method RawRead(off: nat, len: nat) returns (buf: array<Byte>)
      requires Valid() && (len > 0 ==> AddressIn(g, off + len - 1))
      ensures fresh(buf) && buf.Length == len && forall i :: 0 <= i < len ==> buf[i] == HomeByte(home, g.bs, off + i)
    {
      hide PendingImages, BlockOf, Inside;
      buf := new Byte[len](_ => 0);
      for i := 0 to len
        invariant forall k :: 0 <= k < i ==> buf[k] == HomeByte(home, g.bs, off + k)
      {
        BlockMono(off + i, off + len - 1, g.bs);
        var b, o := Locate(off + i, g.bs);
        buf[i] := home[b][o];
      }
    }

    /** `ext4_jbd2_pending_overlay_read`. */
    method OverlayPending(off: nat, buf: array<Byte>)
      requires Valid()
      modifies buf
      ensures forall i :: 0 <= i < buf.Length ==> buf[i] == OverByte(PendingImages(pending), g.bs, off + i, old(buf[i]))
    {
      hide OverByte, PendingImages;
      ghost var was := buf[..];
      NonePending(g.bs, off, was);
      assert pending[..0] == [];
      for p := 0 to |pending|
        invariant forall i :: 0 <= i < buf.Length ==> buf[i] == OverByte(PendingImages(pending[..p]), g.bs, off + i, was[i])
      {
        ghost var before := buf[..];
        PendingSized(g, pending, p);
        Overlay(pending[p].dirty, g.bs, off, buf);
        assert pending[..p + 1] == pending[..p] + [pending[p]];
        PendingAppend(pending[..p], pending[p]);
        forall i | 0 <= i < buf.Length ensures buf[i] == OverByte(PendingImages(pending[..p + 1]), g.bs, off + i, was[i]) {
          OverAppend(PendingImages(pending[..p]), pending[p].dirty, g.bs, off + i, was[i]);
          assert before[i] == OverByte(PendingImages(pending[..p]), g.bs, off + i, was[i]);
        }
      }
      assert pending[..|pending|] == pending;
    }

    /** One block's part of a write: its image, made if need be, no longer counts as revoked
        and takes the new bytes. */
    method WriteOneChunk(fs: nat, at: nat, src: seq<Byte>) returns (ok: bool)
      requires Valid() && active && fs < g.blocks && at + |src| <= g.bs && |View(M(), home, fs)| == g.bs
      modifies `dirty, `revokes
      ensures var r := WriteChunk(old(M()), View(old(M()), home, fs), fs, at, src);
              ok == r.Some? && (if ok then M() == r.value else M() == old(M()))
    {
      hide View, ByteView, PendingImages, RemoveNat, Seen, Splice;
      var k := FindDirty(fs);
      if k == |dirty| {
        if |dirty| >= TX_MAX_BLOCKS {
          return false;
        }
        BlockSeen(g, fs);
        var off := fs * g.bs;
        var _, buf := ReadBytes(off, g.bs);
        SeenIsView(g, D(), M(), fs, off, buf[..]);
        dirty := dirty + [Image(fs, buf[..])];
      }
      RemoveRevoke(fs);
      dirty := dirty[k := Image(fs, Splice(dirty[k].data, at, src))];
      return true;
    }

    /** `ext4_jbd2_tx_write_bytes`. */
    method WriteBytes(off: nat, bytes: seq<Byte>) returns (ok: bool)
      requires Valid()
      modifies `dirty, `revokes
      ensures Valid()
      ensures !active ==> !ok && M() == old(M())
      ensures active ==> var r := WriteChunks(g, D(), old(M()), off, bytes); M() == r.m && ok == (r.n == |bytes|)
    {
      hide View, ByteView, WriteChunk, BlockOf, Inside, WriteChunks, Sized;
      if !active {
        return false;
      }
      var done := 0;
      assert bytes[0..] == bytes;
      while done < |bytes|
        invariant done <= |bytes| && Valid()
        invariant var r := WriteChunks(g, D(), M(), off + done, bytes[done..]);
                  WriteChunks(g, D(), old(M()), off, bytes) == Written(r.m, done + r.n)
      {
        var fs, at := Locate(off + done, g.bs);
        var chunk := if g.bs - at > |bytes| - done then |bytes| - done else g.bs - at;
        if fs >= g.blocks {
          ChunksStop(g, D(), M(), off + done, bytes[done..]);
          return false;
        }
        ghost var m := M();
        SeenSize(g, D(), M(), fs);
        ChunkSized(g, D(), M(), fs, at, bytes[done..][..chunk]);
        var went := WriteOneChunk(fs, at, bytes[done..][..chunk]);
        ChunksStep(g, D(), m, off + done, bytes[done..], fs, at, chunk, M());
        if !went {
          return false;
        }
        assert bytes[done..][chunk..] == bytes[done + chunk..];
        done := done + chunk;
      }
      ChunksStop(g, D(), M(), off + done, bytes[done..]);
      return true;
    }

    // ---- commit ----

    /** An image goes to its place in the log, and its tag to the descriptor. */
    method LogImage(desc: array<Byte>, ghost used: seq<Byte>, off: nat, pos: nat, img: Image, last: bool)
      requires Traced() && |used| == off && off + TagBytes(g) <= desc.Length && desc[..] == Pad(desc.Length, used) && |img.data| >= 4
      modifies desc, `log, `trace
      ensures Traced() && desc[..] == Pad(desc.Length, used + Tag(g, img.fs, Escapes(img.data), last))
      ensures log == PutOne(old(log), Write(pos, Escaped(img.data))) && trace == old(trace) + [ToLog(Write(pos, Escaped(img.data)))]
    {
      hide Pad, Tag, Escaped, Escapes, PutOne;
      PutTag(g, desc, used, off, img.fs, Escapes(img.data), last);
      WriteLog(pos, Escaped(img.data));
    }

    /** One descriptor group: each image is logged and gets its tag, then the descriptor is
        written in front of them. */
    method WriteGroup(q: nat, cursor: nat, imgs: seq<Image>) returns (next: nat)
      requires g.Valid() && Traced() && g.In(cursor) && Images(g, imgs) && |imgs| <= TagsPerDesc(g) && |imgs| + 1 < g.Ring()
      modifies `log, `trace
      ensures Traced() && next == g.At(cursor, |imgs| + 1)
      ensures trace == old(trace) + Logs(GroupWrites(g, q, cursor, imgs)) && log == Put(old(log), GroupWrites(g, q, cursor, imgs))
    {
      hide Header, Pad, Tag, Tags, TagsPerDesc, Escaped, Escapes, Put, Traced, Logs, PutOne;
      var desc := NewRecord(g.bs, DESCRIPTOR, q);
      ghost var ws := DataWrites(g, g.At(cursor, 1), imgs);
      var off, pos := 12, NextBlock(cursor, g.first, g.maxlen);
      NoTags(g, imgs, Header(DESCRIPTOR, q));
      PutNothing(log);
      NoLogs();
      assert ws[..0] == [];
      for j := 0 to |imgs|
        invariant off == 12 + TagSpan(g, j) && pos == g.At(cursor, j + 1) && Traced() && fresh(desc) && desc.Length == g.bs
        invariant 12 + TagSpan(g, j) <= g.bs && desc[..] == Pad(g.bs, Header(DESCRIPTOR, q) + Tags(g, imgs, j))
        invariant trace == old(trace) + Logs(ws[..j]) && log == Put(old(log), ws[..j])
      {
        TagsFitMono(g, j + 1, |imgs|);
        LogImage(desc, Header(DESCRIPTOR, q) + Tags(g, imgs, j), off, pos, imgs[j], j + 1 == |imgs|);
        TagsMore(g, imgs, j, Header(DESCRIPTOR, q));
        off := off + TagBytes(g);
        WriteMore(old(log), ws, j);
        LogsMore(ws, j);
        pos := NextBlock(pos, g.first, g.maxlen);
      }
      WriteLog(cursor, desc[..]);
      assert ws[..|imgs|] == ws;
      ghost var w := Write(cursor, desc[..]);
      LogsAppend(ws, [w]);
      LogsOnly(w);
      PutAppend(old(log), ws, [w]);
      PutOnly(Put(old(log), ws), w);
      next := pos;
    }

    /** One revoke block: the entries first, their extent last. */
    method WriteRevokes(q: nat, cursor: nat, revs: seq<nat>) returns (next: nat)
      requires g.Valid() && Traced() && g.In(cursor) && |revs| <= RevokesPerBlock(g)
      modifies `log, `trace
      ensures Traced() && next == g.At(cursor, 1)
      ensures trace == old(trace) + Logs([Write(cursor, RevokeBlock(g, q, revs))])
      ensures log == Put(old(log), [Write(cursor, RevokeBlock(g, q, revs))])
    {
      hide Header, Pad, Entry, Entries, Be32, RevokesPerBlock, Put, PutOne, Traced, Logs;
      ghost var h := Header(REVOKE, q) + Be32(0);
      var blk := NewRecord(g.bs, REVOKE, q);
      PadZeroWord(g.bs, Header(REVOKE, q));
      NoEntries(g, revs, h);
      var off := 16;
      for j := 0 to |revs|
        invariant Traced() && log == old(log) && trace == old(trace)
        invariant off == 16 + RevokeSpan(g, j) <= g.bs && fresh(blk) && blk.Length == g.bs && blk[..] == Pad(g.bs, h + Entries(g, revs, j))
      {
        EntriesFitMono(g, j + 1, |revs|);
        PutEntry(g, blk, h + Entries(g, revs, j), off, revs[j]);
        EntriesMore(g, revs, j, h);
        off := off + RevokeBytes(g);
      }
      WrBe32(blk, 12, off);
      SpliceMiddle(g.bs, Header(REVOKE, q), Be32(0), Entries(g, revs, |revs|), Be32(off));
      WriteLog(cursor, blk[..]);
      LogsOnly(Write(cursor, blk[..]));
      PutOnly(old(log), Write(cursor, blk[..]));
      next := NextBlock(cursor, g.first, g.maxlen);
    }

    /** The body of a commit: descriptor groups, revoke blocks, the commit block. */
    method EmitBody(q: nat, pos: nat) returns (cursor: nat)
      requires Valid() && g.In(pos) && |Body(g, q, dirty, revokes)| < g.Ring()
      modifies `log, `trace
      ensures Traced() && cursor == g.At(pos, |Body(g, q, dirty, revokes)|)
      ensures trace == old(trace) + Logs(BodyWrites(g, q, pos, dirty, revokes)) && log == Put(old(log), BodyWrites(g, q, pos, dirty, revokes))
    {
      hide Body, BodyWrites, GroupWrites, Put, Logs, TagsPerDesc, RevokesPerBlock, RevokeBlock, CommitBlock, Traced, PendingImages;
      ghost var all, end := BodyWrites(g, q, pos, dirty, revokes), g.At(pos, |Body(g, q, dirty, revokes)|);
      cursor := pos;
      var idx := 0;
      assert dirty[0..] == dirty;
      while idx < |dirty|
        invariant idx <= |dirty| && Traced() && g.In(cursor)
        invariant ToDo(g, q, cursor, dirty[idx..], revokes, end, old(trace), old(log), all, trace, log)
      {
        var count := if |dirty| - idx > TagsPerDesc(g) then TagsPerDesc(g) else |dirty| - idx;
        ToDoGroup(g, q, cursor, dirty[idx..], revokes, end, old(trace), old(log), all, trace, log, count);
        cursor := WriteGroup(q, cursor, dirty[idx..][..count]);
        assert dirty[idx..][count..] == dirty[idx + count..];
        idx := idx + count;
      }
      assert dirty[idx..] == [] && revokes[0..] == revokes;
      var rev := 0;
      while rev < |revokes|
        invariant rev <= |revokes| && Traced() && g.In(cursor)
        invariant ToDo(g, q, cursor, [], revokes[rev..], end, old(trace), old(log), all, trace, log)
      {
        var count := if |revokes| - rev > RevokesPerBlock(g) then RevokesPerBlock(g) else |revokes| - rev;
        ToDoRevokes(g, q, cursor, revokes[rev..], end, old(trace), old(log), all, trace, log, count);
        cursor := WriteRevokes(q, cursor, revokes[rev..][..count]);
        assert revokes[rev..][count..] == revokes[rev + count..];
        rev := rev + count;
      }
      assert revokes[rev..] == [];
      ToDoCommit(g, q, cursor, end, old(trace), old(log), all, trace, log);
      cursor := EmitCommit(q, cursor);
    }

    /** `ext4_jbd2_tx_emit_commit`. */
    method EmitCommit(q: nat, cursor: nat) returns (next: nat)
      requires g.Valid() && Traced() && g.In(cursor)
      modifies `log, `trace
      ensures Traced() && next == g.At(cursor, 1)
      ensures trace == old(trace) + Logs([Write(cursor, CommitBlock(g, q))]) && log == Put(old(log), [Write(cursor, CommitBlock(g, q))])
    {
      hide Header, Pad, Put, PutOne, Traced, Logs;
      var blk := NewRecord(g.bs, COMMIT, q);
      WriteLog(cursor, blk[..]);
      LogsOnly(Write(cursor, blk[..]));
      PutOnly(old(log), Write(cursor, blk[..]));
      next := NextBlock(cursor, g.first, g.maxlen);
    }

    /** `ext4_jbd2_tx_commit` up to the checkpoint it may end with. With a transaction open a
        checkpoint does nothing, so a full pending list or a refused reservation is final. */
    method CommitOpen() returns (ok: bool)
      requires Valid()
      modifies this
      ensures Valid() && ok == Commit(g, old(M()), old(log)).Settled?
      ensures !ok ==> M() == old(M()) && trace == old(trace) && D() == old(D())
      ensures ok ==> M() == Commit(g, old(M()), old(log)).m && trace == old(trace) + Commit(g, old(M()), old(log)).ws
    {
      hide Body, BodyWrites, Put, PutOne, Logs, ReserveRing, TotalBlocks, PendingImages, Traced, StoreSuper, Settle, Announce;
      if !active || overflow {
        return false;
      }
      if dirty == [] && revokes == [] {
        active := false;
        return true;
      }
      if |pending| >= MAX_PENDING {
        return false;
      }
      var total := TotalBlocks(g, |dirty|, |revokes|);
      var r := ReserveRing(g, head, tail, |pending|, total);
      if r.NoRoom? {
        return false;
      }
      BodyFills(g, seqno, dirty, revokes);
      LogOpen(r.start, r.nextHead);
      ok := true;
    }

    /** Logging the open transaction at its reservation. */
    method LogOpen(pos: nat, next: nat)
      requires Valid() && g.In(pos) && |Body(g, seqno, dirty, revokes)| < g.Ring()
      modifies this
      ensures Valid() && M() == Settle(old(M()), pos, g.At(pos, |Body(g, old(seqno), old(dirty), old(revokes))|))
      ensures var w := StoreSuper(Announce(old(M()), pos, next), old(log));
              trace == old(trace) + ([w] + Logs(BodyWrites(g, old(seqno), pos, old(dirty), old(revokes)))
                                     + [StoreSuper(M(), PutOne(old(log), w.w))])
    {
      hide Body, BodyWrites, Put, PutOne, Logs, PendingImages, Traced, StoreSuper;
      AnnounceOpen(pos, next);
      ghost var log1, trace1 := log, trace;
      SuperKept(g, old(log), log1, StoreSuper(M(), old(log)));
      var cursor := EmitBody(seqno, pos);
      ghost var trace2 := trace;
      PutBodySuper(g, log1, seqno, pos, dirty, revokes);
      ghost var log2 := log;
      FinishOpen(pos, cursor, log1);
      SuperKept(g, log2, log, StoreSuper(M(), log1));
      PendingAppend(old(pending), Pending(old(seqno), pos, cursor, old(dirty)));
      ImagesJoin(g, PendingImages(old(pending)), old(dirty));
      ghost var w1, ws, w2 := trace1[|old(trace)|], Logs(BodyWrites(g, old(seqno), pos, old(dirty), old(revokes))), trace[|trace2|];
      assert trace == old(trace) + [w1] + ws + [w2] == old(trace) + ([w1] + ws + [w2]);
    }

    method AnnounceOpen(pos: nat, next: nat)
      requires Valid()
      modifies `start, `head, `log, `trace
      ensures Traced() && M() == Announce(old(M()), pos, next)
      ensures var w := StoreSuper(M(), old(log)); log == PutOne(old(log), w.w) && trace == old(trace) + [w]
    {
      hide PutOne, PendingImages, Traced, StoreSuper;
      if pending == [] {
        start := pos;
      }
      head := next;
      StoreSuperBlock();
    }

    /** `ext4_jbd2_pending_push`, and the new head and sequence number. */
    method PushPending(pos: nat, cursor: nat)
      modifies `pending, `start, `tail, `head, `seqno
      ensures M() == Settle(old(M()), pos, cursor).(active := active, dirty := dirty, revokes := revokes, overflow := overflow)
    {
      pending := pending + [Pending(seqno, pos, cursor, dirty)];
      RefreshTail();
      head, seqno := cursor, (seqno + 1) % WORD;
    }

    /** The transaction joins the pending list and the superblock moves on; `log1` is the log
        as it was announced. */
    method FinishOpen(pos: nat, cursor: nat, ghost log1: Log)
      requires Traced() && |log| > 0 && |log1| > 0 && log[0] == log1[0] && |log[0]| >= 1024
      modifies `pending, `start, `tail, `head, `seqno, `log, `trace, `active, `dirty, `revokes, `overflow
      ensures Traced() && M() == Settle(old(M()), pos, cursor)
      ensures trace == old(trace) + [StoreSuper(M(), log1)] && log == PutOne(old(log), StoreSuper(M(), log1).w)
    {
      hide PutOne, Traced, StoreSuper;
      PushPending(pos, cursor);
      StoreSuperBlock();
      ghost var m := M();
      active, dirty, revokes, overflow := false, [], [], false;
      SameSuper(m, M(), old(log), log1);
    }

    // ---- checkpoint ----

    /** The oldest pending transaction goes home and leaves the list. */
    method PopOldest()
      requires Valid() && pending != []
      modifies `home, `trace, `pending, `start, `tail
      ensures Valid() && M() == Popped(old(M()), 1) && trace == old(trace) + Homes(old(pending)[0].dirty)
    {
      hide Traced, PendingImages, Store;
      var imgs := pending[0].dirty;
      PendingSized(g, pending, 0);
      assert Homes(imgs[..0]) == [];
      for i := 0 to |imgs|
        invariant Traced() && HomeOk(g, home) && trace == old(trace) + Homes(imgs[..i]) && M() == old(M())
      {
        StoreOk(g, home, imgs[i].fs, imgs[i].data);
        WriteHome(imgs[i].fs, imgs[i].data);
        HomesMore(imgs, i);
      }
      assert imgs[..|imgs|] == imgs;
      PendingTail(g, pending);
      pending := pending[1..];
      RefreshTail();
    }

    /** `ext4_jbd2_checkpoint_some`. */
    method CheckpointUpTo(budget: nat)
      requires Valid() && budget > 0
      modifies this
      ensures Valid() && M() == CheckpointSome(old(M()), old(log), budget).m
      ensures trace == old(trace) + CheckpointSome(old(M()), old(log), budget).ws
    {
      hide Traced, PendingImages, StoreSuper, Homes;
      if active || pending == [] {
        return;
      }
      var n := 0;
      ghost var was := pending;
      HomesOf(was, 0);
      while n < budget && pending != []
        invariant Valid() && n <= budget && n <= |was| && pending == was[n..] && log == old(log) && !active
        invariant trace == old(trace) + Homes(PendingImages(was[..n]))
        invariant n > 0 ==> M() == Popped(old(M()), n)
        invariant n == 0 ==> M() == old(M())
      {
        HomesOf(was, n);
        PopOldest();
        n := n + 1;
      }
      assert n == Chunk(|was|, budget);
      StoreSuperBlock();
      SuperKept(g, old(log), log, StoreSuper(M(), old(log)));
    }

    // ---- mount ----

    /** The scan of `ext4_jbd2_replay_if_needed`, up to its guard. */
    method ScanLog(pos: nat, q: nat) returns (r: Scanned)
      requires LogOk(g, log)
      ensures r == Replay(g, log, pos, q)
    {
      hide ParseDescriptor, ParseRevoke, RdBe32, IsHeader, AddRevokes, AddUpdates;
      var s := Idle(pos, q, [], [], 0);
      var turns := g.maxlen * 4 % WORD32;
      var guard := if turns < 64 then 64 else turns;
      for i := 0 to guard
        invariant Replay(g, log, pos, q) == ScanLoop(g, log, s, guard - i)
      {
        var step := ScanBlock(s);
        match step {
          case Stop => return Done(Idle(s.cursor, s.seqno, s.ups, s.revs, s.replayed));
          case Fail => return Failed;
          case Next(s') => s := s';
        }
      }
      return Exhausted;
    }

    /** One turn of that scan. */
    method ScanBlock(s: Scan) returns (r: Step)
      requires LogOk(g, log)
      ensures r == ScanStep(g, log, s)
    {
      hide ParseDescriptor, ParseRevoke, RdBe32, IsHeader, AddRevoke, AddUpdate;
      if s.cursor >= |log| {
        return Fail;
      }
      var blk := log[s.cursor];
      if !IsHeader(blk, s.seqno) {
        return Stop;
      }
      var kind := RdBe32(blk, 4);
      if kind == DESCRIPTOR {
        var p := ParseDescriptorBlock(g, blk, s.cursor, s.seqno, s.txRevs, s.txUps);
        match p {
          case Malformed => return Fail;
          case Parsed(next, ups) => return Next(s.(cursor := next, txUps := ups, open := true));
        }
      } else if kind == REVOKE {
        if !g.hasRevoke {
          return Fail;
        }
        var revs := ParseRevokeBlock(g, blk, s.seqno, s.txRevs);
        if revs.None? {
          return Fail;
        }
        return Advance(g, s.(txRevs := revs.value, open := true));
      } else if kind == COMMIT {
        if !s.open {
          return Fail;
        }
        var ok, revs, ups := MergeTables(s);
        if !ok {
          return Fail;
        }
        return Advance(g, Scan(s.cursor, (s.seqno + 1) % WORD, ups, revs, [], [], false, s.replayed + 1));
      } else if kind == SUPER_V1 || kind == SUPER_V2 {
        if s.open || s.txUps != [] || s.txRevs != [] {
          return Fail;
        }
        return Advance(g, s);
      }
      return Fail;
    }

    /** A commit block: the transaction's revokes and images join the tables. */
    method MergeTables(s: Scan) returns (ok: bool, revs: seq<Revoked>, ups: seq<Update>)
      ensures ok == (AddRevokes(g, s.revs, s.txRevs).Some? && AddUpdates(g, s.ups, s.txUps).Some?)
      ensures ok ==> revs == AddRevokes(g, s.revs, s.txRevs).value && ups == AddUpdates(g, s.ups, s.txUps).value
    {
      hide AddRevoke, AddUpdate;
      revs, ups := s.revs, s.ups;
      assert s.txRevs[0..] == s.txRevs && s.txUps[0..] == s.txUps;
      for i := 0 to |s.txRevs|
        invariant AddRevokes(g, s.revs, s.txRevs) == AddRevokes(g, revs, s.txRevs[i..])
      {
        assert s.txRevs[i..][1..] == s.txRevs[i + 1..];
        ok, revs := TryAddRevoke(g, revs, MAX_REVOKES, s.txRevs[i].fs, s.txRevs[i].seqno, true);
        if !ok {
          return;
        }
      }
      assert s.txRevs[|s.txRevs|..] == [];
      for i := 0 to |s.txUps|
        invariant AddUpdates(g, s.ups, s.txUps) == AddUpdates(g, ups, s.txUps[i..])
      {
        assert s.txUps[i..][1..] == s.txUps[i + 1..];
        ok, ups := TryAddUpdate(g, ups, MAX_UPDATES, s.txUps[i], false);
        if !ok {
          return;
        }
      }
      assert s.txUps[|s.txUps|..] == [];
      ok := true;
    }

    /** `ext4_jbd2_apply_updates`. */
    method ApplyAll(ups: seq<Update>, revs: seq<Revoked>)
      requires g.Valid() && DiskOk(g, D()) && Traced() && InLog(log, ups)
      modifies `home, `trace
      ensures Traced() && DiskOk(g, D()) && trace == old(trace) + Homes(AppliedImages(log, ups, revs))
    {
      hide Traced, Hits, Unescaped, Homes, AppliedImages, Store;
      HomesNone();
      AppliedNone(log, ups, revs);
      for i := 0 to |ups|
        invariant Traced() && HomeOk(g, home) && InLog(log, ups[..i]) && trace == old(trace) + Homes(AppliedImages(log, ups[..i], revs))
      {
        AppliedMore(log, ups, revs, i);
        var hit := HitsUpdate(revs, ups[i].fs, ups[i].seqno);
        if !hit {
          var data := Unescaped(log[ups[i].jblock], ups[i].escape);
          StoreOk(g, home, ups[i].fs, data);
          WriteHome(ups[i].fs, data);
        }
      }
      assert ups[..|ups|] == ups;
    }

    /** `ext4_jbd2_load_state` and `ext4_jbd2_replay_if_needed`. */
    method MountAndReplay() returns (ok: bool)
      requires g.Valid() && DiskOk(g, D()) && Traced()
      modifies this
      ensures Traced() && ok == Mount(g, old(log)).Settled?
      ensures ok ==> Valid() && M() == Mount(g, old(log)).m && trace == old(trace) + Mount(g, old(log)).ws
      ensures !ok ==> trace == old(trace) && D() == old(D())
    {
      hide Traced, Replay, Homes, AppliedImages, RdBe32, StoreSuper, HomeOk, PendingImages, Sized;
      LoadState();
      if start == 0 {
        return true;
      }
      if start < g.first || start >= g.maxlen {
        return false;
      }
      var r := ScanLog(start, seqno);
      if !r.Done? || !InLog(log, r.s.ups) {
        return false;
      }
      ApplyAll(r.s.ups, r.s.revs);
      FinishReplay(r.s);
      ok := true;
    }

    method LoadState()
      requires g.Valid() && DiskOk(g, D()) && Traced()
      modifies `seqno, `start, `head, `tail, `pending, `active, `dirty, `revokes, `overflow
      ensures var sb := log[0];
              seqno == SuperSeq(sb) && start == SuperStart(sb) && head == Clamp(g, SuperHead(sb)) && pending == [] && !active && Valid() &&
              (start == 0 ==> M() == Fresh(seqno, head))
      ensures dirty == [] && revokes == [] && !overflow
    {
      hide RdBe32, HomeOk, Traced;
      var sb := log[0];
      pending, active, dirty, revokes, overflow := [], false, [], [], false;
      seqno, start, head := RdBe32(sb, 24), RdBe32(sb, 28), RdBe32(sb, 88);
      if head < g.first || head >= g.maxlen {
        head := g.first;
      }
      tail := if start != 0 then start else head;
    }

    /** The journal is empty again, behind what was replayed. */
    method FinishReplay(s: Scan)
      requires g.Valid() && DiskOk(g, D()) && Traced() && pending == [] && !active && dirty == [] && revokes == [] && !overflow
      modifies `seqno, `start, `head, `tail, `log, `trace
      ensures Valid() && M() == Fresh(s.seqno, s.cursor) && trace == old(trace) + [StoreSuper(M(), old(log))]
    {
      hide Traced, StoreSuper, HomeOk, PutOne;
      seqno, start, head := s.seqno, 0, s.cursor;
      RefreshTail();
      StoreSuperBlock();
      SuperKept(g, old(log), log, StoreSuper(M(), old(log)));
    }

    // ---- room in the ring ----

    /** `ext4_jbd2_checkpoint_batch_for_need`: the fewest pending transactions whose log blocks
        cover the shortfall, or all that one batch may take. */
    method BatchForNeed(minFree: nat) returns (batch: nat)
      requires g.Valid()
      ensures batch <= |pending| && batch <= MAX_PENDING
      ensures batch == 0 <==> pending == [] || RingFree(g, head, tail, |pending|) >= minFree
      ensures batch > 0 ==> Reclaim(g, pending[..batch - 1]) < minFree - RingFree(g, head, tail, |pending|)
      ensures batch > 0 && batch < |pending| && batch < MAX_PENDING ==>
                Reclaim(g, pending[..batch]) >= minFree - RingFree(g, head, tail, |pending|)
    {
      hide RingFree, RingDistance;
      var free := RingFree(g, head, tail, |pending|);
      if pending == [] || free >= minFree {
        return 0;
      }
      var need, reclaim := minFree - free, 0;
      batch := 0;
      while batch < |pending| && batch < MAX_PENDING
        invariant batch <= |pending| && batch <= MAX_PENDING && reclaim == Reclaim(g, pending[..batch]) < need
        invariant batch > 0 ==> Reclaim(g, pending[..batch - 1]) < need
      {
        assert pending[..batch + 1][..batch] == pending[..batch];
        var blocks := RingDistance(g, pending[batch].start, pending[batch].end);
        reclaim := reclaim + if blocks == 0 then 1 else blocks;
        batch := batch + 1;
        if reclaim >= need {
          return;
        }
      }
    }

    /** What a method that only checkpoints leaves behind. */
    twostate predicate OnlyCheckpoints(d: seq<Tx>, d': seq<Tx>)
      reads this
    {
      Valid() && Inv(g, D(), M(), d') && !active && CheckpointAll(home, d') == CheckpointAll(old(home), d) && |d'| <= |d| && seqno == old(seqno)
    }

    method CheckpointSafely(budget: nat, ghost d: seq<Tx>) returns (ghost d': seq<Tx>)
      requires Valid() && budget > 0 && !active && Inv(g, D(), M(), d)
      modifies this
      ensures OnlyCheckpoints(d, d') && |d'| == |pending| && d' == d[Chunk(|d|, budget)..]
    {
      hide Inv, CheckpointAll, Sized, CheckpointSome, WriteAll;
      ghost var m0, log0, disk0, trace0 := M(), log, D(), trace;
      InvParts(g, D(), M(), d);
      CheckpointUpTo(budget);
      ghost var o := CheckpointSome(m0, log0, budget);
      WriteAppend(base, trace0, o.ws);
      FlushShape(m0, log0, budget);
      d' := d[Chunk(|d|, budget)..];
      if d == [] {
        NoCheckpoint(m0, log0, disk0, budget);
        assert d[0..] == d;
      } else {
        CheckpointIsSafe(g, disk0, m0, d, budget, |o.ws|);
        assert o.ws[..|o.ws|] == o.ws;
      }
      InvParts(g, D(), M(), d');
    }

    /** `ext4_jbd2_checkpoint_until_free`: it always gets there, within its tries. */
    method MakeRoom(minFree0: nat, ghost d: seq<Tx>) returns (ok: bool, ghost d': seq<Tx>)
      requires Valid() && !active && Inv(g, D(), M(), d)
      modifies this
      ensures OnlyCheckpoints(d, d') && ok == (g.Ring() > 1)
      ensures ok ==> RingFree(g, head, tail, |pending|) >= if minFree0 >= g.Ring() then g.Ring() - 1 else minFree0
    {
      hide Inv, CheckpointAll, Sized, Traced, LogHolds, OpenOk, LogOk;
      d' := d;
      if g.maxlen - g.first <= 1 {
        return false, d;
      }
      var minFree := if minFree0 >= g.maxlen - g.first then g.maxlen - g.first - 1 else minFree0;
      var tries := 0;
      InvParts(g, D(), M(), d);
      while |pending| > 0 && RingFree(g, head, tail, |pending|) < minFree
        invariant OnlyCheckpoints(d, d') && |d'| == |pending| && tries + |pending| <= MAX_PENDING
        decreases |pending|
      {
        var batch := BatchForNeed(minFree);
        d' := CheckpointSafely(if batch == 0 then 1 else batch, d');
        tries := tries + 1;
        if tries > MAX_PENDING * 2 {
          break;
        }
      }
      ok := RingFree(g, head, tail, |pending|) >= minFree;
    }

    /** `ext4_jbd2_maybe_checkpoint` without force; `aged` is the verdict of the clock. Short of
        room it makes room; else a full list goes home, an aged one loses its oldest, and
        otherwise nothing happens. */
    method MaybeCheckpoint(aged: bool, ghost d: seq<Tx>) returns (ok: bool, ghost d': seq<Tx>)
      requires Valid() && !active && Inv(g, D(), M(), d)
      modifies this
      ensures OnlyCheckpoints(d, d') && ok && |d'| == |pending| && (old(Admitted(g, M())) ==> Admitted(g, M()))
      ensures old(Short(g, M())) ==> !Short(g, M())
      ensures !old(Short(g, M())) ==> d' == if |d| >= MAX_PENDING then [] else if aged && d != [] then d[1..] else d
      ensures !old(Short(g, M())) && d' == d ==> M() == old(M()) && D() == old(D())
    {
      hide Inv, CheckpointAll, Sized, Traced, RingFree, MinFree, LogHolds, OpenOk, LogOk;
      d', ok := d, true;
      InvParts(g, D(), M(), d);
      if pending == [] {
        return;
      }
      var minFree := MinFree(g);
      if minFree != 0 && RingFree(g, head, tail, |pending|) < minFree {
        ok, d' := MakeRoom(minFree, d);
      } else if |pending| >= MAX_PENDING {
        d' := CheckpointSafely(MAX_PENDING, d);
      } else if aged {
        d' := CheckpointSafely(1, d);
        FreeGrows(g, old(D()), old(M()), d, Chunk(|d|, 1), D(), M());
      }
      InvParts(g, D(), M(), d');
    }

    /** `ext4_jbd2_tx_start`. With a transaction open every path ends in a refusal and no
        checkpoint does anything, so that test can come first. */
    method Begin(aged: bool, ghost d: seq<Tx>) returns (ok: bool, ghost d': seq<Tx>)
      requires Valid() && Inv(g, D(), M(), d)
      modifies this
      ensures Valid() && Inv(g, D(), M(), d') && CheckpointAll(home, d') == CheckpointAll(old(home), d)
      ensures ok == !old(active)
      ensures ok ==> active && dirty == [] && revokes == [] && !overflow && Admitted(g, M())
      ensures !ok ==> M() == old(M()) && D() == old(D()) && d' == d
    {
      hide Inv, CheckpointAll, Sized, Traced, RingFree, MinFree, LogHolds, OpenOk, LogOk;
      d' := d;
      if active {
        return false, d;
      }
      var minFree := MinFree(g);
      InvParts(g, D(), M(), d);
      if |pending| >= MAX_PENDING {
        d' := CheckpointSafely(MAX_PENDING, d');
      }
      if minFree != 0 && RingFree(g, head, tail, |pending|) < minFree {
        ok, d' := MakeRoom(minFree, d');
      }
      InvParts(g, D(), M(), d');
      ok, d' := MaybeCheckpoint(aged, d');
      ghost var m := M();
      active, dirty, revokes, overflow := true, [], [], false;
      OpenedOk(g, D(), m, M(), d');
    }

    /** `ext4_jbd2_tx_commit`: what the open transaction showed is now committed, whether or
        not the checkpoint at the end moves some of it home. */
    method TxCommitAll(aged: bool, ghost d: seq<Tx>, ghost stale: nat) returns (ok: bool, ghost d': seq<Tx>)
      requires Valid() && Inv(g, D(), M(), d) && StaleWithin(g, log, seqno, head, stale)
      requires dirty != [] || revokes != [] ==> seqno + 2 < WORD && stale + TxLen(g, seqno, Tx(dirty, revokes)) < g.Ring()
      modifies this
      ensures Valid() && Inv(g, D(), M(), d') && ok == Commit(g, old(M()), old(log)).Settled?
      ensures !ok ==> M() == old(M()) && D() == old(D()) && d' == d
      ensures ok ==> !active && CheckpointAll(home, d') ==
                     CheckpointAll(old(home), if old(dirty) == [] && old(revokes) == [] then d else d + [Tx(old(dirty), old(revokes))])
      ensures ok && old(dirty == [] && revokes == []) ==> d' == d && D() == old(D())
      ensures ok && !old(dirty == [] && revokes == []) ==> !Short(g, M())
    {
      hide Inv, CheckpointAll, Sized, RingFree, MinFree, LogHolds, OpenOk, LogOk, Commit, StaleWithin, TxLen, WriteAll;
      ghost var m0, disk0, trace0 := M(), D(), trace;
      InvParts(g, disk0, m0, d);
      d' := d;
      var nothing := dirty == [] && revokes == [];
      ok := CommitOpen();
      if !ok {
        return;
      }
      ghost var o := Commit(g, m0, disk0.log);
      WriteAppend(base, trace0, o.ws);
      d' := CommittedTo(g, disk0, m0, d, stale, o);
      if nothing {
        return;
      }
      var minFree := MinFree(g);
      if |pending| >= MAX_PENDING || (minFree != 0 && RingFree(g, head, tail, |pending|) < minFree) {
        InvParts(g, D(), M(), d');
        var _, e := MaybeCheckpoint(aged, d');
        d' := e;
      }
    }

    /** `ext4_jbd2_tx_abort`. */
    method TxDrop()
      requires Valid()
      modifies `active, `dirty, `revokes, `overflow
      ensures M() == Abort(old(M())) && Valid()
    {
      if active {
        active, dirty, revokes, overflow := false, [], [], false;
      }
    }
  }

  lemma TraceMore(base: Disk, trace: seq<DiskWrite>, w: DiskWrite)
    ensures WriteAll(base, trace + [w]) == WriteOne(WriteAll(base, trace), w)
  {
    WriteAppend(base, trace, [w]);
    WriteOneMore(WriteAll(base, trace), w);
  }

  lemma BlockSeen(g: Geometry, fs: nat)
    requires g.bs > 0 && fs < g.blocks
    ensures AddressIn(g, fs * g.bs + g.bs - 1)
  {
    InBlock(fs * g.bs + g.bs - 1, g.bs, fs);
  }

  /** Reading a whole block gives its view. */
  lemma SeenIsView(g: Geometry, disk: Disk, m: Mem, fs: nat, off: nat, buf: seq<Byte>)
    requires g.bs > 0 && fs < |disk.home| && off == fs * g.bs && |buf| == g.bs && Seen(g, disk, m, off, buf) && |View(m, disk.home, fs)| == g.bs
    ensures buf == View(m, disk.home, fs)
  {
    hide View, Sized, Seen;
    forall i | 0 <= i < g.bs ensures buf[i] == View(m, disk.home, fs)[i] {
      SeenAt(g, disk, m, off, buf, i);
      InBlock(off + i, g.bs, fs);
    }
  }

  lemma SeenAt(g: Geometry, disk: Disk, m: Mem, off: nat, buf: seq<Byte>, i: nat)
    requires Seen(g, disk, m, off, buf) && i < |buf|
    ensures AddressIn(g, off + i) && Sized(g, disk, m) && buf[i] == ByteView(g, disk, m, off + i)
  {
    hide Sized, ByteView;
    assert SeenByte(g, disk, m, off + i, buf[i]);
  }

  lemma NoTags(g: Geometry, imgs: seq<Image>, h: seq<Byte>)
    requires forall i :: 0 <= i < |imgs| ==> |imgs[i].data| >= 4
    ensures h + Tags(g, imgs, 0) == h
  {
  }

  lemma NoLogs()
    ensures Logs([]) == []
  {
  }

  /** What is left of a commit: the writes still to come complete the whole body. */
  ghost predicate ToDo(g: Geometry, q: nat, pos: nat, dirty: seq<Image>, revs: seq<nat>, end: nat,
                       trace0: seq<DiskWrite>, log0: Log, all: seq<Write>, trace: seq<DiskWrite>, log: Log)
  {
    hide Body, BodyWrites, Put, Logs;
    && g.Valid() && Images(g, dirty) && g.In(pos) && |Body(g, q, dirty, revs)| < g.Ring() && g.At(pos, |Body(g, q, dirty, revs)|) == end
    && var rest := BodyWrites(g, q, pos, dirty, revs);
       trace + Logs(rest) == trace0 + Logs(all) && Put(log, rest) == Put(log0, all)
  }

  /** A part of the rest is written. */
  lemma DoSome(trace0: seq<DiskWrite>, log0: Log, all: seq<Write>, trace: seq<DiskWrite>, log: Log, x: seq<Write>, y: seq<Write>)
    requires trace + Logs(x + y) == trace0 + Logs(all) && Put(log, x + y) == Put(log0, all)
    ensures trace + Logs(x) + Logs(y) == trace0 + Logs(all) && Put(Put(log, x), y) == Put(log0, all)
  {
    hide Put, Logs;
    LogsAppend(x, y);
    PutAppend(log, x, y);
    Regroup(trace, Logs(x), Logs(y));
  }

  lemma Regroup(a: seq<DiskWrite>, b: seq<DiskWrite>, c: seq<DiskWrite>)
    ensures a + b + c == a + (b + c)
  {
  }

  lemma ToDoGroup(g: Geometry, q: nat, pos: nat, dirty: seq<Image>, revs: seq<nat>, end: nat,
                  trace0: seq<DiskWrite>, log0: Log, all: seq<Write>, trace: seq<DiskWrite>, log: Log, c: nat)
    requires ToDo(g, q, pos, dirty, revs, end, trace0, log0, all, trace, log) && dirty != [] && c == Chunk(|dirty|, TagsPerDesc(g))
    ensures Images(g, dirty[..c]) && c <= TagsPerDesc(g) && c + 1 < g.Ring()
    ensures var ws := GroupWrites(g, q, pos, dirty[..c]);
            ToDo(g, q, g.At(pos, c + 1), dirty[c..], revs, end, trace0, log0, all, trace + Logs(ws), Put(log, ws))
  {
    hide Body, BodyWrites, Put, Logs, TagsPerDesc, GroupWrites, GroupBlocks;
    BodyDesc(g, q, dirty, revs, c);
    BodyAtLeast(g, q, dirty, revs);
    PastFirstGroup(g, q, pos, dirty, revs, c, c + 1);
    DoSome(trace0, log0, all, trace, log, GroupWrites(g, q, pos, dirty[..c]), BodyWrites(g, q, g.At(pos, c + 1), dirty[c..], revs));
  }

  lemma ToDoRevokes(g: Geometry, q: nat, pos: nat, revs: seq<nat>, end: nat,
                    trace0: seq<DiskWrite>, log0: Log, all: seq<Write>, trace: seq<DiskWrite>, log: Log, c: nat)
    requires ToDo(g, q, pos, [], revs, end, trace0, log0, all, trace, log) && revs != [] && c == Chunk(|revs|, RevokesPerBlock(g))
    ensures var ws := [Write(pos, RevokeBlock(g, q, revs[..c]))];
            1 < g.Ring() && ToDo(g, q, g.At(pos, 1), [], revs[c..], end, trace0, log0, all, trace + Logs(ws), Put(log, ws))
  {
    hide Body, Put, Logs, RevokesPerBlock, RevokeBlock;
    BodyRevoke(g, q, revs, c);
    BodyAtLeast(g, q, [], revs);
    DoSome(trace0, log0, all, trace, log, [Write(pos, RevokeBlock(g, q, revs[..c]))], BodyWrites(g, q, g.At(pos, 1), [], revs[c..]));
  }

  lemma ToDoCommit(g: Geometry, q: nat, pos: nat, end: nat, trace0: seq<DiskWrite>, log0: Log, all: seq<Write>, trace: seq<DiskWrite>, log: Log)
    requires ToDo(g, q, pos, [], [], end, trace0, log0, all, trace, log)
    ensures var ws := [Write(pos, CommitBlock(g, q))];
            1 < g.Ring() && g.At(pos, 1) == end && trace + Logs(ws) == trace0 + Logs(all) && Put(log, ws) == Put(log0, all)
  {
    hide Body, Put, Logs, CommitBlock;
    BodyNil(g, q);
  }

  lemma SameSuper(m: Mem, m': Mem, log: Log, log1: Log)
    requires |log| > 0 && |log1| > 0 && log[0] == log1[0] && |log[0]| >= 1024
    requires m.seqno == m'.seqno && m.start == m'.start && m.head == m'.head && m.pending == m'.pending
    ensures StoreSuper(m, log) == StoreSuper(m', log1)
  {
    hide SuperBlock;
  }

  lemma SuperKept(g: Geometry, log: Log, log': Log, w: DiskWrite)
    requires LogOk(g, log) && w.ToLog? && w.w.pos == 0 && |w.w.blk| == |log[0]| && log' == PutOne(log, w.w)
    ensures LogOk(g, log')
  {
  }

  /** The body leaves the superblock alone. */
  lemma PutBodySuper(g: Geometry, log: Log, q: nat, pos: nat, dirty: seq<Image>, revs: seq<nat>)
    requires LogOk(g, log) && g.In(pos) && Images(g, dirty) && |Body(g, q, dirty, revs)| < g.Ring()
    ensures LogOk(g, Put(log, BodyWrites(g, q, pos, dirty, revs))) && Put(log, BodyWrites(g, q, pos, dirty, revs))[0] == log[0]
  {
    hide Body, BodyWrites, Put, RingDistance;
    PutBody(g, log, q, pos, dirty, revs);
    PutFrame(g, log, pos, 0, |Body(g, q, dirty, revs)|, BodyWrites(g, q, pos, dirty, revs));
  }

  lemma ImagesJoin(g: Geometry, x: seq<Image>, y: seq<Image>)
    requires Images(g, x) && Images(g, y)
    ensures Images(g, x + y)
  {
  }

  lemma StoreOk(g: Geometry, home: Home, fs: nat, data: Block)
    requires HomeOk(g, home) && |data| == g.bs
    ensures HomeOk(g, Store(home, fs, data))
  {
  }

  lemma HomesMore(imgs: seq<Image>, i: nat)
    requires i < |imgs|
    ensures Homes(imgs[..i + 1]) == Homes(imgs[..i]) + [ToHome(imgs[i].fs, imgs[i].data)]
  {
  }

  lemma PendingTail(g: Geometry, ps: seq<Pending>)
    requires ps != [] && Images(g, PendingImages(ps))
    ensures Images(g, PendingImages(ps[1..]))
  {
    forall i | 0 <= i < |PendingImages(ps[1..])|
      ensures |PendingImages(ps[1..])[i].data| == g.bs && PendingImages(ps[1..])[i].fs < g.blocks
    {
      assert PendingImages(ps)[|ps[0].dirty| + i] == PendingImages(ps[1..])[i];
    }
  }

  lemma HomesOf(ps: seq<Pending>, n: nat)
    ensures n == 0 ==> Homes(PendingImages(ps[..n])) == []
    ensures n < |ps| ==> Homes(PendingImages(ps[..n + 1])) == Homes(PendingImages(ps[..n])) + Homes(ps[n].dirty)
  {
    hide PendingImages;
    if n == 0 {
      assert ps[..0] == [] && PendingImages([]) == [] by { NonePendingImages(); }
    }
    if n < |ps| {
      assert ps[..n + 1] == ps[..n] + [ps[n]];
      PendingAppend(ps[..n], ps[n]);
    }
  }

  lemma NonePendingImages()
    ensures PendingImages([]) == []
  {
  }

  lemma HomesNone()
    ensures Homes([]) == []
  {
  }

  lemma AppliedNone(log: Log, ups: seq<Update>, revs: seq<Revoked>)
    ensures InLog(log, ups[..0]) && AppliedImages(log, ups[..0], revs) == []
  {
  }

  lemma {:induction false} AppliedAppend(log: Log, ups: seq<Update>, u: Update, revs: seq<Revoked>)
    requires InLog(log, ups) && u.jblock < |log| && |log[u.jblock]| >= 4
    ensures InLog(log, ups + [u])
    ensures AppliedImages(log, ups + [u], revs) == AppliedImages(log, ups, revs) +
            if Hits(revs, u.fs, u.seqno) then [] else [Image(u.fs, Unescaped(log[u.jblock], u.escape))]
    decreases |ups|
  {
    hide Hits, Unescaped;
    if ups == [] {
      assert ups + [u] == [u] && [u][1..] == [];
    } else {
      assert (ups + [u])[1..] == ups[1..] + [u];
      AppliedAppend(log, ups[1..], u, revs);
    }
  }

  lemma AppliedMore(log: Log, ups: seq<Update>, revs: seq<Revoked>, i: nat)
    requires InLog(log, ups) && i < |ups|
    ensures InLog(log, ups[..i]) && InLog(log, ups[..i + 1])
    ensures var u := ups[i];
            Homes(AppliedImages(log, ups[..i + 1], revs)) == Homes(AppliedImages(log, ups[..i], revs)) +
            if Hits(revs, u.fs, u.seqno) then [] else [ToHome(u.fs, Unescaped(log[u.jblock], u.escape))]
  {
    hide Hits, Unescaped, AppliedImages;
    assert ups[..i + 1] == ups[..i] + [ups[i]];
    AppliedAppend(log, ups[..i], ups[i], revs);
  }

  /** The log blocks of some pending transactions, each counted as one at least. */
  function Reclaim(g: Geometry, ps: seq<Pending>): nat
    requires g.Valid()
    decreases |ps|
  {
    if ps == [] then 0
    else
      var last := ps[|ps| - 1];
      var n := RingDistance(g, last.start, last.end);
      Reclaim(g, ps[..|ps| - 1]) + if n == 0 then 1 else n
  }

  /** The free blocks are the ring less the log of the committed transactions less one. */
  lemma FreeOf(g: Geometry, disk: Disk, m: Mem, d: seq<Tx>)
    requires Inv(g, disk, m, d)
    ensures g.Valid() && ChainOk(g, d) && |d| <= m.seqno < WORD
    ensures RingFree(g, m.head, m.tail, |m.pending|) == g.Ring() - 1 - |Chain(g, m.seqno - |d|, d)|
  {
    hide Inv, Chain, ChainOk, Holds, OpenOk, RingFree, LogOk;
    InvParts(g, disk, m, d);
    ChainPositive(g, m.seqno - |d|, d);
    FreeIsExact(g, m.head, m.tail, |m.pending|, |Chain(g, m.seqno - |d|, d)|);
  }

  lemma FreeGrows(g: Geometry, disk: Disk, m: Mem, d: seq<Tx>, n: nat, disk': Disk, m': Mem)
    requires Inv(g, disk, m, d) && n <= |d| && Inv(g, disk', m', d[n..]) && m'.seqno == m.seqno
    ensures g.Valid() && RingFree(g, m'.head, m'.tail, |m'.pending|) >= RingFree(g, m.head, m.tail, |m.pending|)
    ensures |m'.pending| <= |m.pending|
  {
    hide Inv, Chain, ChainOk, RingFree, LogHolds, OpenOk, LogOk;
    FreeOf(g, disk, m, d);
    FreeOf(g, disk', m', d[n..]);
    ChainSplit(g, m.seqno - |d|, d, n);
    InvParts(g, disk, m, d);
    InvParts(g, disk', m', d[n..]);
  }

  lemma OpenedOk(g: Geometry, disk: Disk, m: Mem, m': Mem, d: seq<Tx>)
    requires Inv(g, disk, m, d) && SameLog(m, m') && m'.dirty == [] && m'.revokes == []
    ensures Inv(g, disk, m', d) && Sized(g, disk, m')
  {
    hide Inv;
    InvSameLog(g, disk, m, m', d);
    InvOpen(g, disk, m', d);
  }

  lemma CommittedTo(g: Geometry, disk: Disk, m: Mem, d: seq<Tx>, stale: nat, o: Outcome) returns (d': seq<Tx>)
    requires Inv(g, disk, m, d) && StaleWithin(g, disk.log, m.seqno, m.head, stale) && LogOk(g, disk.log) && Images(g, m.dirty)
    requires m.dirty != [] || m.revokes != [] ==> m.seqno + 2 < WORD && stale + TxLen(g, m.seqno, Tx(m.dirty, m.revokes)) < g.Ring()
    requires o == Commit(g, m, disk.log) && o.Settled?
    ensures d' == if m.dirty == [] && m.revokes == [] then d else d + [Tx(m.dirty, m.revokes)]
    ensures Inv(g, WriteAll(disk, o.ws), o.m, d') && !o.m.active && WriteAll(disk, o.ws).home == disk.home
    ensures m.dirty == [] && m.revokes == [] ==> WriteAll(disk, o.ws) == disk
  {
    hide Inv, StaleWithin, TxLen, WriteAll, Commit, Recoverable, OpenOk;
    InvOpen(g, disk, m, d);
    if m.dirty == [] && m.revokes == [] {
      EmptyCommit(g, disk, m);
      InvSameLog(g, disk, m, o.m, d);
      WriteNothing(disk);
      d' := d;
    } else {
      GoingSafe(g, disk, m, d, stale, |o.ws|);
      GoingCommitted(g, disk, m, d, stale);
      assert CommitSafe(g, disk, d, Tx(m.dirty, m.revokes), m.seqno, o.m, o.ws, |o.ws|);
      assert o.ws[..|o.ws|] == o.ws;
      d' := d + [Tx(m.dirty, m.revokes)];
    }
  }

  lemma NoCheckpoint(m: Mem, log: Log, disk: Disk, budget: nat)
    requires |log| > 0 && |log[0]| >= 1024 && m.pending == []
    ensures CheckpointSome(m, log, budget) == Settled(m, []) && WriteAll(disk, []) == disk
  {
  }

  lemma PadZeroWord(n: nat, s: seq<Byte>)
    requires |s| + 4 <= n
    ensures Pad(n, s) == Pad(n, s + Be32(0))
  {
    hide Be32;
    ZeroWord();
    assert Zeros(n - |s|) == Be32(0) + Zeros(n - |s| - 4);
  }

  lemma ZeroWord()
    ensures Be32(0) == [0, 0, 0, 0]
  {
  }

  lemma NoEntries(g: Geometry, revs: seq<nat>, h: seq<Byte>)
    ensures h + Entries(g, revs, 0) == h
  {
  }

  lemma EntriesFitMono(g: Geometry, j: nat, n: nat)
    requires g.Valid() && j <= n <= RevokesPerBlock(g)
    ensures 16 + RevokeSpan(g, j) <= g.bs
  {
  }

  lemma EntriesMore(g: Geometry, revs: seq<nat>, j: nat, h: seq<Byte>)
    requires j < |revs|
    ensures h + Entries(g, revs, j) + Entry(g, revs[j]) == h + Entries(g, revs, j + 1)
  {
    hide Entry;
  }

  lemma SpliceMiddle(n: nat, h: seq<Byte>, x: seq<Byte>, t: seq<Byte>, y: seq<Byte>)
    requires |x| == |y| && |h| + |x| + |t| <= n
    ensures Splice(Pad(n, h + x + t), |h|, y) == Pad(n, h + y + t)
  {
  }

  lemma TagsFitMono(g: Geometry, j: nat, n: nat)
    requires g.Valid() && j <= n <= TagsPerDesc(g)
    ensures 12 + TagSpan(g, j) <= g.bs
  {
  }

  lemma TagsMore(g: Geometry, imgs: seq<Image>, j: nat, h: seq<Byte>)
    requires j < |imgs| && forall i :: 0 <= i < |imgs| ==> |imgs[i].data| >= 4
    ensures h + Tags(g, imgs, j) + Tag(g, imgs[j].fs, Escapes(imgs[j].data), j + 1 == |imgs|) == h + Tags(g, imgs, j + 1)
  {
    hide Tag, Escapes;
  }

  lemma PutOnly(log: Log, w: Write)
    ensures Put(log, [w]) == PutOne(log, w)
  {
    assert [w][1..] == [];
  }

  lemma WriteMore(log: Log, ws: seq<Write>, j: nat)
    requires j < |ws|
    ensures Put(log, ws[..j + 1]) == PutOne(Put(log, ws[..j]), ws[j])
  {
    hide Put;
    assert ws[..j + 1] == ws[..j] + [ws[j]];
    PutAppend(log, ws[..j], [ws[j]]);
    PutOnly(Put(log, ws[..j]), ws[j]);
  }

  lemma LogsAppend(x: seq<Write>, y: seq<Write>)
    ensures Logs(x + y) == Logs(x) + Logs(y)
  {
  }

  lemma LogsOnly(w: Write)
    ensures Logs([w]) == [ToLog(w)]
  {
  }

  lemma LogsMore(ws: seq<Write>, j: nat)
    requires j < |ws|
    ensures Logs(ws[..j + 1]) == Logs(ws[..j]) + [ToLog(ws[j])]
  {
  }

  lemma NonePending(bs: nat, off: nat, was: seq<Byte>)
    requires bs > 0
    ensures forall i :: 0 <= i < |was| ==> OverByte(PendingImages([]), bs, off + i, was[i]) == was[i]
  {
    hide OverByte;
    forall i | 0 <= i < |was| ensures OverByte(PendingImages([]), bs, off + i, was[i]) == was[i] {
      OverNone(bs, off + i, was[i]);
    }
  }

  lemma PendingSized(g: Geometry, ps: seq<Pending>, p: nat)
    requires Images(g, PendingImages(ps)) && p < |ps|
    ensures Images(g, PendingImages(ps[..p])) && Images(g, ps[p].dirty)
  {
    hide PendingImages;
    PendingSplit(ps, p);
    var x, y, z := PendingImages(ps[..p]), ps[p].dirty, PendingImages(ps[p + 1..]);
    forall i | 0 <= i < |x| ensures |x[i].data| == g.bs && x[i].fs < g.blocks {
      assert (x + y + z)[i] == x[i];
    }
    forall i | 0 <= i < |y| ensures |y[i].data| == g.bs && y[i].fs < g.blocks {
      assert (x + y + z)[|x| + i] == y[i];
    }
  }

  lemma {:induction false} PendingSplit(ps: seq<Pending>, p: nat)
    requires p < |ps|
    ensures PendingImages(ps) == PendingImages(ps[..p]) + ps[p].dirty + PendingImages(ps[p + 1..])
    decreases p
  {
    if p > 0 {
      PendingSplit(ps[1..], p - 1);
      assert ps[..p][1..] == ps[1..][..p - 1] && ps[1..][p..] == ps[p + 1..];
    }
  }

  lemma RemovedSized(g: Geometry, imgs: seq<Image>, fs: nat)
    requires Images(g, imgs)
    ensures Images(g, RemoveImage(imgs, fs))
  {
    var k, r := FindImage(imgs, fs, 0), RemoveImage(imgs, fs);
    forall i | 0 <= i < |r| ensures |r[i].data| == g.bs && r[i].fs < g.blocks {
      assert r[i] == if i < k then imgs[i] else imgs[i + 1];
    }
  }
}
