/** The redo log of kernel/ext4.c as an object over a cached device: begin, logged writes,
    commit, abort and mount. Ghost state keeps, for every stretch between two flushes, the
    device at its start and the writes since, which is what a crash in it is about. */
module RedoJournal {
  import opened Bytes
  import opened RedoLog
  import RedoHistory

  class Journal {
    const b: nat
    /** The device as it reads through the cache. */
    var view: Dev
    var active: bool
    var seqno: nat
    var recs: seq<Rec>
    var dataBytes: nat
    ghost var dev: Dev
    ghost var ws: seq<Out>
    ghost var epochs: seq<Epoch>

    ghost predicate Valid()
      reads this
    {
      && |dev| == |view| == b + REGION && b % SECTOR == 0 && b < WORD * WORD && view == DoAll(dev, ws)
      && dataBytes == DataLen(recs) && if active then RecsOk(recs, b) && LogHolds(view, b, recs) else Flushed()
    }

    /** The state of `RedoHistory`, whose runs are about sequences of these methods. */
    ghost function S(): RedoHistory.Sys
      reads this
    {
      RedoHistory.Up(dev, ws, active, seqno, recs)
    }

    /** Nothing is in the cache only. */
    ghost predicate Flushed()
      reads this
    {
      ws == [] && dev == view
    }

    constructor (b: nat, d: Dev)
      requires |d| == b + REGION && b % SECTOR == 0 && b < WORD * WORD
      ensures Valid() && Flushed() && view == d && !active && epochs == [] && this.b == b
    {
      this.b, view, active, seqno, recs, dataBytes := b, d, false, 0, [], 0;
      dev, ws, epochs := d, [], [];
    }

    /** A byte write in range, sector by sector; `CachedDisk.RawWriteBytes` is the same loop over
        the block cache, with its failures. */
    method RawWrite(off: nat, data: seq<Byte>)
      requires |dev| == |view| && view == DoAll(dev, ws) && off + |data| <= |view|
      modifies `view, `ws
      ensures |view| == |old(view)| && view == DoAll(dev, ws)
      ensures view == Do(old(view), Out(off, data)) && ws == old(ws) + [Out(off, data)]
    {
      ghost var was := view;
      var done := 0;
      while done < |data|
        invariant done <= |data| && |view| == |was| && ws == old(ws)
        invariant forall a :: 0 <= a < |view| ==> view[a] == if off <= a < off + done then data[a - off] else was[a]
      {
        var at := (off + done) % SECTOR;
        var chunk := if SECTOR - at > |data| - done then |data| - done else SECTOR - at;
        view := Splice(view, off + done, data[done..done + chunk]);
        done := done + chunk;
      }
      assert view == Do(was, Out(off, data));
      OneMore(dev, ws, Out(off, data));
      ws := ws + [Out(off, data)];
    }

    /** `block_cache_flush`. */
    method Flush()
      requires |dev| == |view| && view == DoAll(dev, ws)
      modifies `dev, `ws, `epochs
      ensures Flushed() && view == DoAll(dev, ws) && epochs == old(epochs) + [Epoch(old(dev), old(ws))]
      ensures S() == RedoHistory.Synced(old(S()))
    {
      epochs := epochs + [Epoch(dev, ws)];
      dev, ws := view, [];
    }

    method WriteHeader(state: nat, n: nat, bytes: nat)
      requires |dev| == |view| == b + REGION && view == DoAll(dev, ws)
      modifies `view, `ws
      ensures view == DoAll(dev, ws) && |view| == |old(view)|
      ensures var w := Out(b, Header(state, n, bytes, seqno)); view == Do(old(view), w) && ws == old(ws) + [w] && (old(ws) == [] ==> ws == [w])
    {
      hide Header, Do;
      RawWrite(b, Header(state, n, bytes, seqno));
    }

    /** `ext4_tx_begin`. */
    method Begin() returns (ok: bool)
      requires Valid()
      modifies this
      ensures Valid() && ok == !old(active) && (ok ==> Flushed())
      ensures ok ==> active && recs == [] && seqno == (old(seqno) + 1) % WORD && view == Do(old(view), Out(b, Header(PREP, 0, 0, seqno)))
      ensures ok ==> epochs == old(epochs) + [Epoch(old(view), [Out(b, Header(PREP, 0, 0, seqno))])]
      ensures !ok ==> view == old(view) && epochs == old(epochs) && recs == old(recs)
      ensures S() == RedoHistory.Began(b, old(S()))
    {
      hide Header, Do, LogHolds;
      ghost var s0 := S();
      if active {
        return false;
      }
      active, recs, dataBytes, seqno := true, [], 0, (seqno + 1) % WORD;
      WriteHeader(PREP, 0, 0);
      Flush();
      EmptyLog(view, b);
      OneMore(s0.dev, s0.ws, Out(b, Header(PREP, 0, 0, seqno)));
      ok := true;
    }

    /** `ext4_disk_write_bytes` inside a transaction: the write goes to the log only. */
    method LogWrite(off: nat, data: seq<Byte>) returns (ok: bool)
      requires Valid() && active && off + |data| <= b
      modifies `view, `ws, `recs, `dataBytes
      ensures Valid() && view[..b + HDR] == old(view)[..b + HDR]
      ensures ok <==> data == [] || (|old(recs)| < MAX_RECORDS && old(dataBytes) + |data| <= DATA_MAX)
      ensures recs == if ok && data != [] then old(recs) + [Rec(off, data)] else old(recs)
      ensures S() == RedoHistory.Written(b, old(S()), off, data)
      ensures old(ws) <= ws && forall i :: |old(ws)| <= i < |ws| ==> b + HDR <= ws[i].off
    {
      hide RecBytes, LogHolds, Do;
      if data == [] {
        return true;
      }
      if |recs| >= MAX_RECORDS || dataBytes + |data| > DATA_MAX {
        return false;
      }
      var r, at := Rec(off, data), dataBytes;
      LogAppends(view, b, recs, r);
      DataLenAppend(recs, r);
      ghost var old0 := view;
      RawWrite(RecPos(b, |recs|), RecBytes(off, |data|, at));
      RawWrite(DataPos(b, at), data);
      assert view == Logged(old0, b, |recs|, at, r);
      recs, dataBytes := recs + [r], dataBytes + |data|;
      ok := true;
    }

    /** `ext4_tx_commit`. */
    method Commit() returns (ok: bool)
      requires Valid()
      modifies this
      ensures Valid() && Flushed() && ok == old(active) && !active
      ensures ok ==> epochs == old(epochs) + CommitEpochs(old(dev), old(ws), b, old(recs), seqno) && view[..b] == ApplyRecs(old(view)[..b], old(recs))
      ensures !ok ==> view == old(view) && epochs == old(epochs)
      ensures S() == RedoHistory.Committed(b, old(S()))
    {
      hide Header, LogHolds, Do, DoAll, Outs, CommitEpochs, ApplyRecs;
      if !active {
        return false;
      }
      active := false;
      WriteHeader(COMMITTED, |recs|, dataBytes);
      HeaderHome(old(view), b, COMMITTED, |recs|, dataBytes, seqno);
      Flush();
      ghost var d1 := view;
      Finish(recs);
      Stretches(old(dev), old(ws), b, recs, seqno, d1, DoAll(d1, Outs(recs)));
      RedoHistory.OneWrite(DoAll(d1, Outs(recs)), Out(b, Header(CLEAN, 0, 0, seqno)));
      NoneLeft(view);
      recs, dataBytes := [], 0;
      ok := true;
    }

    /** The home writes and the cleared header, each flushed. */
    method Finish(todo: seq<Rec>)
      requires |view| == b + REGION && Flushed() && forall i :: 0 <= i < |todo| ==> todo[i].off + |todo[i].data| <= b
      modifies `view, `ws, `dev, `epochs
      ensures Flushed() && |view| == |old(view)| && view[..b] == ApplyRecs(old(view)[..b], todo)
      ensures var d2, clean := DoAll(old(view), Outs(todo)), Out(b, Header(CLEAN, 0, 0, seqno));
              view == Do(d2, clean) && epochs == old(epochs) + [Epoch(old(view), Outs(todo)), Epoch(d2, [clean])]
    {
      hide Header, Do, DoAll, Outs, ApplyRecs;
      NoneLeft(view);
      CarryOut(todo);
      AllCarriedOut(old(view), b, todo);
      HeaderHome(view, b, CLEAN, 0, 0, seqno);
      Flush();
      WriteHeader(CLEAN, 0, 0);
      Flush();
    }

    /** The home writes of a commit, and of a replay. */
    method CarryOut(todo: seq<Rec>)
      requires |dev| == |view| == b + REGION && Flushed() && forall i :: 0 <= i < |todo| ==> todo[i].off + |todo[i].data| <= b
      modifies `view, `ws
      ensures |view| == |old(view)| && view == DoAll(dev, ws) && ws == Outs(todo) && view == DoAll(old(view), Outs(todo))
    {
      hide Do;
      for i := 0 to |todo|
        invariant |view| == |dev| && dev == old(dev) && view == DoAll(dev, ws) && ws == Outs(todo)[..i]
      {
        RawWrite(todo[i].off, todo[i].data);
      }
    }

    /** `ext4_tx_abort`. */
    method Abort()
      requires Valid()
      modifies this
      ensures Valid() && Flushed() && !active && view[..b] == old(view)[..b]
      ensures S() == RedoHistory.Aborted(b, old(S()))
      ensures epochs == old(epochs) + if old(active) then [Epoch(old(dev), old(ws) + [Out(b, Header(CLEAN, 0, 0, seqno))])] else []
    {
      hide Header, LogHolds, Do;
      if active {
        HeaderHome(view, b, CLEAN, 0, 0, seqno);
        WriteHeader(CLEAN, 0, 0);
        Flush();
        active, recs, dataBytes := false, [], 0;
      }
    }

    /** `ext4_journal_replay_if_needed`, on any log; on one that this code wrote a crash at any of
        its writes is covered by `MountEpochs`. */
    method MountReplay(ghost h: Dev, ghost logged: seq<Rec>) returns (ok: bool)
      requires Valid() && !active
      modifies `view, `ws, `dev, `epochs
      ensures ok == Mount(old(view), b, seqno).Some? && (ok ==> Flushed() && view == Mount(old(view), b, seqno).value)
      ensures |view| == b + REGION && view == DoAll(dev, ws)
      ensures old(Quiet(view, b, h) || Sealed(view, b, h, logged)) ==> ok && epochs == old(epochs) + MountEpochs(old(view), b, seqno)
    {
      hide Header, LogHolds, RdLe32, DataLen, AgreeOff, Parsed, Do, ReplayLoop, Replayable;
      ghost var d := view;
      MountFound(d, b, h, logged, seqno);
      if Replayable(view, b) {
        ReplayFits(view, b);
        ok := Replay(RdLe32(view, b + 12), RdLe32(view, b + 16), h, logged);
        if !ok {
          return;
        }
        Flush();
      }
      WriteHeader(CLEAN, 0, 0);
      Flush();
      ghost var es := MountEpochs(d, b, seqno);
      assert Sealed(d, b, h, logged) ==> epochs == old(epochs) + [es[0]] + [es[1]] == old(epochs) + es;
      ok := true;
    }

    /** Its loop: records are checked, and carried out, one after the other. */
    method Replay(n: nat, total: nat, ghost h: Dev, ghost logged: seq<Rec>) returns (ok: bool)
      requires |view| == |dev| == b + REGION && Flushed() && n <= MAX_RECORDS && total <= DATA_MAX
      modifies `view, `ws
      ensures |view| == |old(view)| && view == DoAll(dev, ws)
      ensures ReplayLoop(old(view), b, 0, n, total) == if ok then Some(view) else None
      ensures ok && Wrote(old(view), b, h, logged, n) ==> ws == Outs(logged)
    {
      hide LogHolds, RdLe32, DataLen, AgreeOff, Do, Replayable, RecHolds, ReplayLoop, Outs, SameLog, Wrote;
      ghost var d := view;
      WroteAll(d, b, h, logged, n);
      var i := 0;
      while i < n
        invariant i <= n && |view| == |d| == |dev| && view == DoAll(dev, ws) && ReplayLoop(d, b, 0, n, total) == ReplayLoop(view, b, i, n, total)
        invariant Wrote(d, b, h, logged, n) ==> |ws| == i && ws == Outs(logged)[..i] && SameLog(d, view, b)
      {
        var p := RecPos(b, i);
        var off, len, at := RdLe32(view, p) + RdLe32(view, p + 4) * WORD, RdLe32(view, p + 8), RdLe32(view, p + 12);
        ReplayTurn(view, b, i, n, total, off, len, at);
        if len == 0 || at > total || at + len > total || off + len > |view| {
          return false;
        }
        var data := view[DataPos(b, at)..DataPos(b, at) + len];
        ghost var before := view;
        RawWrite(off, data);
        if Wrote(d, b, h, logged, n) {
          WroteNext(d, before, b, h, logged, i);
        }
        i := i + 1;
      }
      ReplayDone(view, b, n, total);
      WroteAll(d, b, h, logged, n);
      ok := true;
    }
  }

  /** The log is one that this code wrote, with these records. */
  ghost predicate Wrote(d: Dev, b: nat, h: Dev, logged: seq<Rec>, n: nat) {
    |d| == b + REGION && Sealed(d, b, h, logged) && n == |logged|
  }

  lemma MountFound(d: Dev, b: nat, h: Dev, logged: seq<Rec>, seqno: nat)
    requires |d| == b + REGION
    ensures Quiet(d, b, h) || Sealed(d, b, h, logged) ==> Mount(d, b, seqno).Some?
    ensures Sealed(d, b, h, logged) ==> Wrote(d, b, h, logged, RdLe32(d, b + 12)) && Outs(logged)[..|logged|] == Outs(logged)
    ensures Quiet(d, b, h) ==> !Replayable(d, b)
    ensures var clean := Out(b, Header(CLEAN, 0, 0, seqno));
            && (Quiet(d, b, h) ==> MountEpochs(d, b, seqno) == [Epoch(d, [clean])])
            && (Sealed(d, b, h, logged) ==> MountEpochs(d, b, seqno) == [Epoch(d, Outs(logged)), Epoch(DoAll(d, Outs(logged)), [clean])])
  {
    hide Header, LogHolds, RdLe32, DataLen, AgreeOff, Parsed, Mount, Replayable;
    MountDecides(d, b, h, logged, seqno);
    if Sealed(d, b, h, logged) {
      ParsedIsLogged(d, b, logged, 0);
      assert logged[0..] == logged;
    }
  }

  lemma ReplayFits(d: Dev, b: nat)
    requires |d| == b + REGION && Replayable(d, b)
    ensures RdLe32(d, b + 12) <= MAX_RECORDS && RdLe32(d, b + 16) <= DATA_MAX
  {
  }

  lemma ReplayTurn(d: Dev, b: nat, i: nat, n: nat, total: nat, off: nat, len: nat, at: nat)
    requires |d| == b + REGION && i < n <= MAX_RECORDS && total <= DATA_MAX
    requires var p := RecPos(b, i); off == RdLe32(d, p) + RdLe32(d, p + 4) * WORD && len == RdLe32(d, p + 8) && at == RdLe32(d, p + 12)
    ensures ReplayLoop(d, b, i, n, total) ==
            if len == 0 || at > total || at + len > total || off + len > |d| then None
            else ReplayLoop(Do(d, Out(off, d[DataPos(b, at)..DataPos(b, at) + len])), b, i + 1, n, total)
  {
    hide RdLe32, Do;
  }

  lemma ReplayDone(d: Dev, b: nat, n: nat, total: nat)
    requires |d| == b + REGION && n <= MAX_RECORDS && total <= DATA_MAX
    ensures ReplayLoop(d, b, n, n, total) == Some(d)
  {
  }

  lemma WroteAll(d: Dev, b: nat, h: Dev, logged: seq<Rec>, n: nat)
    ensures Wrote(d, b, h, logged, n) ==> n == |logged| && Outs(logged)[..n] == Outs(logged)
    ensures |d| == b + REGION ==> SameLog(d, d, b) && Outs(logged)[..0] == []
  {
  }

  /** Replay reads back record `i` and, carrying it out, leaves the log alone. */
  lemma WroteNext(d: Dev, now: Dev, b: nat, h: Dev, logged: seq<Rec>, i: nat)
    requires Wrote(d, b, h, logged, |logged|) && SameLog(d, now, b) && i < |logged| && i < MAX_RECORDS
    ensures var p, r := RecPos(b, i), logged[i];
            var at := RdLe32(now, p + 12);
            && RdLe32(now, p) + RdLe32(now, p + 4) * WORD == r.off && RdLe32(now, p + 8) == |r.data|
            && at + |r.data| <= DATA_MAX && now[DataPos(b, at)..DataPos(b, at) + |r.data|] == r.data
            && SameLog(d, Do(now, Out(r.off, r.data)), b)
    ensures Outs(logged)[..i + 1] == Outs(logged)[..i] + [Out(logged[i].off, logged[i].data)]
  {
    hide RdLe32, DataLen, AgreeOff, Replayable;
    SameLogHolds(d, now, b, logged);
    assert RecHolds(now, b, logged, i);
    HomeWriteKeepsLog(now, b, Out(logged[i].off, logged[i].data));
  }

  lemma NoneLeft(d: Dev)
    ensures DoAll(d, []) == d
  {
  }

  /** The stretches of a commit, from the devices its flushes leave. */
  lemma Stretches(d: Dev, ws: seq<Out>, b: nat, recs: seq<Rec>, seqno: nat, d1: Dev, d2: Dev)
    requires d1 == Do(DoAll(d, ws), Out(b, Header(COMMITTED, |recs|, DataLen(recs), seqno))) && d2 == DoAll(d1, Outs(recs))
    ensures CommitEpochs(d, ws, b, recs, seqno) ==
            [Epoch(d, ws + [Out(b, Header(COMMITTED, |recs|, DataLen(recs), seqno))]), Epoch(d1, Outs(recs)), Epoch(d2, [Out(b, Header(CLEAN, 0, 0, seqno))])]
  {
    hide Header, Do, DoAll, DataLen, Outs;
  }

  lemma EmptyLog(d: Dev, b: nat)
    requires |d| == b + REGION
    ensures LogHolds(d, b, []) && RecsOk([], b)
  {
  }

  lemma HeaderHome(d: Dev, b: nat, state: nat, n: nat, bytes: nat, seqno: nat)
    requires |d| == b + REGION
    ensures Do(d, Out(b, Header(state, n, bytes, seqno)))[..b] == d[..b]
  {
    hide Header;
  }
}
