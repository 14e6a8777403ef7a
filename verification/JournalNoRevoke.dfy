/** Journals without the revoke feature: mount accepts them, commit writes revoke blocks to them
    all the same, and the next replay refuses the block it finds (kernel/ext4.c). */
module JournalNoRevoke {
  import opened Bytes
  import opened JournalRing
  import opened JournalFormat
  import opened JournalScan
  import opened JournalChain
  import opened JournalCrash
  import opened JournalRecovery
  import opened JournalState
  import opened JournalRun
  import opened JournalCommit
  import opened JournalStale
  import opened JournalHistory
  import opened JournalLoop

  /** In every state that a history can reach: after a commit, and a crash once it is complete,
      the mount succeeds if and only if the journal has the revoke feature or the transaction
      revokes nothing. */
  lemma CommitMountIff(g: Geometry, disk: Disk, m: Mem, d: seq<Tx>, durable: map<nat, Block>, stale: nat)
    requires UpOk(g, disk, m, d, durable, stale) && Going(g, disk, m, d, stale)
    ensures var s := Moved(g, Moved(g, Up(disk, m), Do(TxCommit)), CrashIn(TxAbort, 0));
            s.Down? && (Moved(g, s, Boot).Up? <==> g.hasRevoke || m.revokes == [])
  {
    hide Inv, WriteAll, Mount, Commit, OpenOk, StaleWithin, TxLen, Admitted, Agrees, TxOk, FreshFor, AllReadable;
    var o, t := Commit(g, m, disk.log), Tx(m.dirty, m.revokes);
    InvOpen(g, disk, m, d);
    GoingSafe(g, disk, m, d, stale, |o.ws|);
    assert o.ws[..|o.ws|] == o.ws;
    var disk' := WriteAll(disk, o.ws);
    InvOpen(g, disk', o.m, d + [t]);
    WriteNothing(disk');
    InvMountIff(g, disk', o.m, d + [t]);
    ReadableLast(g, d, t);
  }

  lemma ReadableLast(g: Geometry, d: seq<Tx>, t: Tx)
    requires AllReadable(g, d)
    ensures AllReadable(g, d + [t]) <==> Readable(g, t)
  {
    hide Readable;
    assert (d + [t])[|d|] == t;
  }

  // ---- the shortest such history ----

  function Revoking(q: nat, head: nat, fs: nat): Mem {
    Fresh(q, head).(active := true, revokes := [fs])
  }

  lemma RevokeMoves(g: Geometry, disk: Disk, q: nat, head: nat, fs: nat)
    requires Inv(g, disk, Fresh(q, head), []) && g.Ring() > 1 && fs < g.blocks
    ensures Moved(g, Moved(g, Up(disk, Fresh(q, head)), Do(TxStart)), Do(TxRevoke(fs))) == Up(disk, Revoking(q, head, fs))
    ensures Inv(g, disk, Revoking(q, head, fs), []) && Admitted(g, Revoking(q, head, fs))
  {
    hide Inv, MinFree;
    InvOpen(g, disk, Fresh(q, head), []);
    WriteNothing(disk);
    assert [] + [fs] == [fs];
    InvSameLog(g, disk, Fresh(q, head), Revoking(q, head, fs), []);
  }

  /** One revoke block and a commit block. */
  lemma OneRevokeTotal(g: Geometry)
    requires g.Valid()
    ensures TotalBlocks(g, 0, 1) == 2
  {
    hide TagsPerDesc, RevokesPerBlock;
    var n, k := TagsPerDesc(g), RevokesPerBlock(g);
    assert (0 + n - 1) / n == 0 && (1 + k - 1) / k == 1;
  }

  lemma RevokeGoes(g: Geometry, disk: Disk, q: nat, head: nat, fs: nat)
    requires Inv(g, disk, Revoking(q, head, fs), []) && g.Ring() > 2 && fs < g.blocks && q + 2 < WORD
    requires g.Valid() && g.In(head) && LogOk(g, disk.log) && StaleWithin(g, disk.log, q, head, 0)
    ensures Going(g, disk, Revoking(q, head, fs), [], 0)
  {
    hide Inv, OpenOk, TotalBlocks, ReserveRing, BodyWrites, Body, Settle, StoreSuper, StaleWithin, Emit;
    InvParts(g, disk, Revoking(q, head, fs), []);
    OneRevokeTotal(g);
    BodyFills(g, q, [], [fs]);
    ReserveIsExact(g, head, head, 0, 0, 2);
  }

  /** From a freshly made journal without the feature: one revoke, one commit, one crash, and no
      mount succeeds any more. */
  lemma RevokeBlocksMount(g: Geometry, disk: Disk, q: nat, head: nat, fs: nat)
    requires DiskOk(g, disk) && q + 2 < WORD && g.In(head) && SuperSays(disk.log, q, 0, head) && SeqBelow(g, disk.log, q)
    requires !g.hasRevoke && g.Ring() > 2 && fs < g.blocks
    ensures var steps := [Do(TxStart), Do(TxRevoke(fs)), Do(TxCommit), CrashIn(TxAbort, 0)];
            var s := RunAll(g, Up(disk, Fresh(q, head)), steps);
            s.Down? && Moved(g, s, Boot) == s
  {
    hide Inv, Moved, RunAll, SeqBelow, StaleWithin, Admitted, UpOk, Going, SuperSays;
    var s0, m := Up(disk, Fresh(q, head)), Revoking(q, head, fs);
    SeqBelowMore(g, disk.log, q);
    FreshInv(g, disk, q, head);
    RevokeMoves(g, disk, q, head, fs);
    BelowNoStale(g, disk.log, q, head, 0);
    RevokeGoes(g, disk, q, head, fs);
    FreshUp(g, disk, q, head, fs);
    CommitMountIff(g, disk, m, [], map[], 0);
    BootStays(g, Moved(g, Moved(g, Up(disk, m), Do(TxCommit)), CrashIn(TxAbort, 0)));
    RunFour(g, s0, Do(TxStart), Do(TxRevoke(fs)), Do(TxCommit), CrashIn(TxAbort, 0));
  }

  lemma FreshUp(g: Geometry, disk: Disk, q: nat, head: nat, fs: nat)
    requires Inv(g, disk, Revoking(q, head, fs), []) && StaleWithin(g, disk.log, q, head, 0) && Admitted(g, Revoking(q, head, fs))
    ensures UpOk(g, disk, Revoking(q, head, fs), [], map[], 0)
  {
    hide Inv, StaleWithin, Admitted;
  }

  lemma BootStays(g: Geometry, s: Sys)
    requires s.Down? && !Moved(g, s, Boot).Up?
    ensures Moved(g, s, Boot) == s
  {
    hide Mount, WriteAll, DiskOk;
  }

  lemma RunFour(g: Geometry, s: Sys, a: Move, b: Move, c: Move, e: Move)
    ensures RunAll(g, s, [a, b, c, e]) == Moved(g, Moved(g, Moved(g, Moved(g, s, a), b), c), e)
  {
    hide Moved, RunAll;
    assert [a, b, c, e] == [a] + [b, c, e] && [b, c, e] == [b] + [c, e] && [c, e] == [c] + [e];
    RunHead(g, s, a, [b, c, e]);
    RunHead(g, Moved(g, s, a), b, [c, e]);
    RunHead(g, Moved(g, Moved(g, s, a), b), c, [e]);
    RunOne(g, Moved(g, Moved(g, Moved(g, s, a), b), c), e);
  }
}
