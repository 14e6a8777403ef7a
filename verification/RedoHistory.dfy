/** Whole runs of the redo log of kernel/ext4.c: any sequence of transactions, flushes, crashes
    at any sector write and mounts, against a home area that changes only by whole
    transactions. */
module RedoHistory {
  import opened Bytes
  import opened RedoLog

  // ---- the system ----

  datatype Op = Begin | Write(off: nat, data: seq<Byte>) | Sync | Commit | Abort

  /** `Crash(op, left)`: the machine stops in `op`, or before it does anything, and `left` is what
      is on the device then. */
  datatype Move = Do(op: Op) | Crash(op: Op, left: Dev) | Boot | CrashInBoot(left: Dev)

  /** `dev` is what the last flush left and `ws` what was written since. */
  datatype Sys = Up(dev: Dev, ws: seq<Out>, active: bool, seqno: nat, recs: seq<Rec>) | Down(dev: Dev)

  function Seal(b: nat, state: nat, seqno: nat): Out { Out(b, Header(state, 0, 0, seqno)) }

  /** The writes of a logged write: its record, then its data. */
  function LogOuts(b: nat, recs: seq<Rec>, r: Rec): seq<Out> {
    [Out(RecPos(b, |recs|), RecBytes(r.off, |r.data|, DataLen(recs))), Out(DataPos(b, DataLen(recs)), r.data)]
  }

  /** A write inside a transaction that is not empty and that the log has room for. */
  predicate Logs(b: nat, s: Sys, off: nat, data: seq<Byte>)
    requires s.Up?
  {
    s.active && off + |data| <= b && data != [] && |s.recs| < MAX_RECORDS && DataLen(s.recs) + |data| <= DATA_MAX
  }

  /** The stretches between flushes that an operation goes through. */
  function OpEpochs(b: nat, s: Sys, op: Op): seq<Epoch>
    requires s.Up?
  {
    match op
    case Begin => if s.active then [] else [Epoch(s.dev, s.ws + [Seal(b, PREP, (s.seqno + 1) % WORD)])]
    case Write(off, data) => if Logs(b, s, off, data) then [Epoch(s.dev, s.ws + LogOuts(b, s.recs, Rec(off, data)))] else []
    case Sync => [Epoch(s.dev, s.ws)]
    case Commit => if s.active then CommitEpochs(s.dev, s.ws, b, s.recs, s.seqno) else []
    case Abort => if s.active then [Epoch(s.dev, s.ws + [Seal(b, CLEAN, s.seqno)])] else []
  }

  // ---- the operations carried out: every stretch ends with a flush, but for a write's ----

  function Began(b: nat, s: Sys): Sys
    requires s.Up?
  {
    var q := (s.seqno + 1) % WORD;
    if s.active then s else Up(DoAll(s.dev, s.ws + [Seal(b, PREP, q)]), [], true, q, [])
  }

  function Written(b: nat, s: Sys, off: nat, data: seq<Byte>): Sys
    requires s.Up?
  {
    var r := Rec(off, data);
    if Logs(b, s, off, data) then s.(ws := s.ws + LogOuts(b, s.recs, r), recs := s.recs + [r]) else s
  }

  function Synced(s: Sys): Sys
    requires s.Up?
  {
    s.(dev := DoAll(s.dev, s.ws), ws := [])
  }

  function Committed(b: nat, s: Sys): Sys
    requires s.Up?
  {
    var last := CommitEpochs(s.dev, s.ws, b, s.recs, s.seqno)[2];
    if s.active then Up(DoAll(last.d, last.ws), [], false, s.seqno, []) else s
  }

  function Aborted(b: nat, s: Sys): Sys
    requires s.Up?
  {
    if s.active then Up(DoAll(s.dev, s.ws + [Seal(b, CLEAN, s.seqno)]), [], false, s.seqno, []) else s
  }

  function Perform(b: nat, s: Sys, op: Op): (r: Sys)
    requires s.Up?
    ensures r.Up?
  {
    match op
    case Begin => Began(b, s)
    case Write(off, data) => Written(b, s, off, data)
    case Sync => Synced(s)
    case Commit => Committed(b, s)
    case Abort => Aborted(b, s)
  }

  ghost function Moved(b: nat, s: Sys, move: Move): Sys {
    match s
    case Up(_, _, _, _, _) =>
      (match move
       case Do(op) => Perform(b, s, op)
       case Crash(op, left) => Down(left)
       case _ => s)
    case Down(dev) =>
      if |dev| != b + REGION then s
      else
        (match move
         case Boot => (match Mount(dev, b, 0) case None => s case Some(d) => Up(d, [], false, 0, []))
         case CrashInBoot(left) => Down(left)
         case _ => s)
  }

  /** The move can happen. Everything logged is flushed before a commit. */
  ghost predicate Possible(b: nat, s: Sys, move: Move) {
    match s
    case Up(dev, ws, active, _, _) =>
      (match move
       case Do(op) => op.Commit? && active ==> ws == []
       case Crash(op, left) => (op.Commit? && active ==> ws == []) && (CanLeave(dev, ws, left) || CrashedIn(OpEpochs(b, s, op), left))
       case _ => true)
    case Down(dev) => move.CrashInBoot? && |dev| == b + REGION ==> CrashedIn(MountEpochs(dev, b, 0), move.left)
  }

  ghost predicate PossibleRun(b: nat, s: Sys, moves: seq<Move>)
    decreases |moves|
  {
    moves != [] ==> Possible(b, s, moves[0]) && PossibleRun(b, Moved(b, s, moves[0]), moves[1..])
  }

  ghost function RunAll(b: nat, s: Sys, moves: seq<Move>): Sys
    decreases |moves|
  {
    if moves == [] then s else RunAll(b, Moved(b, s, moves[0]), moves[1..])
  }

  // ---- the home area it stands for ----

  /** A commit takes effect as a whole; a crash in one decides whether it does. */
  ghost function HomeNext(b: nat, s: Sys, h: Dev, move: Move): (r: Dev)
    ensures |r| == |h|
  {
    if s.Up? && s.active && (move == Do(Commit) || (move.Crash? && move.op == Commit && Already(move.left, b, h, s.recs)))
    then ApplyRecs(h, s.recs) else h
  }

  ghost function HomeRun(b: nat, s: Sys, h: Dev, moves: seq<Move>): (r: Dev)
    ensures |r| == |h|
    decreases |moves|
  {
    if moves == [] then h else HomeRun(b, Moved(b, s, moves[0]), HomeNext(b, s, h, moves[0]), moves[1..])
  }

  // ---- the invariant ----

  ghost predicate BehindHeader(b: nat, ws: seq<Out>) { forall i :: 0 <= i < |ws| ==> b + HDR <= ws[i].off }

  ghost predicate UpOk(b: nat, s: Sys, h: Dev)
    requires s.Up?
  {
    && b < WORD * WORD && |h| == b && Quiet(s.dev, b, h) && BehindHeader(b, s.ws) && |s.dev| == b + REGION
    && if s.active then RecsOk(s.recs, b) && LogHolds(DoAll(s.dev, s.ws), b, s.recs) else s.ws == []
  }

  ghost predicate Owes(d: Dev, b: nat, h0: Dev, recs: seq<Rec>, h: Dev) {
    |h0| == b && Already(d, b, h0, recs) && h == ApplyRecs(h0, recs)
  }

  ghost predicate DownOk(b: nat, d: Dev, h: Dev) {
    b < WORD * WORD && |h| == b && |d| == b + REGION && (Quiet(d, b, h) || exists h0: Dev, recs: seq<Rec> :: Owes(d, b, h0, recs, h))
  }

  ghost predicate SysOk(b: nat, s: Sys, h: Dev) {
    match s
    case Up(_, _, _, _, _) => UpOk(b, s, h)
    case Down(d) => DownOk(b, d, h)
  }

  // ---- steps ----

  /** One thing a crash may leave is everything written. */
  lemma WholeIsLeft(d: Dev, ws: seq<Out>)
    ensures CanLeave(d, ws, DoAll(d, ws))
  {
    assert ws[..|ws|] == ws;
    forall s: nat ensures SomeVersion(d, ws, DoAll(d, ws), s) {
      assert SameSector(DoAll(d, ws), DoAll(d, ws[..|ws|]), s);
    }
  }

  lemma StaysQuiet(b: nat, d: Dev, h: Dev, ws: seq<Out>)
    requires Quiet(d, b, h) && BehindHeader(b, ws)
    ensures Quiet(DoAll(d, ws), b, h)
  {
    hide Quiet, CanLeave;
    WholeIsLeft(d, ws);
    CrashWhileLogging(d, b, h, ws, DoAll(d, ws));
  }

  lemma OneWrite(d: Dev, w: Out)
    ensures DoAll(d, [w]) == RedoLog.Do(d, w) && [] + [w] == [w]
  {
    assert [w][1..] == [];
  }

  lemma QuietSize(d: Dev, b: nat, h: Dev)
    requires Quiet(d, b, h)
    ensures DevOk(d, b) && d[..b] == h
  {
  }

  lemma BeginOk(b: nat, s: Sys, h: Dev)
    requires s.Up? && UpOk(b, s, h)
    ensures UpOk(b, Began(b, s), h)
  {
    hide Quiet, Header, LogHolds;
    if !s.active {
      var q := (s.seqno + 1) % WORD;
      OneWrite(s.dev, Seal(b, PREP, q));
      HeaderStaysQuiet(b, s.dev, h, PREP, q);
      NothingLogged(RedoLog.Do(s.dev, Seal(b, PREP, q)), b);
      assert DoAll(RedoLog.Do(s.dev, Seal(b, PREP, q)), []) == RedoLog.Do(s.dev, Seal(b, PREP, q));
    }
  }

  lemma NothingLogged(d: Dev, b: nat)
    requires |d| == b + REGION
    ensures LogHolds(d, b, []) && RecsOk([], b)
  {
  }

  lemma HeaderStaysQuiet(b: nat, d: Dev, h: Dev, state: nat, seqno: nat)
    requires Quiet(d, b, h) && state < WORD && state != COMMITTED
    ensures Quiet(RedoLog.Do(d, Seal(b, state, seqno)), b, h)
  {
    hide Quiet, Header, CanLeave;
    OneWrite(d, Seal(b, state, seqno));
    WholeIsLeft(d, [Seal(b, state, seqno)]);
    CrashAtQuietHeader(d, b, h, state, seqno, RedoLog.Do(d, Seal(b, state, seqno)));
  }

  lemma WriteOk(b: nat, s: Sys, h: Dev, off: nat, data: seq<Byte>)
    requires s.Up? && UpOk(b, s, h)
    ensures UpOk(b, Written(b, s, off, data), h)
  {
    hide Quiet, LogHolds, RecBytes, RedoLog.Do;
    if Logs(b, s, off, data) {
      var r, view := Rec(off, data), DoAll(s.dev, s.ws);
      var ws := LogOuts(b, s.recs, r);
      LogAppends(view, b, s.recs, r);
      DataLenAppend(s.recs, r);
      OneMore(s.dev, s.ws, ws[0]);
      OneMore(s.dev, s.ws + [ws[0]], ws[1]);
      assert s.ws + ws == s.ws + [ws[0]] + [ws[1]];
    }
  }

  lemma SyncOk(b: nat, s: Sys, h: Dev)
    requires s.Up? && UpOk(b, s, h)
    ensures UpOk(b, Synced(s), h)
  {
    hide Quiet, LogHolds;
    StaysQuiet(b, s.dev, h, s.ws);
    var d := DoAll(s.dev, s.ws);
    assert DoAll(d, []) == d;
  }

  lemma CommitOk(b: nat, s: Sys, h: Dev)
    requires s.Up? && UpOk(b, s, h) && s.active && s.ws == []
    ensures UpOk(b, Committed(b, s), ApplyRecs(h, s.recs))
  {
    hide Quiet, Sealed, LogHolds, Header, DataLen;
    var es := CommitEpochs(s.dev, [], b, s.recs, s.seqno);
    assert DoAll(s.dev, []) == s.dev;
    SealedAfter(s.dev, b, h, s.recs, s.seqno);
    OneWrite(es[2].d, Seal(b, CLEAN, s.seqno));
    if s.recs == [] {
      NothingToDo(es[1].d, es[1].d);
      HeaderStaysQuiet(b, es[2].d, h, CLEAN, s.seqno);
    } else {
      FlushedHome(es[1].d, b, h, s.recs);
      QuietOnceClean(es[2].d, b, s.recs, h, s.seqno);
    }
  }

  lemma QuietOnceClean(d: Dev, b: nat, recs: seq<Rec>, h: Dev, seqno: nat)
    requires Sealed(d, b, h, recs) && |h| == b && d[..b] == ApplyRecs(h, recs)
    ensures Quiet(RedoLog.Do(d, Seal(b, CLEAN, seqno)), b, ApplyRecs(h, recs))
  {
    hide Header, RdLe32, LogHolds, AgreeOff;
    HeaderWritten(d, b, CLEAN, 0, 0, seqno);
  }

  /** Abort clears the header while records and data may still be in the cache. They lie behind
      it, in the header's own sector or later ones, so the header is the old one or the new one. */
  lemma AbortLeaves(b: nat, d: Dev, h: Dev, ws: seq<Out>, seqno: nat, left: Dev)
    requires Quiet(d, b, h) && BehindHeader(b, ws) && CanLeave(d, ws + [Seal(b, CLEAN, seqno)], left)
    ensures Quiet(left, b, h)
  {
    hide Header, RdLe32, Quiet, CanLeave, RedoLog.Do;
    var w := Seal(b, CLEAN, seqno);
    QuietSize(d, b, h);
    LeftSize(d, ws + [w], left);
    var k := HeaderVersion(b, d, ws, w, left);
    if k <= |ws| {
      assert (ws + [w])[..k] == ws[..k];
      StaysQuiet(b, d, h, ws[..k]);
      SameFront(DoAll(d, ws[..k]), left, b, h);
    } else {
      assert (ws + [w])[..k] == ws + [w];
      OneMore(d, ws, w);
      StaysQuiet(b, d, h, ws);
      HeaderStaysQuiet(b, DoAll(d, ws), h, CLEAN, seqno);
      SameFront(DoAll(d, ws + [w]), left, b, h);
    }
  }

  lemma HeaderVersion(b: nat, d: Dev, ws: seq<Out>, w: Out, left: Dev) returns (k: nat)
    requires DevOk(d, b) && BehindHeader(b, ws) && w.off == b && |w.data| == HDR && CanLeave(d, ws + [w], left)
    ensures k <= |ws| + 1 && |left| == |d| && forall a :: 0 <= a < b + HDR ==> left[a] == DoAll(d, (ws + [w])[..k])[a]
  {
    hide RedoLog.Do, DoAll;
    var all := ws + [w];
    var s := b / SECTOR;
    assert SomeVersion(d, all, left, s);
    k :| 0 <= k <= |all| && SameSector(left, DoAll(d, all[..k]), s);
    forall a | 0 <= a < b ensures left[a] == DoAll(d, all[..k])[a] {
      LeftUntouched(d, all, left, a);
      Untouched(d, all[..k], a);
    }
  }

  lemma SameFront(d: Dev, left: Dev, b: nat, h: Dev)
    requires Quiet(d, b, h) && |left| == |d| && forall a :: 0 <= a < b + HDR ==> left[a] == d[a]
    ensures Quiet(left, b, h)
  {
    hide RdLe32;
    assert left[..b] == d[..b];
    ReadBefore(d, left, b, b);
    ReadBefore(d, left, b, b + 4);
    ReadBefore(d, left, b, b + 12);
    ReadBefore(d, left, b, b + 16);
  }

  lemma AbortOk(b: nat, s: Sys, h: Dev)
    requires s.Up? && UpOk(b, s, h)
    ensures UpOk(b, Aborted(b, s), h)
  {
    hide Quiet, LogHolds, Header, CanLeave;
    if s.active {
      var ws := s.ws + [Seal(b, CLEAN, s.seqno)];
      WholeIsLeft(s.dev, ws);
      AbortLeaves(b, s.dev, h, s.ws, s.seqno, DoAll(s.dev, ws));
    }
  }

  /** A crash outside commit leaves nothing to replay. */
  lemma CrashOk(b: nat, s: Sys, h: Dev, op: Op, left: Dev)
    requires s.Up? && UpOk(b, s, h) && !op.Commit? && (CanLeave(s.dev, s.ws, left) || CrashedIn(OpEpochs(b, s, op), left))
    ensures Quiet(left, b, h)
  {
    hide Quiet, LogHolds, Header, CanLeave, RecBytes, DataLen;
    if CanLeave(s.dev, s.ws, left) {
      CrashWhileLogging(s.dev, b, h, s.ws, left);
    } else {
      var es := OpEpochs(b, s, op);
      var i :| 0 <= i < |es| && CanLeave(es[i].d, es[i].ws, left);
      if op.Begin? {
        OneWrite(s.dev, Seal(b, PREP, (s.seqno + 1) % WORD));
        CrashAtQuietHeader(s.dev, b, h, PREP, (s.seqno + 1) % WORD, left);
      } else if op.Abort? {
        AbortLeaves(b, s.dev, h, s.ws, s.seqno, left);
      } else {
        CrashWhileLogging(s.dev, b, h, es[i].ws, left);
      }
    }
  }

  lemma CommitCrashOk(b: nat, s: Sys, h: Dev, left: Dev)
    requires s.Up? && UpOk(b, s, h) && Possible(b, s, Crash(Commit, left))
    ensures DownOk(b, left, HomeNext(b, s, h, Crash(Commit, left)))
  {
    hide Quiet, Sealed, LogHolds, Header, CanLeave, DataLen, CommitEpochs;
    if CanLeave(s.dev, s.ws, left) {
      CrashWhileLogging(s.dev, b, h, s.ws, left);
    } else {
      CommitIsAtomic(s.dev, b, h, s.recs, s.seqno, left);
    }
    if s.active && Already(left, b, h, s.recs) {
      AlreadySize(left, b, h, s.recs);
      assert Owes(left, b, h, s.recs, ApplyRecs(h, s.recs));
    } else {
      QuietSize(left, b, h);
    }
  }

  lemma AlreadySize(d: Dev, b: nat, h: Dev, recs: seq<Rec>)
    requires Already(d, b, h, recs)
    ensures |d| == b + REGION
  {
  }

  lemma MountEnds(b: nat, d: Dev, h: Dev)
    requires DownOk(b, d, h)
    ensures Mount(d, b, 0).Some? && Quiet(Mount(d, b, 0).value, b, h)
  {
    hide Quiet, Already, Mount;
    if Quiet(d, b, h) {
      MountDecides(d, b, h, [], 0);
    } else {
      var h0: Dev, recs: seq<Rec> :| Owes(d, b, h0, recs, h);
      MountDecides(d, b, h0, recs, 0);
    }
  }

  lemma BootCrashOk(b: nat, d: Dev, h: Dev, left: Dev)
    requires DownOk(b, d, h) && CrashedIn(MountEpochs(d, b, 0), left)
    ensures DownOk(b, left, h)
  {
    hide Quiet, Already, MountEpochs, CrashedIn;
    if Quiet(d, b, h) {
      MountIsRepeatable(d, b, h, [], 0, left);
      QuietSize(left, b, h);
    } else {
      var h0: Dev, recs: seq<Rec> :| Owes(d, b, h0, recs, h);
      MountIsRepeatable(d, b, h0, recs, 0, left);
      AlreadySize(left, b, h0, recs);
      assert Owes(left, b, h0, recs, h);
    }
  }

  lemma DoOk(b: nat, s: Sys, h: Dev, op: Op)
    requires s.Up? && UpOk(b, s, h) && Possible(b, s, Do(op))
    ensures UpOk(b, Perform(b, s, op), HomeNext(b, s, h, Do(op)))
  {
    hide UpOk, Began, Written, Synced, Aborted, Already, CommitEpochs, ApplyRecs, DoAll;
    match op
    case Begin => BeginOk(b, s, h);
    case Write(off, data) => WriteOk(b, s, h, off, data);
    case Sync => SyncOk(b, s, h);
    case Abort => AbortOk(b, s, h);
    case Commit =>
      if s.active {
        CommitOk(b, s, h);
      }
  }

  lemma StepOk(b: nat, s: Sys, h: Dev, move: Move)
    requires SysOk(b, s, h) && Possible(b, s, move)
    ensures SysOk(b, Moved(b, s, move), HomeNext(b, s, h, move))
  {
    hide Perform, Quiet, CrashedIn, CanLeave, OpEpochs, MountEpochs, Mount, Already, LogHolds;
    match s
    case Up(_, _, _, _, _) =>
      if move.Do? {
        DoOk(b, s, h, move.op);
      } else if move.Crash? {
        if move.op.Commit? {
          CommitCrashOk(b, s, h, move.left);
        } else {
          CrashOk(b, s, h, move.op, move.left);
          QuietSize(move.left, b, h);
        }
      }
    case Down(d) =>
      if move.Boot? {
        MountEnds(b, d, h);
        QuietSize(Mount(d, b, 0).value, b, h);
      } else if move.CrashInBoot? {
        BootCrashOk(b, d, h, move.left);
      }
  }

  lemma {:induction false} RunOk(b: nat, s: Sys, h: Dev, moves: seq<Move>)
    requires SysOk(b, s, h) && PossibleRun(b, s, moves)
    ensures SysOk(b, RunAll(b, s, moves), HomeRun(b, s, h, moves))
    decreases |moves|
  {
    hide SysOk, Moved, HomeNext, Possible;
    if moves != [] {
      StepOk(b, s, h, moves[0]);
      RunOk(b, Moved(b, s, moves[0]), HomeNext(b, s, h, moves[0]), moves[1..]);
    }
  }

  // ---- the same on its own terms ----

  /** What a user of the log counts on: the home area, whether a transaction is open, and what was
      written in it. It never looks at the device. */
  datatype Ledger = Ledger(home: Dev, open: bool, pending: seq<Rec>)

  function Posted(t: Ledger): Ledger { Ledger(ApplyRecs(t.home, t.pending), false, []) }

  function Dropped(t: Ledger): Ledger { Ledger(t.home, false, []) }

  function Noted(b: nat, t: Ledger, r: Rec): Ledger {
    if t.open && r.data != [] && r.off + |r.data| <= b && |t.pending| < MAX_RECORDS && DataLen(t.pending) + |r.data| <= DATA_MAX
    then t.(pending := t.pending + [r]) else t
  }

  /** A crash in a commit decides by what it leaves whether the transaction counts. */
  ghost function LedgerNext(b: nat, up: bool, t: Ledger, move: Move): Ledger {
    if !up || move.Boot? || move.CrashInBoot? then t
    else if move.Crash? then (if t.open && move.op.Commit? && Already(move.left, b, t.home, t.pending) then Posted(t) else Dropped(t))
    else
      match move.op
      case Begin => if t.open then t else Ledger(t.home, true, [])
      case Write(off, data) => Noted(b, t, Rec(off, data))
      case Sync => t
      case Commit => if t.open then Posted(t) else t
      case Abort => Dropped(t)
  }

  ghost function LedgerRun(b: nat, s: Sys, t: Ledger, moves: seq<Move>): Ledger
    decreases |moves|
  {
    if moves == [] then t else LedgerRun(b, Moved(b, s, moves[0]), LedgerNext(b, s.Up?, t, moves[0]), moves[1..])
  }

  ghost predicate Booked(s: Sys, t: Ledger) {
    if s.Up? then s.active == t.open && s.recs == t.pending && (!t.open ==> t.pending == []) else t == Dropped(t)
  }

  lemma LedgerStep(b: nat, s: Sys, t: Ledger, move: Move)
    requires Booked(s, t)
    ensures Booked(Moved(b, s, move), LedgerNext(b, s.Up?, t, move)) && LedgerNext(b, s.Up?, t, move).home == HomeNext(b, s, t.home, move)
  {
    hide Already, ApplyRecs, Mount, Perform;
    if s.Up? && move.Do? {
      LedgerOp(b, s, t, move.op);
    }
  }

  lemma LedgerOp(b: nat, s: Sys, t: Ledger, op: Op)
    requires s.Up? && Booked(s, t)
    ensures Booked(Perform(b, s, op), LedgerNext(b, true, t, Do(op))) && LedgerNext(b, true, t, Do(op)).home == HomeNext(b, s, t.home, Do(op))
  {
    hide Already, ApplyRecs, DoAll, DataLen, CommitEpochs, LogOuts, Seal;
  }

  lemma {:induction false} LedgerRunIs(b: nat, s: Sys, t: Ledger, moves: seq<Move>)
    requires Booked(s, t)
    ensures Booked(RunAll(b, s, moves), LedgerRun(b, s, t, moves)) && LedgerRun(b, s, t, moves).home == HomeRun(b, s, t.home, moves)
    decreases |moves|
  {
    hide Moved, LedgerNext, HomeNext, Booked;
    if moves != [] {
      LedgerStep(b, s, t, moves[0]);
      LedgerRunIs(b, Moved(b, s, moves[0]), LedgerNext(b, s.Up?, t, moves[0]), moves[1..]);
    }
  }

  /** The promise of the redo log over whole runs, from a device with nothing to replay: a system
      that is up reads at home exactly the transactions that committed, all of each, and one that
      is down mounts, and then holds exactly those. What is logged is what was written. */
  lemma RunsAreAtomic(b: nat, d: Dev, h: Dev, moves: seq<Move>)
    requires b < WORD * WORD && |h| == b && Quiet(d, b, h) && PossibleRun(b, Up(d, [], false, 0, []), moves)
    ensures var s, t := RunAll(b, Up(d, [], false, 0, []), moves), LedgerRun(b, Up(d, [], false, 0, []), Ledger(h, false, []), moves);
            match s
            case Up(dev, ws, active, _, recs) => |dev| == b + REGION && DoAll(dev, ws)[..b] == t.home && active == t.open && recs == t.pending
            case Down(dev) => |dev| == b + REGION && Mount(dev, b, 0).Some? && Mount(dev, b, 0).value[..b] == t.home
  {
    hide Quiet, Mount, PossibleRun, RunAll, HomeRun, LedgerRun, LogHolds, Already;
    var s0 := Up(d, [], false, 0, []);
    QuietSize(d, b, h);
    RunOk(b, s0, h, moves);
    LedgerRunIs(b, s0, Ledger(h, false, []), moves);
    var s, h' := RunAll(b, s0, moves), HomeRun(b, s0, h, moves);
    match s
    case Up(dev, ws, _, _, _) =>
      StaysQuiet(b, dev, h', ws);
      QuietSize(DoAll(dev, ws), b, h');
    case Down(dev) =>
      MountEnds(b, dev, h');
      QuietSize(Mount(dev, b, 0).value, b, h');
  }
}
