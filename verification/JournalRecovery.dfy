/** What replay does to the file system blocks, compared with checkpointing the committed
    transactions in order (kernel/ext4.c). */
module JournalRecovery {
  import opened Bytes
  import opened JournalRing
  import opened JournalFormat
  import opened JournalScan
  import opened JournalChain

  /** The file system's own blocks. */
  type Home = seq<Block>

  ghost predicate HomeOk(g: Geometry, home: Home) {
    |home| == g.blocks && forall b :: 0 <= b < |home| ==> |home[b]| == g.bs
  }

  function Store(home: Home, fs: nat, data: Block): (r: Home)
    ensures |r| == |home|
  {
    if fs < |home| then home[fs := data] else home
  }

  /** Every entry names a block of the log. */
  predicate InLog(log: Log, ups: seq<Update>) {
    forall i :: 0 <= i < |ups| ==> ups[i].jblock < |log| && |log[ups[i].jblock]| >= 4
  }

  /** `ext4_jbd2_apply_updates`: updates in order, those hit by a revoke left out. */
  function ApplyUpdates(home: Home, log: Log, ups: seq<Update>, revs: seq<Revoked>): (r: Home)
    requires InLog(log, ups)
    ensures |r| == |home|
    decreases |ups|
  {
    if ups == [] then home
    else
      var u := ups[0];
      ApplyUpdates(if Hits(revs, u.fs, u.seqno) then home else Store(home, u.fs, Unescaped(log[u.jblock], u.escape)),
                   log, ups[1..], revs)
  }

  /** The inner loop of `ext4_jbd2_checkpoint_some`: all images of one transaction. */
  function Checkpoint(home: Home, imgs: seq<Image>): (r: Home)
    ensures |r| == |home|
    decreases |imgs|
  {
    if imgs == [] then home else Checkpoint(Store(home, imgs[0].fs, imgs[0].data), imgs[1..])
  }

  function CheckpointAll(home: Home, d: seq<Tx>): (r: Home)
    ensures |r| == |home|
    decreases |d|
  {
    if d == [] then home else CheckpointAll(Checkpoint(home, d[0].dirty), d[1..])
  }

  // ---- one block at a time ----

  /** The last image of block `b` among `imgs`. */
  function LastImage(imgs: seq<Image>, b: nat): Option<Block>
    decreases |imgs|
  {
    if imgs == [] then None
    else if LastImage(imgs[1..], b).Some? then LastImage(imgs[1..], b)
    else if imgs[0].fs == b then Some(imgs[0].data)
    else None
  }

  function Or(o: Option<Block>, x: Block): Block { if o.Some? then o.value else x }

  lemma {:induction false} CheckpointAt(home: Home, imgs: seq<Image>, b: nat)
    requires b < |home|
    ensures Checkpoint(home, imgs)[b] == Or(LastImage(imgs, b), home[b])
    decreases |imgs|
  {
    if imgs != [] {
      CheckpointAt(Store(home, imgs[0].fs, imgs[0].data), imgs[1..], b);
    }
  }

  /** The replay entries stand for these images, all under one sequence number. */
  ghost predicate Stands(log: Log, ups: seq<Update>, imgs: seq<Image>, q: nat) {
    |ups| == |imgs| && forall i :: 0 <= i < |ups| ==>
      ups[i].fs == imgs[i].fs && ups[i].seqno == q && ups[i].jblock < |log| && |log[ups[i].jblock]| >= 4 &&
      Unescaped(log[ups[i].jblock], ups[i].escape) == imgs[i].data
  }

  lemma {:induction false} ApplyTxAt(home: Home, log: Log, ups: seq<Update>, imgs: seq<Image>, q: nat, revs: seq<Revoked>, b: nat)
    requires b < |home| && Stands(log, ups, imgs, q)
    ensures ApplyUpdates(home, log, ups, revs)[b] == if Hits(revs, b, q) then home[b] else Or(LastImage(imgs, b), home[b])
    decreases |ups|
  {
    hide Hits, Unescaped;
    if ups != [] {
      var u := ups[0];
      var home' := if Hits(revs, u.fs, u.seqno) then home else Store(home, u.fs, Unescaped(log[u.jblock], u.escape));
      ApplyTxAt(home', log, ups[1..], imgs[1..], q, revs, b);
    }
  }

  lemma {:induction false} ApplyAppend(home: Home, log: Log, a: seq<Update>, b: seq<Update>, revs: seq<Revoked>)
    requires InLog(log, a) && InLog(log, b)
    ensures ApplyUpdates(home, log, a + b, revs) == ApplyUpdates(ApplyUpdates(home, log, a, revs), log, b, revs)
    decreases |a|
  {
    hide Hits, Unescaped;
    if a == [] {
      assert a + b == b;
    } else {
      var u := a[0];
      assert (a + b)[1..] == a[1..] + b;
      var home' := if Hits(revs, u.fs, u.seqno) then home else Store(home, u.fs, Unescaped(log[u.jblock], u.escape));
      ApplyAppend(home', log, a[1..], b, revs);
    }
  }

  /** What the scan collected for a transaction are its images, byte for byte. */
  lemma {:induction false} TxUpdatesStand(g: Geometry, log: Log, q: nat, pos: nat, dirty: seq<Image>)
    requires g.Valid() && LogOk(g, log) && g.In(pos) && Images(g, dirty) && |EmitDescs(g, q, dirty)| < g.Ring()
    requires Holds(g, log, pos, EmitDescs(g, q, dirty))
    ensures Stands(log, TxUpdates(g, q, pos, dirty), dirty, q)
    decreases |dirty|
  {
    hide DescBlock, TagsPerDesc, Holds, Stands, UpdatesOf, DataBlocks;
    if dirty == [] {
      assert Stands(log, [], [], q) by { StandsNil(log, q); }
    } else {
      var c := Chunk(|dirty|, TagsPerDesc(g));
      GroupHolds(g, log, q, pos, dirty, c);
      hide EmitDescs;
      GroupStands(g, log, q, g.At(pos, 1), dirty[..c]);
      TxUpdatesStand(g, log, q, g.At(pos, c + 1), dirty[c..]);
      StandsJoin(log, UpdatesOf(g, dirty[..c], g.At(pos, 1), q), TxUpdates(g, q, g.At(pos, c + 1), dirty[c..]), dirty[..c], dirty[c..], q);
      assert dirty[..c] + dirty[c..] == dirty;
    }
  }

  /** The first group of the log, and what follows it. */
  lemma GroupHolds(g: Geometry, log: Log, q: nat, pos: nat, dirty: seq<Image>, c: nat)
    requires g.Valid() && LogOk(g, log) && g.In(pos) && Images(g, dirty) && |EmitDescs(g, q, dirty)| < g.Ring()
    requires Holds(g, log, pos, EmitDescs(g, q, dirty)) && dirty != [] && c == Chunk(|dirty|, TagsPerDesc(g))
    ensures 0 < c <= |dirty| && Images(g, dirty[..c]) && Images(g, dirty[c..]) && c < g.Ring() && |EmitDescs(g, q, dirty[c..])| < g.Ring()
    ensures Holds(g, log, g.At(pos, 1), DataBlocks(dirty[..c])) && Holds(g, log, g.At(pos, c + 1), EmitDescs(g, q, dirty[c..]))
  {
    hide DescBlock, TagsPerDesc, Holds, DataBlocks;
    var d, ds, rest := [DescBlock(g, q, dirty[..c])], DataBlocks(dirty[..c]), EmitDescs(g, q, dirty[c..]);
    HoldsSplit(g, log, pos, d + ds, rest);
    HoldsSplit(g, log, pos, d, ds);
    assert g.At(pos, |d + ds|) == g.At(pos, c + 1);
  }

  lemma StandsNil(log: Log, q: nat)
    ensures Stands(log, [], [], q)
  {
  }

  lemma StandsJoin(log: Log, a: seq<Update>, b: seq<Update>, x: seq<Image>, y: seq<Image>, q: nat)
    requires Stands(log, a, x, q) && Stands(log, b, y, q)
    ensures Stands(log, a + b, x + y, q)
  {
  }

  lemma GroupStands(g: Geometry, log: Log, q: nat, pos: nat, imgs: seq<Image>)
    requires g.Valid() && g.In(pos) && Images(g, imgs) && |imgs| <= g.Ring() && Holds(g, log, pos, DataBlocks(imgs))
    ensures Stands(log, UpdatesOf(g, imgs, pos, q), imgs, q)
  {
    hide Escapes, Escaped, Unescaped;
    forall i | 0 <= i < |imgs|
      ensures Unescaped(log[g.At(pos, i)], Escapes(imgs[i].data)) == imgs[i].data
    {
      assert log[g.At(pos, i)] == DataBlocks(imgs)[i] == Escaped(imgs[i].data);
      EscapeRoundTrip(imgs[i].data, q);
    }
  }

  // ---- the whole chain, one block at a time ----

  /** What replay leaves in block `b` that held `x`, with `revs` as the revoke table. */
  function Replayed(d: seq<Tx>, q: nat, revs: seq<Revoked>, b: nat, x: Block): Block
    decreases |d|
  {
    if d == [] then x
    else Replayed(d[1..], (q + 1) % WORD, revs, b, if Hits(revs, b, q) then x else Or(LastImage(d[0].dirty, b), x))
  }

  /** What checkpointing the same transactions in order leaves there. */
  function Checkpointed(d: seq<Tx>, b: nat, x: Block): Block
    decreases |d|
  {
    if d == [] then x else Checkpointed(d[1..], b, Or(LastImage(d[0].dirty, b), x))
  }

  lemma {:induction false} CheckpointAllAt(home: Home, d: seq<Tx>, b: nat)
    requires b < |home|
    ensures CheckpointAll(home, d)[b] == Checkpointed(d, b, home[b])
    decreases |d|
  {
    if d != [] {
      CheckpointAt(home, d[0].dirty, b);
      CheckpointAllAt(Checkpoint(home, d[0].dirty), d[1..], b);
    }
  }

  /** Applying what the scan found in an intact log is `Replayed`, block by block. */
  lemma {:induction false} ApplyChainAt(g: Geometry, home: Home, log: Log, q: nat, pos: nat, d: seq<Tx>, revs: seq<Revoked>, b: nat)
    requires g.Valid() && LogOk(g, log) && ChainOk(g, d) && g.In(pos) && |Chain(g, q, d)| < g.Ring()
    requires Holds(g, log, pos, Chain(g, q, d)) && b < |home|
    ensures InLog(log, ChainUpdates(g, q, pos, d))
    ensures ApplyUpdates(home, log, ChainUpdates(g, q, pos, d), revs)[b] == Replayed(d, q, revs, b, home[b])
    decreases |d|
  {
    hide LogOk, ChainOk, Holds, Chain, ChainUpdates, Emit, EmitDescs, TxUpdates, Hits, LastImage, TxOk, Stands, ApplyUpdates, InLog;
    if d == [] {
      ChainNil(g, q, pos, revs);
      ApplyNothing(home, log, revs);
    } else {
      ChainCons(g, q, pos, d, revs);
      var t, q1, n := d[0], (q + 1) % WORD, |Emit(g, q, d[0])|;
      HoldsSplit(g, log, pos, Emit(g, q, t), Chain(g, q1, d[1..]));
      EmitStarts(g, log, q, pos, t);
      TxUpdatesStand(g, log, q, pos, t.dirty);
      var ups, rest := TxUpdates(g, q, pos, t.dirty), ChainUpdates(g, q1, g.At(pos, n), d[1..]);
      StandsInLog(log, ups, t.dirty, q);
      ApplyTxAt(home, log, ups, t.dirty, q, revs, b);
      ApplyChainAt(g, ApplyUpdates(home, log, ups, revs), log, q1, g.At(pos, n), d[1..], revs, b);
      InLogJoin(log, ups, rest);
      ApplyAppend(home, log, ups, rest, revs);
    }
  }

  lemma ApplyNothing(home: Home, log: Log, revs: seq<Revoked>)
    ensures InLog(log, []) && ApplyUpdates(home, log, [], revs) == home
  {
  }

  lemma StandsInLog(log: Log, ups: seq<Update>, imgs: seq<Image>, q: nat)
    requires Stands(log, ups, imgs, q)
    ensures InLog(log, ups)
  {
  }

  lemma InLogJoin(log: Log, a: seq<Update>, b: seq<Update>)
    requires InLog(log, a) && InLog(log, b)
    ensures InLog(log, a + b)
  {
  }

  lemma EmitStarts(g: Geometry, log: Log, q: nat, pos: nat, t: Tx)
    requires g.Valid() && Images(g, t.dirty) && Holds(g, log, pos, Emit(g, q, t))
    ensures Holds(g, log, pos, EmitDescs(g, q, t.dirty))
  {
    hide EmitDescs, EmitRevokes, CommitBlock, Holds;
    var a, b := EmitDescs(g, q, t.dirty), EmitRevokes(g, q, t.revokes) + [CommitBlock(g, q)];
    assert Emit(g, q, t) == a + b;
    HoldsSplit(g, log, pos, a, b);
  }

  // ---- replay against in-order checkpointing ----

  datatype Event = Untouched | Logged | RevokedAway

  /** The last thing the transactions `d` say about block `b`. */
  function LastEvent(d: seq<Tx>, b: nat): Event
    decreases |d|
  {
    if d == [] then Untouched
    else if LastEvent(d[1..], b) != Untouched then LastEvent(d[1..], b)
    else if LastImage(d[0].dirty, b).Some? then Logged
    else if b in d[0].revokes then RevokedAway
    else Untouched
  }

  /** Some transaction of `d`, numbered from `q`, revokes `b` with a number not below `n`. */
  ghost predicate RevokedIn(d: seq<Tx>, q: nat, b: nat, n: nat)
    decreases |d|
  {
    d != [] && (RevokedBy(d[0].revokes, q, b, n) || RevokedIn(d[1..], (q + 1) % WORD, b, n))
  }

  /** The revoke table the scan builds, in terms of the transactions. */
  lemma {:induction false} ChainRevokesHits(g: Geometry, revs: seq<Revoked>, q: nat, d: seq<Tx>, b: nat, n: nat)
    requires ChainOk(g, d) && |revs| + |d| * TX_MAX_REVOKES <= MAX_REVOKES
    ensures Hits(ChainRevokes(g, revs, q, d), b, n) <==> Hits(revs, b, n) || RevokedIn(d, q, b, n)
    decreases |d|
  {
    hide Hits, AddRevokes, RevokedBy;
    if d != [] {
      AddRevokesHits(g, revs, d[0].revokes, q);
      ChainRevokesHits(g, Merge(g, revs, q, d[0]), (q + 1) % WORD, d[1..], b, n);
    }
  }

  lemma {:induction false} EventRevokes(g: Geometry, d: seq<Tx>, q: nat, b: nat, n: nat)
    requires ChainOk(g, d) && n <= q && q + |d| <= WORD
    ensures LastEvent(d, b) == RevokedAway ==> RevokedIn(d, q, b, n)
    ensures LastEvent(d, b) == Untouched ==> !RevokedIn(d, q, b, n)
    decreases |d|
  {
    hide LastImage;
    if d != [] {
      if |d| > 1 {
        EventRevokes(g, d[1..], q + 1, b, n);
      } else {
        assert d[1..] == [] && LastEvent(d[1..], b) == Untouched;
      }
    }
  }

  lemma {:induction false} LastImageIn(imgs: seq<Image>, b: nat)
    ensures LastImage(imgs, b).Some? ==> exists i :: 0 <= i < |imgs| && imgs[i].fs == b && imgs[i].data == LastImage(imgs, b).value
    ensures LastImage(imgs, b).None? ==> forall i :: 0 <= i < |imgs| ==> imgs[i].fs != b
    decreases |imgs|
  {
    if imgs != [] {
      LastImageIn(imgs[1..], b);
      if LastImage(imgs[1..], b).Some? {
        var i :| 0 <= i < |imgs[1..]| && imgs[1..][i].fs == b && imgs[1..][i].data == LastImage(imgs[1..], b).value;
        assert imgs[i + 1].fs == b;
      }
    }
  }

  /** A transaction never both logs and revokes a block. */
  lemma LoggedNotRevoked(g: Geometry, t: Tx, b: nat)
    requires TxOk(g, t) && LastImage(t.dirty, b).Some?
    ensures b !in t.revokes
  {
    LastImageIn(t.dirty, b);
  }

  /** Block by block: replay keeps what was there when the last word on the block is a
      revoke, and otherwise agrees with checkpointing, whatever the block held before. */
  lemma {:induction false} ReplayedIsCheckpointed(g: Geometry, d: seq<Tx>, q: nat, revs: seq<Revoked>, b: nat, x: Block, y: Block)
    requires ChainOk(g, d) && q + |d| <= WORD
    requires forall n :: q <= n ==> (Hits(revs, b, n) <==> RevokedIn(d, q, b, n))
    ensures LastEvent(d, b) == RevokedAway ==> Replayed(d, q, revs, b, x) == x
    ensures LastEvent(d, b) == Untouched ==> Replayed(d, q, revs, b, x) == x && Checkpointed(d, b, x) == x
    ensures LastEvent(d, b) == Logged ==> Replayed(d, q, revs, b, x) == Checkpointed(d, b, y)
    decreases |d|
  {
    hide Hits, LastImage;
    if d != [] {
      var img := LastImage(d[0].dirty, b);
      var x', y' := if Hits(revs, b, q) then x else Or(img, x), Or(img, y);
      EventRevokes(g, d, q, b, q);
      if img.Some? {
        LoggedNotRevoked(g, d[0], b);
      }
      if |d| > 1 {
        EventRevokes(g, d[1..], q + 1, b, q);
        ReplayedIsCheckpointed(g, d[1..], q + 1, revs, b, x', y');
        ReplayedIsCheckpointed(g, d[1..], q + 1, revs, b, x, Or(img, x));
      } else {
        assert d[1..] == [] && LastEvent(d[1..], b) == Untouched;
      }
    }
  }

  /** Recovery: applying what replay found, to any home area that still agrees with `home`
      on the blocks the log does not write, gives on every block exactly what checkpointing
      the committed transactions in order would give, except on blocks whose last mention
      is a revoke; those keep what the home area held. */
  lemma RecoveryIsCheckpoint(g: Geometry, home: Home, now: Home, log: Log, q: nat, pos: nat, d: seq<Tx>, b: nat)
    requires g.Valid() && LogOk(g, log) && ChainOk(g, d) && g.In(pos) && |Chain(g, q, d)| < g.Ring() && |d| <= 16
    requires Holds(g, log, pos, Chain(g, q, d)) && q + |d| <= WORD
    requires |home| == |now| && b < |home| && (LastEvent(d, b) == Untouched ==> now[b] == home[b])
    ensures InLog(log, ChainUpdates(g, q, pos, d))
    ensures ApplyUpdates(now, log, ChainUpdates(g, q, pos, d), ChainRevokes(g, [], q, d))[b]
            == if LastEvent(d, b) == RevokedAway then now[b] else CheckpointAll(home, d)[b]
  {
    hide LogOk, ChainOk, Holds, Chain, ChainUpdates, ChainRevokes, Hits, ApplyUpdates, InLog, LastEvent, Replayed, Checkpointed;
    var revs := ChainRevokes(g, [], q, d);
    ApplyChainAt(g, now, log, q, pos, d, revs, b);
    forall n | q <= n ensures Hits(revs, b, n) <==> RevokedIn(d, q, b, n) {
      ChainRevokesHits(g, [], q, d, b, n);
      NothingHits(b, n);
    }
    CheckpointAllAt(home, d, b);
    ReplayedIsCheckpointed(g, d, q, revs, b, now[b], home[b]);
  }

  lemma NothingHits(b: nat, n: nat)
    ensures !Hits([], b, n)
  {
  }

  // ---- a crash while replay itself is writing ----

  /** The last image that replay stores in `b`. */
  function LastApplied(log: Log, ups: seq<Update>, revs: seq<Revoked>, b: nat): Option<Block>
    requires InLog(log, ups)
    decreases |ups|
  {
    if ups == [] then None
    else
      var later := LastApplied(log, ups[1..], revs, b);
      if later.Some? then later
      else if ups[0].fs == b && !Hits(revs, b, ups[0].seqno) then Some(Unescaped(log[ups[0].jblock], ups[0].escape))
      else None
  }

  lemma {:induction false} ApplyAt(home: Home, log: Log, ups: seq<Update>, revs: seq<Revoked>, b: nat)
    requires InLog(log, ups) && b < |home|
    ensures ApplyUpdates(home, log, ups, revs)[b] == Or(LastApplied(log, ups, revs, b), home[b])
    decreases |ups|
  {
    hide Hits, Unescaped;
    if ups != [] {
      var u := ups[0];
      ApplyAt(if Hits(revs, u.fs, u.seqno) then home else Store(home, u.fs, Unescaped(log[u.jblock], u.escape)), log, ups[1..], revs, b);
    }
  }

  lemma {:induction false} LastAppliedPrefix(log: Log, ups: seq<Update>, revs: seq<Revoked>, b: nat, k: nat)
    requires InLog(log, ups) && k <= |ups| && LastApplied(log, ups, revs, b).None?
    ensures LastApplied(log, ups[..k], revs, b).None?
    decreases k
  {
    hide Hits, Unescaped;
    if k > 0 {
      LastAppliedPrefix(log, ups[1..], revs, b, k - 1);
      assert ups[..k][1..] == ups[1..][..k - 1];
    }
  }

  /** Replay after a crash in the middle of replay ends where an undisturbed replay ends. */
  lemma ReplayAfterPartialReplay(home: Home, log: Log, ups: seq<Update>, revs: seq<Revoked>, k: nat)
    requires InLog(log, ups) && k <= |ups|
    ensures ApplyUpdates(ApplyUpdates(home, log, ups[..k], revs), log, ups, revs) == ApplyUpdates(home, log, ups, revs)
  {
    hide Hits, Unescaped, ApplyUpdates, LastApplied;
    var part := ApplyUpdates(home, log, ups[..k], revs);
    forall b | 0 <= b < |home| ensures ApplyUpdates(part, log, ups, revs)[b] == ApplyUpdates(home, log, ups, revs)[b] {
      ApplyAt(part, log, ups, revs, b);
      ApplyAt(home, log, ups, revs, b);
      ApplyAt(home, log, ups[..k], revs, b);
      if LastApplied(log, ups, revs, b).None? {
        LastAppliedPrefix(log, ups, revs, b, k);
      }
    }
  }

  // ---- the sequence number wraps ----

  /** Replay of `d` agrees with checkpointing wherever the last word is not a revoke. */
  ghost predicate RecoversAll(g: Geometry, q: nat, d: seq<Tx>)
    requires ChainOk(g, d)
  {
    forall b: nat, x: Block :: |x| == g.bs && LastEvent(d, b) != RevokedAway
      ==> Replayed(d, q, ChainRevokes(g, [], q, d), b, x) == Checkpointed(d, b, x)
  }

  /** Fillers that log block 1, then a revoke of block 0, a new image of it, and fillers. */
  function Bad(g: Geometry, w: nat, m: nat): (d: seq<Tx>)
    requires g.Valid() && g.blocks >= 2
    ensures |d| == w + m + 2 && ChainOk(g, d)
    decreases w
  {
    if w > 0 then [Tx([Image(1, Zeros(g.bs))], [])] + Bad(g, w - 1, m)
    else [Tx([], [0]), Tx([Image(0, Zeros(g.bs))], [])] + Fill(g, m)
  }

  function Fill(g: Geometry, m: nat): (d: seq<Tx>)
    requires g.Valid() && g.blocks >= 2
    ensures |d| == m && ChainOk(g, d)
    decreases m
  {
    if m == 0 then [] else [Tx([Image(1, Zeros(g.bs))], [])] + Fill(g, m - 1)
  }

  lemma LastImageOne(img: Image, b: nat)
    ensures LastImage([img], b) == if b == img.fs then Some(img.data) else None
  {
    assert [img][1..] == [];
  }

  /** A transaction in front of a chain, as far as block `b` is concerned. */
  lemma InFront(t: Tx, d: seq<Tx>, q: nat, revs: seq<Revoked>, b: nat, x: Block)
    ensures LastEvent([t] + d, b) == if LastEvent(d, b) != Untouched then LastEvent(d, b)
                                     else if LastImage(t.dirty, b).Some? then Logged else if b in t.revokes then RevokedAway else Untouched
    ensures Replayed([t] + d, q, revs, b, x) == Replayed(d, (q + 1) % WORD, revs, b, if Hits(revs, b, q) then x else Or(LastImage(t.dirty, b), x))
    ensures Checkpointed([t] + d, b, x) == Checkpointed(d, b, Or(LastImage(t.dirty, b), x))
    ensures forall n :: RevokedIn([t] + d, q, b, n) <==> RevokedBy(t.revokes, q, b, n) || RevokedIn(d, (q + 1) % WORD, b, n)
  {
    hide Hits, LastImage, RevokedBy;
    assert ([t] + d)[1..] == d;
  }

  lemma {:induction false} FillIsSilent(g: Geometry, m: nat, q: nat, revs: seq<Revoked>, x: Block)
    requires g.Valid() && g.blocks >= 2
    ensures LastEvent(Fill(g, m), 0) == Untouched && Replayed(Fill(g, m), q, revs, 0, x) == x && Checkpointed(Fill(g, m), 0, x) == x
    decreases m
  {
    hide Hits, LastImage;
    if m > 0 {
      var t := Tx([Image(1, Zeros(g.bs))], []);
      LastImageOne(t.dirty[0], 0);
      InFront(t, Fill(g, m - 1), q, revs, 0, x);
      FillIsSilent(g, m - 1, (q + 1) % WORD, revs, x);
    }
  }

  lemma {:induction false} BadLosesUpdate(g: Geometry, w: nat, m: nat, q: nat, revs: seq<Revoked>, x: Block)
    requires g.Valid() && g.blocks >= 2 && q + w == WORD - 1 && Hits(revs, 0, 0)
    ensures LastEvent(Bad(g, w, m), 0) == Logged && Checkpointed(Bad(g, w, m), 0, x) == Zeros(g.bs)
    ensures Replayed(Bad(g, w, m), q, revs, 0, x) == x && RevokedIn(Bad(g, w, m), q, 0, 0)
    decreases w
  {
    hide Hits, LastImage, LastEvent, Replayed, Checkpointed, RevokedIn;
    var z := Zeros(g.bs);
    if w > 0 {
      var t := Tx([Image(1, z)], []);
      LastImageOne(t.dirty[0], 0);
      InFront(t, Bad(g, w - 1, m), q, revs, 0, x);
      BadLosesUpdate(g, w - 1, m, q + 1, revs, x);
    } else {
      var t, u, fill := Tx([], [0]), Tx([Image(0, z)], []), Fill(g, m);
      assert Bad(g, 0, m) == [t] + ([u] + fill);
      LastImageOne(u.dirty[0], 0);
      NoImage(0);
      InFront(t, [u] + fill, q, revs, 0, x);
      InFront(u, fill, 0, revs, 0, x);
      FillIsSilent(g, m, 1, revs, x);
      FillIsSilent(g, m, 1, revs, z);
    }
  }

  lemma NoImage(b: nat)
    ensures LastImage([], b) == None
  {
  }

  /** Without revokes replay is checkpointing, whatever the numbers. */
  lemma {:induction false} NoRevokesRecovers(g: Geometry, q: nat, d: seq<Tx>, b: nat, x: Block)
    requires ChainOk(g, d) && forall i :: 0 <= i < |d| ==> d[i].revokes == []
    ensures ChainRevokes(g, [], q, d) == [] && Replayed(d, q, [], b, x) == Checkpointed(d, b, x)
    decreases |d|
  {
    hide LastImage;
    if d != [] {
      assert d[0].revokes == [] && Merge(g, [], q, d[0]) == [];
      NothingHits(b, q);
      NoRevokesRecovers(g, (q + 1) % WORD, d[1..], b, Or(LastImage(d[0].dirty, b), x));
    }
  }

  /** Sequence numbers are compared as plain 32-bit numbers. Every chain of `n` transactions
      starting at `q` that replay can read is therefore recovered correctly exactly when none of
      its numbers passes the top of 32 bits, or the journal has no revokes. */
  lemma SequenceWrapIff(g: Geometry, q: nat, n: nat)
    requires g.Valid() && g.blocks >= 2 && q < WORD && 2 <= n <= 16
    ensures (forall d :: ChainOk(g, d) && AllReadable(g, d) && |d| == n ==> RecoversAll(g, q, d)) <==> q + n <= WORD || !g.hasRevoke
  {
    hide Replayed, Checkpointed, LastEvent, ChainOk, ChainRevokes;
    if q + n <= WORD {
      forall d | ChainOk(g, d) && AllReadable(g, d) && |d| == n ensures RecoversAll(g, q, d) {
        NoWrapRecovers(g, q, d);
      }
    } else if !g.hasRevoke {
      forall d | ChainOk(g, d) && AllReadable(g, d) && |d| == n ensures RecoversAll(g, q, d) {
        forall b: nat, x: Block | LastEvent(d, b) != RevokedAway
          ensures Replayed(d, q, ChainRevokes(g, [], q, d), b, x) == Checkpointed(d, b, x)
        {
          NoRevokesRecovers(g, q, d, b, x);
        }
      }
    } else {
      var w := WORD - 1 - q;
      WrappedLoses(g, q, w, n - 2 - w);
      assert AllReadable(g, Bad(g, w, n - 2 - w));
    }
  }

  /** A block is revoked just below the top of the numbers and logged just past it: its update is lost. */
  lemma WrappedLoses(g: Geometry, q: nat, w: nat, m: nat)
    requires g.Valid() && g.blocks >= 2 && q + w == WORD - 1 && w + m + 2 <= 16
    ensures !RecoversAll(g, q, Bad(g, w, m))
  {
    hide Hits, Replayed, Checkpointed, LastEvent, ChainOk, ChainRevokes, Bad;
    var d := Bad(g, w, m);
    var revs := ChainRevokes(g, [], q, d);
    var x := [1] + Zeros(g.bs - 1);
    assert Hits([Revoked(0, 0)], 0, 0) by { SomeHit(); }
    BadLosesUpdate(g, w, m, q, [Revoked(0, 0)], x);
    ChainRevokesHits(g, [], q, d, 0, 0);
    BadLosesUpdate(g, w, m, q, revs, x);
    assert Zeros(g.bs)[0] != x[0];
  }

  lemma SomeHit()
    ensures Hits([Revoked(0, 0)], 0, 0)
  {
    assert [Revoked(0, 0)][0].fs == 0;
  }

  lemma NoWrapRecovers(g: Geometry, q: nat, d: seq<Tx>)
    requires ChainOk(g, d) && |d| <= 16 && q + |d| <= WORD
    ensures RecoversAll(g, q, d)
  {
    hide Hits, Replayed, Checkpointed, LastEvent, ChainRevokes, RevokedIn;
    var revs := ChainRevokes(g, [], q, d);
    forall b: nat, x: Block | LastEvent(d, b) != RevokedAway ensures Replayed(d, q, revs, b, x) == Checkpointed(d, b, x) {
      forall n | q <= n ensures Hits(revs, b, n) <==> RevokedIn(d, q, b, n) {
        ChainRevokesHits(g, [], q, d, b, n);
        NothingHits(b, n);
      }
      ReplayedIsCheckpointed(g, d, q, revs, b, x, x);
    }
  }
}
