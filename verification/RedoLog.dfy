/** The "FUJ1" redo log of kernel/ext4.c, used when there is no JBD2 journal, below a sector
    cache that may write any dirty sector back at any time. A device is a range of bytes: the
    home area up to `b`, then the log region with its header, records and data. */
module RedoLog {
  import opened Bytes

  const SECTOR: nat := 512
  const HDR: nat := 64
  const MAX_RECORDS: nat := 512
  const DATA_MAX: nat := 196608
  const REGION: nat := 262144
  const FUJ_MAGIC: nat := 0x4655_4A31
  const CLEAN: nat := 0
  const PREP: nat := 1
  const COMMITTED: nat := 2

  type Dev = seq<Byte>

  // ---- a cache over sectors ----

  datatype Out = Out(off: nat, data: seq<Byte>)

  /** The device with one cached write carried out. */
  function Do(d: Dev, w: Out): (r: Dev)
    ensures |r| == |d|
  {
    if w.off + |w.data| <= |d| then Splice(d, w.off, w.data) else d
  }

  function DoAll(d: Dev, ws: seq<Out>): (r: Dev)
    ensures |r| == |d|
    decreases |ws|
  {
    if ws == [] then d else DoAll(Do(d, ws[0]), ws[1..])
  }

  lemma {:induction false} OneMore(d: Dev, ws: seq<Out>, w: Out)
    ensures DoAll(d, ws + [w]) == Do(DoAll(d, ws), w)
    decreases |ws|
  {
    if ws == [] {
      assert ws + [w] == [w] && [w][1..] == [];
    } else {
      assert (ws + [w])[1..] == ws[1..] + [w];
      OneMore(Do(d, ws[0]), ws[1..], w);
    }
  }

  ghost predicate SameSector(x: Dev, y: Dev, s: nat) {
    |x| == |y| && forall a :: 0 <= a < |x| && s * SECTOR <= a < s * SECTOR + SECTOR ==> x[a] == y[a]
  }

  /** What a crash may leave when `ws` were written since the last flush: every sector holds
      the version of some moment since then, each sector its own. */
  ghost predicate CanLeave(d: Dev, ws: seq<Out>, left: Dev) {
    |left| == |d| && forall s: nat :: SomeVersion(d, ws, left, s)
  }

  ghost predicate SomeVersion(d: Dev, ws: seq<Out>, left: Dev, s: nat) {
    exists k :: 0 <= k <= |ws| && SameSector(left, DoAll(d, ws[..k]), s)
  }

  ghost predicate Touches(w: Out, a: nat) { w.off <= a < w.off + |w.data| }

  lemma {:induction false} Untouched(d: Dev, ws: seq<Out>, a: nat)
    requires a < |d| && forall i :: 0 <= i < |ws| ==> !Touches(ws[i], a)
    ensures DoAll(d, ws)[a] == d[a]
    decreases |ws|
  {
    if ws != [] {
      Untouched(Do(d, ws[0]), ws[1..], a);
    }
  }

  /** Bytes that no write touches survive every crash. */
  lemma LeftUntouched(d: Dev, ws: seq<Out>, left: Dev, a: nat)
    requires CanLeave(d, ws, left) && a < |d| && forall i :: 0 <= i < |ws| ==> !Touches(ws[i], a)
    ensures left[a] == d[a]
  {
    var s := a / SECTOR;
    assert SomeVersion(d, ws, left, s);
    var k :| 0 <= k <= |ws| && SameSector(left, DoAll(d, ws[..k]), s);
    Untouched(d, ws[..k], a);
  }

  /** A write inside one sector is all there or not there at all. */
  lemma OneSector(d: Dev, w: Out, left: Dev)
    requires CanLeave(d, [w], left) && w.off + |w.data| <= |d| && w.off % SECTOR + |w.data| <= SECTOR
    ensures left == d || left == Do(d, w)
  {
    var s := w.off / SECTOR;
    assert [w][..0] == [] && [w][..1] == [w] && [w][1..] == [];
    assert DoAll(d, []) == d && DoAll(d, [w]) == Do(d, w);
    assert SomeVersion(d, [w], left, s);
    var k :| 0 <= k <= 1 && SameSector(left, DoAll(d, [w][..k]), s);
    forall a | 0 <= a < |d| ensures left[a] == DoAll(d, [w][..k])[a] {
      if !(s * SECTOR <= a < s * SECTOR + SECTOR) {
        LeftUntouched(d, [w], left, a);
        assert !Touches(w, a);
      }
    }
  }

  // ---- records ----

  datatype Rec = Rec(off: nat, data: seq<Byte>)

  function DataLen(recs: seq<Rec>): nat
    decreases |recs|
  {
    if recs == [] then 0 else |recs[0].data| + DataLen(recs[1..])
  }

  /** What the transaction does to the home area. */
  function ApplyRecs(home: Dev, recs: seq<Rec>): (r: Dev)
    ensures |r| == |home|
    decreases |recs|
  {
    if recs == [] then home else ApplyRecs(Do(home, Out(recs[0].off, recs[0].data)), recs[1..])
  }

  ghost predicate Covered(recs: seq<Rec>, a: nat) {
    exists i :: 0 <= i < |recs| && recs[i].off <= a < recs[i].off + |recs[i].data|
  }

  ghost predicate RecsOk(recs: seq<Rec>, b: nat) {
    |recs| <= MAX_RECORDS && DataLen(recs) <= DATA_MAX &&
    forall i :: 0 <= i < |recs| ==> recs[i].data != [] && recs[i].off + |recs[i].data| <= b
  }

  /** The same home area, but for what the records cover. */
  ghost predicate AgreeOff(h: Dev, h': Dev, recs: seq<Rec>) {
    |h| == |h'| && forall a :: 0 <= a < |h| && !Covered(recs, a) ==> h[a] == h'[a]
  }

  lemma CoveredRest(recs: seq<Rec>, a: nat)
    requires recs != []
    ensures Covered(recs, a) <==> Covered(recs[1..], a) || recs[0].off <= a < recs[0].off + |recs[0].data|
  {
    if Covered(recs, a) {
      var i :| 0 <= i < |recs| && recs[i].off <= a < recs[i].off + |recs[i].data|;
      if i > 0 {
        assert recs[1..][i - 1] == recs[i];
      }
    }
    if Covered(recs[1..], a) {
      var i :| 0 <= i < |recs[1..]| && recs[1..][i].off <= a < recs[1..][i].off + |recs[1..][i].data|;
      assert recs[i + 1] == recs[1..][i];
    }
  }

  /** Carrying out all records gives the same result from any of those. */
  lemma {:induction false} ApplyAgree(h: Dev, h': Dev, recs: seq<Rec>)
    requires AgreeOff(h, h', recs) && forall i :: 0 <= i < |recs| ==> recs[i].off + |recs[i].data| <= |h|
    ensures ApplyRecs(h, recs) == ApplyRecs(h', recs)
    decreases |recs|
  {
    if recs == [] {
      assert h == h';
    } else {
      var r := recs[0];
      var w := Out(r.off, r.data);
      forall a | 0 <= a < |h| && !Covered(recs[1..], a) ensures Do(h, w)[a] == Do(h', w)[a] {
        CoveredRest(recs, a);
      }
      ApplyAgree(Do(h, w), Do(h', w), recs[1..]);
    }
  }

  lemma {:induction false} ApplyOff(h: Dev, recs: seq<Rec>)
    ensures AgreeOff(h, ApplyRecs(h, recs), recs)
    decreases |recs|
  {
    if recs != [] {
      var h' := Do(h, Out(recs[0].off, recs[0].data));
      ApplyOff(h', recs[1..]);
      forall a | 0 <= a < |h| && !Covered(recs, a) ensures ApplyRecs(h, recs)[a] == h[a] {
        CoveredRest(recs, a);
      }
    }
  }

  // ---- the log region ----

  function Header(state: nat, n: nat, bytes: nat, seqno: nat): (s: seq<Byte>)
    ensures |s| == HDR
  {
    Le32(FUJ_MAGIC) + Le32(state) + Le32(seqno) + Le32(n) + Le32(bytes) + Zeros(44)
  }

  function RecBytes(off: nat, len: nat, at: nat): (s: seq<Byte>)
    ensures |s| == 16
  {
    Le32(off) + Le32(off / WORD) + Le32(len) + Le32(at)
  }

  function RecPos(b: nat, i: nat): nat { b + HDR + 16 * i }

  function DataPos(b: nat, at: nat): nat { b + HDR + 16 * MAX_RECORDS + at }

  ghost predicate DevOk(d: Dev, b: nat) { |d| == b + REGION && b % SECTOR == 0 }

  /** What `ext4_journal_replay_if_needed` finds in the header before it replays. */
  predicate Replayable(d: Dev, b: nat)
    requires |d| == b + REGION
  {
    && RdLe32(d, b) == FUJ_MAGIC && RdLe32(d, b + 4) == COMMITTED
    && 0 < RdLe32(d, b + 12) <= MAX_RECORDS && 0 < RdLe32(d, b + 16) <= DATA_MAX
  }

  /** Record `i` of the transaction is in the log: its place, length and data. */
  ghost predicate RecHolds(d: Dev, b: nat, recs: seq<Rec>, i: nat)
    requires |d| == b + REGION && i < |recs| && i < MAX_RECORDS
  {
    var p, at := RecPos(b, i), DataLen(recs[..i]);
    && RdLe32(d, p) + RdLe32(d, p + 4) * WORD == recs[i].off && RdLe32(d, p + 8) == |recs[i].data| && RdLe32(d, p + 12) == at
    && at + |recs[i].data| <= DATA_MAX && d[DataPos(b, at)..DataPos(b, at) + |recs[i].data|] == recs[i].data
  }

  ghost predicate LogHolds(d: Dev, b: nat, recs: seq<Rec>)
    requires |d| == b + REGION
  {
    |recs| <= MAX_RECORDS && forall i :: 0 <= i < |recs| ==> RecHolds(d, b, recs, i)
  }

  datatype Option<T> = None | Some(value: T)

  /** The replay loop from record `i`. */
  function ReplayLoop(d: Dev, b: nat, i: nat, n: nat, total: nat): (r: Option<Dev>)
    requires |d| == b + REGION && n <= MAX_RECORDS && total <= DATA_MAX
    ensures r.Some? ==> |r.value| == |d|
    decreases n - i
  {
    if i >= n then Some(d)
    else
      var p := RecPos(b, i);
      var off, len, at := RdLe32(d, p) + RdLe32(d, p + 4) * WORD, RdLe32(d, p + 8), RdLe32(d, p + 12);
      if len == 0 || at > total || at + len > total || off + len > |d| then None
      else ReplayLoop(Do(d, Out(off, d[DataPos(b, at)..DataPos(b, at) + len])), b, i + 1, n, total)
  }

  /** Mount without a crash: the device it leaves. */
  function Mount(d: Dev, b: nat, seqno: nat): (r: Option<Dev>)
    requires |d| == b + REGION
    ensures r.Some? ==> |r.value| == |d|
  {
    hide RdLe32, Header;
    var clean := Out(b, Header(CLEAN, 0, 0, seqno));
    if !Replayable(d, b) then Some(Do(d, clean))
    else
      match ReplayLoop(d, b, 0, RdLe32(d, b + 12), RdLe32(d, b + 16))
      case None => None
      case Some(d') => Some(Do(d', clean))
  }

  // ---- reading back ----

  /** Two devices with the same log region. */
  ghost predicate SameLog(d: Dev, d': Dev, b: nat) {
    |d| == |d'| == b + REGION && d[b..] == d'[b..]
  }

  lemma SameRead(d: Dev, d': Dev, b: nat, p: nat)
    requires SameLog(d, d', b) && b <= p && p + 4 <= |d|
    ensures RdLe32(d, p) == RdLe32(d', p)
  {
    hide Word;
    assert d[p] == d[b..][p - b] && d[p + 1] == d[b..][p + 1 - b] && d[p + 2] == d[b..][p + 2 - b] && d[p + 3] == d[b..][p + 3 - b];
    assert d'[p] == d'[b..][p - b] && d'[p + 1] == d'[b..][p + 1 - b] && d'[p + 2] == d'[b..][p + 2 - b] && d'[p + 3] == d'[b..][p + 3 - b];
  }

  lemma SameLogHolds(d: Dev, d': Dev, b: nat, recs: seq<Rec>)
    requires SameLog(d, d', b) && LogHolds(d, b, recs)
    ensures LogHolds(d', b, recs) && (Replayable(d, b) <==> Replayable(d', b))
    ensures RdLe32(d', b + 12) == RdLe32(d, b + 12) && RdLe32(d', b + 16) == RdLe32(d, b + 16)
  {
    hide RdLe32;
    SameRead(d, d', b, b);
    SameRead(d, d', b, b + 4);
    SameRead(d, d', b, b + 12);
    SameRead(d, d', b, b + 16);
    forall i | 0 <= i < |recs| ensures RecHolds(d', b, recs, i) {
      assert RecHolds(d, b, recs, i);
      var p, q := RecPos(b, i), DataPos(b, DataLen(recs[..i]));
      SameRead(d, d', b, p);
      SameRead(d, d', b, p + 4);
      SameRead(d, d', b, p + 8);
      SameRead(d, d', b, p + 12);
      var n := |recs[i].data|;
      assert d[q..q + n] == d[b..][q - b..q + n - b] && d'[q..q + n] == d'[b..][q - b..q + n - b];
    }
  }

  lemma HomeWriteKeepsLog(d: Dev, b: nat, w: Out)
    requires |d| == b + REGION && w.off + |w.data| <= b
    ensures SameLog(d, Do(d, w), b) && Do(d, w)[..b] == Do(d[..b], w)
  {
  }

  lemma {:induction false} DataLenPrefix(recs: seq<Rec>, i: nat)
    requires i < |recs|
    ensures DataLen(recs[..i]) + |recs[i].data| <= DataLen(recs)
    decreases |recs|
  {
    if i > 0 {
      assert recs[..i][1..] == recs[1..][..i - 1] && recs[1..][i - 1] == recs[i];
      DataLenPrefix(recs[1..], i - 1);
    }
  }

  /** Replay carries out exactly the logged records, in order, and leaves the log alone. */
  lemma {:induction false} ReplayApplies(d: Dev, b: nat, recs: seq<Rec>, i: nat)
    requires |d| == b + REGION && RecsOk(recs, b) && LogHolds(d, b, recs) && i <= |recs|
    ensures var r := ReplayLoop(d, b, i, |recs|, DataLen(recs));
            r.Some? && SameLog(d, r.value, b) && r.value[..b] == ApplyRecs(d[..b], recs[i..])
    decreases |recs| - i
  {
    hide RdLe32, DataLen, LogHolds, SameLog, Do, ReplayLoop;
    if i < |recs| {
      var w := Out(recs[i].off, recs[i].data);
      ReplayOne(d, b, recs, i);
      HomeWriteKeepsLog(d, b, w);
      SameLogHolds(d, Do(d, w), b, recs);
      ReplayApplies(Do(d, w), b, recs, i + 1);
      SameLogChain(d, Do(d, w), ReplayLoop(Do(d, w), b, i + 1, |recs|, DataLen(recs)).value, b);
      assert recs[i..][1..] == recs[i + 1..];
    } else {
      ReplayEnds(d, b, recs);
    }
  }

  /** One turn of the loop, on a record that is in the log. */
  lemma ReplayOne(d: Dev, b: nat, recs: seq<Rec>, i: nat)
    requires |d| == b + REGION && RecsOk(recs, b) && LogHolds(d, b, recs) && i < |recs|
    ensures |recs| <= MAX_RECORDS && DataLen(recs) <= DATA_MAX
    ensures ReplayLoop(d, b, i, |recs|, DataLen(recs)) == ReplayLoop(Do(d, Out(recs[i].off, recs[i].data)), b, i + 1, |recs|, DataLen(recs))
    ensures recs[i].off + |recs[i].data| <= b
  {
    hide RdLe32, DataLen, Do;
    assert RecHolds(d, b, recs, i);
    DataLenPrefix(recs, i);
  }

  lemma ReplayEnds(d: Dev, b: nat, recs: seq<Rec>)
    requires |d| == b + REGION && RecsOk(recs, b)
    ensures |recs| <= MAX_RECORDS && DataLen(recs) <= DATA_MAX
    ensures ReplayLoop(d, b, |recs|, |recs|, DataLen(recs)) == Some(d) && SameLog(d, d, b) && ApplyRecs(d[..b], recs[|recs|..]) == d[..b]
  {
    hide DataLen;
  }

  lemma SameLogChain(d: Dev, d1: Dev, d2: Dev, b: nat)
    requires SameLog(d, d1, b) && SameLog(d1, d2, b)
    ensures SameLog(d, d2, b)
  {
  }

  // ---- the header ----

  lemma FieldRead(d: Dev, p: nat, h: seq<Byte>, k: nat, v: nat)
    requires p + |h| <= |d| && k + 4 <= |h| && h[k..k + 4] == Le32(v) && v < WORD && d[p..p + |h|] == h
    ensures RdLe32(d, p + k) == v
  {
    hide Le32, RdLe32;
    var x, y := d[p + k..p + k + 4], h[k..k + 4];
    forall j | 0 <= j < 4 ensures x[j] == y[j] {
      assert x[j] == d[p + (k + j)] && d[p..p + |h|][k + j] == d[p + (k + j)];
    }
    Le32RoundTrip(d, p + k, v);
  }

  /** Writing a header: what is then read from it, and that nothing else changes. */
  lemma HeaderWritten(d: Dev, b: nat, state: nat, n: nat, bytes: nat, seqno: nat)
    requires |d| == b + REGION && state < WORD && n < WORD && bytes < WORD
    ensures var d' := Do(d, Out(b, Header(state, n, bytes, seqno)));
            && RdLe32(d', b) == FUJ_MAGIC && RdLe32(d', b + 4) == state && RdLe32(d', b + 12) == n && RdLe32(d', b + 16) == bytes
            && d'[..b] == d[..b] && d'[b + HDR..] == d[b + HDR..]
  {
    hide Le32, RdLe32;
    var h := Header(state, n, bytes, seqno);
    var d' := Do(d, Out(b, h));
    assert d'[b..b + HDR] == h;
    assert h[0..4] == Le32(FUJ_MAGIC) && h[4..8] == Le32(state) && h[12..16] == Le32(n) && h[16..20] == Le32(bytes);
    FieldRead(d', b, h, 0, FUJ_MAGIC);
    FieldRead(d', b, h, 4, state);
    FieldRead(d', b, h, 12, n);
    FieldRead(d', b, h, 16, bytes);
  }

  /** Records and data are read from behind the header only. */
  lemma LogBehindHeader(d: Dev, d': Dev, b: nat, recs: seq<Rec>)
    requires |d| == |d'| == b + REGION && d[b + HDR..] == d'[b + HDR..] && LogHolds(d, b, recs)
    ensures LogHolds(d', b, recs)
  {
    hide RdLe32;
    forall i | 0 <= i < |recs| ensures RecHolds(d', b, recs, i) {
      assert RecHolds(d, b, recs, i);
      var p, q := RecPos(b, i), DataPos(b, DataLen(recs[..i]));
      ReadBehind(d, d', b, p);
      ReadBehind(d, d', b, p + 4);
      ReadBehind(d, d', b, p + 8);
      ReadBehind(d, d', b, p + 12);
      var n, c := |recs[i].data|, b + HDR;
      assert d[q..q + n] == d[c..][q - c..q + n - c] && d'[q..q + n] == d'[c..][q - c..q + n - c];
    }
  }

  lemma ReadBehind(d: Dev, d': Dev, b: nat, p: nat)
    requires |d| == |d'| == b + REGION && d[b + HDR..] == d'[b + HDR..] && b + HDR <= p && p + 4 <= |d|
    ensures RdLe32(d, p) == RdLe32(d', p)
  {
    hide Word;
    var c := b + HDR;
    assert forall k :: c <= k < |d| ==> d[k] == d[c..][k - c] && d'[k] == d'[c..][k - c];
  }

  // ---- what a crash may find ----

  /** Nothing to replay; the home area is `h`. */
  ghost predicate Quiet(d: Dev, b: nat, h: Dev) {
    hide Replayable;
    DevOk(d, b) && !Replayable(d, b) && d[..b] == h
  }

  /** The transaction is in the log, and the home area is `h` but for what it covers. */
  ghost predicate Sealed(d: Dev, b: nat, h: Dev, recs: seq<Rec>) {
    hide RdLe32, Replayable, LogHolds;
    && DevOk(d, b) && Replayable(d, b) && RdLe32(d, b + 12) == |recs| && RdLe32(d, b + 16) == DataLen(recs)
    && RecsOk(recs, b) && LogHolds(d, b, recs) && AgreeOff(h, d[..b], recs)
  }

  /** Before the commit point, and after it. */
  ghost predicate NotYet(d: Dev, b: nat, h: Dev) { Quiet(d, b, h) }

  ghost predicate Already(d: Dev, b: nat, h: Dev, recs: seq<Rec>) {
    Sealed(d, b, h, recs) || (|h| == b && Quiet(d, b, ApplyRecs(h, recs)))
  }

  /** Mount without a crash makes all of it or none of it out of either. */
  lemma MountDecides(d: Dev, b: nat, h: Dev, recs: seq<Rec>, seqno: nat)
    requires |d| == b + REGION
    ensures Quiet(d, b, h) ==> Mount(d, b, seqno).Some? && Quiet(Mount(d, b, seqno).value, b, h)
    ensures Already(d, b, h, recs) ==> Mount(d, b, seqno).Some? && Quiet(Mount(d, b, seqno).value, b, ApplyRecs(h, recs))
  {
    hide RdLe32, Header, LogHolds, AgreeOff, DataLen;
    if Quiet(d, b, h) {
      HeaderWritten(d, b, CLEAN, 0, 0, seqno);
    }
    if |h| == b && Quiet(d, b, ApplyRecs(h, recs)) {
      HeaderWritten(d, b, CLEAN, 0, 0, seqno);
    }
    if Sealed(d, b, h, recs) {
      ReplayApplies(d, b, recs, 0);
      assert recs[0..] == recs;
      AgreeLength(h, d[..b], recs);
      ApplyAgree(h, d[..b], recs);
      HeaderWritten(ReplayLoop(d, b, 0, |recs|, DataLen(recs)).value, b, CLEAN, 0, 0, seqno);
    }
  }

  lemma AgreeLength(h: Dev, h': Dev, recs: seq<Rec>)
    requires AgreeOff(h, h', recs)
    ensures |h| == |h'|
  {
  }

  // ---- a crash anywhere ----

  function Outs(recs: seq<Rec>): (ws: seq<Out>)
    ensures |ws| == |recs|
  {
    seq(|recs|, i requires 0 <= i < |recs| => Out(recs[i].off, recs[i].data))
  }

  /** While a transaction is being logged the header is not written, and records and data go
      behind it: nothing of it can be replayed. */
  lemma CrashWhileLogging(d: Dev, b: nat, h: Dev, ws: seq<Out>, left: Dev)
    requires Quiet(d, b, h) && CanLeave(d, ws, left) && forall i :: 0 <= i < |ws| ==> b + HDR <= ws[i].off
    ensures Quiet(left, b, h)
  {
    hide RdLe32, SomeVersion, CanLeave;
    LeftSize(d, ws, left);
    forall a | 0 <= a < b + HDR ensures left[a] == d[a] {
      LeftUntouched(d, ws, left, a);
    }
    assert left[..b] == d[..b];
    ReadBefore(d, left, b, b);
    ReadBefore(d, left, b, b + 4);
    ReadBefore(d, left, b, b + 12);
    ReadBefore(d, left, b, b + 16);
  }

  lemma LeftSize(d: Dev, ws: seq<Out>, left: Dev)
    requires CanLeave(d, ws, left)
    ensures |left| == |d|
  {
  }

  lemma ReadBefore(d: Dev, d': Dev, b: nat, p: nat)
    requires |d| == |d'| == b + REGION && (forall a :: 0 <= a < b + HDR ==> d'[a] == d[a]) && p + 4 <= b + HDR
    ensures RdLe32(d, p) == RdLe32(d', p)
  {
  }

  /** A crash while a header that commits nothing is written: at begin, and at abort. */
  lemma CrashAtQuietHeader(d: Dev, b: nat, h: Dev, state: nat, seqno: nat, left: Dev)
    requires Quiet(d, b, h) && state < WORD && state != COMMITTED
    requires CanLeave(d, [Out(b, Header(state, 0, 0, seqno))], left)
    ensures Quiet(left, b, h)
  {
    hide RdLe32, Header, CanLeave;
    var w := Out(b, Header(state, 0, 0, seqno));
    OneSector(d, w, left);
    HeaderWritten(d, b, state, 0, 0, seqno);
  }

  /** A crash while the commit header is written, everything logged having been flushed. */
  lemma CrashAtSeal(d: Dev, b: nat, h: Dev, recs: seq<Rec>, seqno: nat, left: Dev)
    requires Quiet(d, b, h) && RecsOk(recs, b) && LogHolds(d, b, recs)
    requires CanLeave(d, [Out(b, Header(COMMITTED, |recs|, DataLen(recs), seqno))], left)
    ensures NotYet(left, b, h) || Already(left, b, h, recs)
    ensures left == d || left == Do(d, Out(b, Header(COMMITTED, |recs|, DataLen(recs), seqno)))
  {
    hide RdLe32, Header, CanLeave, LogHolds;
    OneSector(d, Out(b, Header(COMMITTED, |recs|, DataLen(recs), seqno)), left);
    SealedAfter(d, b, h, recs, seqno);
  }

  lemma SealedAfter(d: Dev, b: nat, h: Dev, recs: seq<Rec>, seqno: nat)
    requires Quiet(d, b, h) && RecsOk(recs, b) && LogHolds(d, b, recs)
    ensures var d' := Do(d, Out(b, Header(COMMITTED, |recs|, DataLen(recs), seqno)));
            if recs == [] then Quiet(d', b, h) else Sealed(d', b, h, recs)
    ensures recs == [] ==> ApplyRecs(h, recs) == h
  {
    hide RdLe32, Header, LogHolds;
    HeaderWritten(d, b, COMMITTED, |recs|, DataLen(recs), seqno);
    LogBehindHeader(d, Do(d, Out(b, Header(COMMITTED, |recs|, DataLen(recs), seqno))), b, recs);
    if recs != [] {
      DataLenPrefix(recs, 0);
    }
  }

  /** A crash while the records are carried out, by commit or by replay, at any sector write:
      the log is still there, and only covered bytes have moved. */
  lemma CrashWhileApplying(d: Dev, b: nat, h: Dev, recs: seq<Rec>, left: Dev)
    requires Sealed(d, b, h, recs) && CanLeave(d, Outs(recs), left)
    ensures Sealed(left, b, h, recs)
  {
    hide RdLe32, CanLeave, LogHolds, Covered, DataLen, Replayable;
    LeftSize(d, Outs(recs), left);
    forall a | b <= a < |d| ensures left[a] == d[a] {
      LeftUntouched(d, Outs(recs), left, a);
    }
    assert left[b..] == d[b..];
    SameLogHolds(d, left, b, recs);
    forall a | 0 <= a < b && !Covered(recs, a) ensures left[a] == d[a] {
      NotTouched(recs, a);
      LeftUntouched(d, Outs(recs), left, a);
    }
  }

  lemma NotTouched(recs: seq<Rec>, a: nat)
    requires !Covered(recs, a)
    ensures forall i :: 0 <= i < |recs| ==> !Touches(Outs(recs)[i], a)
  {
  }

  /** A crash while the header is cleared, the home area having been flushed. */
  lemma CrashAtClear(d: Dev, b: nat, h: Dev, recs: seq<Rec>, seqno: nat, left: Dev)
    requires Sealed(d, b, h, recs) && d[..b] == ApplyRecs(h, recs)
    requires CanLeave(d, [Out(b, Header(CLEAN, 0, 0, seqno))], left)
    ensures Already(left, b, h, recs)
  {
    hide RdLe32, Header, CanLeave, LogHolds, AgreeOff;
    AgreeLength(h, d[..b], recs);
    OneSector(d, Out(b, Header(CLEAN, 0, 0, seqno)), left);
    HeaderWritten(d, b, CLEAN, 0, 0, seqno);
  }

  lemma {:induction false} AllCarriedOut(d: Dev, b: nat, recs: seq<Rec>)
    requires |d| == b + REGION && forall i :: 0 <= i < |recs| ==> recs[i].off + |recs[i].data| <= b
    ensures SameLog(d, DoAll(d, Outs(recs)), b) && DoAll(d, Outs(recs))[..b] == ApplyRecs(d[..b], recs)
    decreases |recs|
  {
    if recs != [] {
      var w := Out(recs[0].off, recs[0].data);
      HomeWriteKeepsLog(d, b, w);
      assert Outs(recs)[1..] == Outs(recs[1..]);
      AllCarriedOut(Do(d, w), b, recs[1..]);
    }
  }

  /** Once all records are carried out and flushed the home area is as it should be. */
  lemma FlushedHome(d: Dev, b: nat, h: Dev, recs: seq<Rec>)
    requires Sealed(d, b, h, recs)
    ensures var d' := DoAll(d, Outs(recs)); Sealed(d', b, h, recs) && d'[..b] == ApplyRecs(h, recs)
  {
    hide RdLe32, LogHolds, DataLen, Replayable;
    AllCarriedOut(d, b, recs);
    SameLogHolds(d, DoAll(d, Outs(recs)), b, recs);
    ApplyAgree(h, d[..b], recs);
    ApplyOff(h, recs);
  }

  // ---- logging a write ----

  lemma {:induction false} DataLenAppend(recs: seq<Rec>, r: Rec)
    ensures DataLen(recs + [r]) == DataLen(recs) + |r.data|
    decreases |recs|
  {
    if recs == [] {
      assert recs + [r] == [r] && [r][1..] == [];
    } else {
      assert (recs + [r])[1..] == recs[1..] + [r];
      DataLenAppend(recs[1..], r);
    }
  }

  /** The device after the two writes of a logged write: the record, then its data. */
  function Logged(d: Dev, b: nat, n: nat, at: nat, r: Rec): Dev {
    Do(Do(d, Out(RecPos(b, n), RecBytes(r.off, |r.data|, at))), Out(DataPos(b, at), r.data))
  }

  lemma LoggedShape(d: Dev, b: nat, n: nat, at: nat, r: Rec)
    requires |d| == b + REGION && n < MAX_RECORDS && at + |r.data| <= DATA_MAX
    ensures var d' := Logged(d, b, n, at, r);
            && |d'| == |d| && d'[RecPos(b, n)..RecPos(b, n) + 16] == RecBytes(r.off, |r.data|, at)
            && d'[DataPos(b, at)..DataPos(b, at) + |r.data|] == r.data && d'[..b + HDR] == d[..b + HDR]
            && forall a :: 0 <= a < |d| && (a < RecPos(b, n) || DataPos(b, 0) <= a < DataPos(b, at)) ==> d'[a] == d[a]
  {
    hide RecBytes;
  }

  /** A logged write puts the new record behind the others and leaves header and home alone. */
  lemma LogAppends(d: Dev, b: nat, recs: seq<Rec>, r: Rec)
    requires |d| == b + REGION && LogHolds(d, b, recs) && |recs| < MAX_RECORDS && DataLen(recs) + |r.data| <= DATA_MAX && r.off < WORD * WORD
    ensures var d' := Logged(d, b, |recs|, DataLen(recs), r);
            |d'| == |d| && LogHolds(d', b, recs + [r]) && d'[..b + HDR] == d[..b + HDR]
  {
    hide RdLe32, RecBytes, Logged;
    var n, at := |recs|, DataLen(recs);
    var d' := Logged(d, b, n, at, r);
    LoggedShape(d, b, n, at, r);
    forall i | 0 <= i <= n ensures RecHolds(d', b, recs + [r], i) {
      if i < n {
        DataLenPrefix(recs, i);
        assert RecHolds(d, b, recs, i);
        RecKept(d, d', b, recs, i, n, at);
        RecHoldsPrefix(d', b, recs, [r], i);
      } else {
        assert (recs + [r])[..n] == recs;
        RecRead(d', RecPos(b, n), r.off, |r.data|, at);
      }
    }
  }

  lemma RecHoldsPrefix(d: Dev, b: nat, recs: seq<Rec>, more: seq<Rec>, i: nat)
    requires |d| == b + REGION && i < |recs| && i < MAX_RECORDS && RecHolds(d, b, recs, i)
    ensures RecHolds(d, b, recs + more, i)
  {
    hide RdLe32;
    assert (recs + more)[..i] == recs[..i] && (recs + more)[i] == recs[i];
  }

  lemma RecKept(d: Dev, d': Dev, b: nat, recs: seq<Rec>, i: nat, n: nat, at: nat)
    requires |d| == |d'| == b + REGION && i < n == |recs| <= MAX_RECORDS && RecHolds(d, b, recs, i)
    requires DataLen(recs[..i]) + |recs[i].data| <= at
    requires forall a :: b + HDR <= a < |d| && (a < RecPos(b, n) || DataPos(b, 0) <= a < DataPos(b, at)) ==> d'[a] == d[a]
    ensures RecHolds(d', b, recs, i)
  {
    hide RdLe32;
    var p, q := RecPos(b, i), DataPos(b, DataLen(recs[..i]));
    ReadSame(d, d', p);
    ReadSame(d, d', p + 4);
    ReadSame(d, d', p + 8);
    ReadSame(d, d', p + 12);
  }

  lemma ReadSame(d: Dev, d': Dev, p: nat)
    requires p + 4 <= |d| == |d'| && d[p] == d'[p] && d[p + 1] == d'[p + 1] && d[p + 2] == d'[p + 2] && d[p + 3] == d'[p + 3]
    ensures RdLe32(d, p) == RdLe32(d', p)
  {
  }

  lemma RecRead(d: Dev, p: nat, off: nat, len: nat, at: nat)
    requires p + 16 <= |d| && off < WORD * WORD && len < WORD && at < WORD && d[p..p + 16] == RecBytes(off, len, at)
    ensures RdLe32(d, p) + RdLe32(d, p + 4) * WORD == off && RdLe32(d, p + 8) == len && RdLe32(d, p + 12) == at
  {
    hide Le32, RdLe32;
    var h := RecBytes(off, len, at);
    assert h[0..4] == Le32(off) && h[4..8] == Le32(off / WORD) && h[8..12] == Le32(len) && h[12..16] == Le32(at);
    assert d[p..p + 4] == d[p..p + 16][0..4];
    Le32RoundTrip(d, p, off);
    FieldRead(d, p, h, 4, off / WORD);
    FieldRead(d, p, h, 8, len);
    FieldRead(d, p, h, 12, at);
  }

  // ---- whole operations, and crash after crash ----

  datatype Epoch = Epoch(d: Dev, ws: seq<Out>)

  /** Commit, from one flush to the next: the header, behind what the cache still holds, the home
      writes, the cleared header. */
  function CommitEpochs(d: Dev, ws: seq<Out>, b: nat, recs: seq<Rec>, seqno: nat): seq<Epoch> {
    var seal := Out(b, Header(COMMITTED, |recs|, DataLen(recs), seqno));
    var d1 := Do(DoAll(d, ws), seal);
    var d2 := DoAll(d1, Outs(recs));
    [Epoch(d, ws + [seal]), Epoch(d1, Outs(recs)), Epoch(d2, [Out(b, Header(CLEAN, 0, 0, seqno))])]
  }

  ghost predicate CrashedIn(es: seq<Epoch>, left: Dev) {
    exists i :: 0 <= i < |es| && CanLeave(es[i].d, es[i].ws, left)
  }

  /** Commit is atomic, everything logged having been flushed: whatever a crash at any of its
      sector writes leaves, it is one from which mount makes nothing of the transaction or all of it. */
  lemma CommitIsAtomic(d: Dev, b: nat, h: Dev, recs: seq<Rec>, seqno: nat, left: Dev)
    requires Quiet(d, b, h) && RecsOk(recs, b) && LogHolds(d, b, recs) && CrashedIn(CommitEpochs(d, [], b, recs, seqno), left)
    ensures NotYet(left, b, h) || Already(left, b, h, recs)
  {
    hide RdLe32, Header, LogHolds, CanLeave, Quiet, Sealed, DataLen, Replayable;
    var es := CommitEpochs(d, [], b, recs, seqno);
    NoneFirst([Out(b, Header(COMMITTED, |recs|, DataLen(recs), seqno))]);
    var i :| 0 <= i < |es| && CanLeave(es[i].d, es[i].ws, left);
    SealedAfter(d, b, h, recs, seqno);
    if i == 0 {
      CrashAtSeal(d, b, h, recs, seqno, left);
    } else if recs == [] {
      NothingToDo(es[1].d, left);
      if i == 2 {
        CrashAtQuietHeader(es[2].d, b, h, CLEAN, seqno, left);
      }
    } else if i == 1 {
      CrashWhileApplying(es[1].d, b, h, recs, left);
    } else {
      FlushedHome(es[1].d, b, h, recs);
      CrashAtClear(es[2].d, b, h, recs, seqno, left);
    }
  }

  lemma NoneFirst(ws: seq<Out>)
    ensures [] + ws == ws
  {
  }

  lemma NothingToDo(d: Dev, left: Dev)
    ensures Outs([]) == [] && DoAll(d, []) == d && (CanLeave(d, [], left) ==> left == d)
  {
    if CanLeave(d, [], left) {
      forall a | 0 <= a < |d| ensures left[a] == d[a] {
        LeftUntouched(d, [], left, a);
      }
    }
  }

  /** The records as replay reads them. */
  function Parsed(d: Dev, b: nat, i: nat, n: nat): seq<Rec>
    requires |d| == b + REGION && n <= MAX_RECORDS
    decreases n - i
  {
    if i >= n then []
    else
      var p := RecPos(b, i);
      var off, len, at := RdLe32(d, p) + RdLe32(d, p + 4) * WORD, RdLe32(d, p + 8), RdLe32(d, p + 12);
      (if DataPos(b, at) + len <= |d| then [Rec(off, d[DataPos(b, at)..DataPos(b, at) + len])] else []) + Parsed(d, b, i + 1, n)
  }

  lemma {:induction false} ParsedIsLogged(d: Dev, b: nat, recs: seq<Rec>, i: nat)
    requires |d| == b + REGION && LogHolds(d, b, recs) && i <= |recs|
    ensures Parsed(d, b, i, |recs|) == recs[i..]
    decreases |recs| - i
  {
    hide RdLe32, DataLen;
    if i < |recs| {
      assert RecHolds(d, b, recs, i);
      ParsedIsLogged(d, b, recs, i + 1);
      assert recs[i..] == [recs[i]] + recs[i + 1..];
    }
  }

  /** Mount, from one flush to the next. */
  function MountEpochs(d: Dev, b: nat, seqno: nat): seq<Epoch>
    requires |d| == b + REGION
  {
    hide RdLe32, Header;
    var clean := Out(b, Header(CLEAN, 0, 0, seqno));
    if !Replayable(d, b) then [Epoch(d, [clean])]
    else
      var ws := Outs(Parsed(d, b, 0, RdLe32(d, b + 12)));
      [Epoch(d, ws), Epoch(DoAll(d, ws), [clean])]
  }

  /** A crash during mount, at any sector write, changes nothing about what mount will make
      of the device in the end. */
  lemma MountIsRepeatable(d: Dev, b: nat, h: Dev, recs: seq<Rec>, seqno: nat, left: Dev)
    requires |d| == b + REGION && CrashedIn(MountEpochs(d, b, seqno), left)
    ensures Quiet(d, b, h) ==> Quiet(left, b, h)
    ensures Already(d, b, h, recs) ==> Already(left, b, h, recs)
  {
    hide RdLe32, Header, LogHolds, CanLeave, DataLen, Parsed, AgreeOff;
    var es := MountEpochs(d, b, seqno);
    var i :| 0 <= i < |es| && CanLeave(es[i].d, es[i].ws, left);
    if Quiet(d, b, h) {
      CrashAtQuietHeader(d, b, h, CLEAN, seqno, left);
    }
    if Sealed(d, b, h, recs) {
      ParsedIsLogged(d, b, recs, 0);
      assert recs[0..] == recs;
      if i == 0 {
        CrashWhileApplying(d, b, h, recs, left);
      } else {
        FlushedHome(d, b, h, recs);
        CrashAtClear(es[1].d, b, h, recs, seqno, left);
      }
    } else if |h| == b && Quiet(d, b, ApplyRecs(h, recs)) {
      CrashAtQuietHeader(d, b, ApplyRecs(h, recs), CLEAN, seqno, left);
    }
  }

  /** A device after a crash, and after further crashes while mount was at work. */
  ghost predicate Reboots(b: nat, seqno: nat, ds: seq<Dev>) {
    && (forall i :: 0 <= i < |ds| ==> |ds[i]| == b + REGION)
    && forall i :: 0 < i < |ds| ==> CrashedIn(MountEpochs(ds[i - 1], b, seqno), ds[i])
  }

  lemma {:induction false} RebootsKeep(b: nat, h: Dev, recs: seq<Rec>, seqno: nat, ds: seq<Dev>, n: nat)
    requires Reboots(b, seqno, ds) && n < |ds|
    ensures Quiet(ds[0], b, h) ==> Quiet(ds[n], b, h)
    ensures Already(ds[0], b, h, recs) ==> Already(ds[n], b, h, recs)
  {
    hide Quiet, Already, CrashedIn, MountEpochs;
    if n > 0 {
      RebootsKeep(b, h, recs, seqno, ds, n - 1);
      MountIsRepeatable(ds[n - 1], b, h, recs, seqno, ds[n]);
    }
  }

  /** The promise of the log: a commit that crashes anywhere, with any number of crashes in
      the mounts that follow, ends with all of the transaction in the home area or none. */
  lemma AllOrNothing(d: Dev, b: nat, h: Dev, recs: seq<Rec>, seqno: nat, ds: seq<Dev>)
    requires Quiet(d, b, h) && RecsOk(recs, b) && LogHolds(d, b, recs)
    requires ds != [] && Reboots(b, seqno, ds) && CrashedIn(CommitEpochs(d, [], b, recs, seqno), ds[0])
    ensures var r := Mount(ds[|ds| - 1], b, seqno);
            r.Some? && (Quiet(r.value, b, h) || Quiet(r.value, b, ApplyRecs(h, recs)))
  {
    hide Quiet, Already, CrashedIn, CommitEpochs, Mount, LogHolds;
    var last := |ds| - 1;
    CommitIsAtomic(d, b, h, recs, seqno, ds[0]);
    RebootsKeep(b, h, recs, seqno, ds, last);
    MountDecides(ds[last], b, h, recs, seqno);
  }

  /** Why the log must be flushed before the commit header is written: if the record, its
      data and the header are all still in the cache, a crash may leave the header and the
      record without the data, and mount then stores the stale byte `y` of the log. */
  lemma UnflushedLogTears(d: Dev, b: nat, h: Dev, x: Byte, y: Byte, seqno: nat) returns (left: Dev)
    requires |d| == b + REGION && Quiet(d, b, h) && 0 < b == |h| && d[DataPos(b, 0)] == y && y != x && y != h[0]
    ensures |left| == b + REGION
    ensures CanLeave(d, [Out(RecPos(b, 0), RecBytes(0, 1, 0)), Out(DataPos(b, 0), [x]), Out(b, Header(COMMITTED, 1, 1, seqno))], left)
    ensures Mount(left, b, seqno).Some? && Mount(left, b, seqno).value[..b] != h
    ensures Mount(left, b, seqno).value[..b] != ApplyRecs(h, [Rec(0, [x])])
  {
    hide RdLe32, Header, RecBytes, LogHolds, CanLeave, Mount, Do;
    var w1, w2, w3 := Out(RecPos(b, 0), RecBytes(0, 1, 0)), Out(DataPos(b, 0), [x]), Out(b, Header(COMMITTED, 1, 1, seqno));
    left := Do(Do(d, w1), w3);
    TornIsPossible(d, b, w1, w2, w3, left);
    TornIsSealed(d, b, h, y, seqno);
    MountDecides(left, b, h, [Rec(0, [y])], seqno);
    ApplyOne(h, x);
    ApplyOne(h, y);
  }

  lemma TornIsSealed(d: Dev, b: nat, h: Dev, y: Byte, seqno: nat)
    requires |d| == b + REGION && Quiet(d, b, h) && 0 < b == |h| && d[DataPos(b, 0)] == y
    ensures Sealed(Do(Do(d, Out(RecPos(b, 0), RecBytes(0, 1, 0))), Out(b, Header(COMMITTED, 1, 1, seqno))), b, h, [Rec(0, [y])])
  {
    hide RdLe32, Header, RecBytes, LogHolds;
    var d1 := Do(d, Out(RecPos(b, 0), RecBytes(0, 1, 0)));
    TornHolds(d, b, y);
    HeaderWritten(d1, b, COMMITTED, 1, 1, seqno);
    LogBehindHeader(d1, Do(d1, Out(b, Header(COMMITTED, 1, 1, seqno))), b, [Rec(0, [y])]);
    OneByte(y);
    assert d1[..b] == d[..b];
  }

  lemma OneByte(y: Byte)
    ensures DataLen([Rec(0, [y])]) == 1
  {
  }

  lemma ApplyOne(h: Dev, x: Byte)
    requires |h| > 0
    ensures ApplyRecs(h, [Rec(0, [x])])[0] == x
  {
    assert [Rec(0, [x])][1..] == [];
  }

  lemma TornHolds(d: Dev, b: nat, y: Byte)
    requires |d| == b + REGION && d[DataPos(b, 0)] == y
    ensures LogHolds(Do(d, Out(RecPos(b, 0), RecBytes(0, 1, 0))), b, [Rec(0, [y])])
  {
    hide RdLe32, RecBytes;
    var d' := Do(d, Out(RecPos(b, 0), RecBytes(0, 1, 0)));
    assert d'[RecPos(b, 0)..RecPos(b, 0) + 16] == RecBytes(0, 1, 0);
    RecRead(d', RecPos(b, 0), 0, 1, 0);
    assert [Rec(0, [y])][..0] == [];
    assert d'[DataPos(b, 0)..DataPos(b, 0) + 1] == [y];
  }

  lemma TornIsPossible(d: Dev, b: nat, w1: Out, w2: Out, w3: Out, left: Dev)
    requires DevOk(d, b) && w1.off == RecPos(b, 0) && |w1.data| == 16 && w2.off == DataPos(b, 0) && |w2.data| == 1 && w3.off == b && |w3.data| == HDR
    requires left == Do(Do(d, w1), w3)
    ensures CanLeave(d, [w1, w2, w3], left)
  {
    var ws := [w1, w2, w3];
    assert ws[..0] == [] && ws[..3] == ws && ws[1..] == [w2, w3] && [w2, w3][1..] == [w3] && [w3][1..] == [];
    assert DoAll(Do(Do(d, w1), w2), [w3]) == Do(Do(Do(d, w1), w2), w3);
    assert DoAll(Do(d, w1), [w2, w3]) == Do(Do(Do(d, w1), w2), w3);
    assert DoAll(d, ws) == Do(Do(Do(d, w1), w2), w3);
    forall s: nat ensures SomeVersion(d, ws, left, s) {
      if s == DataPos(b, 0) / SECTOR {
        assert SameSector(left, DoAll(d, ws[..0]), s);
      } else {
        assert SameSector(left, DoAll(d, ws[..3]), s);
      }
    }
  }
}
