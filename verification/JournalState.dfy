/** The journal as kept in memory and on disk, and the operations on it as functions: the
    open transaction, the pending list, commit, checkpoint and mount (kernel/ext4.c). An
    operation's disk writes are given as a list in program order, so that a crash is a
    prefix of that list. */
module JournalState {
  import opened Bytes
  import opened JournalRing
  import opened JournalFormat
  import opened JournalScan
  import opened JournalChain
  import opened JournalCrash
  import opened JournalRecovery

  // ---- disk ----

  datatype Disk = Disk(home: Home, log: Log)

  datatype DiskWrite = ToHome(fs: nat, data: Block) | ToLog(w: Write)

  function WriteOne(d: Disk, w: DiskWrite): Disk {
    match w
    case ToHome(fs, data) => d.(home := Store(d.home, fs, data))
    case ToLog(lw) => d.(log := PutOne(d.log, lw))
  }

  function WriteAll(d: Disk, ws: seq<DiskWrite>): Disk
    decreases |ws|
  {
    if ws == [] then d else WriteAll(WriteOne(d, ws[0]), ws[1..])
  }

  ghost predicate DiskOk(g: Geometry, d: Disk) {
    LogOk(g, d.log) && HomeOk(g, d.home)
  }

  // ---- the journal superblock ----

  /** `ext4_jbd2_store_super` rewrites three fields of journal block 0. */
  function SuperBlock(sb: Block, seqno: nat, start: nat, head: nat): (r: Block)
    requires |sb| >= 1024
    ensures |r| == |sb|
  {
    Splice(Splice(Splice(sb, 24, Be32(seqno)), 28, Be32(start)), 88, Be32(head))
  }

  function SuperSeq(sb: Block): nat requires |sb| >= 1024 { RdBe32(sb, 24) }
  function SuperStart(sb: Block): nat requires |sb| >= 1024 { RdBe32(sb, 28) }
  function SuperHead(sb: Block): nat requires |sb| >= 1024 { RdBe32(sb, 88) }

  /** What was stored is what the next mount loads. */
  lemma SuperRoundTrip(sb: Block, seqno: nat, start: nat, head: nat)
    requires |sb| >= 1024 && seqno < WORD && start < WORD && head < WORD
    ensures var r := SuperBlock(sb, seqno, start, head);
            SuperSeq(r) == seqno && SuperStart(r) == start && SuperHead(r) == head
  {
    hide Word, Be32;
    var r := SuperBlock(sb, seqno, start, head);
    assert r[24..28] == Be32(seqno) && r[28..32] == Be32(start) && r[88..92] == Be32(head);
    Be32RoundTrip(r, 24, seqno);
    Be32RoundTrip(r, 28, start);
    Be32RoundTrip(r, 88, head);
  }

  // ---- memory ----

  datatype Pending = Pending(seqno: nat, start: nat, end: nat, dirty: seq<Image>)

  datatype Mem = Mem(seqno: nat, start: nat, head: nat, tail: nat, pending: seq<Pending>,
                     active: bool, dirty: seq<Image>, revokes: seq<nat>, overflow: bool)

  function RefreshStartTail(m: Mem): Mem {
    if m.pending == [] then m.(start := 0, tail := m.head)
    else m.(start := m.pending[0].start, tail := m.pending[0].start)
  }

  function SuperSeqOf(m: Mem): nat {
    if m.pending == [] then m.seqno else m.pending[0].seqno
  }

  /** The write `ext4_jbd2_store_super` makes. */
  function StoreSuper(m: Mem, log: Log): (w: DiskWrite)
    requires |log| > 0 && |log[0]| >= 1024
    ensures w.ToLog? && w.w.pos == 0 && |w.w.blk| == |log[0]|
  {
    ToLog(Write(0, SuperBlock(log[0], SuperSeqOf(m), m.start, m.head)))
  }

  // ---- the open transaction ----

  function FindImage(imgs: seq<Image>, fs: nat, i: nat): (k: nat)
    requires i <= |imgs|
    ensures i <= k <= |imgs| && (forall j :: i <= j < k ==> imgs[j].fs != fs) && (k < |imgs| ==> imgs[k].fs == fs)
    decreases |imgs| - i
  {
    if i == |imgs| || imgs[i].fs == fs then i else FindImage(imgs, fs, i + 1)
  }

  function FindNat(s: seq<nat>, x: nat, i: nat): (k: nat)
    requires i <= |s|
    ensures i <= k <= |s| && (forall j :: i <= j < k ==> s[j] != x) && (k < |s| ==> s[k] == x)
    decreases |s| - i
  {
    if i == |s| || s[i] == x then i else FindNat(s, x, i + 1)
  }

  function RemoveNat(s: seq<nat>, x: nat): seq<nat> {
    var k := FindNat(s, x, 0);
    if k < |s| then s[..k] + s[k + 1..] else s
  }

  /** The members of a list. */
  ghost function Members(s: seq<nat>): set<nat> { set i | 0 <= i < |s| :: s[i] }

  function RemoveImage(imgs: seq<Image>, fs: nat): seq<Image> {
    var k := FindImage(imgs, fs, 0);
    if k < |imgs| then imgs[..k] + imgs[k + 1..] else imgs
  }

  /** One block's worth of `ext4_jbd2_tx_write_bytes`; `seen` is what a read of the block
      returns now. `None` is the failure for want of a slot. */
  function WriteChunk(m: Mem, seen: Block, fs: nat, off: nat, bytes: seq<Byte>): Option<Mem>
    requires off + |bytes| <= |seen| && forall i :: 0 <= i < |m.dirty| ==> |m.dirty[i].data| == |seen|
  {
    var k := FindImage(m.dirty, fs, 0);
    if k < |m.dirty| then
      Some(m.(dirty := m.dirty[k := Image(fs, Splice(m.dirty[k].data, off, bytes))], revokes := RemoveNat(m.revokes, fs)))
    else if |m.dirty| >= TX_MAX_BLOCKS then None
    else Some(m.(dirty := m.dirty + [Image(fs, Splice(seen, off, bytes))], revokes := RemoveNat(m.revokes, fs)))
  }

  /** `ext4_jbd2_note_revoke`. */
  function NoteRevoke(g: Geometry, m: Mem, fs: nat): Mem {
    if !m.active || fs >= g.blocks then m
    else
      var m1 := m.(dirty := RemoveImage(m.dirty, fs));
      if FindNat(m.revokes, fs, 0) < |m.revokes| then m1
      else if |m.revokes| < TX_MAX_REVOKES then m1.(revokes := m.revokes + [fs])
      else m1.(overflow := true)
  }

  function Abort(m: Mem): Mem {
    if !m.active then m else m.(active := false, dirty := [], revokes := [], overflow := false)
  }

  // ---- what the file system sees ----

  /** The pending transactions, as far as reads are concerned. */
  function PendingImages(ps: seq<Pending>): seq<Image>
    decreases |ps|
  {
    if ps == [] then [] else ps[0].dirty + PendingImages(ps[1..])
  }

  /** Home overlaid by the pending transactions in order. */
  function Committed(m: Mem, home: Home, b: nat): Block
    requires b < |home|
  {
    Or(LastImage(PendingImages(m.pending), b), home[b])
  }

  /** ... and then by the open transaction: what `ext4_disk_read_bytes` returns. */
  function View(m: Mem, home: Home, b: nat): Block
    requires b < |home|
  {
    if m.active then Or(LastImage(m.dirty, b), Committed(m, home, b)) else Committed(m, home, b)
  }

  lemma {:induction false} LastImageAppend(x: seq<Image>, y: seq<Image>, b: nat)
    ensures LastImage(x + y, b) == if LastImage(y, b).Some? then LastImage(y, b) else LastImage(x, b)
    decreases |x|
  {
    if x == [] {
      assert x + y == y;
    } else {
      assert (x + y)[1..] == x[1..] + y;
      LastImageAppend(x[1..], y, b);
    }
  }

  /** With at most one image a block, the image found is the last one. */
  lemma LastImageIs(imgs: seq<Image>, b: nat)
    requires Distinct(imgs)
    ensures var k := FindImage(imgs, b, 0); LastImage(imgs, b) == if k < |imgs| then Some(imgs[k].data) else None
  {
    LastImageIn(imgs, b);
  }

  /** The invariant of the open transaction: one image a block, one revoke a block, and no
      block both logged and revoked. */
  ghost predicate OpenOk(g: Geometry, m: Mem) {
    && Images(g, m.dirty) && Distinct(m.dirty) && |m.dirty| <= TX_MAX_BLOCKS
    && DistinctNats(m.revokes) && |m.revokes| <= TX_MAX_REVOKES && (forall i :: 0 <= i < |m.revokes| ==> m.revokes[i] < g.blocks)
    && (forall i, j :: 0 <= i < |m.dirty| && 0 <= j < |m.revokes| ==> m.dirty[i].fs != m.revokes[j])
  }

  /** A transactional write changes exactly its bytes of its block, in the view, and takes back
      exactly the revoke of its block. */
  lemma WriteChunkView(g: Geometry, m: Mem, home: Home, fs: nat, off: nat, bytes: seq<Byte>, b: nat)
    requires HomeOk(g, home) && m.active && OpenOk(g, m) && fs < g.blocks && b < g.blocks
    requires |View(m, home, fs)| == g.bs && off + |bytes| <= g.bs
    ensures var r := WriteChunk(m, View(m, home, fs), fs, off, bytes);
            (r.None? <==> |m.dirty| == TX_MAX_BLOCKS && FindImage(m.dirty, fs, 0) == |m.dirty|) &&
            (r.Some? ==> OpenOk(g, r.value) && r.value.pending == m.pending && r.value.active &&
                         Members(r.value.revokes) == Members(m.revokes) - {fs} && r.value.overflow == m.overflow &&
                         View(r.value, home, b) == if b == fs then Splice(View(m, home, fs), off, bytes) else View(m, home, b))
  {
    hide Committed, LastImage, RemoveNat;
    var seen := View(m, home, fs);
    var r := WriteChunk(m, seen, fs, off, bytes);
    var k := FindImage(m.dirty, fs, 0);
    LastImageIs(m.dirty, fs);
    if r.Some? {
      RemoveNatOk(m.revokes, fs);
      CommittedSame(m, r.value, home, b);
      var img := Image(fs, Splice(seen, off, bytes));
      if k < |m.dirty| {
        LastImageUpdate(m.dirty, k, img, b);
      } else {
        LastImageAppend(m.dirty, [img], b);
        LastImageOne(img, b);
      }
    }
  }

  /** The transaction holds the patched block, and every other image as before. */
  lemma WriteChunkImages(g: Geometry, m: Mem, home: Home, fs: nat, off: nat, bytes: seq<Byte>, b: nat)
    requires HomeOk(g, home) && m.active && OpenOk(g, m) && fs < g.blocks
    requires |View(m, home, fs)| == g.bs && off + |bytes| <= g.bs
    ensures var r := WriteChunk(m, View(m, home, fs), fs, off, bytes);
            r.Some? ==> LastImage(r.value.dirty, b) == if b == fs then Some(Splice(View(m, home, fs), off, bytes)) else LastImage(m.dirty, b)
  {
    hide Committed, LastImage, RemoveNat;
    var seen := View(m, home, fs);
    var r := WriteChunk(m, seen, fs, off, bytes);
    var k := FindImage(m.dirty, fs, 0);
    LastImageIs(m.dirty, fs);
    if r.Some? {
      var img := Image(fs, Splice(seen, off, bytes));
      if k < |m.dirty| {
        LastImageUpdate(m.dirty, k, img, b);
      } else {
        LastImageAppend(m.dirty, [img], b);
        LastImageOne(img, b);
      }
    }
  }

  lemma LastImageUpdate(imgs: seq<Image>, k: nat, img: Image, b: nat)
    requires Distinct(imgs) && k < |imgs| && imgs[k].fs == img.fs
    ensures Distinct(imgs[k := img]) && LastImage(imgs[k := img], b) == if b == img.fs then Some(img.data) else LastImage(imgs, b)
  {
    hide LastImage;
    var imgs' := imgs[k := img];
    LastImageIs(imgs, b);
    LastImageIs(imgs', b);
    FindImageSame(imgs', b, FindImage(imgs, b, 0));
  }

  lemma CommittedSame(m: Mem, m': Mem, home: Home, b: nat)
    requires m.pending == m'.pending && b < |home|
    ensures Committed(m, home, b) == Committed(m', home, b)
  {
  }

  lemma FindImageSame(imgs: seq<Image>, b: nat, k: nat)
    requires Distinct(imgs) && k <= |imgs| && (k < |imgs| ==> imgs[k].fs == b)
    requires k == |imgs| ==> forall i :: 0 <= i < |imgs| ==> imgs[i].fs != b
    ensures FindImage(imgs, b, 0) == k
  {
  }

  lemma RemoveNatOk(s: seq<nat>, x: nat)
    requires DistinctNats(s)
    ensures DistinctNats(RemoveNat(s, x)) && |RemoveNat(s, x)| <= |s|
    ensures forall i :: 0 <= i < |RemoveNat(s, x)| ==> RemoveNat(s, x)[i] in s && RemoveNat(s, x)[i] != x
    ensures Members(RemoveNat(s, x)) == Members(s) - {x}
  {
    var k := FindNat(s, x, 0);
    var r := RemoveNat(s, x);
    forall i | 0 <= i < |r| ensures r[i] in s && r[i] != x {
      assert r[i] == if i < k then s[i] else s[i + 1];
    }
    forall i, j | 0 <= i < j < |r| ensures r[i] != r[j] {
      assert r[i] == if i < k then s[i] else s[i + 1];
      assert r[j] == if j < k then s[j] else s[j + 1];
    }
    forall y | y in Members(s) - {x} ensures y in Members(r) {
      var i :| 0 <= i < |s| && s[i] == y;
      assert r[if i < k then i else i - 1] == y;
    }
  }

  lemma RemoveImageOk(imgs: seq<Image>, fs: nat)
    requires Distinct(imgs)
    ensures Distinct(RemoveImage(imgs, fs)) && |RemoveImage(imgs, fs)| <= |imgs|
    ensures forall i :: 0 <= i < |RemoveImage(imgs, fs)| ==> RemoveImage(imgs, fs)[i] in imgs && RemoveImage(imgs, fs)[i].fs != fs
  {
    var k := FindImage(imgs, fs, 0);
    var r := RemoveImage(imgs, fs);
    forall i | 0 <= i < |r| ensures r[i] in imgs && r[i].fs != fs {
      assert r[i] == if i < k then imgs[i] else imgs[i + 1];
    }
  }

  lemma RemoveImageView(imgs: seq<Image>, fs: nat, b: nat)
    requires Distinct(imgs)
    ensures LastImage(RemoveImage(imgs, fs), b) == if b == fs then None else LastImage(imgs, b)
  {
    hide LastImage;
    var k, kb := FindImage(imgs, fs, 0), FindImage(imgs, b, 0);
    var r := RemoveImage(imgs, fs);
    RemoveImageOk(imgs, fs);
    LastImageIs(r, b);
    LastImageIs(imgs, b);
    if b != fs && kb < |imgs| {
      FindImageSame(r, b, if kb < k then kb else kb - 1);
    }
  }

  /** A revoke drops the block's image from the transaction and nothing else; the block then
      reads as before the transaction. */
  lemma NoteRevokeView(g: Geometry, m: Mem, home: Home, fs: nat, b: nat)
    requires HomeOk(g, home) && m.active && OpenOk(g, m) && b < g.blocks
    ensures var m' := NoteRevoke(g, m, fs);
            OpenOk(g, m') && m'.pending == m.pending && m'.active &&
            View(m', home, b) == (if b == fs then Committed(m, home, b) else View(m, home, b))
  {
    hide Committed, LastImage;
    var m' := NoteRevoke(g, m, fs);
    CommittedSame(m, m', home, b);
    if fs < g.blocks {
      RemoveImageOk(m.dirty, fs);
      RemoveImageView(m.dirty, fs, b);
    }
  }

  /** The block joins those revoked before it, all of which stay; exactly a full table without
      it overflows. */
  lemma NoteRevokeTable(g: Geometry, m: Mem, fs: nat)
    requires m.active && OpenOk(g, m) && fs < g.blocks
    ensures var m', full := NoteRevoke(g, m, fs), fs !in Members(m.revokes) && |Members(m.revokes)| == TX_MAX_REVOKES;
            && Members(m'.revokes) == (if full then Members(m.revokes) else Members(m.revokes) + {fs})
            && m'.overflow == (m.overflow || full)
  {
    hide RemoveImage;
    var k := FindNat(m.revokes, fs, 0);
    MembersSize(m.revokes);
    MembersMore(m.revokes, fs);
    if k < |m.revokes| {
      assert m.revokes[k] in Members(m.revokes);
      assert Members(m.revokes) + {fs} == Members(m.revokes);
    }
  }

  lemma RevokeTable(g: Geometry, m: Mem, fs: nat)
    ensures m.active && fs < g.blocks && OpenOk(g, m) ==>
            var m', full := NoteRevoke(g, m, fs), fs !in m.revokes && |m.revokes| == TX_MAX_REVOKES;
            Members(m'.revokes) == (if full then Members(m.revokes) else Members(m.revokes) + {fs}) && m'.overflow == (m.overflow || full)
  {
    hide NoteRevoke;
    if m.active && fs < g.blocks && OpenOk(g, m) {
      NoteRevokeTable(g, m, fs);
      MembersSize(m.revokes);
    }
  }

  lemma MembersMore(s: seq<nat>, x: nat)
    ensures Members(s + [x]) == Members(s) + {x}
  {
    assert (s + [x])[|s|] == x;
    forall y | y in Members(s) ensures y in Members(s + [x]) {
      var i :| 0 <= i < |s| && s[i] == y;
      assert (s + [x])[i] == y;
    }
  }

  lemma {:induction false} MembersSize(s: seq<nat>)
    requires DistinctNats(s)
    ensures |Members(s)| == |s|
    decreases |s|
  {
    if s == [] {
      assert Members(s) == {};
    } else {
      var front, x := s[..|s| - 1], s[|s| - 1];
      MembersSize(front);
      MembersMore(front, x);
      assert s == front + [x];
      assert x !in Members(front);
    }
  }
}
