/** The disk as a range of bytes: what a read returns when pending and open transactions lie
    over the home blocks, and what a transactional write changes (kernel/ext4.c). */
module JournalView {
  import opened Bytes
  import opened JournalRing
  import opened JournalFormat
  import opened JournalScan
  import opened JournalRecovery
  import opened JournalState
  import opened JournalRun
  import opened JournalHistory

  /** The block of address `a`, and the place inside it. */
  function BlockOf(a: nat, bs: nat): nat
    requires bs > 0
  {
    if a < bs then 0 else 1 + BlockOf(a - bs, bs)
  }

  function Inside(a: nat, bs: nat): (r: nat)
    requires bs > 0
    ensures r < bs && r <= a
  {
    if a < bs then a else Inside(a - bs, bs)
  }

  lemma {:induction false} Addressed(a: nat, bs: nat)
    requires bs > 0
    ensures BlockOf(a, bs) * bs + Inside(a, bs) == a
    ensures BlockOf(a, bs) == a / bs && Inside(a, bs) == a % bs
  {
    if a >= bs {
      Addressed(a - bs, bs);
      assert BlockOf(a, bs) * bs == BlockOf(a - bs, bs) * bs + bs;
    }
    ModUnique(a, bs, BlockOf(a, bs), Inside(a, bs));
  }

  /** Address `a` lies in block `fs` exactly when `fs` is its quotient. */
  lemma InBlock(a: nat, bs: nat, fs: nat)
    requires bs > 0
    ensures BlockOf(a, bs) == fs <==> fs * bs <= a < fs * bs + bs
    ensures BlockOf(a, bs) == fs ==> Inside(a, bs) == a - fs * bs
  {
    Addressed(a, bs);
    if fs * bs <= a < fs * bs + bs {
      ModUnique(a, bs, fs, a - fs * bs);
    }
  }

  /** The byte at address `a` once the images lie over a byte `x` that was there. */
  function OverByte(imgs: seq<Image>, bs: nat, a: nat, x: Byte): Byte
    requires bs > 0
  {
    match LastImage(imgs, BlockOf(a, bs))
    case Some(d) => if Inside(a, bs) < |d| then d[Inside(a, bs)] else x
    case None => x
  }

  lemma OverAppend(imgs: seq<Image>, more: seq<Image>, bs: nat, a: nat, x: Byte)
    requires bs > 0 && (forall i :: 0 <= i < |more| ==> |more[i].data| == bs) && (forall i :: 0 <= i < |imgs| ==> |imgs[i].data| == bs)
    ensures OverByte(imgs + more, bs, a, x) == OverByte(more, bs, a, OverByte(imgs, bs, a, x))
  {
    hide LastImage;
    LastImageAppend(imgs, more, BlockOf(a, bs));
    LastImageIn(more, BlockOf(a, bs));
  }

  lemma OverOne(img: Image, bs: nat, a: nat, x: Byte)
    requires bs > 0 && |img.data| == bs
    ensures OverByte([img], bs, a, x) == if img.fs * bs <= a < img.fs * bs + bs then img.data[a - img.fs * bs] else x
  {
    hide LastImage;
    LastImageOne(img, BlockOf(a, bs));
    InBlock(a, bs, img.fs);
  }

  /** `memcpy` of a part of `src` into the buffer. */
  method CopyIn(buf: array<Byte>, dst: nat, src: seq<Byte>, from: nat, n: nat)
    requires dst + n <= buf.Length && from + n <= |src|
    modifies buf
    ensures forall i :: 0 <= i < buf.Length ==> buf[i] == if dst <= i < dst + n then src[from + i - dst] else old(buf[i])
  {
    for k := 0 to n
      invariant forall i :: 0 <= i < buf.Length ==> buf[i] == if dst <= i < dst + k then src[from + i - dst] else old(buf[i])
    {
      buf[dst + k] := src[from + k];
    }
  }

  /** The part of one image that overlaps the request is copied over it. */
  method OverlayOne(img: Image, bs: nat, off: nat, buf: array<Byte>)
    requires bs > 0 && |img.data| == bs
    modifies buf
    ensures forall i :: 0 <= i < buf.Length ==> buf[i] == OverByte([img], bs, off + i, old(buf[i]))
  {
    hide OverByte;
    var first, end := img.fs * bs, off + buf.Length;
    if first + bs > off && first < end {
      var from := if first > off then first else off;
      var to := if first + bs < end then first + bs else end;
      CopyIn(buf, from - off, img.data, from - first, to - from);
    }
    forall i | 0 <= i < buf.Length ensures buf[i] == OverByte([img], bs, off + i, old(buf[i])) {
      OverOne(img, bs, off + i, old(buf[i]));
    }
  }

  /** The overlay loop of a transaction: its images in order. */
  method Overlay(imgs: seq<Image>, bs: nat, off: nat, buf: array<Byte>)
    requires bs > 0 && forall i :: 0 <= i < |imgs| ==> |imgs[i].data| == bs
    modifies buf
    ensures forall i :: 0 <= i < buf.Length ==> buf[i] == OverByte(imgs, bs, off + i, old(buf[i]))
  {
    hide OverByte;
    ghost var was := buf[..];
    forall i | 0 <= i < buf.Length ensures OverByte([], bs, off + i, was[i]) == was[i] {
      OverNone(bs, off + i, was[i]);
    }
    assert imgs[..0] == [];
    for n := 0 to |imgs|
      invariant forall i :: 0 <= i < buf.Length ==> buf[i] == OverByte(imgs[..n], bs, off + i, was[i])
    {
      OverlayOne(imgs[n], bs, off, buf);
      assert imgs[..n + 1] == imgs[..n] + [imgs[n]];
      forall i | 0 <= i < buf.Length ensures buf[i] == OverByte(imgs[..n + 1], bs, off + i, was[i]) {
        OverAppend(imgs[..n], [imgs[n]], bs, off + i, was[i]);
      }
    }
    assert imgs[..|imgs|] == imgs;
  }

  lemma OverNone(bs: nat, a: nat, x: Byte)
    requires bs > 0
    ensures OverByte([], bs, a, x) == x
  {
    NoImage(BlockOf(a, bs));
  }

  // ---- the view as bytes ----

  ghost predicate AddressIn(g: Geometry, a: nat) { g.bs > 0 && BlockOf(a, g.bs) < g.blocks }

  /** The byte of the home blocks at address `a`. */
  function HomeByte(home: Home, bs: nat, a: nat): Byte
    requires bs > 0
  {
    var b, o := BlockOf(a, bs), Inside(a, bs);
    if b < |home| && o < |home[b]| then home[b][o] else 0
  }

  lemma {:induction false} BlockMono(a: nat, b: nat, bs: nat)
    requires bs > 0 && a <= b
    ensures BlockOf(a, bs) <= BlockOf(b, bs)
    decreases b
  {
    if a >= bs {
      BlockMono(a - bs, b - bs, bs);
    }
  }

  /** What a read of the byte at address `a` returns. */
  ghost function ByteView(g: Geometry, disk: Disk, m: Mem, a: nat): Byte
    requires Sized(g, disk, m) && AddressIn(g, a)
  {
    SeenSize(g, disk, m, BlockOf(a, g.bs));
    View(m, disk.home, BlockOf(a, g.bs))[Inside(a, g.bs)]
  }

  /** The buffer holds what is seen from address `off` on. */
  ghost predicate Seen(g: Geometry, disk: Disk, m: Mem, off: nat, buf: seq<Byte>) {
    forall i :: 0 <= i < |buf| ==> SeenByte(g, disk, m, off + i, buf[i])
  }

  ghost predicate SeenByte(g: Geometry, disk: Disk, m: Mem, a: nat, x: Byte) {
    Sized(g, disk, m) && AddressIn(g, a) && x == ByteView(g, disk, m, a)
  }

  /** The overlays in the order of the code give the view. */
  lemma OverlaysAreView(g: Geometry, disk: Disk, m: Mem, a: nat, x: Byte)
    requires Sized(g, disk, m) && AddressIn(g, a) && x == HomeByte(disk.home, g.bs, a)
    ensures var y := OverByte(PendingImages(m.pending), g.bs, a, x);
            ByteView(g, disk, m, a) == if m.active then OverByte(m.dirty, g.bs, a, y) else y
  {
    hide LastImage, PendingImages;
    LastImageIn(m.dirty, BlockOf(a, g.bs));
    LastImageIn(PendingImages(m.pending), BlockOf(a, g.bs));
  }

  lemma OverlaysSeen(g: Geometry, disk: Disk, m: Mem, off: nat, raw: seq<Byte>, mid: seq<Byte>, buf: seq<Byte>)
    requires Sized(g, disk, m) && g.bs > 0 && |raw| == |mid| == |buf| && (buf != [] ==> AddressIn(g, off + |buf| - 1))
    requires forall i :: 0 <= i < |raw| ==> raw[i] == HomeByte(disk.home, g.bs, off + i)
    requires forall i :: 0 <= i < |mid| ==> mid[i] == OverByte(PendingImages(m.pending), g.bs, off + i, raw[i])
    requires forall i :: 0 <= i < |buf| ==> buf[i] == if m.active then OverByte(m.dirty, g.bs, off + i, mid[i]) else mid[i]
    ensures Seen(g, disk, m, off, buf)
  {
    hide Sized, OverByte, HomeByte, ByteView, BlockOf;
    forall i | 0 <= i < |buf| ensures SeenByte(g, disk, m, off + i, buf[i]) {
      BlockMono(off + i, off + |buf| - 1, g.bs);
      OverlaysAreView(g, disk, m, off + i, raw[i]);
    }
  }

  lemma {:induction false} PendingAppend(ps: seq<Pending>, p: Pending)
    ensures PendingImages(ps + [p]) == PendingImages(ps) + p.dirty
    decreases |ps|
  {
    if ps == [] {
      assert ps + [p] == [p] && [p][1..] == [];
      assert p.dirty + [] == p.dirty;
    } else {
      assert (ps + [p])[1..] == ps[1..] + [p];
      PendingAppend(ps[1..], p);
    }
  }

  // ---- transactional writes ----

  datatype Written = Written(m: Mem, n: nat)

  /** `ext4_jbd2_tx_write_bytes`, block by block; `n` is how many bytes went in before it
      gave up, if it did. */
  ghost function WriteChunks(g: Geometry, disk: Disk, m: Mem, off: nat, bytes: seq<Byte>): (r: Written)
    requires Sized(g, disk, m) && g.Valid()
    ensures r.n <= |bytes|
    decreases |bytes|
  {
    hide View, LastImage, PendingImages, RemoveNat;
    if bytes == [] || BlockOf(off, g.bs) >= g.blocks then Written(m, 0)
    else
      var fs, at := BlockOf(off, g.bs), Inside(off, g.bs);
      var c := if g.bs - at > |bytes| then |bytes| else g.bs - at;
      SeenSize(g, disk, m, fs);
      match WriteChunk(m, View(m, disk.home, fs), fs, at, bytes[..c])
      case None => Written(m, 0)
      case Some(m') =>
        ChunkSized(g, disk, m, fs, at, bytes[..c]);
        var r := WriteChunks(g, disk, m', off + c, bytes[c..]);
        Written(r.m, c + r.n)
  }

  lemma ChunkSized(g: Geometry, disk: Disk, m: Mem, fs: nat, at: nat, bytes: seq<Byte>)
    requires Sized(g, disk, m) && fs < g.blocks && at + |bytes| <= g.bs && |View(m, disk.home, fs)| == g.bs
    ensures var r := WriteChunk(m, View(m, disk.home, fs), fs, at, bytes); r.Some? ==> Sized(g, disk, r.value)
  {
    hide View, LastImage, PendingImages, RemoveNat, Splice;
  }

  lemma ChunksStep(g: Geometry, disk: Disk, m: Mem, off: nat, bytes: seq<Byte>, fs: nat, at: nat, c: nat, m': Mem)
    requires Sized(g, disk, m) && g.Valid() && bytes != [] && fs == BlockOf(off, g.bs) < g.blocks && at == Inside(off, g.bs)
    requires c == (if g.bs - at > |bytes| then |bytes| else g.bs - at) && |View(m, disk.home, fs)| == g.bs
    ensures WriteChunk(m, View(m, disk.home, fs), fs, at, bytes[..c]) == None ==> WriteChunks(g, disk, m, off, bytes) == Written(m, 0)
    ensures WriteChunk(m, View(m, disk.home, fs), fs, at, bytes[..c]) == Some(m') && Sized(g, disk, m') ==>
              var r := WriteChunks(g, disk, m', off + c, bytes[c..]); WriteChunks(g, disk, m, off, bytes) == Written(r.m, c + r.n)
  {
    hide View, WriteChunk, PendingImages, BlockOf, Inside;
  }

  lemma ChunksStop(g: Geometry, disk: Disk, m: Mem, off: nat, bytes: seq<Byte>)
    requires Sized(g, disk, m) && g.Valid() && (bytes == [] || BlockOf(off, g.bs) >= g.blocks)
    ensures WriteChunks(g, disk, m, off, bytes) == Written(m, 0)
  {
  }

  lemma NextChunk(g: Geometry, off: nat, c: nat, a: nat)
    requires g.bs > 0 && c <= g.bs - Inside(off, g.bs)
    ensures BlockOf(a, g.bs) == BlockOf(off, g.bs) && Inside(off, g.bs) <= Inside(a, g.bs) < Inside(off, g.bs) + c <==> off <= a < off + c
    ensures off <= a < off + c ==> Inside(a, g.bs) == Inside(off, g.bs) + (a - off)
  {
    InBlock(off, g.bs, BlockOf(off, g.bs));
    InBlock(a, g.bs, BlockOf(off, g.bs));
  }

  lemma ChunkBytes(g: Geometry, disk: Disk, m: Mem, off: nat, bytes: seq<Byte>, m': Mem, a: nat)
    requires Sized(g, disk, m) && g.Valid() && m.active && OpenOk(g, m) && BlockOf(off, g.bs) < g.blocks && AddressIn(g, a)
    requires |View(m, disk.home, BlockOf(off, g.bs))| == g.bs && |bytes| <= g.bs - Inside(off, g.bs)
    requires WriteChunk(m, View(m, disk.home, BlockOf(off, g.bs)), BlockOf(off, g.bs), Inside(off, g.bs), bytes) == Some(m') && Sized(g, disk, m')
    ensures m'.active && OpenOk(g, m') && m'.pending == m.pending
    ensures ByteView(g, disk, m', a) == if off <= a < off + |bytes| then bytes[a - off] else ByteView(g, disk, m, a)
  {
    hide View, WriteChunk, Images, OpenOk, PendingImages;
    WriteChunkView(g, m, disk.home, BlockOf(off, g.bs), Inside(off, g.bs), bytes, BlockOf(a, g.bs));
    NextChunk(g, off, |bytes|, a);
    SeenSize(g, disk, m, BlockOf(a, g.bs));
    InBlock(a, g.bs, BlockOf(a, g.bs));
  }

  /** A transactional write changes exactly the bytes it wrote, and when it does not fail it
      wrote all of them. */
  lemma {:induction false} WriteChunksView(g: Geometry, disk: Disk, m: Mem, off: nat, bytes: seq<Byte>, a: nat)
    requires Sized(g, disk, m) && g.Valid() && m.active && OpenOk(g, m) && AddressIn(g, a)
    ensures var r := WriteChunks(g, disk, m, off, bytes);
            r.m.active && OpenOk(g, r.m) && Sized(g, disk, r.m) && r.m.pending == m.pending &&
            ByteView(g, disk, r.m, a) == if off <= a < off + r.n then bytes[a - off] else ByteView(g, disk, m, a)
    decreases |bytes|
  {
    hide View, WriteChunk, WriteChunks, OpenOk, PendingImages, ByteView, BlockOf;
    if bytes != [] && BlockOf(off, g.bs) < g.blocks {
      var fs, at := BlockOf(off, g.bs), Inside(off, g.bs);
      var c := if g.bs - at > |bytes| then |bytes| else g.bs - at;
      SeenSize(g, disk, m, fs);
      var r := WriteChunk(m, View(m, disk.home, fs), fs, at, bytes[..c]);
      ChunksStep(g, disk, m, off, bytes, fs, at, c, if r.Some? then r.value else m);
      if r.Some? {
        ChunkSized(g, disk, m, fs, at, bytes[..c]);
        ChunkBytes(g, disk, m, off, bytes[..c], r.value, a);
        WriteChunksView(g, disk, r.value, off + c, bytes[c..], a);
      }
    } else {
      ChunksStop(g, disk, m, off, bytes);
    }
  }
}
