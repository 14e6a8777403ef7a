/** The on-disk records of the JBD2 journal, byte by byte: descriptor blocks with their
    tags, escaped data blocks, revoke blocks and commit blocks, the writer's side
    (`ext4_jbd2_tx_commit`) and the parser's side (`ext4_jbd2_parse_*`) of kernel/ext4.c.
    Checksums are off, as mkfs leaves them. */
module JournalFormat {
  import opened Bytes
  import opened JournalRing

  const MAGIC: nat := 0xC03B_3998
  const DESCRIPTOR: nat := 1
  const COMMIT: nat := 2
  const SUPER_V1: nat := 3
  const SUPER_V2: nat := 4
  const REVOKE: nat := 5

  const ESCAPE: nat := 1
  const SAME_UUID: nat := 2
  const LAST_TAG: nat := 8

  type Block = seq<Byte>

  /** The image of one file system block, as held by an open or a pending transaction. */
  datatype Image = Image(fs: nat, data: Block)

  /** Entries of the replay tables. */
  datatype Update = Update(fs: nat, jblock: nat, seqno: nat, escape: bool)
  datatype Revoked = Revoked(fs: nat, seqno: nat)

  datatype Option<T> = None | Some(value: T)

  // ---- writer ----

  function Header(kind: nat, seqno: nat): (s: seq<Byte>)
    ensures |s| == 12
  {
    Be32(MAGIC) + Be32(kind) + Be32(seqno)
  }

  predicate Escapes(data: Block)
    requires |data| >= 4
  {
    RdBe32(data, 0) == MAGIC
  }

  /** A data block as logged: an image that starts with the magic loses those four bytes. */
  function Escaped(data: Block): (b: Block)
    requires |data| >= 4
    ensures |b| == |data|
  {
    hide *;
    if Escapes(data) then Splice(data, 0, Be32(0)) else data
  }

  /** `ext4_jbd2_apply_updates` puts the magic back. */
  function Unescaped(b: Block, escape: bool): (data: Block)
    requires |b| >= 4
    ensures |data| == |b|
  {
    if escape then Splice(b, 0, Be32(MAGIC)) else b
  }

  function TagFlags(escape: bool, last: bool): (f: nat)
    ensures f < 16 && f / 2 % 2 == 1 && f / 4 % 2 == 0
    ensures (f % 2 == 1) == escape && (f / 8 % 2 == 1) == last
  {
    SAME_UUID + (if escape then ESCAPE else 0) + (if last then LAST_TAG else 0)
  }

  function Tag(g: Geometry, fs: nat, escape: bool, last: bool): (s: seq<Byte>)
    ensures |s| == TagBytes(g)
  {
    Be32(fs) + Be16(0) + Be16(TagFlags(escape, last)) + (if g.wide then Be32(fs / WORD) else [])
  }

  /** The first `n` tags of a descriptor for `imgs`. */
  function Tags(g: Geometry, imgs: seq<Image>, n: nat): (s: seq<Byte>)
    requires n <= |imgs| && forall i :: 0 <= i < |imgs| ==> |imgs[i].data| >= 4
    ensures |s| == TagSpan(g, n)
  {
    if n == 0 then []
    else Tags(g, imgs, n - 1) + Tag(g, imgs[n - 1].fs, Escapes(imgs[n - 1].data), n == |imgs|)
  }

  ghost predicate Images(g: Geometry, imgs: seq<Image>) {
    forall i :: 0 <= i < |imgs| ==> |imgs[i].data| == g.bs && imgs[i].fs < g.blocks
  }

  lemma TagsFit(g: Geometry, n: nat)
    requires g.Valid() && n <= TagsPerDesc(g)
    ensures 12 + TagSpan(g, n) <= g.bs
  {
  }

  function DescBlock(g: Geometry, seqno: nat, imgs: seq<Image>): (b: Block)
    requires g.Valid() && Images(g, imgs) && |imgs| <= TagsPerDesc(g)
    ensures |b| == g.bs
  {
    TagsFit(g, |imgs|);
    Pad(g.bs, Header(DESCRIPTOR, seqno) + Tags(g, imgs, |imgs|))
  }

  function Entry(g: Geometry, fs: nat): (s: seq<Byte>)
    ensures |s| == RevokeBytes(g)
  {
    Be32(fs) + if g.wide then Be32(fs / WORD) else []
  }

  function Entries(g: Geometry, revs: seq<nat>, n: nat): (s: seq<Byte>)
    requires n <= |revs|
    ensures |s| == RevokeSpan(g, n)
  {
    if n == 0 then [] else Entries(g, revs, n - 1) + Entry(g, revs[n - 1])
  }

  lemma EntriesFit(g: Geometry, n: nat)
    requires g.Valid() && n <= RevokesPerBlock(g)
    ensures 16 + RevokeSpan(g, n) <= g.bs
  {
  }

  function RevokeBlock(g: Geometry, seqno: nat, revs: seq<nat>): (b: Block)
    requires g.Valid() && |revs| <= RevokesPerBlock(g)
    ensures |b| == g.bs
  {
    EntriesFit(g, |revs|);
    Pad(g.bs, Header(REVOKE, seqno) + Be32(16 + RevokeSpan(g, |revs|)) + Entries(g, revs, |revs|))
  }

  function CommitBlock(g: Geometry, seqno: nat): (b: Block)
    requires g.Valid()
    ensures |b| == g.bs
  {
    Pad(g.bs, Header(COMMIT, seqno))
  }

  // ---- parser ----

  /** A block that starts with the magic, whatever its kind, and carries `seqno`. */
  predicate IsHeader(b: Block, seqno: nat)
    requires |b| >= 12
  {
    RdBe32(b, 0) == MAGIC && RdBe32(b, 8) == seqno
  }

  predicate RevokeContains(revs: seq<Revoked>, fs: nat) {
    exists i :: 0 <= i < |revs| && revs[i].fs == fs
  }

  /** `ext4_jbd2_add_revoke`: one entry per block, the first or the highest sequence. */
  function AddRevoke(g: Geometry, revs: seq<Revoked>, max: nat, fs: nat, seqno: nat, keepLatest: bool): Option<seq<Revoked>> {
    if fs >= g.blocks then None
    else
      var i := FindRevoke(revs, fs, 0);
      if i < |revs| then
        Some(if keepLatest && revs[i].seqno < seqno then revs[i := revs[i].(seqno := seqno)] else revs)
      else if |revs| >= max then None
      else Some(revs + [Revoked(fs, seqno)])
  }

  function FindRevoke(revs: seq<Revoked>, fs: nat, i: nat): (k: nat)
    requires i <= |revs|
    ensures i <= k <= |revs| && (forall j :: i <= j < k ==> revs[j].fs != fs) && (k < |revs| ==> revs[k].fs == fs)
    decreases |revs| - i
  {
    if i == |revs| || revs[i].fs == fs then i else FindRevoke(revs, fs, i + 1)
  }

  /** `ext4_jbd2_add_update`. */
  function AddUpdate(g: Geometry, ups: seq<Update>, max: nat, u: Update, dedupe: bool): Option<seq<Update>> {
    if u.fs >= g.blocks || !g.In(u.jblock) then None
    else
      var i := if dedupe then FindUpdate(ups, u.fs, u.seqno, 0) else |ups|;
      if i < |ups| then Some(ups[i := ups[i].(jblock := u.jblock, escape := u.escape)])
      else if |ups| >= max then None
      else Some(ups + [u])
  }

  function FindUpdate(ups: seq<Update>, fs: nat, seqno: nat, i: nat): (k: nat)
    requires i <= |ups|
    ensures i <= k <= |ups| && (forall j :: i <= j < k ==> !(ups[j].fs == fs && ups[j].seqno == seqno))
    ensures k < |ups| ==> ups[k].fs == fs && ups[k].seqno == seqno
    decreases |ups| - i
  {
    if i == |ups| || (ups[i].fs == fs && ups[i].seqno == seqno) then i else FindUpdate(ups, fs, seqno, i + 1)
  }

  datatype Parsed = Malformed | Parsed(next: nat, updates: seq<Update>)

  /** The tag loop of `ext4_jbd2_parse_descriptor_block` from offset `off`; `data` is the
      journal block that holds the image of the tag at `off`. */
  function ParseTags(g: Geometry, blk: Block, off: nat, data: nat, seqno: nat, revs: seq<Revoked>, ups: seq<Update>): Parsed
    requires |blk| == g.bs
    decreases g.bs - off
  {
    if off + 8 > g.bs then Malformed
    else
      var lo, flags := RdBe32(blk, off), RdBe16(blk, off + 6);
      if g.wide && off + 12 > g.bs then Malformed
      else
        var fs := if g.wide then lo + RdBe32(blk, off + 8) * WORD else lo;
        var tagEnd := off + TagBytes(g);
        var sameUuid := flags / 2 % 2 == 1;
        if (!sameUuid && tagEnd + 16 > g.bs) || flags >= 16 || fs >= g.blocks then Malformed
        else
          var deleted := flags / 4 % 2 == 1;
          var ups' := if deleted || RevokeContains(revs, fs) then Some(ups)
                      else AddUpdate(g, ups, TX_MAX_BLOCKS, Update(fs, data, seqno, flags % 2 == 1), true);
          var next := NextBlock(data, g.first, g.maxlen);
          if ups'.None? || next == 0 then Malformed
          else if flags / 8 % 2 == 1 then Parsed(next, ups'.value)
          else ParseTags(g, blk, if sameUuid then tagEnd else tagEnd + 16, next, seqno, revs, ups'.value)
  }

  function ParseDescriptor(g: Geometry, blk: Block, cursor: nat, seqno: nat, revs: seq<Revoked>, ups: seq<Update>): Parsed
    requires |blk| == g.bs
  {
    var data := NextBlock(cursor, g.first, g.maxlen);
    if cursor == 0 || data == 0 then Malformed else ParseTags(g, blk, 12, data, seqno, revs, ups)
  }

  /** The entry loop of `ext4_jbd2_parse_revoke_block`. */
  function ParseEntries(g: Geometry, blk: Block, off: nat, used: nat, seqno: nat, revs: seq<Revoked>): Option<seq<Revoked>>
    requires |blk| == g.bs && used <= g.bs
    decreases g.bs - off
  {
    if off + 4 > used then (if off == used then Some(revs) else None)
    else if g.wide && off + 8 > used then None
    else
      var fs := RdBe32(blk, off) + if g.wide then RdBe32(blk, off + 4) * WORD else 0;
      match AddRevoke(g, revs, TX_MAX_REVOKES, fs, seqno, false)
      case None => None
      case Some(revs') => ParseEntries(g, blk, off + RevokeBytes(g), used, seqno, revs')
  }

  function ParseRevoke(g: Geometry, blk: Block, seqno: nat, revs: seq<Revoked>): Option<seq<Revoked>>
    requires |blk| == g.bs
  {
    if g.bs < 16 then None
    else
      var used := RdBe32(blk, 12);
      if used < 16 || used > g.bs then None else ParseEntries(g, blk, 16, used, seqno, revs)
  }

  // ---- escaping ----

  /** Unescaping undoes escaping, and an escaped image never looks like a journal header. */
  lemma EscapeRoundTrip(data: Block, seqno: nat)
    requires |data| >= 12
    ensures Unescaped(Escaped(data), Escapes(data)) == data
    ensures !IsHeader(Escaped(data), seqno)
  {
    hide Word, Be32;
    if Escapes(data) {
      var z := Escaped(data);
      assert z[0..4] == Be32(0);
      Be32RoundTrip(z, 0, 0);
      BytesOfWord(data, 0, MAGIC);
      assert Unescaped(z, true) == data;
    }
  }

  lemma DigitsUnique(s: seq<Byte>, t: seq<Byte>)
    requires |s| == |t| == 4 && Word(s[0], s[1], s[2], s[3]) == Word(t[0], t[1], t[2], t[3])
    ensures s == t
  {
    assert Word(0, s[0], s[1], s[2]) == Word(0, t[0], t[1], t[2]);
    assert Word(0, 0, s[0], s[1]) == Word(0, 0, t[0], t[1]);
  }

  /** The bytes of a big-endian field are determined by its value. */
  lemma BytesOfWord(b: seq<Byte>, off: nat, v: nat)
    requires off + 4 <= |b| && RdBe32(b, off) == v
    ensures b[off..off + 4] == Be32(v)
  {
    hide Word, Digits32;
    var d := Digits32(v);
    assert RdBe32(b, off) % WORD == RdBe32(b, off);
    DigitsUnique([b[off], b[off + 1], b[off + 2], b[off + 3]], [d[3], d[2], d[1], d[0]]);
  }

  // ---- round trips ----

  lemma {:induction false} TagAt(g: Geometry, imgs: seq<Image>, n: nat, j: nat)
    requires j < n <= |imgs| && forall i :: 0 <= i < |imgs| ==> |imgs[i].data| >= 4
    ensures 0 <= TagSpan(g, j) && TagSpan(g, j + 1) <= |Tags(g, imgs, n)|
    ensures Tags(g, imgs, n)[TagSpan(g, j)..TagSpan(g, j + 1)]
            == Tag(g, imgs[j].fs, Escapes(imgs[j].data), j + 1 == |imgs|)
  {
    hide Tag, Escapes;
    var before := Tags(g, imgs, n - 1);
    assert |before| == TagSpan(g, n - 1);
    if j + 1 < n {
      TagAt(g, imgs, n - 1, j);
      assert Tags(g, imgs, n)[TagSpan(g, j)..TagSpan(g, j + 1)] == before[TagSpan(g, j)..TagSpan(g, j + 1)];
    }
  }

  /** One tag read back where a descriptor stores it. */
  lemma TagReadBack(g: Geometry, blk: Block, off: nat, fs: nat, escape: bool, last: bool)
    requires g.Valid() && fs < g.blocks
    requires off + TagBytes(g) <= |blk| && blk[off..off + TagBytes(g)] == Tag(g, fs, escape, last)
    ensures RdBe16(blk, off + 6) == TagFlags(escape, last)
    ensures RdBe32(blk, off) + (if g.wide then RdBe32(blk, off + 8) * WORD else 0) == fs
  {
    hide Word, Be32, Be16, TagFlags;
    var t := blk[off..off + TagBytes(g)];
    var w := if g.wide then Be32(fs / WORD) else [];
    var f := Be16(TagFlags(escape, last));
    assert t == Be32(fs) + (Be16(0) + (f + w));
    assert t[6] == f[0] && t[7] == f[1];
    assert t[0..4] == Be32(fs);
    assert blk[off..off + 4] == t[0..4];
    assert blk[off + 6..off + 8] == [t[6], t[7]];
    assert [t[6], t[7]] == f;
    Be32RoundTrip(blk, off, fs);
    Be16RoundTrip(blk, off + 6, TagFlags(escape, last));
    if g.wide {
      assert t[8..12] == Be32(fs / WORD);
      assert blk[off + 8..off + 12] == t[8..12];
      Be32RoundTrip(blk, off + 8, fs / WORD);
    }
  }

  /** The replay entries a descriptor for `imgs` stands for, the data starting at `pos`. */
  function UpdatesOf(g: Geometry, imgs: seq<Image>, pos: nat, seqno: nat): (s: seq<Update>)
    requires g.In(pos) && |imgs| <= g.Ring() && forall i :: 0 <= i < |imgs| ==> |imgs[i].data| >= 4
    ensures |s| == |imgs|
  {
    seq(|imgs|, i requires 0 <= i < |imgs| => Update(imgs[i].fs, g.At(pos, i), seqno, Escapes(imgs[i].data)))
  }

  /** No two images of one block, and none already in the table under this sequence. */
  ghost predicate Distinct(imgs: seq<Image>) {
    forall i, j :: 0 <= i < j < |imgs| ==> imgs[i].fs != imgs[j].fs
  }

  ghost predicate Unseen(ups: seq<Update>, imgs: seq<Image>, seqno: nat) {
    forall i, j :: 0 <= i < |ups| && 0 <= j < |imgs| ==> !(ups[i].fs == imgs[j].fs && ups[i].seqno == seqno)
  }

  lemma PadSlice(n: nat, h: seq<Byte>, t: seq<Byte>, lo: nat, hi: nat)
    requires |h| + |t| <= n && lo <= hi <= |t|
    ensures Pad(n, h + t)[|h| + lo..|h| + hi] == t[lo..hi]
  {
  }

  /** Where tag `j` of a descriptor lies, and what the parser reads there. */
  lemma TagInDesc(g: Geometry, imgs: seq<Image>, j: nat, seqno: nat)
    requires g.Valid() && Images(g, imgs) && |imgs| <= TagsPerDesc(g) && j < |imgs|
    ensures var off, blk := 12 + TagSpan(g, j), DescBlock(g, seqno, imgs);
            off + TagBytes(g) <= g.bs &&
            RdBe16(blk, off + 6) == TagFlags(Escapes(imgs[j].data), j + 1 == |imgs|) &&
            RdBe32(blk, off) + (if g.wide then RdBe32(blk, off + 8) * WORD else 0) == imgs[j].fs
  {
    hide Word, Be32, Be16, TagFlags, Tag, Tags, Header, RdBe32, RdBe16, Escapes, TagsPerDesc;
    var tb := TagBytes(g);
    var off, blk := 12 + TagSpan(g, j), DescBlock(g, seqno, imgs);
    var h, t := Header(DESCRIPTOR, seqno), Tags(g, imgs, |imgs|);
    TagsFit(g, |imgs|);
    TagAt(g, imgs, |imgs|, j);
    assert off + tb == 12 + TagSpan(g, j + 1) <= |h + t| <= g.bs;
    PadSlice(g.bs, h, t, TagSpan(g, j), TagSpan(g, j + 1));
    TagReadBack(g, blk, off, imgs[j].fs, Escapes(imgs[j].data), j + 1 == |imgs|);
  }

  /** One turn of the tag loop on a tag the writer made. */
  lemma ParseTagsStep(g: Geometry, blk: Block, off: nat, data: nat, seqno: nat, ups: seq<Update>, u: Update, ups': seq<Update>, last: bool)
    requires g.Valid() && |blk| == g.bs && off + TagBytes(g) <= g.bs && g.In(data)
    requires u.jblock == data && u.seqno == seqno && u.fs < g.blocks
    requires RdBe16(blk, off + 6) == TagFlags(u.escape, last)
    requires RdBe32(blk, off) + (if g.wide then RdBe32(blk, off + 8) * WORD else 0) == u.fs
    requires AddUpdate(g, ups, TX_MAX_BLOCKS, u, true) == Some(ups')
    ensures ParseTags(g, blk, off, data, seqno, [], ups) ==
            if last then Parsed(g.At(data, 1), ups')
            else ParseTags(g, blk, off + TagBytes(g), g.At(data, 1), seqno, [], ups')
  {
    hide RdBe32, RdBe16, AddUpdate, TagFlags;
  }

  lemma {:induction false} ParseTagsFrom(g: Geometry, blk: Block, imgs: seq<Image>, j: nat, pos: nat, seqno: nat, ups: seq<Update>)
    requires g.Valid() && Images(g, imgs) && |imgs| <= TagsPerDesc(g) && j < |imgs| < g.Ring()
    requires blk == DescBlock(g, seqno, imgs) && g.In(pos)
    requires Distinct(imgs) && Unseen(ups, imgs[j..], seqno) && |ups| + |imgs| - j <= TX_MAX_BLOCKS
    ensures ParseTags(g, blk, 12 + TagSpan(g, j), g.At(pos, j), seqno, [], ups)
            == Parsed(g.At(pos, |imgs|), ups + UpdatesOf(g, imgs, pos, seqno)[j..])
    decreases |imgs| - j
  {
    hide RdBe32, RdBe16, DescBlock, TagsPerDesc, UpdatesOf, Escapes, ParseTags, TagFlags;
    var off := 12 + TagSpan(g, j);
    assert off + TagBytes(g) == 12 + TagSpan(g, j + 1);
    TagInDesc(g, imgs, j, seqno);
    var u := Update(imgs[j].fs, g.At(pos, j), seqno, Escapes(imgs[j].data));
    var ups' := ups + [u];
    assert AddUpdate(g, ups, TX_MAX_BLOCKS, u, true) == Some(ups') by {
      assert imgs[j..][0] == imgs[j];
    }
    ParseTagsStep(g, blk, off, g.At(pos, j), seqno, ups, u, ups', j + 1 == |imgs|);
    var rest := UpdatesOf(g, imgs, pos, seqno)[j + 1..];
    assert UpdatesOf(g, imgs, pos, seqno)[j..] == [u] + rest by { UpdateAt(g, imgs, pos, seqno, j); }
    assert ups + ([u] + rest) == ups' + rest;
    if j + 1 < |imgs| {
      UnseenNext(ups, imgs, j, seqno, u);
      ParseTagsFrom(g, blk, imgs, j + 1, pos, seqno, ups');
    }
  }

  lemma UpdateAt(g: Geometry, imgs: seq<Image>, pos: nat, seqno: nat, j: nat)
    requires g.In(pos) && j < |imgs| <= g.Ring() && forall i :: 0 <= i < |imgs| ==> |imgs[i].data| >= 4
    ensures UpdatesOf(g, imgs, pos, seqno)[j] == Update(imgs[j].fs, g.At(pos, j), seqno, Escapes(imgs[j].data))
  {
  }

  lemma UnseenNext(ups: seq<Update>, imgs: seq<Image>, j: nat, seqno: nat, u: Update)
    requires j < |imgs| && Distinct(imgs) && Unseen(ups, imgs[j..], seqno) && u.fs == imgs[j].fs
    ensures Unseen(ups + [u], imgs[j + 1..], seqno)
  {
    var ups', rest := ups + [u], imgs[j + 1..];
    forall i, k | 0 <= i < |ups'| && 0 <= k < |rest|
      ensures !(ups'[i].fs == rest[k].fs && ups'[i].seqno == seqno)
    {
      assert rest[k] == imgs[j..][k + 1];
    }
  }

  /** Parsing the descriptor that was written for `imgs` yields exactly those images: the
      same blocks in the same order, each with the position of its data and its escape bit. */
  lemma DescriptorRoundTrip(g: Geometry, imgs: seq<Image>, cursor: nat, seqno: nat, ups: seq<Update>)
    requires g.Valid() && Images(g, imgs) && 0 < |imgs| <= TagsPerDesc(g) && |imgs| + 1 < g.Ring()
    requires g.In(cursor) && Distinct(imgs) && Unseen(ups, imgs, seqno) && |ups| + |imgs| <= TX_MAX_BLOCKS
    ensures ParseDescriptor(g, DescBlock(g, seqno, imgs), cursor, seqno, [], ups)
            == Parsed(g.At(cursor, |imgs| + 1), ups + UpdatesOf(g, imgs, g.At(cursor, 1), seqno))
  {
    hide ParseTags, DescBlock, UpdatesOf, TagsPerDesc;
    assert imgs[0..] == imgs;
    ParseTagsFrom(g, DescBlock(g, seqno, imgs), imgs, 0, g.At(cursor, 1), seqno, ups);
    assert UpdatesOf(g, imgs, g.At(cursor, 1), seqno)[0..] == UpdatesOf(g, imgs, g.At(cursor, 1), seqno);
  }

  lemma {:induction false} EntryAt(g: Geometry, revs: seq<nat>, n: nat, j: nat)
    requires j < n <= |revs|
    ensures 0 <= RevokeSpan(g, j) && RevokeSpan(g, j + 1) <= |Entries(g, revs, n)|
    ensures Entries(g, revs, n)[RevokeSpan(g, j)..RevokeSpan(g, j + 1)] == Entry(g, revs[j])
  {
    hide Entry;
    var before := Entries(g, revs, n - 1);
    assert |before| == RevokeSpan(g, n - 1);
    if j + 1 < n {
      EntryAt(g, revs, n - 1, j);
      assert Entries(g, revs, n)[RevokeSpan(g, j)..RevokeSpan(g, j + 1)] == before[RevokeSpan(g, j)..RevokeSpan(g, j + 1)];
    }
  }

  lemma EntryReadBack(g: Geometry, blk: Block, off: nat, fs: nat)
    requires g.Valid() && fs < g.blocks
    requires off + RevokeBytes(g) <= |blk| && blk[off..off + RevokeBytes(g)] == Entry(g, fs)
    ensures RdBe32(blk, off) + (if g.wide then RdBe32(blk, off + 4) * WORD else 0) == fs
  {
    hide Word, Be32;
    var t := blk[off..off + RevokeBytes(g)];
    assert blk[off..off + 4] == t[0..4] == Be32(fs);
    Be32RoundTrip(blk, off, fs);
    if g.wide {
      assert blk[off + 4..off + 8] == t[4..8] == Be32(fs / WORD);
      Be32RoundTrip(blk, off + 4, fs / WORD);
    }
  }

  function RevokedOf(revs: seq<nat>, seqno: nat): (s: seq<Revoked>)
    ensures |s| == |revs| && forall i :: 0 <= i < |revs| ==> s[i] == Revoked(revs[i], seqno)
  {
    seq(|revs|, i requires 0 <= i < |revs| => Revoked(revs[i], seqno))
  }

  ghost predicate DistinctNats(s: seq<nat>) {
    forall i, j :: 0 <= i < j < |s| ==> s[i] != s[j]
  }

  lemma EntryInBlock(g: Geometry, revs: seq<nat>, j: nat, seqno: nat)
    requires g.Valid() && |revs| <= RevokesPerBlock(g) && j < |revs| && revs[j] < g.blocks
    ensures var off, blk := 16 + RevokeSpan(g, j), RevokeBlock(g, seqno, revs);
            off + RevokeBytes(g) <= 16 + RevokeSpan(g, |revs|) <= g.bs &&
            RdBe32(blk, off) + (if g.wide then RdBe32(blk, off + 4) * WORD else 0) == revs[j]
  {
    hide Word, Be32, Entry, Entries, Header;
    var rb := RevokeBytes(g);
    EntriesFit(g, |revs|);
    var off, blk := 16 + RevokeSpan(g, j), RevokeBlock(g, seqno, revs);
    var h, t := Header(REVOKE, seqno) + Be32(16 + RevokeSpan(g, |revs|)), Entries(g, revs, |revs|);
    EntryAt(g, revs, |revs|, j);
    assert off + rb == 16 + RevokeSpan(g, j + 1) <= |h + t|;
    PadSlice(g.bs, h, t, RevokeSpan(g, j), RevokeSpan(g, j + 1));
    EntryReadBack(g, blk, off, revs[j]);
  }

  lemma {:induction false} ParseEntriesFrom(g: Geometry, blk: Block, revs: seq<nat>, j: nat, seqno: nat, acc: seq<Revoked>)
    requires g.Valid() && |revs| <= RevokesPerBlock(g) && j <= |revs|
    requires blk == RevokeBlock(g, seqno, revs)
    requires DistinctNats(revs) && forall i :: 0 <= i < |revs| ==> revs[i] < g.blocks
    requires |acc| + |revs| - j <= TX_MAX_REVOKES
    requires forall i, k :: 0 <= i < |acc| && j <= k < |revs| ==> acc[i].fs != revs[k]
    ensures 16 + RevokeSpan(g, |revs|) <= g.bs
    ensures ParseEntries(g, blk, 16 + RevokeSpan(g, j), 16 + RevokeSpan(g, |revs|), seqno, acc)
            == Some(acc + RevokedOf(revs, seqno)[j..])
    decreases |revs| - j
  {
    hide RdBe32, RevokeBlock, RevokesPerBlock;
    EntriesFit(g, |revs|);
    if j == |revs| {
      assert acc + RevokedOf(revs, seqno)[j..] == acc;
    } else {
      assert 16 + RevokeSpan(g, j) + RevokeBytes(g) == 16 + RevokeSpan(g, j + 1);
      EntryInBlock(g, revs, j, seqno);
      var r := Revoked(revs[j], seqno);
      assert AddRevoke(g, acc, TX_MAX_REVOKES, revs[j], seqno, false) == Some(acc + [r]);
      var rest := RevokedOf(revs, seqno)[j + 1..];
      assert RevokedOf(revs, seqno)[j..] == [r] + rest;
      assert acc + ([r] + rest) == acc + [r] + rest;
      ParseEntriesFrom(g, blk, revs, j + 1, seqno, acc + [r]);
    }
  }

  /** Parsing the revoke block written for `revs` yields exactly those revokes. */
  lemma RevokeRoundTrip(g: Geometry, revs: seq<nat>, seqno: nat, acc: seq<Revoked>)
    requires g.Valid() && |revs| <= RevokesPerBlock(g)
    requires DistinctNats(revs) && forall i :: 0 <= i < |revs| ==> revs[i] < g.blocks
    requires |acc| + |revs| <= TX_MAX_REVOKES
    requires forall i, k :: 0 <= i < |acc| && 0 <= k < |revs| ==> acc[i].fs != revs[k]
    ensures ParseRevoke(g, RevokeBlock(g, seqno, revs), seqno, acc) == Some(acc + RevokedOf(revs, seqno))
  {
    hide Word, Be32, Entry, Entries, Header, ParseEntries;
    var blk := RevokeBlock(g, seqno, revs);
    var used := 16 + RevokeSpan(g, |revs|);
    EntriesFit(g, |revs|);
    var all := Header(REVOKE, seqno) + Be32(used) + Entries(g, revs, |revs|);
    assert blk[12..16] == all[12..16] == Be32(used);
    Be32RoundTrip(blk, 12, used);
    ParseEntriesFrom(g, blk, revs, 0, seqno, acc);
    assert RevokedOf(revs, seqno)[0..] == RevokedOf(revs, seqno);
  }

  /** Every record block is recognised under its own kind and sequence number. */
  lemma HeaderReadBack(b: Block, kind: nat, seqno: nat)
    requires |b| >= 12 && b[..12] == Header(kind, seqno)
    ensures RdBe32(b, 0) == MAGIC && RdBe32(b, 4) == kind % WORD && RdBe32(b, 8) == seqno % WORD
  {
    hide Word, Be32;
    var h := b[..12];
    assert b[0..4] == h[0..4] == Be32(MAGIC);
    assert b[4..8] == h[4..8] == Be32(kind);
    assert b[8..12] == h[8..12] == Be32(seqno);
    Be32RoundTrip(b, 0, MAGIC);
    Be32RoundTrip(b, 4, kind);
    Be32RoundTrip(b, 8, seqno);
  }

  lemma RecordHeaders(g: Geometry, seqno: nat, imgs: seq<Image>, revs: seq<nat>)
    requires g.Valid() && Images(g, imgs) && |imgs| <= TagsPerDesc(g) && |revs| <= RevokesPerBlock(g)
    ensures DescBlock(g, seqno, imgs)[..12] == Header(DESCRIPTOR, seqno)
    ensures RevokeBlock(g, seqno, revs)[..12] == Header(REVOKE, seqno)
    ensures CommitBlock(g, seqno)[..12] == Header(COMMIT, seqno)
  {
    hide Word, Be32, Entries, Tags, Header;
    TagsFit(g, |imgs|);
    EntriesFit(g, |revs|);
  }
}
