/** The byte buffers of the journal code: the in-place field writers, and the two parsers of
    replay as loops over a block (kernel/ext4.c). */
module JournalCodec {
  import opened Bytes
  import opened JournalRing
  import opened JournalFormat
  import opened JournalScan
  import opened JournalChain

  method WrBe32(a: array<Byte>, off: nat, v: nat)
    requires off + 4 <= a.Length
    modifies a
    ensures a[..] == Splice(old(a[..]), off, Be32(v))
  {
    var v1 := v / 256;
    var v2 := v1 / 256;
    var v3 := v2 / 256;
    a[off], a[off + 1], a[off + 2], a[off + 3] := v3 % 256, v2 % 256, v1 % 256, v % 256;
  }

  method WrBe16(a: array<Byte>, off: nat, v: nat)
    requires off + 2 <= a.Length
    modifies a
    ensures a[..] == Splice(old(a[..]), off, Be16(v))
  {
    a[off], a[off + 1] := v / 256 % 256, v % 256;
  }

  /** The same at the end of the used part of a zeroed buffer. */
  method Append32(a: array<Byte>, ghost used: seq<Byte>, off: nat, v: nat)
    requires |used| == off && off + 4 <= a.Length && a[..] == Pad(a.Length, used)
    modifies a
    ensures a[..] == Pad(a.Length, used + Be32(v))
  {
    hide Be32;
    WrBe32(a, off, v);
    SplicePad(a.Length, used, Be32(v));
  }

  method Append16(a: array<Byte>, ghost used: seq<Byte>, off: nat, v: nat)
    requires |used| == off && off + 2 <= a.Length && a[..] == Pad(a.Length, used)
    modifies a
    ensures a[..] == Pad(a.Length, used + Be16(v))
  {
    hide Be16;
    WrBe16(a, off, v);
    SplicePad(a.Length, used, Be16(v));
  }

  /** A zeroed block that starts with a record header. */
  method NewRecord(bs: nat, kind: nat, seqno: nat) returns (a: array<Byte>)
    requires bs >= 16
    ensures fresh(a) && a.Length == bs && a[..] == Pad(bs, Header(kind, seqno))
  {
    hide Be32, Pad;
    a := new Byte[bs](_ => 0);
    PadNothing(a[..]);
    Append32(a, [], 0, MAGIC);
    assert [] + Be32(MAGIC) == Be32(MAGIC);
    Append32(a, Be32(MAGIC), 4, kind);
    Append32(a, Be32(MAGIC) + Be32(kind), 8, seqno);
  }

  lemma PadNothing(s: seq<Byte>)
    requires forall i :: 0 <= i < |s| ==> s[i] == 0
    ensures s == Pad(|s|, [])
  {
  }

  /** One tag at the end of the used part of a descriptor. */
  method PutTag(g: Geometry, a: array<Byte>, ghost used: seq<Byte>, off: nat, fs: nat, escape: bool, last: bool)
    requires |used| == off && off + TagBytes(g) <= a.Length && a[..] == Pad(a.Length, used)
    modifies a
    ensures a[..] == Pad(a.Length, used + Tag(g, fs, escape, last))
  {
    hide Be32, Be16, TagFlags, Pad;
    ghost var x, y, z := Be32(fs), Be16(0), Be16(TagFlags(escape, last));
    Append32(a, used, off, fs);
    Append16(a, used + x, off + 4, 0);
    Append16(a, used + x + y, off + 6, TagFlags(escape, last));
    if g.wide {
      Append32(a, used + x + y + z, off + 8, fs / WORD);
      JoinFour(used, x, y, z, Be32(fs / WORD));
    } else {
      JoinFour(used, x, y, z, []);
    }
  }

  lemma JoinFour(used: seq<Byte>, x: seq<Byte>, y: seq<Byte>, z: seq<Byte>, w: seq<Byte>)
    ensures used + x + y + z + w == used + (x + y + z + w)
    ensures w == [] ==> used + x + y + z == used + (x + y + z + w)
  {
  }

  /** One entry at the end of the used part of a revoke block. */
  method PutEntry(g: Geometry, a: array<Byte>, ghost used: seq<Byte>, off: nat, fs: nat)
    requires |used| == off && off + RevokeBytes(g) <= a.Length && a[..] == Pad(a.Length, used)
    modifies a
    ensures a[..] == Pad(a.Length, used + Entry(g, fs))
  {
    hide Be32, Pad;
    Append32(a, used, off, fs);
    if g.wide {
      Append32(a, used + Be32(fs), off + 4, fs / WORD);
      assert used + Be32(fs) + Be32(fs / WORD) == used + Entry(g, fs);
    } else {
      assert Be32(fs) + [] == Be32(fs);
    }
  }

  /** Dropping entry `i` of a table: the later entries move down by one. */
  method RemoveAt<T>(s: seq<T>, i: nat) returns (r: seq<T>)
    requires i < |s|
    ensures r == s[..i] + s[i + 1..]
  {
    r := s;
    for j := i + 1 to |s|
      invariant |r| == |s| && r[..i] == s[..i] && r[i..j - 1] == s[i + 1..j] && r[j - 1..] == s[j - 1..]
    {
      ghost var was := r;
      r := r[j - 1 := r[j]];
      assert r[i..j] == was[i..j - 1] + [was[j]] && r[j..] == was[j - 1..][1..];
    }
    r := r[..|r| - 1];
  }

  // ---- the replay tables ----

  method TryAddRevoke(g: Geometry, revs: seq<Revoked>, max: nat, fs: nat, seqno: nat, keepLatest: bool) returns (ok: bool, r: seq<Revoked>)
    ensures ok == AddRevoke(g, revs, max, fs, seqno, keepLatest).Some?
    ensures r == if ok then AddRevoke(g, revs, max, fs, seqno, keepLatest).value else revs
  {
    if fs >= g.blocks {
      return false, revs;
    }
    var i := 0;
    while i < |revs|
      invariant i <= |revs| && FindRevoke(revs, fs, 0) == FindRevoke(revs, fs, i)
    {
      if revs[i].fs == fs {
        if keepLatest && revs[i].seqno < seqno {
          return true, revs[i := revs[i].(seqno := seqno)];
        }
        return true, revs;
      }
      i := i + 1;
    }
    if |revs| >= max {
      return false, revs;
    }
    return true, revs + [Revoked(fs, seqno)];
  }

  method TryAddUpdate(g: Geometry, ups: seq<Update>, max: nat, u: Update, dedupe: bool) returns (ok: bool, r: seq<Update>)
    ensures ok == AddUpdate(g, ups, max, u, dedupe).Some?
    ensures r == if ok then AddUpdate(g, ups, max, u, dedupe).value else ups
  {
    if u.fs >= g.blocks || !g.In(u.jblock) {
      return false, ups;
    }
    if dedupe {
      var i := 0;
      while i < |ups|
        invariant i <= |ups| && FindUpdate(ups, u.fs, u.seqno, 0) == FindUpdate(ups, u.fs, u.seqno, i)
      {
        if ups[i].fs == u.fs && ups[i].seqno == u.seqno {
          return true, ups[i := ups[i].(jblock := u.jblock, escape := u.escape)];
        }
        i := i + 1;
      }
    }
    if |ups| >= max {
      return false, ups;
    }
    return true, ups + [u];
  }

  /** Whether the table holds the block at all: `ext4_jbd2_revoke_contains`. */
  method Contains(revs: seq<Revoked>, fs: nat) returns (hit: bool)
    ensures hit == RevokeContains(revs, fs)
  {
    for i := 0 to |revs|
      invariant forall j :: 0 <= j < i ==> revs[j].fs != fs
    {
      if revs[i].fs == fs {
        return true;
      }
    }
    return false;
  }

  /** `ext4_jbd2_revoke_hits_update`. */
  method HitsUpdate(revs: seq<Revoked>, fs: nat, seqno: nat) returns (hit: bool)
    ensures hit == Hits(revs, fs, seqno)
  {
    for i := 0 to |revs|
      invariant forall j :: 0 <= j < i ==> !(revs[j].fs == fs && revs[j].seqno >= seqno)
    {
      if revs[i].fs == fs && revs[i].seqno >= seqno {
        return true;
      }
    }
    return false;
  }

  // ---- the parsers ----

  method ParseDescriptorBlock(g: Geometry, blk: Block, cursor: nat, seqno: nat, revs: seq<Revoked>, ups0: seq<Update>) returns (r: Parsed)
    requires |blk| == g.bs
    ensures r == ParseDescriptor(g, blk, cursor, seqno, revs, ups0)
  {
    hide RdBe32, RdBe16, AddUpdate, RevokeContains;
    var data := NextBlock(cursor, g.first, g.maxlen);
    if cursor == 0 || data == 0 {
      return Malformed;
    }
    var off, ups := 12, ups0;
    while off + 8 <= g.bs
      invariant ParseDescriptor(g, blk, cursor, seqno, revs, ups0) == ParseTags(g, blk, off, data, seqno, revs, ups)
    {
      var fs, flags := RdBe32(blk, off), RdBe16(blk, off + 6);
      off := off + 8;
      if g.wide {
        if off + 4 > g.bs {
          return Malformed;
        }
        fs := fs + RdBe32(blk, off) * WORD;
        off := off + 4;
      }
      if flags / 2 % 2 == 0 {
        if off + 16 > g.bs {
          return Malformed;
        }
        off := off + 16;
      }
      if flags >= 16 || fs >= g.blocks {
        return Malformed;
      }
      var revoked := Contains(revs, fs);
      if flags / 4 % 2 == 0 && !revoked {
        var ok;
        ok, ups := TryAddUpdate(g, ups, TX_MAX_BLOCKS, Update(fs, data, seqno, flags % 2 == 1), true);
        if !ok {
          return Malformed;
        }
      }
      data := NextBlock(data, g.first, g.maxlen);
      if data == 0 {
        return Malformed;
      }
      if flags / 8 % 2 == 1 {
        return Parsed(data, ups);
      }
    }
    return Malformed;
  }

  method ParseRevokeBlock(g: Geometry, blk: Block, seqno: nat, revs0: seq<Revoked>) returns (r: Option<seq<Revoked>>)
    requires |blk| == g.bs
    ensures r == ParseRevoke(g, blk, seqno, revs0)
  {
    hide RdBe32, AddRevoke;
    if g.bs < 16 {
      return None;
    }
    var used := RdBe32(blk, 12);
    if used < 16 || used > g.bs {
      return None;
    }
    var off, revs := 16, revs0;
    while off + 4 <= used
      invariant 16 <= off && ParseRevoke(g, blk, seqno, revs0) == ParseEntries(g, blk, off, used, seqno, revs)
    {
      var fs := RdBe32(blk, off);
      off := off + 4;
      if g.wide {
        if off + 4 > used {
          return None;
        }
        fs := fs + RdBe32(blk, off) * WORD;
        off := off + 4;
      }
      var ok;
      ok, revs := TryAddRevoke(g, revs, TX_MAX_REVOKES, fs, seqno, false);
      if !ok {
        return None;
      }
    }
    if off == used {
      return Some(revs);
    }
    return None;
  }
}
