/** Directory blocks of kernel/ext4.c: variable-length records that tile a block, and what
    finding, adding and removing a name does to the entries they hold. */
module DirBlock {
  import opened Bytes

  const MAX_BLOCK: nat := 4096

  datatype Entry = Entry(name: seq<Byte>, ino: nat, kind: Byte)

  // ---- one record ----

  function Ino(b: seq<Byte>, p: nat): nat
    requires p + 8 <= |b|
  {
    RdLe32(b, p)
  }

  function Len(b: seq<Byte>, p: nat): nat
    requires p + 8 <= |b|
  {
    RdLe16(b, p + 4)
  }

  function NameLen(b: seq<Byte>, p: nat): nat
    requires p + 8 <= |b|
  {
    b[p + 6]
  }

  predicate RecOk(b: seq<Byte>, p: nat) {
    p + 8 <= |b| && 8 <= Len(b, p) && p + Len(b, p) <= |b| && NameLen(b, p) <= Len(b, p) - 8
  }

  function EntryAt(b: seq<Byte>, p: nat): Entry
    requires RecOk(b, p)
  {
    Entry(b[p + 8..p + 8 + NameLen(b, p)], Ino(b, p), b[p + 7])
  }

  /** The entry of a record that is in use. */
  function Live(b: seq<Byte>, p: nat): seq<Entry>
    requires RecOk(b, p)
  {
    if Ino(b, p) == 0 then [] else [EntryAt(b, p)]
  }

  // ---- a block ----

  /** From `p` on, records follow one another exactly to the end of the block. */
  predicate Tiled(b: seq<Byte>, p: nat)
    decreases |b| - p
  {
    p == |b| || (p < |b| && RecOk(b, p) && Tiled(b, p + Len(b, p)))
  }

  /** The entries in use, in order. */
  function Entries(b: seq<Byte>, p: nat): seq<Entry>
    requires Tiled(b, p)
    decreases |b| - p
  {
    if p == |b| then [] else Live(b, p) + Entries(b, p + Len(b, p))
  }

  /** Records lead from `p` to `q`. */
  predicate Reach(b: seq<Byte>, p: nat, q: nat)
    decreases |b| - p
  {
    p == q || (p < q && RecOk(b, p) && Reach(b, p + Len(b, p), q))
  }

  function Between(b: seq<Byte>, p: nat, q: nat): seq<Entry>
    requires Reach(b, p, q)
    decreases |b| - p
  {
    if p == q then [] else Live(b, p) + Between(b, p + Len(b, p), q)
  }

  lemma {:induction false} Parts(b: seq<Byte>, p: nat, q: nat)
    requires Reach(b, p, q) && Tiled(b, q) && p <= |b|
    ensures Tiled(b, p) && Entries(b, p) == Between(b, p, q) + Entries(b, q)
    decreases |b| - p
  {
    hide Live, RdLe16, RdLe32;
    if p != q {
      var n := p + Len(b, p);
      Parts(b, n, q);
      assert Live(b, p) + (Between(b, n, q) + Entries(b, q)) == Live(b, p) + Between(b, n, q) + Entries(b, q);
    }
  }

  lemma {:induction false} TiledAt(b: seq<Byte>, p: nat, q: nat)
    requires Tiled(b, p) && Reach(b, p, q)
    ensures Tiled(b, q) && q <= |b|
    decreases |b| - p
  {
    if p != q {
      TiledAt(b, p + Len(b, p), q);
    }
  }

  lemma {:induction false} ReachNext(b: seq<Byte>, p: nat, q: nat)
    requires Reach(b, p, q) && RecOk(b, q)
    ensures Reach(b, p, q + Len(b, q)) && Between(b, p, q + Len(b, q)) == Between(b, p, q) + Live(b, q)
    decreases |b| - p
  {
    if p == q {
      assert Reach(b, q + Len(b, q), q + Len(b, q));
    } else {
      ReachNext(b, p + Len(b, p), q);
    }
  }

  ghost predicate Agree(b: seq<Byte>, c: seq<Byte>, lo: nat, hi: nat) {
    |b| == |c| && hi <= |b| && forall i :: lo <= i < hi ==> b[i] == c[i]
  }

  /** A record is what its bytes say. */
  lemma SameRec(b: seq<Byte>, c: seq<Byte>, p: nat, hi: nat)
    requires RecOk(b, p) && p + Len(b, p) <= hi && Agree(b, c, p, hi)
    ensures RecOk(c, p) && Len(c, p) == Len(b, p) && Live(c, p) == Live(b, p)
  {
    assert b[p + 8..p + 8 + NameLen(b, p)] == c[p + 8..p + 8 + NameLen(b, p)];
  }

  lemma {:induction false} SameBetween(b: seq<Byte>, c: seq<Byte>, p: nat, q: nat)
    requires Reach(b, p, q) && Agree(b, c, p, q)
    ensures Reach(c, p, q) && Between(c, p, q) == Between(b, p, q)
    decreases |b| - p
  {
    if p != q {
      ReachBound(b, p + Len(b, p), q);
      SameRec(b, c, p, q);
      SameBetween(b, c, p + Len(b, p), q);
    }
  }

  lemma ReachBound(b: seq<Byte>, p: nat, q: nat)
    requires Reach(b, p, q)
    ensures p <= q
  {
  }

  lemma {:induction false} SameTail(b: seq<Byte>, c: seq<Byte>, p: nat)
    requires Tiled(b, p) && Agree(b, c, p, |b|)
    ensures Tiled(c, p) && Entries(c, p) == Entries(b, p)
    decreases |b| - p
  {
    if p != |b| {
      SameRec(b, c, p, |b|);
      SameTail(b, c, p + Len(b, p));
    }
  }

  // ---- replacing what stands at a record ----

  /** If the change keeps everything before `p` and from `q` on, and records still lead from `p`
      to `q`, the block is still tiled, with the entries between `p` and `q` replaced. */
  lemma Replace(b: seq<Byte>, c: seq<Byte>, p: nat, q: nat)
    requires Tiled(b, 0) && Reach(b, 0, p) && Reach(b, p, q) && Reach(c, p, q) && q <= |b|
    requires Agree(b, c, 0, p) && Agree(b, c, q, |b|)
    ensures Tiled(c, 0)
    ensures Tiled(b, q) && Entries(b, 0) == Between(b, 0, p) + Between(b, p, q) + Entries(b, q)
    ensures Entries(c, 0) == Between(b, 0, p) + Between(c, p, q) + Entries(b, q)
  {
    hide Tiled, Entries, Between, Reach, Agree;
    ReachBound(b, p, q);
    TiledAt(b, 0, p);
    TiledAt(b, p, q);
    Parts(b, p, q);
    Parts(b, 0, p);
    SameBetween(b, c, 0, p);
    SameTail(b, c, q);
    SameSize(b, c, q);
    Parts(c, p, q);
    Parts(c, 0, p);
  }

  lemma SameSize(b: seq<Byte>, c: seq<Byte>, q: nat)
    requires Agree(b, c, q, |b|)
    ensures |c| == |b|
  {
  }

  /** One record from `p` to the next, or two. */
  lemma OneRec(b: seq<Byte>, p: nat)
    requires RecOk(b, p)
    ensures Reach(b, p, p + Len(b, p)) && Between(b, p, p + Len(b, p)) == Live(b, p)
  {
    assert Between(b, p + Len(b, p), p + Len(b, p)) == [];
  }

  lemma TwoRecs(b: seq<Byte>, p: nat, m: nat)
    requires RecOk(b, p) && m == p + Len(b, p) && RecOk(b, m)
    ensures Reach(b, p, m + Len(b, m)) && Between(b, p, m + Len(b, m)) == Live(b, p) + Live(b, m)
  {
    hide RdLe16, RdLe32, Live;
    OneRec(b, m);
  }

  ghost predicate IsRec(b: seq<Byte>, p: nat, len: nat, live: seq<Entry>) { RecOk(b, p) && Len(b, p) == len && Live(b, p) == live }

  ghost predicate SwappedIn(b: seq<Byte>, c: seq<Byte>, x: seq<Entry>, was: seq<Entry>, now: seq<Entry>, y: seq<Entry>) {
    Tiled(b, 0) && Tiled(c, 0) && |c| == |b| && Entries(b, 0) == x + was + y && Entries(c, 0) == x + now + y
  }

  /** Both blocks are tiled, and somewhere among the same other entries `now` stands for `was`. */
  ghost predicate Swapped(b: seq<Byte>, c: seq<Byte>, was: seq<Entry>, now: seq<Entry>) {
    exists x, y :: SwappedIn(b, c, x, was, now, y)
  }

  // ---- writing records ----

  function SetLen(b: seq<Byte>, p: nat, len: nat): (r: seq<Byte>)
    requires p + 8 <= |b|
    ensures |r| == |b|
  {
    Splice(b, p + 4, Le16(len))
  }

  function SetIno(b: seq<Byte>, p: nat, ino: nat): (r: seq<Byte>)
    requires p + 8 <= |b|
    ensures |r| == |b|
  {
    Splice(b, p, Le32(ino))
  }

  /** A whole record, field by field. */
  function Stamp(b: seq<Byte>, p: nat, len: nat, e: Entry): (r: seq<Byte>)
    requires p + 8 + |e.name| <= |b| && |e.name| < 256
    ensures |r| == |b|
  {
    var b1 := SetIno(b, p, e.ino);
    var b2 := SetLen(b1, p, len);
    var b3 := Splice(b2, p + 6, [|e.name|]);
    var b4 := Splice(b3, p + 7, [e.kind]);
    Splice(b4, p + 8, e.name)
  }

  lemma SetLenIs(b: seq<Byte>, p: nat, len: nat)
    requires p + 8 <= |b| && len < 0x1_0000
    ensures var c := SetLen(b, p, len);
            && Len(c, p) == len && NameLen(c, p) == NameLen(b, p) && Ino(c, p) == Ino(b, p)
            && Agree(b, c, 0, p) && Agree(b, c, p + 6, |b|)
  {
    hide Le16;
    var c := SetLen(b, p, len);
    assert c[p + 4..p + 6] == Le16(len);
    Le16RoundTrip(c, p + 4, len);
  }

  lemma StampIs(b: seq<Byte>, p: nat, len: nat, e: Entry)
    requires p + 8 + |e.name| <= |b| && |e.name| < 256 && len < 0x1_0000 && e.ino < WORD
    ensures var c := Stamp(b, p, len, e);
            && Len(c, p) == len && NameLen(c, p) == |e.name| && Ino(c, p) == e.ino && c[p + 7] == e.kind && c[p + 8..p + 8 + |e.name|] == e.name
            && Agree(b, c, 0, p) && Agree(b, c, p + 8 + |e.name|, |b|)
  {
    hide Le16, Le32;
    var c := Stamp(b, p, len, e);
    assert c[p..p + 4] == Le32(e.ino);
    assert c[p + 4..p + 6] == Le16(len);
    Le32RoundTrip(c, p, e.ino);
    Le16RoundTrip(c, p + 4, len);
  }

  // ---- adding ----

  function AlignUp4(x: nat): (r: nat)
    ensures x <= r <= x + 3
  {
    (x + 3) / 4 * 4
  }

  function Need(nameLen: nat): nat { 8 + AlignUp4(nameLen) }

  /** The record can take the entry: it is unused and long enough, or has that much to spare. */
  predicate Fits(b: seq<Byte>, p: nat, e: Entry)
    requires p + 8 <= |b|
  {
    if Ino(b, p) == 0 then Len(b, p) >= Need(|e.name|)
    else Len(b, p) >= Need(NameLen(b, p)) && Len(b, p) - Need(NameLen(b, p)) >= Need(|e.name|)
  }

  ghost predicate EntryOk(e: Entry) { 0 < |e.name| < 256 && 0 < e.ino < WORD }

  function Inserted(b: seq<Byte>, p: nat, e: Entry): seq<Byte>
    requires RecOk(b, p) && Fits(b, p, e) && |e.name| < 256
  {
    if Ino(b, p) == 0 then Stamp(b, p, Len(b, p), e)
    else
      var ideal := Need(NameLen(b, p));
      Stamp(SetLen(b, p, ideal), p + ideal, Len(b, p) - ideal, e)
  }

  lemma StampRec(b: seq<Byte>, p: nat, len: nat, e: Entry)
    requires p + 8 + |e.name| <= |b| && EntryOk(e) && 8 + |e.name| <= len && p + len <= |b| <= MAX_BLOCK
    ensures var c := Stamp(b, p, len, e);
            RecOk(c, p) && Len(c, p) == len && Live(c, p) == [e] && Agree(b, c, 0, p) && Agree(b, c, p + len, |b|)
  {
    hide RdLe16, RdLe32, Stamp;
    StampIs(b, p, len, e);
  }

  lemma ShortenRec(b: seq<Byte>, p: nat, len: nat)
    requires RecOk(b, p) && 8 + NameLen(b, p) <= len && p + len <= |b| <= MAX_BLOCK
    ensures var c := SetLen(b, p, len);
            RecOk(c, p) && Len(c, p) == len && Live(c, p) == Live(b, p) && Agree(b, c, 0, p) && Agree(b, c, p + 8, |b|)
  {
    hide RdLe16, RdLe32, SetLen;
    SetLenIs(b, p, len);
    var c := SetLen(b, p, len);
    assert b[p + 8..p + 8 + NameLen(b, p)] == c[p + 8..p + 8 + NameLen(b, p)];
  }

  /** Adding puts one entry among the others and leaves the block tiled. */
  lemma InsertOk(b: seq<Byte>, p: nat, e: Entry)
    requires Tiled(b, 0) && |b| <= MAX_BLOCK && Reach(b, 0, p) && RecOk(b, p) && Fits(b, p, e) && EntryOk(e)
    ensures Swapped(b, Inserted(b, p, e), [], [e])
  {
    hide Tiled, Entries, Between, Reach, RdLe16, RdLe32, Stamp, SetLen;
    var c, n := Inserted(b, p, e), p + Len(b, p);
    OneRec(b, p);
    if Ino(b, p) == 0 {
      StampRec(b, p, Len(b, p), e);
      OneRec(c, p);
    } else {
      var ideal := Need(NameLen(b, p));
      var d := SetLen(b, p, ideal);
      ShortenRec(b, p, ideal);
      StampRec(d, p + ideal, Len(b, p) - ideal, e);
      SameRec(d, c, p, p + ideal);
      TwoRecs(c, p, p + ideal);
    }
    Replace(b, c, p, n);
    var x, l, y := Between(b, 0, p), Live(b, p), Entries(b, n);
    assert x + l + y == x + l + [] + y && x + (l + [e]) + y == x + l + [e] + y;
    assert SwappedIn(b, c, x + l, [], [e], y);
  }

  // ---- removing ----

  /** The record is joined to the one before it, or marked unused when it is the first. */
  function Removed(b: seq<Byte>, p: nat, prev: int): seq<Byte>
    requires p + 8 <= |b| && (prev >= 0 ==> prev + 8 <= |b|)
  {
    if prev >= 0 then SetLen(b, prev, Len(b, prev) + Len(b, p)) else SetIno(b, p, 0)
  }

  lemma ClearRec(b: seq<Byte>, p: nat, none: nat)
    requires RecOk(b, p) && none == 0
    ensures IsRec(SetIno(b, p, none), p, Len(b, p), []) && Agree(b, SetIno(b, p, none), 0, p) && Agree(b, SetIno(b, p, none), p + 4, |b|)
  {
    hide Le32;
    var c := SetIno(b, p, none);
    assert c[p..p + 4] == Le32(none);
    Le32RoundTrip(c, p, none);
  }

  /** Removing takes out the entry of one record and leaves the block tiled. */
  lemma RemoveOk(b: seq<Byte>, p: nat, prev: int)
    requires Tiled(b, 0) && |b| <= MAX_BLOCK && Reach(b, 0, p) && RecOk(b, p)
    requires prev >= 0 ==> Reach(b, 0, prev) && RecOk(b, prev) && prev + Len(b, prev) == p
    ensures Swapped(b, Removed(b, p, prev), Live(b, p), [])
  {
    hide Tiled, Entries, Between, Reach, RdLe16, RdLe32, SetLen, SetIno;
    var c, n := Removed(b, p, prev), p + Len(b, p);
    OneRec(b, p);
    if prev >= 0 {
      ShortenRec(b, prev, Len(b, prev) + Len(b, p));
      TwoRecs(b, prev, p);
      OneRec(c, prev);
      Replace(b, c, prev, n);
      var x, l, m, y := Between(b, 0, prev), Live(b, prev), Live(b, p), Entries(b, n);
      assert x + (l + m) + y == x + l + m + y && x + l + y == x + l + [] + y;
      assert SwappedIn(b, c, x + l, m, [], y);
    } else {
      ClearRec(b, p, 0);
      OneRec(c, p);
      Replace(b, c, p, n);
      assert SwappedIn(b, c, Between(b, 0, p), Live(b, p), [], Entries(b, n));
    }
  }
}
