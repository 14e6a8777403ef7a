/** Directories of kernel/ext4.c as maps from names to inodes: lookup, adding and removing over
    all the blocks of a directory. */
module Directory {
  import opened Bytes
  import opened DirBlock

  datatype Option<T> = None | Some(value: T)

  /** A block of the directory file, or a hole. */
  datatype Slot = Hole | Block(b: seq<Byte>)

  function SlotEntries(s: Slot): seq<Entry> {
    if s.Block? && Tiled(s.b, 0) then Entries(s.b, 0) else []
  }

  function DirEntries(d: seq<Slot>): seq<Entry>
    decreases |d|
  {
    if d == [] then [] else SlotEntries(d[0]) + DirEntries(d[1..])
  }

  ghost predicate SlotOk(s: Slot) { s.Block? ==> |s.b| <= MAX_BLOCK && Tiled(s.b, 0) }

  ghost predicate BlocksOk(d: seq<Slot>) { forall i :: 0 <= i < |d| ==> SlotOk(d[i]) }

  // ---- entries as a map ----

  function Lookup(es: seq<Entry>, name: seq<Byte>): Option<Entry>
    decreases |es|
  {
    if es == [] then None else if es[0].name == name then Some(es[0]) else Lookup(es[1..], name)
  }

  ghost predicate Unique(es: seq<Entry>) { forall i, j :: 0 <= i < j < |es| ==> es[i].name != es[j].name }

  lemma {:induction false} LookupAppend(x: seq<Entry>, y: seq<Entry>, name: seq<Byte>)
    ensures Lookup(x + y, name) == if Lookup(x, name).Some? then Lookup(x, name) else Lookup(y, name)
    decreases |x|
  {
    if x == [] {
      assert x + y == y;
    } else {
      assert (x + y)[1..] == x[1..] + y;
      LookupAppend(x[1..], y, name);
    }
  }

  lemma {:induction false} LookupNone(es: seq<Entry>, name: seq<Byte>)
    ensures Lookup(es, name) == None <==> forall i :: 0 <= i < |es| ==> es[i].name != name
    decreases |es|
  {
    if es != [] {
      LookupNone(es[1..], name);
      assert (forall i :: 0 <= i < |es| ==> es[i].name != name) <==> es[0].name != name && forall i :: 0 <= i < |es[1..]| ==> es[1..][i].name != name;
    }
  }

  lemma OneEntry(e: Entry, name: seq<Byte>)
    ensures Lookup([e], name) == if e.name == name then Some(e) else None
  {
    assert [e][1..] == [];
  }

  /** A new name among the others. */
  lemma LookupInsert(x: seq<Entry>, e: Entry, y: seq<Entry>, name: seq<Byte>)
    requires Lookup(x + y, e.name) == None
    ensures Lookup(x + [e] + y, name) == if name == e.name then Some(e) else Lookup(x + y, name)
  {
    LookupAppend(x, y, name);
    LookupAppend(x, y, e.name);
    LookupAppend(x + [e], y, name);
    LookupAppend(x, [e], name);
    OneEntry(e, name);
  }

  lemma UniqueInsert(x: seq<Entry>, e: Entry, y: seq<Entry>)
    requires Lookup(x + y, e.name) == None && Unique(x + y)
    ensures Unique(x + [e] + y)
  {
    hide Lookup;
    LookupNone(x + y, e.name);
    var s, t := x + y, x + [e] + y;
    forall i, j | 0 <= i < j < |t| ensures t[i].name != t[j].name {
      var k := |x|;
      assert t[i] == if i < k then s[i] else if i == k then e else s[i - 1];
      assert t[j] == if j < k then s[j] else if j == k then e else s[j - 1];
    }
  }

  /** One name less. */
  lemma LookupRemove(x: seq<Entry>, e: Entry, y: seq<Entry>, name: seq<Byte>)
    requires Unique(x + [e] + y)
    ensures Unique(x + y) && Lookup(x + y, name) == if name == e.name then None else Lookup(x + [e] + y, name)
  {
    hide Lookup;
    var s, t, k := x + y, x + [e] + y, |x|;
    forall i | 0 <= i < |s| ensures s[i].name != e.name {
      assert s[i] == t[if i < k then i else i + 1] && t[k] == e;
    }
    forall i, j | 0 <= i < j < |s| ensures s[i].name != s[j].name {
      assert s[i] == t[if i < k then i else i + 1] && s[j] == t[if j < k then j else j + 1];
    }
    LookupNone(s, e.name);
    if name != e.name {
      LookupInsert(x, e, y, name);
    }
  }

  // ---- a change in one block ----

  ghost predicate ChangedIn(d: seq<Slot>, d': seq<Slot>, x: seq<Entry>, was: seq<Entry>, now: seq<Entry>, y: seq<Entry>) {
    DirEntries(d) == x + was + y && DirEntries(d') == x + now + y
  }

  ghost predicate Changed(d: seq<Slot>, d': seq<Slot>, was: seq<Entry>, now: seq<Entry>) {
    exists x, y :: ChangedIn(d, d', x, was, now, y)
  }

  lemma {:induction false} DirSplit(d: seq<Slot>, i: nat)
    requires i < |d|
    ensures DirEntries(d) == DirEntries(d[..i]) + SlotEntries(d[i]) + DirEntries(d[i + 1..])
    decreases i
  {
    if i == 0 {
      assert d[..0] == [];
    } else {
      DirSplit(d[1..], i - 1);
      assert d[1..][..i - 1] == d[..i][1..] && d[1..][i - 1 + 1..] == d[i + 1..];
      Assoc(SlotEntries(d[0]), DirEntries(d[..i][1..]), SlotEntries(d[i]), DirEntries(d[i + 1..]));
    }
  }

  lemma Assoc(a: seq<Entry>, b: seq<Entry>, c: seq<Entry>, e: seq<Entry>)
    ensures a + (b + c + e) == a + b + c + e
  {
  }

  lemma DirSwap(d: seq<Slot>, i: nat, c: seq<Byte>, was: seq<Entry>, now: seq<Entry>)
    requires BlocksOk(d) && i < |d| && d[i].Block? && Swapped(d[i].b, c, was, now)
    ensures BlocksOk(d[i := Block(c)]) && Changed(d, d[i := Block(c)], was, now)
  {
    hide Entries, Tiled;
    var d' := d[i := Block(c)];
    var x, y :| SwappedIn(d[i].b, c, x, was, now, y);
    DirSplit(d, i);
    DirSplit(d', i);
    assert d'[..i] == d[..i] && d'[i + 1..] == d[i + 1..];
    var p, s := DirEntries(d[..i]), DirEntries(d[i + 1..]);
    Five(p, x, was, y, s);
    Five(p, x, now, y, s);
    assert ChangedIn(d, d', p + x, was, now, y + s);
  }

  lemma Five(p: seq<Entry>, x: seq<Entry>, m: seq<Entry>, y: seq<Entry>, s: seq<Entry>)
    ensures p + (x + m + y) + s == p + x + m + (y + s)
  {
  }

  /** As a map, a change that adds one entry. */
  lemma AddIsInsert(d: seq<Slot>, d': seq<Slot>, e: Entry, name: seq<Byte>)
    requires Changed(d, d', [], [e]) && Unique(DirEntries(d)) && Lookup(DirEntries(d), e.name) == None
    ensures Unique(DirEntries(d')) && Lookup(DirEntries(d'), name) == if name == e.name then Some(e) else Lookup(DirEntries(d), name)
  {
    hide DirEntries, Lookup, Unique;
    var x, y :| ChangedIn(d, d', x, [], [e], y);
    assert x + [] + y == x + y;
    LookupInsert(x, e, y, name);
    UniqueInsert(x, e, y);
  }

  /** As a map, a change that takes one entry out. */
  lemma RemoveIsDelete(d: seq<Slot>, d': seq<Slot>, e: Entry, name: seq<Byte>)
    requires Changed(d, d', [e], []) && Unique(DirEntries(d))
    ensures Unique(DirEntries(d')) && Lookup(DirEntries(d'), name) == if name == e.name then None else Lookup(DirEntries(d), name)
  {
    hide DirEntries, Lookup, Unique;
    var x, y :| ChangedIn(d, d', x, [e], [], y);
    assert x + [] + y == x + y;
    LookupRemove(x, e, y, name);
  }

  // ---- the loops ----

  datatype Search = Found(pos: nat, prev: int) | Missing | Bad

  /** A record in use with that name, and the record before it, -1 if there is none. */
  ghost predicate Hit(b: seq<Byte>, name: seq<Byte>, pos: nat, prev: int) {
    && Reach(b, 0, pos) && RecOk(b, pos) && Ino(b, pos) != 0 && EntryAt(b, pos).name == name
    && (prev >= 0 ==> Reach(b, 0, prev) && RecOk(b, prev) && prev + Len(b, prev) == pos)
  }

  /** The walk over one block in `ext4_dir_find_entry`. */
  method FindIn(b: seq<Byte>, name: seq<Byte>) returns (r: Search)
    ensures r.Found? ==> Hit(b, name, r.pos, r.prev)
    ensures Tiled(b, 0) ==> !r.Bad? && Lookup(Entries(b, 0), name) == if r.Found? then Some(EntryAt(b, r.pos)) else None
  {
    hide RdLe16, RdLe32, Reach, Between, Tiled, Entries, Lookup;
    var pos, prev: int := 0, -1;
    Start(b, name);
    while pos + 8 <= |b|
      invariant pos <= |b| && Reach(b, 0, pos) && Lookup(Between(b, 0, pos), name) == None
      invariant prev >= 0 ==> Reach(b, 0, prev) && RecOk(b, prev) && prev + Len(b, prev) == pos
      decreases |b| - pos
    {
      if Len(b, pos) < 8 || pos + Len(b, pos) > |b| || NameLen(b, pos) > Len(b, pos) - 8 {
        NotTiled(b, pos);
        return Bad;
      }
      ReachNext(b, 0, pos);
      LookupAppend(Between(b, 0, pos), Live(b, pos), name);
      if Ino(b, pos) != 0 {
        OneEntry(EntryAt(b, pos), name);
        if NameLen(b, pos) == |name| && b[pos + 8..pos + 8 + |name|] == name {
          FoundAt(b, name, pos);
          return Found(pos, prev);
        }
      } else {
        NoEntry(name);
      }
      prev, pos := pos, pos + Len(b, pos);
    }
    AtEnd(b, name, pos);
    r := Missing;
  }

  lemma NoEntry(name: seq<Byte>)
    ensures Lookup([], name) == None
  {
  }

  lemma Start(b: seq<Byte>, name: seq<Byte>)
    ensures Reach(b, 0, 0) && Lookup(Between(b, 0, 0), name) == None
  {
  }

  lemma NotTiled(b: seq<Byte>, pos: nat)
    requires Reach(b, 0, pos) && pos < |b| && !RecOk(b, pos)
    ensures !Tiled(b, 0)
  {
    if Tiled(b, 0) {
      TiledAt(b, 0, pos);
    }
  }

  lemma EntriesAt(b: seq<Byte>, p: nat)
    requires Tiled(b, p) && RecOk(b, p)
    ensures Tiled(b, p + Len(b, p)) && Entries(b, p) == Live(b, p) + Entries(b, p + Len(b, p))
  {
  }

  lemma FoundAt(b: seq<Byte>, name: seq<Byte>, pos: nat)
    requires Reach(b, 0, pos) && RecOk(b, pos) && Ino(b, pos) != 0 && EntryAt(b, pos).name == name && Lookup(Between(b, 0, pos), name) == None
    ensures Tiled(b, 0) ==> Lookup(Entries(b, 0), name) == Some(EntryAt(b, pos))
  {
    hide RdLe16, RdLe32, Reach, Between, Lookup, Tiled, Entries, EntryAt;
    if Tiled(b, 0) {
      TiledAt(b, 0, pos);
      Parts(b, 0, pos);
      EntriesAt(b, pos);
      var e := EntryAt(b, pos);
      LookupAppend(Between(b, 0, pos), Entries(b, pos), name);
      LookupAppend([e], Entries(b, pos + Len(b, pos)), name);
      OneEntry(e, name);
    }
  }

  lemma AtEnd(b: seq<Byte>, name: seq<Byte>, pos: nat)
    requires Reach(b, 0, pos) && pos <= |b| < pos + 8 && Lookup(Between(b, 0, pos), name) == None
    ensures Tiled(b, 0) ==> Lookup(Entries(b, 0), name) == None
  {
    hide RdLe16, RdLe32, Reach, Between, Lookup;
    if Tiled(b, 0) {
      TiledAt(b, 0, pos);
      Parts(b, 0, pos);
      assert Between(b, 0, pos) + [] == Between(b, 0, pos);
    }
  }

  /** The walk over one block in `ext4_dir_add_entry`: the first record that can take the entry. */
  method PlaceIn(b: seq<Byte>, e: Entry) returns (ok: bool, p: nat)
    requires Tiled(b, 0)
    ensures ok <==> HasRoom(b, e)
    ensures ok ==> Reach(b, 0, p) && RecOk(b, p) && Fits(b, p, e)
    ensures ok ==> forall q: nat :: q < p && Reach(b, 0, q) ==> !(RecOk(b, q) && Fits(b, q, e))
  {
    hide RdLe16, RdLe32, Between, Tiled, Reach, Fits;
    p := 0;
    Start(b, []);
    while p + 8 <= |b|
      invariant p <= |b| && Reach(b, 0, p) && Tiled(b, p)
      invariant forall q: nat :: q < p && Reach(b, 0, q) ==> !(RecOk(b, q) && Fits(b, q, e))
      decreases |b| - p
    {
      RecAt(b, p);
      if Fits(b, p, e) {
        return true, p;
      }
      ReachNext(b, 0, p);
      forall q: nat | q < p + Len(b, p) && Reach(b, 0, q) ensures q <= p {
        NoSkip(b, 0, p, q);
      }
      p := p + Len(b, p);
    }
    RecAt(b, p);
    ok := false;
  }

  lemma RecAt(b: seq<Byte>, p: nat)
    requires Tiled(b, p) && p <= |b|
    ensures p == |b| || (RecOk(b, p) && Tiled(b, p + Len(b, p)))
  {
  }

  /** No record begins inside another. */
  lemma {:induction false} NoSkip(b: seq<Byte>, s: nat, p: nat, q: nat)
    requires Reach(b, s, p) && Reach(b, s, q) && RecOk(b, p)
    ensures q <= p || q >= p + Len(b, p)
    decreases |b| - s
  {
    if s != p && s != q {
      NoSkip(b, s + Len(b, s), p, q);
    } else if s == p && s != q {
      ReachBound(b, s + Len(b, s), q);
    }
  }

  lemma {:induction false} LookupPrefix(d: seq<Slot>, i: nat, name: seq<Byte>)
    requires i < |d| && Lookup(DirEntries(d[..i]), name) == None
    ensures Lookup(SlotEntries(d[i]), name).Some? ==> Lookup(DirEntries(d), name) == Lookup(SlotEntries(d[i]), name)
    ensures Lookup(SlotEntries(d[i]), name) == None ==> Lookup(DirEntries(d[..i + 1]), name) == None
  {
    hide DirEntries, SlotEntries, Lookup;
    DirSplit(d, i);
    DirSplit(d[..i + 1], i);
    assert d[..i + 1][..i] == d[..i] && d[..i + 1][i] == d[i] && d[..i + 1][i + 1..] == [];
    var p, m, s := DirEntries(d[..i]), SlotEntries(d[i]), DirEntries(d[i + 1..]);
    LookupAppend(p + m, s, name);
    LookupAppend(p, m, name);
    LookupAppend(p + m, DirEntries([]), name);
    NoBlocks(name);
  }

  lemma NoBlocks(name: seq<Byte>)
    ensures Lookup(DirEntries([]), name) == None
  {
  }

  /** Some record of the block can take the entry. */
  ghost predicate HasRoom(b: seq<Byte>, e: Entry) {
    exists q: nat :: q < |b| && Reach(b, 0, q) && RecOk(b, q) && Fits(b, q, e)
  }

  /** The walk over the blocks meets one with room before it meets a hole. */
  ghost predicate RoomFrom(d: seq<Slot>, i: nat, e: Entry)
    requires i <= |d|
    decreases |d| - i
  {
    i < |d| && d[i].Block? && (HasRoom(d[i].b, e) || RoomFrom(d, i + 1, e))
  }

  /** The bytes of a record for the name: a header of 8, then the name up to a multiple of 4. */
  function RecordSize(name: seq<Byte>): nat { 8 + (|name| + 3) / 4 * 4 }

  /** What was taken out can be put back: once a record is removed there is room for every entry
      that fits into its bytes, whether it was joined to an entry, to an unused record or to none. */
  lemma RemovedFits(b: seq<Byte>, p: nat, prev: int, e: Entry)
    requires |b| <= MAX_BLOCK && Reach(b, 0, p) && RecOk(b, p) && Len(b, p) >= RecordSize(e.name)
    requires prev >= 0 ==> Reach(b, 0, prev) && RecOk(b, prev) && prev + Len(b, prev) == p
    requires prev >= 0 && Ino(b, prev) != 0 ==> Len(b, prev) >= RecordSize(EntryAt(b, prev).name)
    ensures HasRoom(Removed(b, p, prev), e)
  {
    hide Reach, RdLe16, RdLe32, SetLen, SetIno, Between;
    var c, q := Removed(b, p, prev), if prev >= 0 then prev else p;
    if prev >= 0 {
      ShortenRec(b, prev, Len(b, prev) + Len(b, p));
      SetLenIs(b, prev, Len(b, prev) + Len(b, p));
    } else {
      ClearRec(b, p, 0);
    }
    SameBetween(b, c, 0, q);
    assert Fits(c, q, e);
  }

  /** In a directory without holes it finds its way back. */
  lemma RemovedHasRoom(d: seq<Slot>, lb: nat, p: nat, prev: int, e: Entry, i: nat)
    requires lb < |d| && i <= lb && BlocksOk(d) && (forall j :: 0 <= j < |d| ==> d[j].Block?)
    requires var b := d[lb].b;
             && Reach(b, 0, p) && RecOk(b, p) && Len(b, p) >= RecordSize(e.name)
             && (prev >= 0 ==> Reach(b, 0, prev) && RecOk(b, prev) && prev + Len(b, prev) == p)
             && (prev >= 0 && Ino(b, prev) != 0 ==> Len(b, prev) >= RecordSize(EntryAt(b, prev).name))
    ensures RoomFrom(d[lb := Block(Removed(d[lb].b, p, prev))], i, e)
    decreases lb - i
  {
    hide Reach, Removed, HasRoom, Fits, Tiled;
    assert SlotOk(d[lb]);
    RemovedFits(d[lb].b, p, prev, e);
    if i < lb {
      RemovedHasRoom(d, lb, p, prev, e, i + 1);
    }
  }

  /** A directory: its blocks are tiled and no name stands twice. */
  class Dir {
    var blocks: seq<Slot>

    ghost predicate Valid() reads this { BlocksOk(blocks) && Unique(DirEntries(blocks)) }

    /** One block that is a single unused record. */
    constructor (bs: nat)
      requires 8 <= bs <= MAX_BLOCK
      ensures Valid() && (forall name :: Named(name) == None) && forall e :: RoomFrom(blocks, 0, e) <==> RecordSize(e.name) <= bs
    {
      hide Unused, Lookup, DirEntries, BlocksOk, Unique, HasRoom;
      blocks := [Block(Unused(bs))];
      new;
      UnusedBlock(bs);
      OneBlock(Unused(bs));
      forall name ensures Named(name) == None {
        NoEntry(name);
      }
      forall e ensures RoomFrom(blocks, 0, e) <==> RecordSize(e.name) <= bs {
        UnusedRoom(bs, e);
      }
    }

    ghost function Named(name: seq<Byte>): Option<Entry> reads this { Lookup(DirEntries(blocks), name) }

    /** `ext4_dir_find_entry`. */
    method Find(name: seq<Byte>) returns (r: Option<Entry>, lb: nat, hit: Search)
      requires BlocksOk(blocks)
      ensures r == if 0 < |name| < 256 then Named(name) else None
      ensures r.Some? ==> lb < |blocks| && blocks[lb].Block? && hit.Found? && Hit(blocks[lb].b, name, hit.pos, hit.prev) && r.value == EntryAt(blocks[lb].b, hit.pos)
    {
      hide Hit, Lookup, DirEntries, Tiled, Entries;
      r, lb, hit := None, 0, Missing;
      if |name| == 0 || |name| > 255 {
        return;
      }
      NoBlocks(name);
      while lb < |blocks|
        invariant lb <= |blocks| && Lookup(DirEntries(blocks[..lb]), name) == None
      {
        LookupPrefix(blocks, lb, name);
        NoEntry(name);
        if blocks[lb].Block? {
          hit := FindIn(blocks[lb].b, name);
          assert SlotOk(blocks[lb]);
          if hit.Found? {
            r := Taken(blocks[lb].b, name, hit.pos, hit.prev);
            return;
          }
        }
        lb := lb + 1;
      }
      assert blocks[..lb] == blocks;
    }

    method Taken(b: seq<Byte>, name: seq<Byte>, pos: nat, prev: int) returns (r: Option<Entry>)
      requires Hit(b, name, pos, prev)
      ensures r == Some(EntryAt(b, pos))
    {
      r := Some(EntryAt(b, pos));
    }

    /** `ext4_dir_add_entry`: the first block with a record that can take the entry. */
    method Add(e: Entry) returns (ok: bool)
      requires Valid() && 0 < e.ino < WORD
      modifies this
      ensures BlocksOk(blocks) && (!ok ==> blocks == old(blocks))
      ensures ok <==> 0 < |e.name| < 256 && RoomFrom(old(blocks), 0, e)
      ensures ok ==> 0 < |e.name| < 256 && Changed(old(blocks), blocks, [], [e])
      ensures ok && old(Named(e.name)) == None ==> Valid() && forall n :: Named(n) == if n == e.name then Some(e) else old(Named(n))
    {
      hide Fits, Reach, RecOk, Tiled, Entries, DirEntries, Lookup, Unique, Changed, HasRoom;
      if |e.name| == 0 || |e.name| > 255 {
        return false;
      }
      var lb := 0;
      while lb < |blocks|
        invariant lb <= |blocks| && blocks == old(blocks) && RoomFrom(blocks, 0, e) == RoomFrom(blocks, lb, e)
      {
        if blocks[lb].Hole? {
          return false;
        }
        var b := blocks[lb].b;
        assert SlotOk(blocks[lb]);
        var found, p := PlaceIn(b, e);
        if found {
          Put(lb, b, p, e);
          return true;
        }
        lb := lb + 1;
      }
      ok := false;
    }

    method Put(lb: nat, b: seq<Byte>, p: nat, e: Entry)
      requires Valid() && lb < |blocks| && blocks[lb] == Block(b) && Reach(b, 0, p) && RecOk(b, p) && Fits(b, p, e) && EntryOk(e)
      modifies this
      ensures BlocksOk(blocks) && Changed(old(blocks), blocks, [], [e])
      ensures old(Named(e.name)) == None ==> Valid() && forall n :: Named(n) == if n == e.name then Some(e) else old(Named(n))
    {
      hide Fits, Reach, RecOk, Tiled, Entries, DirEntries, Lookup, Unique, Changed, Swapped, BlocksOk;
      ghost var d := blocks;
      OneSlot(d, lb);
      InsertOk(b, p, e);
      DirSwap(d, lb, Inserted(b, p, e), [], [e]);
      blocks := blocks[lb := Block(Inserted(b, p, e))];
      if old(Named(e.name)) == None {
        AddIsInsert(d, blocks, e, e.name);
        forall n ensures Named(n) == if n == e.name then Some(e) else Lookup(DirEntries(d), n) {
          AddIsInsert(d, blocks, e, n);
        }
      }
    }

    /** `ext4_dir_remove_entry`. */
    method Remove(name: seq<Byte>) returns (r: Option<Entry>)
      requires Valid()
      modifies this
      ensures Valid() && r == if 0 < |name| < 256 then old(Named(name)) else None
      ensures r == None ==> blocks == old(blocks)
      ensures r.Some? ==> Changed(old(blocks), blocks, [r.value], []) && forall n :: Named(n) == if n == name then None else old(Named(n))
    {
      hide Hit, Tiled, Entries, DirEntries, Lookup, Unique, Changed, BlocksOk;
      var lb, hit;
      r, lb, hit := Find(name);
      if r.Some? {
        TakeOut(lb, blocks[lb].b, name, hit.pos, hit.prev);
      }
    }

    method TakeOut(lb: nat, b: seq<Byte>, name: seq<Byte>, pos: nat, prev: int)
      requires Valid() && lb < |blocks| && blocks[lb] == Block(b) && Hit(b, name, pos, prev)
      modifies this
      ensures Valid() && Changed(old(blocks), blocks, [EntryAt(b, pos)], [])
      ensures forall n :: Named(n) == if n == name then None else old(Named(n))
    {
      hide Reach, Tiled, Entries, DirEntries, Lookup, Unique, Changed, Swapped, BlocksOk, Removed, RdLe16, RdLe32, EntryAt;
      ghost var d := blocks;
      ghost var e := EntryAt(b, pos);
      OneSlot(d, lb);
      HitRemoved(b, name, pos, prev);
      DirSwap(d, lb, Removed(b, pos, prev), [e], []);
      blocks := blocks[lb := Block(Removed(b, pos, prev))];
      RemoveIsDelete(d, blocks, e, name);
      forall n ensures Named(n) == if n == name then None else Lookup(DirEntries(d), n) {
        RemoveIsDelete(d, blocks, e, n);
      }
    }
  }

  function Unused(bs: nat): seq<Byte>
    requires bs >= 8
  {
    SetLen(Zeros(bs), 0, bs)
  }

  lemma UnusedBlock(bs: nat)
    requires 8 <= bs <= MAX_BLOCK
    ensures |Unused(bs)| == bs && Tiled(Unused(bs), 0) && Entries(Unused(bs), 0) == []
  {
    hide RdLe16, RdLe32, SetLen, Zeros;
    var z := Zeros(bs);
    SetLenIs(z, 0, bs);
    ZeroRec(z);
    OneUnused(Unused(bs));
  }

  lemma UnusedRoom(bs: nat, e: Entry)
    requires 8 <= bs <= MAX_BLOCK
    ensures HasRoom(Unused(bs), e) <==> RecordSize(e.name) <= bs
  {
    hide RdLe16, RdLe32, SetLen, Zeros;
    var z, b := Zeros(bs), Unused(bs);
    SetLenIs(z, 0, bs);
    ZeroRec(z);
    assert Reach(b, 0, 0) && RecOk(b, 0);
    forall q: nat | q < |b| && Reach(b, 0, q) ensures q == 0 {
      NoSkip(b, 0, 0, q);
    }
  }

  lemma OneBlock(b: seq<Byte>)
    requires |b| <= MAX_BLOCK && Tiled(b, 0) && Entries(b, 0) == []
    ensures BlocksOk([Block(b)]) && DirEntries([Block(b)]) == [] && Unique(DirEntries([Block(b)]))
  {
    hide Tiled, Entries;
    var d := [Block(b)];
    assert d[1..] == [];
    assert DirEntries(d[1..]) == [];
  }

  lemma ZeroRec(z: seq<Byte>)
    requires |z| >= 8 && forall i :: 0 <= i < |z| ==> z[i] == 0
    ensures Ino(z, 0) == 0 && NameLen(z, 0) == 0
  {
  }

  lemma OneUnused(b: seq<Byte>)
    requires |b| >= 8 && Len(b, 0) == |b| && Ino(b, 0) == 0 && NameLen(b, 0) == 0
    ensures Tiled(b, 0) && Entries(b, 0) == []
  {
    hide RdLe16, RdLe32;
    assert Tiled(b, |b|);
    assert Entries(b, |b|) == [];
  }

  lemma HitRemoved(b: seq<Byte>, name: seq<Byte>, pos: nat, prev: int)
    requires Hit(b, name, pos, prev) && Tiled(b, 0) && |b| <= MAX_BLOCK
    ensures Swapped(b, Removed(b, pos, prev), [EntryAt(b, pos)], []) && EntryAt(b, pos).name == name
  {
    hide Reach, Tiled, Swapped, Removed, RdLe16, RdLe32;
    RemoveOk(b, pos, prev);
  }

  lemma OneSlot(d: seq<Slot>, i: nat)
    requires BlocksOk(d) && i < |d|
    ensures SlotOk(d[i])
  {
  }
}
