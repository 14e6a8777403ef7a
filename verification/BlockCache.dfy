/** The write-back sector cache of kernel/block_cache.c over a device that may fail any request
    and keeps a volatile cache of its own. */
module BlockCache {
  import opened Bytes

  type Sector = seq<Byte>

  datatype Line = Line(valid: bool, dirty: bool, lba: nat, data: Sector, lastUse: nat)

  const EMPTY: Line := Line(false, false, 0, [], 0)

  predicate Hit(l: Line, lba: nat) { l.valid && l.lba == lba }

  /** Some line has the sector. */
  ghost predicate Cached(lines: seq<Line>, lba: nat) { exists i :: 0 <= i < |lines| && Hit(lines[i], lba) }

  /** The lines have the same sectors as before. */
  ghost predicate SameSectors(lines: seq<Line>, lines': seq<Line>) {
    |lines'| == |lines| && forall i :: 0 <= i < |lines| ==> lines'[i].valid == lines[i].valid && lines'[i].lba == lines[i].lba
  }

  lemma StillCached(lines: seq<Line>, lines': seq<Line>, lba: nat)
    requires SameSectors(lines, lines')
    ensures Cached(lines', lba) <==> Cached(lines, lba)
  {
    if Cached(lines, lba) {
      var i :| 0 <= i < |lines| && Hit(lines[i], lba);
      assert Hit(lines'[i], lba);
    }
    if Cached(lines', lba) {
      var i :| 0 <= i < |lines| && Hit(lines'[i], lba);
      assert Hit(lines[i], lba);
    }
  }

  lemma SectorsTwice(lines: seq<Line>, lines': seq<Line>, lines'': seq<Line>)
    requires SameSectors(lines, lines') && SameSectors(lines', lines'')
    ensures SameSectors(lines, lines'')
  {
  }

  /** A sector as the cache answers for it: the line that has it, else the device. */
  function Look(lines: seq<Line>, lba: nat, stored: Sector): Sector
    decreases |lines|
  {
    if lines == [] then stored
    else if Hit(lines[0], lba) then lines[0].data
    else Look(lines[1..], lba, stored)
  }

  /** The sector array that the cache and the device stand for. */
  function View(lines: seq<Line>, disk: seq<Sector>): (v: seq<Sector>)
    ensures |v| == |disk|
  {
    seq(|disk|, i requires 0 <= i < |disk| => Look(lines, i, disk[i]))
  }

  ghost predicate LineOk(l: Line, disk: seq<Sector>) {
    l.valid ==> l.lba < |disk| && (!l.dirty ==> l.data == disk[l.lba])
  }

  /** At most one line per sector, and clean lines equal the device. */
  ghost predicate Ok(lines: seq<Line>, disk: seq<Sector>) {
    && (forall i :: 0 <= i < |lines| ==> LineOk(lines[i], disk))
    && (forall i, j :: 0 <= i < j < |lines| ==> !(lines[i].valid && lines[j].valid && lines[i].lba == lines[j].lba))
  }

  lemma {:induction false} LookMiss(lines: seq<Line>, lba: nat, stored: Sector)
    requires forall i :: 0 <= i < |lines| ==> !Hit(lines[i], lba)
    ensures Look(lines, lba, stored) == stored
    decreases |lines|
  {
    if lines != [] {
      LookMiss(lines[1..], lba, stored);
    }
  }

  lemma {:induction false} LookFirst(lines: seq<Line>, k: nat, lba: nat, stored: Sector)
    requires k < |lines| && Hit(lines[k], lba) && forall i :: 0 <= i < k ==> !Hit(lines[i], lba)
    ensures Look(lines, lba, stored) == lines[k].data
    decreases k
  {
    if k > 0 {
      LookFirst(lines[1..], k - 1, lba, stored);
    }
  }

  lemma LookIs(lines: seq<Line>, disk: seq<Sector>, k: nat, lba: nat, stored: Sector)
    requires Ok(lines, disk) && k < |lines| && Hit(lines[k], lba)
    ensures Look(lines, lba, stored) == lines[k].data && forall i :: 0 <= i < |lines| && i != k ==> !Hit(lines[i], lba)
  {
    LookFirst(lines, k, lba, stored);
  }

  /** Replacing one line matters only for the sector it had and the sector it has. */
  lemma LookUpdate(lines: seq<Line>, disk: seq<Sector>, disk': seq<Sector>, k: nat, l: Line, lba: nat, stored: Sector)
    requires k < |lines| && Ok(lines, disk) && Ok(lines[k := l], disk')
    ensures Look(lines[k := l], lba, stored) ==
            if Hit(l, lba) then l.data else if Hit(lines[k], lba) then stored else Look(lines, lba, stored)
  {
    hide Look;
    var lines' := lines[k := l];
    if Hit(l, lba) {
      LookIs(lines', disk', k, lba, stored);
    } else if Hit(lines[k], lba) {
      LookIs(lines, disk, k, lba, stored);
      LookMiss(lines', lba, stored);
    } else if j :| 0 <= j < |lines| && Hit(lines[j], lba) {
      LookIs(lines, disk, j, lba, stored);
      LookIs(lines', disk', j, lba, stored);
    } else {
      LookMiss(lines, lba, stored);
      LookMiss(lines', lba, stored);
    }
  }

  /** A line that keeps its sector and data may be touched or become clean once stored. */
  lemma TouchOk(lines: seq<Line>, disk: seq<Sector>, k: nat, t: nat)
    requires Ok(lines, disk) && k < |lines|
    ensures Ok(lines[k := lines[k].(lastUse := t)], disk)
    ensures View(lines[k := lines[k].(lastUse := t)], disk) == View(lines, disk)
  {
    hide Look;
    var l := lines[k].(lastUse := t);
    forall i | 0 <= i < |disk| ensures View(lines[k := l], disk)[i] == View(lines, disk)[i] {
      LookUpdate(lines, disk, disk, k, l, i, disk[i]);
      if Hit(lines[k], i) {
        LookIs(lines, disk, k, i, disk[i]);
      }
    }
  }

  /** Storing a line's data on the device is invisible. */
  lemma StoreOk(lines: seq<Line>, disk: seq<Sector>, k: nat)
    requires Ok(lines, disk) && k < |lines| && lines[k].valid
    ensures var d := disk[lines[k].lba := lines[k].data];
            Ok(lines, d) && View(lines, d) == View(lines, disk)
  {
    hide Look;
    var l := lines[k];
    var d := disk[l.lba := l.data];
    forall i | 0 <= i < |lines| ensures LineOk(lines[i], d) {
      assert i != k && lines[i].valid ==> lines[i].lba != l.lba;
    }
    forall i | 0 <= i < |disk| ensures View(lines, d)[i] == View(lines, disk)[i] {
      if i == l.lba {
        LookIs(lines, disk, k, i, disk[i]);
        LookIs(lines, d, k, i, d[i]);
      }
    }
  }

  /** A line whose data the device has may be marked clean. */
  lemma CleanOk(lines: seq<Line>, disk: seq<Sector>, k: nat)
    requires Ok(lines, disk) && k < |lines| && lines[k].valid && disk[lines[k].lba] == lines[k].data
    ensures Ok(lines[k := lines[k].(dirty := false)], disk)
    ensures View(lines[k := lines[k].(dirty := false)], disk) == View(lines, disk)
  {
    hide Look;
    var l := lines[k].(dirty := false);
    forall i | 0 <= i < |disk| ensures View(lines[k := l], disk)[i] == View(lines, disk)[i] {
      LookUpdate(lines, disk, disk, k, l, i, disk[i]);
      if Hit(l, i) {
        LookIs(lines, disk, k, i, disk[i]);
      }
    }
  }

  /** A clean or unused line may be filled with a sector that no line has. */
  lemma LoadOk(lines: seq<Line>, disk: seq<Sector>, k: nat, lba: nat)
    requires Ok(lines, disk) && k < |lines| && !(lines[k].valid && lines[k].dirty) && lba < |disk|
    requires forall i :: 0 <= i < |lines| ==> !Hit(lines[i], lba)
    ensures var l := lines[k].(valid := true, dirty := false, lba := lba, data := disk[lba]);
            Ok(lines[k := l], disk) && View(lines[k := l], disk) == View(lines, disk)
  {
    hide Look;
    var l := lines[k].(valid := true, dirty := false, lba := lba, data := disk[lba]);
    forall i | 0 <= i < |disk| ensures View(lines[k := l], disk)[i] == View(lines, disk)[i] {
      LookUpdate(lines, disk, disk, k, l, i, disk[i]);
      if Hit(lines[k], i) {
        LookIs(lines, disk, k, i, disk[i]);
      } else if i == lba {
        LookMiss(lines, i, disk[i]);
      }
    }
  }

  /** Writing into a line changes its sector and no other. */
  lemma PutOk(lines: seq<Line>, disk: seq<Sector>, k: nat, data: Sector)
    requires Ok(lines, disk) && k < |lines| && lines[k].valid
    ensures var l := lines[k].(data := data, dirty := true);
            Ok(lines[k := l], disk) && View(lines[k := l], disk) == View(lines, disk)[lines[k].lba := data]
  {
    hide Look;
    var l := lines[k].(data := data, dirty := true);
    var now, want := View(lines[k := l], disk), View(lines, disk)[l.lba := data];
    forall i | 0 <= i < |disk| ensures now[i] == want[i] {
      LookUpdate(lines, disk, disk, k, l, i, disk[i]);
    }
  }

  /** With every line clean the device equals the view. */
  lemma AllClean(lines: seq<Line>, disk: seq<Sector>)
    requires Ok(lines, disk) && forall i :: 0 <= i < |lines| ==> !(lines[i].valid && lines[i].dirty)
    ensures View(lines, disk) == disk
  {
    hide Look;
    forall i | 0 <= i < |disk| ensures View(lines, disk)[i] == disk[i] {
      if k :| 0 <= k < |lines| && Hit(lines[k], i) {
        LookIs(lines, disk, k, i, disk[i]);
      } else {
        LookMiss(lines, i, disk[i]);
      }
    }
  }

  // ---- what a power cut can leave ----

  /** The sector holds what some version of the array had there. */
  ghost predicate SomeVersion(versions: seq<seq<Sector>>, i: nat, data: Sector) {
    exists j :: 0 <= j < |versions| && i < |versions[j]| && versions[j][i] == data
  }

  /** Every sector does, each perhaps of its own version. */
  ghost predicate Recent(versions: seq<seq<Sector>>, medium: seq<Sector>) {
    forall i :: 0 <= i < |medium| ==> SomeVersion(versions, i, medium[i])
  }

  lemma MoreVersions(versions: seq<seq<Sector>>, v: seq<Sector>, medium: seq<Sector>)
    requires Recent(versions, medium)
    ensures Recent(versions + [v], medium)
  {
    forall i | 0 <= i < |medium| ensures SomeVersion(versions + [v], i, medium[i]) {
      assert SomeVersion(versions, i, medium[i]);
      var j :| 0 <= j < |versions| && i < |versions[j]| && versions[j][i] == medium[i];
      assert (versions + [v])[j] == versions[j];
    }
  }

  lemma FreshVersion(v: seq<Sector>)
    ensures Recent([v], v)
  {
    forall i | 0 <= i < |v| ensures SomeVersion([v], i, v[i]) {
      assert [v][0][i] == v[i];
    }
  }

  lemma OneSector(versions: seq<seq<Sector>>, medium: seq<Sector>, i: nat, data: Sector)
    requires Recent(versions, medium) && i < |medium| && SomeVersion(versions, i, data)
    ensures Recent(versions, medium[i := data])
  {
  }

  /** What holds between any two requests. */
  ghost predicate Sound(lines: seq<Line>, disk: seq<Sector>, medium: seq<Sector>, versions: seq<seq<Sector>>) {
    && Ok(lines, disk) && |medium| == |disk|
    && versions != [] && versions[|versions| - 1] == View(lines, disk)
    && Recent(versions, disk) && Recent(versions, medium)
  }

  /** A device sector that takes a line's data takes what the view has there. */
  lemma StoreSound(lines: seq<Line>, disk: seq<Sector>, medium: seq<Sector>, versions: seq<seq<Sector>>, k: nat)
    requires Sound(lines, disk, medium, versions) && k < |lines| && lines[k].valid
    ensures var d := disk[lines[k].lba := lines[k].data];
            Sound(lines, d, medium, versions) && View(lines, d) == View(lines, disk)
  {
    hide Look, Recent;
    StoreOk(lines, disk, k);
    var lba := lines[k].lba;
    LookIs(lines, disk, k, lba, disk[lba]);
    assert versions[|versions| - 1][lba] == lines[k].data;
    OneSector(versions, disk, lba, lines[k].data);
  }

  lemma DestageSound(lines: seq<Line>, disk: seq<Sector>, medium: seq<Sector>, versions: seq<seq<Sector>>, i: nat)
    requires Sound(lines, disk, medium, versions) && i < |disk|
    ensures Sound(lines, disk, medium[i := disk[i]], versions)
  {
    hide View, Ok;
    assert SomeVersion(versions, i, disk[i]);
    OneSector(versions, medium, i, disk[i]);
  }

  /** Once everything is stored and destaged, the old versions can no longer come back. */
  lemma FlushSound(lines: seq<Line>, disk: seq<Sector>)
    requires Ok(lines, disk) && forall i :: 0 <= i < |lines| ==> !(lines[i].valid && lines[i].dirty)
    ensures View(lines, disk) == disk && Sound(lines, disk, disk, [disk])
  {
    AllClean(lines, disk);
    FreshVersion(disk);
  }

  /** `count` sectors from `lba` on replaced. */
  function Replaced(v: seq<Sector>, lba: nat, data: seq<Sector>): (r: seq<Sector>)
    requires lba + |data| <= |v|
  {
    v[..lba] + data + v[lba + |data|..]
  }

  lemma ReplacedNone(v: seq<Sector>, lba: nat)
    requires lba <= |v|
    ensures Replaced(v, lba, []) == v
  {
  }

  lemma ReplacedNext(v: seq<Sector>, lba: nat, data: seq<Sector>, i: nat)
    requires lba + |data| <= |v| && i < |data|
    ensures |Replaced(v, lba, data[..i])| == |v| && Replaced(v, lba, data[..i])[lba + i := data[i]] == Replaced(v, lba, data[..i + 1])
  {
  }

  /** The versions a write of the first `n` sectors goes through. */
  ghost function Steps(v: seq<Sector>, lba: nat, data: seq<Sector>, n: nat): seq<seq<Sector>>
    requires lba + |data| <= |v| && n <= |data|
    decreases n
  {
    if n == 0 then [] else Steps(v, lba, data, n - 1) + [Replaced(v, lba, data[..n])]
  }

  lemma Chain(a: seq<seq<Sector>>, b: seq<seq<Sector>>, x: seq<Sector>)
    ensures a + b + [x] == a + (b + [x])
  {
  }

  class Cache {
    const lines: array<Line>
    var disk: seq<Sector>
    var clock: nat
    ghost var medium: seq<Sector>
    ghost var versions: seq<seq<Sector>>
    /** How many requests the device has had, and how many of them failed. */
    ghost var requests: nat
    ghost var failures: nat

    ghost predicate Valid() reads this, lines {
      lines.Length > 0 && Sound(lines[..], disk, medium, versions)
    }

    ghost function V(): seq<Sector> reads this, lines { View(lines[..], disk) }

    /** `block_cache_attach_inode`: an empty cache over a device at rest. */
    constructor (n: nat, sectors: seq<Sector>)
      requires n > 0
      ensures Valid() && fresh(lines) && disk == medium == sectors == V() && versions == [sectors]
    {
      lines := new Line[n](_ => EMPTY);
      disk, clock := sectors, 0;
      medium, versions, requests, failures := sectors, [sectors], 0, 0;
      new;
      FlushSound(lines[..], disk);
    }

    /** `cache_touch`, with the 32-bit clock. */
    method Touch(k: nat)
      requires Valid() && k < lines.Length
      modifies this`clock, lines
      ensures Valid() && V() == old(V())
      ensures lines[..] == old(lines[..])[k := old(lines[k]).(lastUse := clock)]
      ensures clock == var next := (old(clock) + 1) % 0x1_0000_0000; if next == 0 then 1 else next
    {
      clock := (clock + 1) % 0x1_0000_0000;
      if clock == 0 {
        clock := 1;
      }
      TouchOk(lines[..], disk, k, clock);
      ghost var was := lines[..];
      lines[k] := lines[k].(lastUse := clock);
      assert lines[..] == was[k := was[k].(lastUse := clock)];
    }

    /** `cache_find`; `lines.Length` stands for a miss. */
    method Find(lba: nat) returns (k: nat)
      requires Valid()
      modifies this`clock, lines
      ensures Valid() && V() == old(V()) && k <= lines.Length
      ensures k < lines.Length ==> Hit(lines[k], lba) && lines[..] == old(lines[..])[k := old(lines[k]).(lastUse := clock)]
      ensures k == lines.Length ==> lines[..] == old(lines[..]) && forall i :: 0 <= i < lines.Length ==> !Hit(lines[i], lba)
      ensures k < lines.Length <==> Cached(old(lines[..]), lba)
    {
      hide Sound, View;
      k := 0;
      while k < lines.Length && !Hit(lines[k], lba)
        invariant 0 <= k <= lines.Length && lines[..] == old(lines[..])
        invariant forall i :: 0 <= i < k ==> !Hit(lines[i], lba)
      {
        k := k + 1;
      }
      if k < lines.Length {
        ghost var l := lines[k];
        Touch(k);
        assert lines[..][k] == lines[k];
      }
    }

    /** `cache_select_victim`: an unused line, else the one used longest ago. */
    method SelectVictim() returns (k: nat)
      requires lines.Length > 0
      ensures k < lines.Length
      ensures lines[k].valid ==> forall i :: 0 <= i < lines.Length ==> lines[i].valid && lines[k].lastUse <= lines[i].lastUse
    {
      k := 0;
      var i := 0;
      while i < lines.Length
        invariant 0 <= i <= lines.Length && k < lines.Length
        invariant forall j :: 0 <= j < i ==> lines[j].valid && lines[k].lastUse <= lines[j].lastUse
      {
        if !lines[i].valid {
          return i;
        }
        if i == 0 || lines[i].lastUse < lines[k].lastUse {
          k := i;
        }
        i := i + 1;
      }
    }

    /** The device takes a sector, says so or not, and may keep it volatile. */
    method Store(k: nat) returns (ok: bool)
      requires Valid() && k < lines.Length && lines[k].valid
      modifies this`disk, this`requests, this`failures
      ensures Valid() && V() == old(V())
      ensures ok ==> |disk| > lines[k].lba && disk[lines[k].lba] == lines[k].data
      ensures failures == old(failures) + if ok then 0 else 1
    {
      ok := *;
      var reached: bool := *;
      requests, failures := requests + 1, failures + if ok then 0 else 1;
      if ok || reached {
        StoreSound(lines[..], disk, medium, versions, k);
        disk := disk[lines[k].lba := lines[k].data];
      }
    }

    /** `cache_writeback_line`. */
    method WriteBack(k: nat) returns (ok: bool)
      requires Valid() && k < lines.Length
      modifies this`disk, this`requests, this`failures, lines
      ensures Valid() && V() == old(V())
      ensures ok ==> !(lines[k].valid && lines[k].dirty)
      ensures failures == old(failures) + (if ok then 0 else 1) && (!(old(lines[k]).valid && old(lines[k]).dirty) ==> ok && requests == old(requests))
      ensures forall i :: 0 <= i < lines.Length ==> lines[i] == old(lines[i]) || (i == k && ok && lines[i] == old(lines[i]).(dirty := false))
    {
      hide Sound, View;
      if !lines[k].valid || !lines[k].dirty {
        return true;
      }
      ok := Store(k);
      if ok {
        MarkClean(k);
      }
    }

    method MarkClean(k: nat)
      requires Valid() && k < lines.Length && lines[k].valid && lines[k].lba < |disk| && disk[lines[k].lba] == lines[k].data
      modifies lines
      ensures Valid() && V() == old(V()) && lines[..] == old(lines[..])[k := old(lines[k]).(dirty := false)]
    {
      ghost var was := lines[..];
      CleanOk(was, disk, k);
      lines[k] := lines[k].(dirty := false);
      assert lines[..] == was[k := was[k].(dirty := false)];
    }

    /** `cache_get_load`: the line that has the sector, `lines.Length` on a failed request. A
        sector that is not cached takes the place of one that was used longest ago. */
    method GetLoad(lba: nat) returns (k: nat)
      requires Valid() && lba < |disk|
      modifies this`disk, this`clock, this`requests, this`failures, lines
      ensures Valid() && V() == old(V()) && k <= lines.Length
      ensures k < lines.Length ==> Hit(lines[k], lba) && lines[k].data == V()[lba]
      ensures failures == old(failures) + if k < lines.Length then 0 else 1
      ensures Cached(old(lines[..]), lba) ==> k < lines.Length && requests == old(requests) && SameSectors(old(lines[..]), lines[..])
      ensures k < lines.Length ==> forall i :: 0 <= i < lines.Length && i != k ==> lines[i] == old(lines[i])
      ensures k < lines.Length && !Cached(old(lines[..]), lba) && old(lines[k]).valid ==>
        forall i :: 0 <= i < lines.Length ==> old(lines[i]).valid && old(lines[k]).lastUse <= old(lines[i]).lastUse
    {
      hide Sound, View;
      k := Find(lba);
      if k < lines.Length {
        HitIs(k, lba);
        return;
      }
      var v := SelectVictim();
      var ok := WriteBack(v);
      if !ok {
        return lines.Length;
      }
      var read: bool := *;
      requests, failures := requests + 1, failures + if read then 0 else 1;
      if !read {
        return lines.Length;
      }
      SameSize();
      Load(v, lba);
      Touch(v);
      k := v;
      assert lines[..][k] == lines[k];
      HitIs(k, lba);
    }

    lemma SameSize()
      ensures |V()| == |disk|
    {
    }

    lemma HitIs(k: nat, lba: nat)
      requires Valid() && k < lines.Length && Hit(lines[k], lba)
      ensures lba < |disk| && lines[k].data == V()[lba]
    {
      LookIs(lines[..], disk, k, lba, disk[lba]);
    }

    method Load(k: nat, lba: nat)
      requires Valid() && k < lines.Length && !(lines[k].valid && lines[k].dirty) && lba < |disk|
      requires forall i :: 0 <= i < lines.Length ==> !Hit(lines[i], lba)
      modifies lines
      ensures Valid() && V() == old(V()) && Hit(lines[k], lba) && forall i :: 0 <= i < lines.Length && i != k ==> lines[i] == old(lines[i])
    {
      ghost var was := lines[..];
      LoadOk(was, disk, k, lba);
      lines[k] := lines[k].(valid := true, dirty := false, lba := lba, data := disk[lba]);
      assert lines[..] == was[k := was[k].(valid := true, dirty := false, lba := lba, data := disk[lba])];
    }

    /** `block_cache_read`: the bytes last written, whatever was evicted since. It fails exactly if
        the range is wrong or a request failed, and makes no request for sectors that are cached. */
    method Read(lba: nat, count: nat) returns (ok: bool, out: seq<Sector>)
      requires Valid()
      modifies this`disk, this`clock, this`requests, this`failures, lines
      ensures Valid() && V() == old(V())
      ensures ok <==> 0 < count && lba + count <= |V()| && failures == old(failures)
      ensures failures >= old(failures) && (!(0 < count && lba + count <= |V()|) ==> failures == old(failures))
      ensures ok ==> out == V()[lba..lba + count] && Cached(lines[..], lba + count - 1)
      ensures (forall x :: lba <= x < lba + count ==> Cached(old(lines[..]), x)) ==> requests == old(requests) && failures == old(failures)
    {
      hide Sound, View, SameSectors, Cached;
      out := [];
      SameSize();
      if count == 0 || lba >= |disk| || count > |disk| - lba {
        return false, out;
      }
      var i := 0;
      ghost var was := lines[..];
      ghost var all := forall x :: lba <= x < lba + count ==> Cached(was, x);
      NothingMoved(was);
      while i < count
        invariant 0 <= i <= count && Valid() && V() == old(V()) && lba + count <= |disk| == |V()|
        invariant out == V()[lba..lba + i] && failures == old(failures)
        invariant i > 0 ==> Cached(lines[..], lba + i - 1)
        invariant all ==> requests == old(requests) && SameSectors(was, lines[..])
      {
        ghost var now := lines[..];
        var k := GetLoad(lba + i);
        SameSize();
        if all {
          StillCached(was, now, lba + i);
          SectorsTwice(was, now, lines[..]);
        }
        if k == lines.Length {
          return false, out;
        }
        IsCached(lines[..], k, lba + i);
        out := out + [lines[k].data];
        i := i + 1;
      }
      ok := true;
    }

    lemma NothingMoved(s: seq<Line>)
      ensures SameSectors(s, s)
    {
    }

    lemma IsCached(s: seq<Line>, k: nat, lba: nat)
      requires k < |s| && Hit(s[k], lba)
      ensures Cached(s, lba)
    {
    }

    method Put(k: nat, data: Sector)
      requires Valid() && k < lines.Length && lines[k].valid && lines[k].lba < |disk|
      modifies lines, this`versions
      ensures Valid() && V() == old(V()[lines[k].lba := data]) && lines[k].lba == old(lines[k].lba) && versions == old(versions) + [V()]
      ensures SameSectors(old(lines[..]), lines[..])
    {
      ghost var was := lines[..];
      PutOk(was, disk, k, data);
      lines[k] := lines[k].(data := data, dirty := true);
      assert lines[..] == was[k := was[k].(data := data, dirty := true)];
      MoreVersions(versions, V(), disk);
      MoreVersions(versions, V(), medium);
      versions := versions + [V()];
    }

    /** `block_cache_write`: all the sectors, or the first few when a request fails. */
    method Write(lba: nat, data: seq<Sector>) returns (ok: bool, ghost done: nat)
      requires Valid()
      modifies this`disk, this`clock, this`versions, this`requests, this`failures, lines
      ensures Valid() && done <= |data| && |V()| == |old(V())|
      ensures ok <==> data != [] && lba + |data| <= |V()| && failures == old(failures)
      ensures failures >= old(failures) && (!(data != [] && lba + |data| <= |V()|) ==> failures == old(failures))
      ensures ok <==> data != [] && done == |data|
      ensures done > 0 ==> lba + |data| <= |V()|
      ensures V() == if done > 0 then Replaced(old(V()), lba, data[..done]) else old(V())
      ensures versions == old(versions) + if done > 0 then Steps(old(V()), lba, data, done) else []
      ensures (forall x :: lba <= x < lba + |data| ==> Cached(old(lines[..]), x)) ==> requests == old(requests) && failures == old(failures)
    {
      hide Sound, View, Replaced, SameSectors, Cached;
      done := 0;
      SameSize();
      if data == [] || lba >= |disk| || |data| > |disk| - lba {
        return false, 0;
      }
      var i := 0;
      ghost var v, was := V(), lines[..];
      ghost var all := forall x :: lba <= x < lba + |data| ==> Cached(was, x);
      NothingMoved(was);
      ReplacedNone(v, lba);
      while i < |data|
        invariant 0 <= i <= |data| && Valid() && |V()| == |disk| == |v| && lba + |data| <= |v|
        invariant V() == Replaced(v, lba, data[..i]) && done == i && failures == old(failures)
        invariant versions == old(versions) + Steps(v, lba, data, i)
        invariant all ==> requests == old(requests) && SameSectors(was, lines[..])
      {
        ghost var now := lines[..];
        var k := GetLoad(lba + i);
        SameSize();
        if k == lines.Length {
          if all {
            StillCached(was, now, lba + i);
          }
          return false, i;
        }
        ghost var mid := lines[..];
        PutAt(k, data[i]);
        if all {
          StillCached(was, now, lba + i);
          SectorsTwice(was, now, mid);
          SectorsTwice(was, mid, lines[..]);
        }
        SameSize();
        ReplacedNext(v, lba, data, i);
        Chain(old(versions), Steps(v, lba, data, i), V());
        i := i + 1;
        done := i;
      }
      ok := true;
    }

    /** The line takes new bytes and was just used. */
    method PutAt(k: nat, data: Sector)
      requires Valid() && k < lines.Length && lines[k].valid && lines[k].lba < |disk|
      modifies lines, this`clock, this`versions
      ensures Valid() && V() == old(V()[lines[k].lba := data]) && versions == old(versions) + [V()] && SameSectors(old(lines[..]), lines[..])
    {
      hide Sound, View;
      ghost var was := lines[..];
      Put(k, data);
      ghost var now := lines[..];
      Touch(k);
      SectorsTwice(was, now, lines[..]);
    }

    /** `block_cache_flush`, which fails exactly if a request does: on success the medium holds the view and no older version is left. */
    method Flush() returns (ok: bool)
      requires Valid()
      modifies this`disk, this`medium, this`versions, this`requests, this`failures, lines
      ensures Valid() && V() == old(V())
      ensures failures == old(failures) + if ok then 0 else 1
      ensures ok ==> medium == disk == V() && versions == [V()]
      ensures !ok ==> versions == old(versions)
    {
      hide View;
      var i := 0;
      while i < lines.Length
        invariant 0 <= i <= lines.Length && Valid() && V() == old(V()) && versions == old(versions) && failures == old(failures)
        invariant forall j :: 0 <= j < i ==> !(lines[j].valid && lines[j].dirty)
      {
        hide Sound;
        var done := WriteBack(i);
        if !done {
          return false;
        }
        i := i + 1;
      }
      ok := *;
      requests, failures := requests + 1, failures + if ok then 0 else 1;
      if ok {
        FlushSound(lines[..], disk);
        medium, versions := disk, [disk];
      }
    }

    /** The device moves a sector from its volatile cache to the medium, at any time. */
    ghost method Destage(i: nat)
      requires Valid() && i < |disk|
      modifies this`medium
      ensures Valid() && medium == old(medium)[i := disk[i]]
    {
      DestageSound(lines[..], disk, medium, versions, i);
      medium := medium[i := disk[i]];
    }
  }
}
