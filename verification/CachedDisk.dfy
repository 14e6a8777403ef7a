/** Byte writes of kernel/ext4.c over the block cache, and why a power cut leaves what the redo
    log's crash model says: every sector at the version of some moment since the last flush. */
module CachedDisk {
  import opened Bytes
  import opened BlockCache
  import Log = RedoLog

  const SECTOR: nat := Log.SECTOR

  /** Sector `i` of the device holds these bytes. */
  ghost predicate IsSector(dev: Log.Dev, i: nat, x: Sector) {
    |x| == SECTOR && i * SECTOR + SECTOR <= |dev| && forall o :: 0 <= o < SECTOR ==> x[o] == dev[i * SECTOR + o]
  }

  /** The sectors are the device, cut up. */
  ghost predicate Image(v: seq<Sector>, dev: Log.Dev) {
    |dev| == |v| * SECTOR && forall i :: 0 <= i < |v| ==> IsSector(dev, i, v[i])
  }

  /** The sector as some prefix of the writes left it. */
  ghost predicate IsVersion(d: Log.Dev, ws: seq<Log.Out>, i: nat, x: Sector) {
    exists k :: 0 <= k <= |ws| && IsSector(Log.DoAll(d, ws[..k]), i, x)
  }

  ghost predicate Tracks(versions: seq<seq<Sector>>, d: Log.Dev, ws: seq<Log.Out>) {
    forall j, i :: 0 <= j < |versions| && 0 <= i < |versions[j]| ==> IsVersion(d, ws, i, versions[j][i])
  }

  /** What a power cut leaves on the medium is what the crash model allows. */
  lemma CacheGivesCrashModel(versions: seq<seq<Sector>>, medium: seq<Sector>, left: Log.Dev, d: Log.Dev, ws: seq<Log.Out>)
    requires Recent(versions, medium) && Image(medium, left) && |d| == |left| && Tracks(versions, d, ws)
    ensures Log.CanLeave(d, ws, left)
  {
    hide Log.DoAll;
    forall s: nat ensures Log.SomeVersion(d, ws, left, s) {
      if s < |medium| {
        assert SomeVersion(versions, s, medium[s]);
        var j :| 0 <= j < |versions| && s < |versions[j]| && versions[j][s] == medium[s];
        assert IsVersion(d, ws, s, versions[j][s]);
        var k :| 0 <= k <= |ws| && IsSector(Log.DoAll(d, ws[..k]), s, medium[s]);
        assert IsSector(left, s, medium[s]);
        SectorSame(left, Log.DoAll(d, ws[..k]), s, medium[s]);
      } else {
        NoSector(left, Log.DoAll(d, ws[..0]), s, |medium|);
      }
    }
  }

  /** So at any moment, with a valid cache over a device that has a volatile cache of its own. */
  lemma PowerCutIsCrash(cache: Cache, left: Log.Dev, d: Log.Dev, ws: seq<Log.Out>)
    requires cache.Valid() && Tracks(cache.versions, d, ws) && Image(cache.medium, left) && |d| == |left|
    ensures Log.CanLeave(d, ws, left)
  {
    CacheGivesCrashModel(cache.versions, cache.medium, left, d, ws);
  }

  lemma SectorSame(a: Log.Dev, b: Log.Dev, s: nat, x: Sector)
    requires |a| == |b| && IsSector(a, s, x) && IsSector(b, s, x)
    ensures Log.SameSector(a, b, s)
  {
    forall p | 0 <= p < |a| && s * SECTOR <= p < s * SECTOR + SECTOR ensures a[p] == b[p] {
      assert x[p - s * SECTOR] == a[s * SECTOR + (p - s * SECTOR)];
      assert x[p - s * SECTOR] == b[s * SECTOR + (p - s * SECTOR)];
    }
  }

  lemma NoSector(a: Log.Dev, b: Log.Dev, s: nat, n: nat)
    requires |a| == |b| == n * SECTOR && s >= n
    ensures Log.SameSector(a, b, s)
  {
    assert s * SECTOR >= n * SECTOR;
  }

  /** The device once the first `n` bytes are written. */
  ghost function Upto(base: Log.Dev, off: nat, data: seq<Byte>, n: nat): (r: Log.Dev)
    requires off + n <= |base| && n <= |data|
    ensures |r| == |base|
  {
    Splice(base, off, data[..n])
  }

  /** The sector is as some earlier write left it, or already what this one makes of it. */
  ghost predicate Known(d: Log.Dev, ws: seq<Log.Out>, off: nat, data: seq<Byte>, n: nat, i: nat, x: Sector)
    requires off + n <= |Log.DoAll(d, ws)| && n <= |data|
  {
    IsVersion(d, ws, i, x) || (Behind(off, data, n, i) && IsSector(Upto(Log.DoAll(d, ws), off, data, n), i, x))
  }

  /** That holds of each sector of each version. */
  ghost predicate Writing(versions: seq<seq<Sector>>, d: Log.Dev, ws: seq<Log.Out>, off: nat, data: seq<Byte>, n: nat)
    requires off + n <= |Log.DoAll(d, ws)| && n <= |data|
  {
    forall j, i :: 0 <= j < |versions| && 0 <= i < |versions[j]| ==> Known(d, ws, off, data, n, i, versions[j][i])
  }

  /** The write will not come back to this sector. */
  predicate Behind(off: nat, data: seq<Byte>, n: nat, i: nat) { i * SECTOR + SECTOR <= off + n || n == |data| }

  /** One more sector's part of the bytes. */
  lemma NextSector(v: seq<Sector>, base: Log.Dev, off: nat, data: seq<Byte>, n: nat, lba: nat, at: nat, chunk: nat)
    requires n < |data| && off + n == lba * SECTOR + at && at < SECTOR && chunk == (if SECTOR - at < |data| - n then SECTOR - at else |data| - n)
    requires off + n <= |base| && Image(v, Upto(base, off, data, n)) && lba < |v|
    ensures off + n + chunk <= |base| && |v[lba]| == SECTOR
    ensures var sec := Splice(v[lba], at, data[n..n + chunk]);
            IsSector(Upto(base, off, data, n + chunk), lba, sec) && Image(v[lba := sec], Upto(base, off, data, n + chunk))
  {
    assert IsSector(Upto(base, off, data, n), lba, v[lba]);
    assert lba * SECTOR + SECTOR <= |base|;
    var sec := Splice(v[lba], at, data[n..n + chunk]);
    var now, next := Upto(base, off, data, n), Upto(base, off, data, n + chunk);
    forall o | 0 <= o < SECTOR ensures sec[o] == next[lba * SECTOR + o] {
      assert v[lba][o] == now[lba * SECTOR + o];
    }
    forall i | 0 <= i < |v| && i != lba ensures IsSector(next, i, v[i]) {
      assert IsSector(now, i, v[i]);
      OtherSector(base, off, data, n, n + chunk, lba, at, i, v[i]);
    }
  }

  /** It changes no other sector. */
  lemma OtherSector(base: Log.Dev, off: nat, data: seq<Byte>, n: nat, m: nat, lba: nat, at: nat, i: nat, x: Sector)
    requires n <= m <= |data| && off + m <= |base| && off + n == lba * SECTOR + at && at + (m - n) <= SECTOR && i != lba
    requires IsSector(Upto(base, off, data, n), i, x)
    ensures IsSector(Upto(base, off, data, m), i, x)
  {
    var now, next := Upto(base, off, data, n), Upto(base, off, data, m);
    forall o | 0 <= o < SECTOR ensures x[o] == next[i * SECTOR + o] {
      assert x[o] == now[i * SECTOR + o];
      assert !(off + n <= i * SECTOR + o < off + m);
    }
  }

  lemma WritingNext(versions: seq<seq<Sector>>, v: seq<Sector>, d: Log.Dev, ws: seq<Log.Out>, off: nat, data: seq<Byte>, n: nat, m: nat, lba: nat, at: nat, sec: Sector)
    requires versions != [] && v == versions[|versions| - 1] && n < m <= |data| && off + m <= |Log.DoAll(d, ws)|
    requires Writing(versions, d, ws, off, data, n) && lba < |v|
    requires off + n == lba * SECTOR + at && at + (m - n) <= SECTOR && Behind(off, data, m, lba) && IsSector(Upto(Log.DoAll(d, ws), off, data, m), lba, sec)
    ensures Writing(versions + [v[lba := sec]], d, ws, off, data, m)
  {
    hide Known, IsSector, Upto, Log.DoAll;
    var more := versions + [v[lba := sec]];
    forall j, i | 0 <= j < |more| && 0 <= i < |more[j]| ensures Known(d, ws, off, data, m, i, more[j][i]) {
      if j == |versions| && i == lba {
        KnownNew(d, ws, off, data, m, lba, sec);
      } else {
        var j' := if j < |versions| then j else j - 1;
        assert more[j][i] == versions[j'][i];
        assert Known(d, ws, off, data, n, i, versions[j'][i]);
        KnownNext(d, ws, off, data, n, m, lba, at, i, versions[j'][i]);
      }
    }
  }

  lemma KnownNew(d: Log.Dev, ws: seq<Log.Out>, off: nat, data: seq<Byte>, m: nat, lba: nat, sec: Sector)
    requires m <= |data| && off + m <= |Log.DoAll(d, ws)| && Behind(off, data, m, lba) && IsSector(Upto(Log.DoAll(d, ws), off, data, m), lba, sec)
    ensures Known(d, ws, off, data, m, lba, sec)
  {
  }

  lemma KnownNext(d: Log.Dev, ws: seq<Log.Out>, off: nat, data: seq<Byte>, n: nat, m: nat, lba: nat, at: nat, i: nat, x: Sector)
    requires n < m <= |data| && off + m <= |Log.DoAll(d, ws)| && off + n == lba * SECTOR + at && at + (m - n) <= SECTOR
    requires Known(d, ws, off, data, n, i, x)
    ensures Known(d, ws, off, data, m, i, x)
  {
    hide IsVersion, IsSector, Upto, Log.DoAll;
    if !IsVersion(d, ws, i, x) {
      OtherSector(Log.DoAll(d, ws), off, data, n, m, lba, at, i, x);
    }
  }

  /** Seen as one more write, every version is accounted for. */
  lemma Written(versions: seq<seq<Sector>>, d: Log.Dev, ws: seq<Log.Out>, off: nat, data: seq<Byte>, n: nat)
    requires n <= |data| && off + n <= |Log.DoAll(d, ws)| && Writing(versions, d, ws, off, data, n)
    ensures Upto(Log.DoAll(d, ws), off, data, n) == Log.DoAll(d, ws + [Log.Out(off, data[..n])])
    ensures Tracks(versions, d, ws + [Log.Out(off, data[..n])])
  {
    hide IsSector, Log.DoAll;
    var w := Log.Out(off, data[..n]);
    Log.OneMore(d, ws, w);
    assert (ws + [w])[..|ws| + 1] == ws + [w];
    forall j, i | 0 <= j < |versions| && 0 <= i < |versions[j]| ensures IsVersion(d, ws + [w], i, versions[j][i]) {
      assert Known(d, ws, off, data, n, i, versions[j][i]);
      if IsVersion(d, ws, i, versions[j][i]) {
        var k :| 0 <= k <= |ws| && IsSector(Log.DoAll(d, ws[..k]), i, versions[j][i]);
        assert (ws + [w])[..k] == ws[..k];
      } else {
        assert IsSector(Log.DoAll(d, (ws + [w])[..|ws| + 1]), i, versions[j][i]);
      }
    }
  }

  /** `ext4_raw_write_bytes`: every sector is read, changed and written back. When a request
      fails, `done` bytes have been written. Either way the cache stands for the device after
      one more write, and a power cut leaves what the crash model allows of it. */
  method RawWriteBytes(cache: Cache, off: nat, data: seq<Byte>, ghost d: Log.Dev, ghost ws: seq<Log.Out>) returns (ok: bool, ghost done: nat)
    requires cache.Valid() && Image(cache.V(), Log.DoAll(d, ws)) && Tracks(cache.versions, d, ws)
    modifies cache, cache.lines
    ensures cache.Valid() && done <= |data| && (ok <==> done == |data|)
    ensures ok <==> (data == [] || off + |data| <= |d|) && cache.failures == old(cache.failures)
    ensures done == 0 ==> cache.V() == old(cache.V()) && cache.versions == old(cache.versions)
    ensures done > 0 ==> var ws' := ws + [Log.Out(off, data[..done])];
                         off + done <= |d| && Image(cache.V(), Log.DoAll(d, ws')) && Tracks(cache.versions, d, ws')
  {
    hide Image, IsVersion, IsSector, Upto, Log.DoAll, Sound, View, Replaced, Writing, Tracks;
    done := 0;
    var n := 0;
    Sizes(cache.V(), d, ws);
    while n < |data|
      invariant n <= |data| && done == n && cache.Valid() && |cache.V()| == |old(cache.V())| && cache.failures == old(cache.failures)
      invariant n == 0 ==> cache.V() == old(cache.V()) && cache.versions == old(cache.versions)
      invariant n > 0 ==> Partly(cache.V(), cache.versions, d, ws, off, data, n)
    {
      var chunk := WriteOne(cache, off, data, n, d, ws);
      if chunk == 0 {
        PastEnd(|cache.V()|, off, n);
        break;
      }
      n := n + chunk;
      done := n;
    }
    if n > 0 {
      PartlyWritten(cache.V(), cache.versions, d, ws, off, data, n);
    }
    ok := n == |data|;
  }

  lemma Sizes(v: seq<Sector>, d: Log.Dev, ws: seq<Log.Out>)
    requires Image(v, Log.DoAll(d, ws))
    ensures |d| == |v| * SECTOR
  {
  }

  lemma PastEnd(size: nat, off: nat, n: nat)
    ensures (off + n) / SECTOR >= size <==> off + n >= size * SECTOR
  {
  }

  /** The cache after `n` bytes of the write. */
  ghost predicate Partly(v: seq<Sector>, versions: seq<seq<Sector>>, d: Log.Dev, ws: seq<Log.Out>, off: nat, data: seq<Byte>, n: nat) {
    && n <= |data| && off + n <= |Log.DoAll(d, ws)| && (n == 0 || n == |data| || (off + n) % SECTOR == 0)
    && Image(v, Upto(Log.DoAll(d, ws), off, data, n)) && Writing(versions, d, ws, off, data, n)
  }

  lemma PartlyWritten(v: seq<Sector>, versions: seq<seq<Sector>>, d: Log.Dev, ws: seq<Log.Out>, off: nat, data: seq<Byte>, n: nat)
    requires Partly(v, versions, d, ws, off, data, n)
    ensures var ws' := ws + [Log.Out(off, data[..n])];
            off + n <= |d| && Image(v, Log.DoAll(d, ws')) && Tracks(versions, d, ws')
  {
    hide Image, IsVersion, IsSector, Upto, Log.DoAll, Writing;
    Written(versions, d, ws, off, data, n);
  }

  lemma PartlyStart(v: seq<Sector>, versions: seq<seq<Sector>>, d: Log.Dev, ws: seq<Log.Out>, off: nat, data: seq<Byte>)
    requires Image(v, Log.DoAll(d, ws)) && Tracks(versions, d, ws) && off <= |Log.DoAll(d, ws)|
    ensures Partly(v, versions, d, ws, off, data, 0)
  {
    hide IsVersion, IsSector, Log.DoAll;
    assert Upto(Log.DoAll(d, ws), off, data, 0) == Log.DoAll(d, ws);
  }

  lemma PartlyNext(v: seq<Sector>, versions: seq<seq<Sector>>, d: Log.Dev, ws: seq<Log.Out>, off: nat, data: seq<Byte>, n: nat, lba: nat, at: nat, chunk: nat)
    requires Partly(v, versions, d, ws, off, data, n) && n < |data| && versions != [] && v == versions[|versions| - 1] && lba < |v|
    requires lba == (off + n) / SECTOR && at == (off + n) % SECTOR && chunk == (if SECTOR - at < |data| - n then SECTOR - at else |data| - n)
    ensures |v[lba]| == SECTOR
    ensures var v' := v[lba := Splice(v[lba], at, data[n..n + chunk])];
            Partly(v', versions + [v'], d, ws, off, data, n + chunk)
  {
    hide IsVersion, IsSector, Upto, Log.DoAll, Writing, Image;
    NextSector(v, Log.DoAll(d, ws), off, data, n, lba, at, chunk);
    WritingNext(versions, v, d, ws, off, data, n, n + chunk, lba, at, Splice(v[lba], at, data[n..n + chunk]));
  }

  /** One sector's part; 0 bytes when a request failed. */
  method WriteOne(cache: Cache, off: nat, data: seq<Byte>, n: nat, ghost d: Log.Dev, ghost ws: seq<Log.Out>) returns (chunk: nat)
    requires cache.Valid() && n < |data|
    requires n == 0 ==> Image(cache.V(), Log.DoAll(d, ws)) && Tracks(cache.versions, d, ws)
    requires n > 0 ==> Partly(cache.V(), cache.versions, d, ws, off, data, n)
    modifies cache, cache.lines
    ensures cache.Valid() && n + chunk <= |data| && |cache.V()| == |old(cache.V())| && cache.failures >= old(cache.failures)
    ensures chunk > 0 <==> (off + n) / SECTOR < |cache.V()| && cache.failures == old(cache.failures)
    ensures (off + n) / SECTOR >= |cache.V()| ==> cache.failures == old(cache.failures)
    ensures chunk == 0 ==> cache.V() == old(cache.V()) && cache.versions == old(cache.versions)
    ensures chunk > 0 ==> Partly(cache.V(), cache.versions, d, ws, off, data, n + chunk)
  {
    hide IsVersion, IsSector, Upto, Log.DoAll, Writing, Tracks, Sound, View, Partly;
    var lba, at := (off + n) / SECTOR, (off + n) % SECTOR;
    var got, sec := cache.Read(lba, 1);
    if !got {
      return 0;
    }
    ghost var v, versions := cache.V(), cache.versions;
    if n == 0 {
      PartlyStart(v, versions, d, ws, off, data);
    }
    chunk := if SECTOR - at < |data| - n then SECTOR - at else |data| - n;
    LastVersion(cache);
    PartlyNext(v, versions, d, ws, off, data, n, lba, at, chunk);
    var changed := Splice(sec[0], at, data[n..n + chunk]);
    OneSectorWrite(v, lba, changed);
    var put, _ := cache.Write(lba, [changed]);
    if !put {
      return 0;
    }
  }

  lemma OneSectorWrite(v: seq<Sector>, lba: nat, x: Sector)
    requires lba < |v|
    ensures [x][..1] == [x] && Replaced(v, lba, [x]) == v[lba := x] && Steps(v, lba, [x], 1) == [v[lba := x]]
  {
    assert [x][..1] == [x] && Steps(v, lba, [x], 0) == [];
  }

  lemma LastVersion(cache: Cache)
    requires cache.Valid()
    ensures cache.versions != [] && cache.V() == cache.versions[|cache.versions| - 1]
  {
  }
}
