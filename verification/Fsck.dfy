/** The directory connectivity walk of the ext4 checker (kernel/fs.c). */
module Fsck {
  import opened Pigeonhole

  /** What the inode scan recorded: allocated directories, their parents, their dot entries.
      All three are indexed by inode number, up to `count`. */
  datatype Scan = Scan(count: nat, dirs: seq<bool>, parents: seq<nat>, dots: seq<bool>)

  predicate Sized(s: Scan) { |s.dirs| == |s.parents| == |s.dots| == s.count + 1 }

  /** An inode number that is an allocated directory. */
  predicate IsDir(s: Scan, i: nat)
    requires Sized(s)
  {
    0 < i <= s.count && s.dirs[i]
  }

  const ROOT: nat := 2

  /** A chain of parents from `i` up to the root, all allocated directories. */
  ghost predicate Path(s: Scan, i: nat, path: seq<nat>)
    requires Sized(s)
  {
    && path != [] && path[0] == i && path[|path| - 1] == ROOT
    && (forall k :: 0 <= k < |path| ==> IsDir(s, path[k]))
    && (forall k :: 0 < k < |path| ==> path[k] == s.parents[path[k - 1]])
  }

  ghost predicate Connected(s: Scan, i: nat)
    requires Sized(s)
  {
    exists path :: Path(s, i, path)
  }

  /** Whatever reaches the root does so within `count` inodes: a longer chain repeats one, and
      what lies between can be left out. */
  lemma {:induction false} ShortPath(s: Scan, i: nat, path: seq<nat>) returns (short: seq<nat>)
    requires Sized(s) && Path(s, i, path)
    ensures Path(s, i, short) && |short| <= s.count
    decreases |path|
  {
    if DistinctSeq(path) {
      DistinctBound(path, Range(1, s.count + 1));
      short := path;
    } else {
      var a, b :| 0 <= a < b < |path| && path[a] == path[b];
      var cut := path[..a] + path[b..];
      forall k | 0 <= k < |cut| ensures IsDir(s, cut[k]) {
        assert cut[k] == path[if k < a then k else k - a + b];
      }
      forall k | 0 < k < |cut| ensures cut[k] == s.parents[cut[k - 1]] {
        assert cut[k] == path[if k < a then k else k - a + b];
        assert cut[k - 1] == path[if k <= a then k - 1 else k - 1 - a + b];
      }
      short := ShortPath(s, i, cut);
    }
  }

  /** The walk so far: parents of parents from `i`, none of them the root before the last. */
  ghost predicate Walked(s: Scan, i: nat, walk: seq<nat>)
    requires Sized(s)
  {
    && walk != [] && walk[0] == i
    && (forall k :: 0 <= k < |walk| ==> IsDir(s, walk[k]))
    && (forall k :: 0 < k < |walk| ==> walk[k] == s.parents[walk[k - 1]])
    && (forall k :: 0 <= k < |walk| - 1 ==> walk[k] != ROOT)
  }

  /** Every path to the root goes along the walk. */
  lemma {:induction false} Along(s: Scan, i: nat, walk: seq<nat>, path: seq<nat>, k: nat)
    requires Sized(s) && Walked(s, i, walk) && Path(s, i, path) && k < |walk|
    ensures k < |path| && path[k] == walk[k]
    decreases k
  {
    if k > 0 {
      Along(s, i, walk, path, k - 1);
    }
  }

  lemma Next(s: Scan, i: nat, walk: seq<nat>, path: seq<nat>)
    requires Sized(s) && Walked(s, i, walk) && walk[|walk| - 1] != ROOT
    ensures Path(s, i, path) ==> IsDir(s, s.parents[walk[|walk| - 1]])
  {
    if Path(s, i, path) {
      Along(s, i, walk, path, |walk| - 1);
      assert IsDir(s, path[|walk|]);
    }
  }

  /** A walk that runs into anything but a directory shows there is no path. */
  lemma DeadEnd(s: Scan, i: nat, walk: seq<nat>)
    requires Sized(s) && Walked(s, i, walk) && walk[|walk| - 1] != ROOT && !IsDir(s, s.parents[walk[|walk| - 1]])
    ensures !Connected(s, i)
  {
    forall path ensures !Path(s, i, path) {
      Next(s, i, walk, path);
    }
  }

  lemma Bounded(s: Scan, i: nat, walk: seq<nat>, path: seq<nat>)
    requires Sized(s) && Walked(s, i, walk)
    ensures Path(s, i, path) ==> |walk| <= s.count
  {
    if Path(s, i, path) {
      var short := ShortPath(s, i, path);
      Along(s, i, walk, short, |walk| - 1);
    }
  }

  /** So does a walk longer than there are inodes. */
  lemma Loop(s: Scan, i: nat, walk: seq<nat>)
    requires Sized(s) && Walked(s, i, walk) && |walk| > s.count
    ensures !Connected(s, i)
  {
    forall path ensures !Path(s, i, path) {
      Bounded(s, i, walk, path);
    }
  }

  /** The inner loop: up from one directory, at most `count` steps. */
  method WalkUp(s: Scan, ino: nat) returns (ok: bool)
    requires Sized(s) && IsDir(s, ino)
    ensures ok <==> Connected(s, ino)
  {
    var cur, depth := ino, 0;
    ghost var walk := [ino];
    while depth <= s.count
      invariant depth <= s.count && |walk| == depth + 1 && Walked(s, ino, walk) && walk[depth] == cur
      decreases s.count - depth
    {
      if cur == ROOT {
        assert Path(s, ino, walk);
        return true;
      }
      var p := s.parents[cur];
      if !IsDir(s, p) {
        DeadEnd(s, ino, walk);
        return false;
      }
      if depth == s.count {
        Loop(s, ino, walk);
        return false;
      }
      cur := p;
      walk := walk + [p];
      depth := depth + 1;
    }
    ok := true;
  }

  /** What the checker demands of one directory. */
  ghost predicate DirOk(s: Scan, i: nat)
    requires Sized(s) && i <= s.count
  {
    s.dots[i] && if i == ROOT then s.parents[i] == ROOT else Connected(s, i)
  }

  /** The outer loop: accepts exactly when every allocated directory hangs from the root. */
  method CheckDirs(s: Scan) returns (ok: bool)
    requires Sized(s)
    ensures ok <==> forall i :: 0 < i <= s.count && s.dirs[i] ==> DirOk(s, i)
  {
    var ino := 1;
    while ino <= s.count
      invariant 1 <= ino <= s.count + 1
      invariant forall i :: 0 < i < ino && s.dirs[i] ==> DirOk(s, i)
    {
      if s.dirs[ino] {
        if !s.dots[ino] {
          assert !DirOk(s, ino);
          return false;
        }
        var parent := s.parents[ino];
        if ino == ROOT {
          if parent != ROOT {
            assert !DirOk(s, ino);
            return false;
          }
        } else {
          if !IsDir(s, parent) {
            DeadEnd(s, ino, [ino]);
            assert !DirOk(s, ino);
            return false;
          }
          var up := WalkUp(s, ino);
          if !up {
            assert !DirOk(s, ino);
            return false;
          }
        }
      }
      ino := ino + 1;
    }
    ok := true;
  }
}
