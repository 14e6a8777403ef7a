/** Pipes at work: the ring of kernel/pipe.c, and the system calls that read, write, close,
    duplicate and inherit pipe ends while tasks block and are woken. */
module PipeSystem {
  import opened Pipes

  /** The ring index `k` places after `base`. */
  function Idx(base: nat, k: nat): nat { if base + k < CAP then base + k else base + k - CAP }

  lemma IdxNext(base: nat, k: nat)
    requires base < CAP && k < CAP
    ensures Idx(base, k) < CAP && (Idx(base, k) + 1) % CAP == Idx(base, k + 1)
  {
  }

  /** The `k` bytes from `base` on, around the end. */
  ghost function Held(s: seq<Byte>, base: nat, k: nat): seq<Byte>
    requires |s| == CAP && base < CAP && k <= CAP
  {
    seq(k, i requires 0 <= i < k => s[Idx(base, i)])
  }

  lemma PutByte(s: seq<Byte>, base: nat, k: nat, x: Byte)
    requires |s| == CAP && base < CAP && k < CAP
    ensures Idx(base, k) < CAP && Held(s[Idx(base, k) := x], base, k + 1) == Held(s, base, k) + [x]
  {
  }

  /** The ring buffer. */
  class Ring {
    const data: array<Byte>
    var rpos: nat
    var wpos: nat
    var count: nat

    ghost predicate Valid() reads this {
      data.Length == CAP && rpos < CAP && count <= CAP && wpos == Idx(rpos, count)
    }

    /** What it holds, oldest byte first. */
    ghost function Contents(): (s: seq<Byte>)
      requires Valid()
      reads this, data
    {
      Held(data[..], rpos, count)
    }

    constructor ()
      ensures Valid() && fresh(data) && Contents() == []
    {
      data := new Byte[CAP](_ => 0);
      rpos, wpos, count := 0, 0, 0;
    }

    /** `pipe_write`. */
    method Write(src: seq<Byte>) returns (n: nat)
      requires Valid()
      modifies data, `wpos, `count
      ensures Valid() && n == Least(|src|, CAP - old(count))
      ensures Contents() == old(Contents()) + src[..n]
    {
      var space := CAP - count;
      n := if |src| > space then space else |src|;
      for i := 0 to n
        invariant count == old(count) && wpos == Idx(rpos, count + i)
        invariant Held(data[..], rpos, count + i) == old(Contents()) + src[..i]
      {
        hide Held, Idx;
        ghost var s := data[..];
        PutByte(s, rpos, count + i, src[i]);
        IdxNext(rpos, count + i);
        data[wpos] := src[i];
        assert data[..] == s[wpos := src[i]];
        assert old(Contents()) + src[..i] + [src[i]] == old(Contents()) + src[..i + 1];
        wpos := (wpos + 1) % CAP;
      }
      count := count + n;
    }

    /** `pipe_read`. */
    method Read(want: nat) returns (out: seq<Byte>)
      requires Valid()
      modifies `rpos, `count
      ensures Valid() && |out| == Least(want, old(count))
      ensures out == old(Contents())[..|out|] && Contents() == old(Contents())[|out|..]
    {
      var n := if want > count then count else want;
      out := [];
      for i := 0 to n
        invariant count == old(count) && |out| == i && rpos == Idx(old(rpos), i) && out == old(Contents())[..i]
      {
        out := out + [data[rpos]];
        rpos := (rpos + 1) % CAP;
      }
      count := count - n;
      forall j | 0 <= j < count ensures Contents()[j] == old(Contents())[n..][j] {
        assert Idx(rpos, j) == Idx(old(rpos), n + j);
      }
    }
  }

  /** The pipes once a descriptor is closed. */
  function AfterClose(ps: seq<Pipe>, f: Fd): seq<Pipe> {
    if 0 <= PipeOf(f) < |ps| then ps[PipeOf(f) := Dropped(ps[PipeOf(f)], f)] else ps
  }

  /** The lowest two closed descriptors from 3 on. */
  ghost predicate FirstTwo(fds: seq<Fd>, r: nat, w: nat) {
    3 <= r < w < |fds| && fds[r] == fds[w] == Closed && forall k :: 3 <= k < w && k != r ==> fds[k] != Closed
  }

  ghost predicate TwoClosed(fds: seq<Fd>) { exists r, w :: 3 <= r < w < |fds| && fds[r] == Closed && fds[w] == Closed }

  datatype Result = Count | Eof | WouldBlock | Blocked | Fault | Broken

  class Kernel {
    const tasks: array<Task>
    const pipes: array<Pipe>
    /** All that was ever written to a pipe, and read from it, since it was made. */
    ghost var written: seq<seq<Byte>>
    ghost var taken: seq<seq<Byte>>

    ghost predicate Valid() reads this, tasks, pipes { Inv(tasks[..], pipes[..]) && Fifo() }

    ghost predicate Fifo() reads this, pipes { |written| == |taken| == pipes.Length && InOrder(pipes[..], written, taken) }

    /** `pipe_init`, and one task without descriptors. */
    constructor (maxTasks: nat, maxPipes: nat, maxFds: nat)
      requires maxTasks > 0
      ensures Valid() && fresh(tasks) && fresh(pipes) && tasks.Length == maxTasks && pipes.Length == maxPipes
      ensures tasks[0].live && |tasks[0].fds| == maxFds
    {
      var none := seq(maxFds, _ => Closed);
      tasks := new Task[maxTasks](i => Task(i == 0, none, Ready));
      pipes := new Pipe[maxPipes](_ => FREE);
      written, taken := seq(maxPipes, _ => []), seq(maxPipes, _ => []);
      new;
      forall p | 0 <= p < maxPipes ensures PipeOk(tasks[..], pipes[..], p) {
        NoRefs(tasks[..], ReadEnd(p));
        NoRefs(tasks[..], WriteEnd(p));
      }
    }

    /** `task_wake_pipe`. */
    method Wake(p: nat)
      modifies tasks
      ensures AllWoken(old(tasks[..]), tasks[..], p)
    {
      ghost var ts := tasks[..];
      var i := 0;
      while i < tasks.Length
        invariant 0 <= i <= tasks.Length
        invariant forall j :: 0 <= j < i ==> tasks[j] == Woken(ts[j], p)
        invariant forall j :: i <= j < tasks.Length ==> tasks[j] == ts[j]
      {
        if tasks[i].wait == OnRead(p) || tasks[i].wait == OnWrite(p) {
          tasks[i] := tasks[i].(wait := Ready);
        }
        i := i + 1;
      }
    }

    method WakeAll(p: nat)
      requires CountsOk(tasks[..], pipes[..]) && NoneElseStuck(tasks[..], pipes[..], p) && Fifo()
      modifies tasks
      ensures Valid() && AllWoken(old(tasks[..]), tasks[..], p)
    {
      ghost var ts := tasks[..];
      Wake(p);
      WakeOk(ts, tasks[..], pipes[..], p);
    }

    /** Waking is harmless when nothing happened. */
    method Rewake(p: nat)
      requires Valid()
      modifies tasks
      ensures Valid() && AllWoken(old(tasks[..]), tasks[..], p)
    {
      WakeAll(p);
    }

    /** `task_fd_close` on the descriptors. */
    method Close(i: nat, j: nat) returns (ok: bool)
      requires Valid() && i < tasks.Length && tasks[i].live && j < |tasks[i].fds|
      modifies tasks, pipes
      ensures Valid() && tasks[i].live && ok == !old(tasks[i]).fds[j].Closed?
      ensures tasks[i].fds == old(tasks[i]).fds[j := Closed]
      ensures pipes[..] == AfterClose(old(pipes[..]), old(tasks[i]).fds[j]) && SameBufs(old(pipes[..]), pipes[..])
      ensures forall k :: 0 <= k < tasks.Length ==> tasks[k].live == old(tasks[k]).live && (k != i ==> tasks[k].fds == old(tasks[k]).fds)
    {
      hide Inv, CountsOk, NoneElseStuck, InOrder, Dropped;
      var f := tasks[i].fds[j];
      if f == Closed {
        assert tasks[i].fds == tasks[i].fds[j := Closed];
        return false;
      }
      ghost var ts, ps := tasks[..], pipes[..];
      var p := PipeOf(f);
      if p < 0 {
        PlainOk(ts, ps, i, j, Closed);
        tasks[i] := tasks[i].(fds := tasks[i].fds[j := Closed]);
        assert tasks[..] == ts[i := ts[i].(fds := ts[i].fds[j := Closed])];
        return true;
      }
      DropOk(ts, ps, i, j);
      pipes[p] := Dropped(pipes[p], f);
      tasks[i] := tasks[i].(fds := tasks[i].fds[j := Closed]);
      assert tasks[..] == ts[i := ts[i].(fds := ts[i].fds[j := Closed])] && pipes[..] == ps[p := Dropped(ps[p], f)];
      BufsInOrder(ps, pipes[..], written, taken);
      ghost var mid := tasks[..];
      WakeAll(p);
      assert forall k :: 0 <= k < tasks.Length ==> tasks[..][k] == Woken(mid[k], p);
      ok := true;
    }

    /** `task_fd_dup2`. */
    method Dup2(i: nat, from: nat, to: nat) returns (ok: bool)
      requires Valid() && i < tasks.Length && tasks[i].live && from < |tasks[i].fds| && to < |tasks[i].fds|
      modifies tasks, pipes
      ensures Valid() && ok == !old(tasks[i]).fds[from].Closed?
      ensures tasks[i].live && tasks[i].fds == if ok then old(tasks[i]).fds[to := old(tasks[i]).fds[from]] else old(tasks[i]).fds
      ensures forall k :: 0 <= k < tasks.Length && k != i ==> tasks[k].live == old(tasks[k]).live && tasks[k].fds == old(tasks[k]).fds
      ensures SameBufs(old(pipes[..]), pipes[..])
    {
      hide Inv, InOrder;
      var f := tasks[i].fds[from];
      if f == Closed {
        return false;
      }
      if from == to {
        assert tasks[i].fds == tasks[i].fds[to := f];
        return true;
      }
      var _ := Close(i, to);
      assert tasks[i].fds[from] == f;
      ghost var ps := pipes[..];
      Install(i, to, f, i);
      BufsTwice(old(pipes[..]), ps, pipes[..]);
      ok := true;
    }

    /** An open descriptor is copied into a closed slot, and counted. */
    method Install(i: nat, j: nat, f: Fd, ghost k: nat)
      requires Valid() && i < tasks.Length && tasks[i].live && j < |tasks[i].fds| && tasks[i].fds[j] == Closed
      requires PipeOf(f) >= 0 ==> k < tasks.Length && tasks[k].live && f in tasks[k].fds
      modifies tasks, pipes
      ensures Valid() && tasks[..] == old(tasks[..])[i := old(tasks[i]).(fds := old(tasks[i]).fds[j := f])]
      ensures SameBufs(old(pipes[..]), pipes[..])
    {
      hide Inv, InOrder, Referenced;
      ghost var ts, ps := tasks[..], pipes[..];
      var p := PipeOf(f);
      if p < 0 {
        PlainOk(ts, ps, i, j, f);
      } else {
        OpenPipe(ts, ps, k, f);
        RefOk(ts, ps, i, j, f);
        pipes[p] := Referenced(pipes[p], f);
        assert pipes[..] == ps[p := Referenced(ps[p], f)];
        BufsInOrder(ps, pipes[..], written, taken);
      }
      tasks[i] := tasks[i].(fds := tasks[i].fds[j := f]);
      assert tasks[..] == ts[i := ts[i].(fds := ts[i].fds[j := f])];
    }

    /** The descriptor loop of `task_fork`: the child starts with none and gets a copy of each. */
    method ForkFds(parent: nat, child: nat)
      requires Valid() && parent < tasks.Length && child < tasks.Length && tasks[parent].live && !tasks[child].live
      modifies tasks, pipes
      ensures Valid() && tasks[..] == old(tasks[..])[child := Task(true, old(tasks[parent]).fds, Ready)]
      ensures SameBufs(old(pipes[..]), pipes[..])
    {
      hide Inv, InOrder;
      ghost var ts := tasks[..];
      var n := |tasks[parent].fds|;
      var none := seq(n, _ => Closed);
      TaskOk(ts, pipes[..], child, Task(true, none, Ready));
      tasks[child] := Task(true, none, Ready);
      assert tasks[..] == ts[child := Task(true, none, Ready)];
      var j := 0;
      assert ts[parent].fds[..0] + none[0..] == none;
      while j < n
        invariant 0 <= j <= n && Valid()
        invariant tasks[..] == ts[child := Task(true, ts[parent].fds[..j] + none[j..], Ready)]
        invariant SameBufs(old(pipes[..]), pipes[..])
      {
        ghost var ps := pipes[..];
        var f := tasks[parent].fds[j];
        assert tasks[parent] == ts[parent] && f in tasks[parent].fds;
        Install(child, j, f, parent);
        BufsTwice(old(pipes[..]), ps, pipes[..]);
        assert (ts[parent].fds[..j] + none[j..])[j := f] == ts[parent].fds[..j + 1] + none[j + 1..];
        j := j + 1;
      }
      assert ts[parent].fds[..n] + none[n..] == ts[parent].fds;
    }

    /** `task_force_exit`: every descriptor is closed, then the task is gone. */
    method Exit(i: nat)
      requires Valid() && i < tasks.Length && tasks[i].live
      modifies tasks, pipes
      ensures Valid() && !tasks[i].live
      ensures forall k :: 0 <= k < tasks.Length && k != i ==> tasks[k].live == old(tasks[k]).live && tasks[k].fds == old(tasks[k]).fds
      ensures SameBufs(old(pipes[..]), pipes[..])
    {
      hide Inv, InOrder;
      var j, n := 0, |tasks[i].fds|;
      while j < n
        invariant 0 <= j <= n && Valid() && tasks[i].live && |tasks[i].fds| == n
        invariant forall k :: 0 <= k < j ==> tasks[i].fds[k] == Closed
        invariant forall k :: 0 <= k < tasks.Length && k != i ==> tasks[k].live == old(tasks[k]).live && tasks[k].fds == old(tasks[k]).fds
        invariant SameBufs(old(pipes[..]), pipes[..])
      {
        ghost var ps := pipes[..];
        var _ := Close(i, j);
        BufsTwice(old(pipes[..]), ps, pipes[..]);
        j := j + 1;
      }
      ghost var ts := tasks[..];
      var t := Task(false, tasks[i].fds, Ready);
      TaskOk(ts, pipes[..], i, t);
      tasks[i] := t;
      assert tasks[..] == ts[i := t];
    }

    /** `sys_pipe_impl`: a free pipe, the lowest two closed descriptors from 3 on, or nothing.
        `copied` says whether the two numbers can be stored for the caller; if not, both ends
        are closed again. */
    method MakePipe(i: nat, copied: bool) returns (ok: bool, r: nat, w: nat)
      requires Valid() && i < tasks.Length && tasks[i].live
      modifies tasks, pipes, `written, `taken
      ensures Valid()
      ensures ok <==> copied && (exists p :: 0 <= p < pipes.Length && !old(pipes[..])[p].used) && TwoClosed(old(tasks[i]).fds)
      ensures ok ==> FirstTwo(old(tasks[i]).fds, r, w)
      ensures ok ==> exists p: nat :: p < pipes.Length && !old(pipes[..])[p].used && pipes[..] == old(pipes[..])[p := Pipe(true, 1, 1, [])] && tasks[i].fds == old(tasks[i]).fds[r := ReadEnd(p)][w := WriteEnd(p)]
      ensures ok ==> forall k :: 0 <= k < tasks.Length && k != i ==> tasks[k] == old(tasks[k])
      ensures !ok ==> forall k :: 0 <= k < tasks.Length ==> tasks[k].live == old(tasks[k]).live && tasks[k].fds == old(tasks[k]).fds
      ensures !ok ==> forall p :: 0 <= p < pipes.Length && old(pipes[..])[p].used ==> pipes[p] == old(pipes[..])[p]
      ensures !ok ==> forall p :: 0 <= p < pipes.Length && !old(pipes[..])[p].used ==> !pipes[p].used
      ensures |written| == |taken| == |old(written)| == |old(taken)| == pipes.Length
      ensures forall p :: 0 <= p < pipes.Length && old(pipes[..])[p].used ==> written[p] == old(written)[p] && taken[p] == old(taken)[p]
    {
      hide Inv, InOrder, SameBufs;
      ok, r, w := false, 0, 0;
      var p := 0;
      while p < pipes.Length && pipes[p].used
        invariant p <= pipes.Length && forall x :: 0 <= x < p ==> pipes[..][x].used
      {
        p := p + 1;
      }
      if p >= pipes.Length {
        return;
      }
      var fds := tasks[i].fds;
      r := FindClosed(fds, if |fds| < 3 then |fds| else 3);
      if r == |fds| {
        return;
      }
      w := FindClosed(fds, r + 1);
      if w == |fds| {
        return;
      }
      Opened(i, r, w, p);
      if copied {
        return true, r, w;
      }
      ghost var ps := pipes[..];
      var _ := Close(i, r);
      var _ := Close(i, w);
      assert tasks[i].fds == fds;
    }

    /** The two ends of a free pipe are put into two closed descriptors. */
    method Opened(i: nat, r: nat, w: nat, p: nat)
      requires Valid() && i < tasks.Length && tasks[i].live && p < pipes.Length && !pipes[p].used && r < w < |tasks[i].fds|
      requires tasks[i].fds[r] == tasks[i].fds[w] == Closed
      modifies tasks, pipes, `written, `taken
      ensures Valid() && tasks[i].live && pipes[..] == old(pipes[..])[p := Pipe(true, 1, 1, [])]
      ensures tasks[..] == old(tasks[..])[i := old(tasks[i]).(fds := old(tasks[i]).fds[r := ReadEnd(p)][w := WriteEnd(p)])]
      ensures |old(written)| == |old(taken)| == pipes.Length && written == old(written)[p := []] && taken == old(taken)[p := []]
    {
      hide Inv;
      ghost var ts, ps := tasks[..], pipes[..];
      MakeOk(ts, ps, i, r, w, p);
      pipes[p] := Pipe(true, 1, 1, []);
      written, taken := written[p := []], taken[p := []];
      tasks[i] := tasks[i].(fds := tasks[i].fds[r := ReadEnd(p)][w := WriteEnd(p)]);
      assert tasks[..] == ts[i := ts[i].(fds := ts[i].fds[r := ReadEnd(p)][w := WriteEnd(p)])] && pipes[..] == ps[p := Pipe(true, 1, 1, [])];
    }

    method FindClosed(fds: seq<Fd>, start: nat) returns (j: nat)
      requires start <= |fds|
      ensures start <= j <= |fds| && (j < |fds| ==> fds[j] == Closed) && forall k :: start <= k < j ==> fds[k] != Closed
    {
      j := start;
      while j < |fds| && fds[j] != Closed
        invariant start <= j <= |fds| && forall k :: start <= k < j ==> fds[k] != Closed
      {
        j := j + 1;
      }
    }

    /** Bytes join the end of a pipe; the waiters are still to be woken. */
    method Put(p: nat, more: seq<Byte>)
      requires Valid() && p < pipes.Length && pipes[p].used && |pipes[p].buf| + |more| <= CAP
      modifies pipes, `written
      ensures CountsOk(tasks[..], pipes[..]) && NoneElseStuck(tasks[..], pipes[..], p) && Fifo()
      ensures pipes[..] == old(pipes[..])[p := old(pipes[p]).(buf := old(pipes[p]).buf + more)]
      ensures |old(written)| == pipes.Length && written == old(written)[p := old(written)[p] + more]
    {
      hide Inv, CountsOk, NoneElseStuck;
      ghost var ps := pipes[..];
      var buf := pipes[p].buf + more;
      BufOk(tasks[..], ps, p, buf);
      pipes[p] := pipes[p].(buf := buf);
      written := written[p := written[p] + more];
      assert pipes[..] == ps[p := ps[p].(buf := buf)] && taken[p] + buf == taken[p] + ps[p].buf + more;
    }

    /** The oldest bytes leave a pipe; the waiters are still to be woken. */
    method Take(p: nat, n: nat)
      requires Valid() && p < pipes.Length && pipes[p].used && n <= |pipes[p].buf| <= CAP
      modifies pipes, `taken
      ensures CountsOk(tasks[..], pipes[..]) && NoneElseStuck(tasks[..], pipes[..], p) && Fifo()
      ensures pipes[..] == old(pipes[..])[p := old(pipes[p]).(buf := old(pipes[p]).buf[n..])]
      ensures |old(taken)| == pipes.Length && taken == old(taken)[p := old(taken)[p] + old(pipes[p]).buf[..n]]
    {
      hide Inv, CountsOk, NoneElseStuck;
      ghost var ps, was := pipes[..], taken[p];
      var buf := pipes[p].buf[n..];
      BufOk(tasks[..], ps, p, buf);
      pipes[p] := pipes[p].(buf := buf);
      taken := taken[p := was + ps[p].buf[..n]];
      assert pipes[..] == ps[p := ps[p].(buf := buf)] && was + ps[p].buf[..n] + buf == was + ps[p].buf;
    }

    method Block(i: nat, w: Wait)
      requires Valid() && i < tasks.Length && WaitOk(tasks[i].(wait := w), pipes[..])
      modifies tasks
      ensures Valid() && tasks[..] == old(tasks[..])[i := old(tasks[i]).(wait := w)]
    {
      hide Inv, WaitOk;
      ghost var ts := tasks[..];
      BlockOk(ts, pipes[..], i, w);
      tasks[i] := tasks[i].(wait := w);
      assert tasks[..] == ts[i := ts[i].(wait := w)];
    }

    /** One chunk taken out and copied to user space, which may fail. */
    method TakeChunk(p: nat, n: nat, copied: bool)
      requires Valid() && p < pipes.Length && pipes[p].used && 0 < n <= |pipes[p].buf| <= CAP
      modifies tasks, pipes, `taken
      ensures pipes[..] == old(pipes[..])[p := old(pipes[p]).(buf := old(pipes[p]).buf[n..])] && Fifo()
      ensures |old(taken)| == pipes.Length && taken == old(taken)[p := old(taken)[p] + old(pipes[p]).buf[..n]]
      ensures copied ==> Valid() && AllWoken(old(tasks[..]), tasks[..], p)
      ensures !copied ==> tasks[..] == old(tasks[..]) && (Valid() <==> NoWriterWaits(tasks[..], p))
    {
      hide Inv, CountsOk, NoneElseStuck, AllWoken, InOrder;
      FailedCopyIff(tasks[..], pipes[..], p, n);
      Take(p, n);
      if copied {
        WakeAll(p);
      }
    }

    /** A read that finds the pipe empty. */
    method ReadEmpty(i: nat, p: nat, nonblock: bool) returns (res: Result)
      requires Valid() && i < tasks.Length && p < pipes.Length && pipes[p].used && pipes[p].buf == []
      modifies tasks
      ensures Valid()
      ensures res == if pipes[p].writers == 0 then Eof else if nonblock then WouldBlock else Blocked
      ensures tasks[..] == if res == Blocked then old(tasks[..])[i := old(tasks[i]).(wait := OnRead(p))] else old(tasks[..])
    {
      if pipes[p].writers == 0 {
        return Eof;
      }
      if nonblock {
        return WouldBlock;
      }
      hide Inv;
      Block(i, OnRead(p));
      res := Blocked;
    }

    /** The pipe branch of `sys_read_impl`. The first `good` bytes of the user's buffer can be
        stored to. `lost` are bytes taken out whose copy failed. */
    method Read(i: nat, j: nat, len: nat, good: nat, nonblock: bool) returns (res: Result, out: seq<Byte>, ghost lost: seq<Byte>)
      requires Valid() && i < tasks.Length && tasks[i].live && tasks[i].wait == Ready && j < |tasks[i].fds| && tasks[i].fds[j].ReadEnd?
      modifies tasks, pipes, `taken
      ensures var p := old(tasks[i]).fds[j].p;
              && p < pipes.Length && ReadFrom(old(pipes[..]), pipes[..], p, len, good, nonblock, res, out, lost)
              && Fifo() && |old(taken)| == pipes.Length && taken == old(taken)[p := old(taken)[p] + (out + lost)]
              && (lost == [] ==> Valid())
              && (lost != [] ==> (Valid() <==> out != [] || NoWriterWaits(old(tasks[..]), p)))
              && (res == Blocked ==> tasks[..] == old(tasks[..])[i := old(tasks[i]).(wait := OnRead(p))])
              && (res != Blocked ==> if out == [] then tasks[..] == old(tasks[..]) else AllWoken(old(tasks[..]), tasks[..], p))
    {
      hide Inv, AllWoken, NoWriterWaits, Reading, ReadFrom, InOrder, Copied;
      var p := tasks[i].fds[j].p;
      out, lost := [], [];
      OpenPipe(tasks[..], pipes[..], i, tasks[i].fds[j]);
      ghost var ps, was := pipes[..], taken;
      ReadingStart(ps, p, len, good);
      LogStart(was, p);
      while |out| < len
        invariant |out| <= len && Valid() && (if out == [] then tasks[..] == old(tasks[..]) else AllWoken(old(tasks[..]), tasks[..], p))
        invariant Reading(ps, pipes[..], p, out) && InChunks(|out|, Least(len, |ps[p].buf|), good)
        invariant |was| == pipes.Length && taken == was[p := was[p] + out]
        decreases len - |out|
      {
        ghost var ts, now := tasks[..], pipes[..];
        ReadingAt(ps, now, p, out);
        var chunk := Least(len - |out|, CHUNK);
        var buf := pipes[p].buf;
        var n := Least(chunk, |buf|);
        if n == 0 {
          if out != [] {
            Rewake(p);
            WakeTwice(old(tasks[..]), ts, tasks[..], p);
            ReadDone(ps, now, p, len, good, nonblock, Count, out);
            return Count, out, [];
          }
          res := ReadEmpty(i, p, nonblock);
          ReadDone(ps, now, p, len, good, nonblock, res, out);
          return;
        }
        var copied := |out| + n <= good;
        TakeChunk(p, n, copied);
        LogMore(was, p, out, buf[..n]);
        WakeTwice(old(tasks[..]), ts, tasks[..], p);
        ReadingNext(ps, now, pipes[..], p, len, good, nonblock, out, n);
        if !copied {
          lost := buf[..n];
          return if out == [] then Fault else Count, out, lost;
        }
        out := out + buf[..n];
      }
      ReadingAt(ps, pipes[..], p, out);
      ReadDone(ps, pipes[..], p, len, good, nonblock, Count, out);
      res := Count;
    }

    /** The pipe branch of `sys_write_impl`. The first `good` bytes of the user's buffer can be
        loaded; `n` are queued. */
    method Write(i: nat, j: nat, data: seq<Byte>, good: nat, nonblock: bool) returns (res: Result, n: nat)
      requires Valid() && i < tasks.Length && tasks[i].live && tasks[i].wait == Ready && j < |tasks[i].fds| && tasks[i].fds[j].WriteEnd?
      modifies tasks, pipes, `written
      ensures Valid()
      ensures var p := old(tasks[i]).fds[j].p;
              p < pipes.Length && var pipe, can := old(pipes[..])[p], Copied(|data|, good);
              && |pipe.buf| <= CAP && n == (if pipe.readers == 0 then 0 else Least(can, CAP - |pipe.buf|)) && n <= |data|
              && res == WriteResult(pipe, |data|, can, nonblock)
              && pipes[..] == old(pipes[..])[p := pipe.(buf := pipe.buf + data[..n])]
              && |old(written)| == pipes.Length && written == old(written)[p := old(written)[p] + data[..n]]
              && (res == Blocked ==> tasks[..] == old(tasks[..])[i := old(tasks[i]).(wait := OnWrite(p))])
              && (res != Blocked ==> if n == 0 then tasks[..] == old(tasks[..]) else AllWoken(old(tasks[..]), tasks[..], p))
    {
      hide Inv, CountsOk, NoneElseStuck, AllWoken, InOrder, Queueing, Copied;
      var p := tasks[i].fds[j].p;
      n := 0;
      OpenPipe(tasks[..], pipes[..], i, tasks[i].fds[j]);
      ghost var pipe, was := pipes[p], written;
      assert pipe.buf + data[..0] == pipe.buf;
      LogStart(was, p);
      QueueStart(pipe, |data|, good);
      while n < |data|
        invariant n <= |data| && Valid() && (if n == 0 then tasks[..] == old(tasks[..]) else AllWoken(old(tasks[..]), tasks[..], p))
        invariant pipes[..] == old(pipes[..])[p := pipe.(buf := pipe.buf + data[..n])] && Queueing(n, pipe, |data|, good)
        invariant |was| == pipes.Length && written == was[p := was[p] + data[..n]]
        decreases |data| - n
      {
        ghost var ts := tasks[..];
        QueueNext(n, pipe, |data|, good);
        var chunk := Least(|data| - n, CHUNK);
        if n + chunk > good {
          return if n == 0 then Fault else Count, n;
        }
        if pipes[p].readers == 0 {
          return Broken, n;
        }
        var room := Least(chunk, CAP - |pipes[p].buf|);
        if room == 0 {
          if n > 0 {
            Rewake(p);
            WakeTwice(old(tasks[..]), ts, tasks[..], p);
            return Count, n;
          }
          if nonblock {
            return WouldBlock, n;
          }
          Block(i, OnWrite(p));
          return Blocked, n;
        }
        Put(p, data[n..n + room]);
        LogMore(was, p, data[..n], data[n..n + room]);
        assert data[..n] + data[n..n + room] == data[..n + room];
        assert pipe.buf + data[..n] + data[n..n + room] == pipe.buf + data[..n + room];
        n := n + room;
        WakeAll(p);
        WakeTwice(old(tasks[..]), ts, tasks[..], p);
      }
      QueueDone(n, pipe, |data|, good);
      res := Count;
    }
  }

  /** What a write reports, of whose `len` bytes `can` can be copied. */
  function WriteResult(pipe: Pipe, len: nat, can: nat, nonblock: bool): Result {
    if len == 0 then Count
    else if can == 0 then Fault
    else if pipe.readers == 0 then Broken
    else if |pipe.buf| < CAP then Count
    else if nonblock then WouldBlock
    else Blocked
  }

  lemma LogStart(logs: seq<seq<Byte>>, p: nat)
    requires p < |logs|
    ensures logs[p := logs[p] + []] == logs && forall data: seq<Byte> :: logs[p := logs[p] + data[..0]] == logs
  {
    assert logs[p] + [] == logs[p];
    forall data: seq<Byte> ensures logs[p := logs[p] + data[..0]] == logs {
      assert logs[p] + data[..0] == logs[p];
    }
  }

  lemma LogMore(logs: seq<seq<Byte>>, p: nat, a: seq<Byte>, b: seq<Byte>)
    requires p < |logs|
    ensures logs[p := logs[p] + a][p := logs[p] + a + b] == logs[p := logs[p] + (a + b)]
  {
    assert logs[p] + a + b == logs[p] + (a + b);
  }

  /** How far a write can be: whole chunks that could be copied, or as much as there was room for. */
  ghost predicate Queueing(n: nat, pipe: Pipe, len: nat, good: nat) {
    && |pipe.buf| + n <= CAP && n <= Copied(len, good) <= len
    && (n % CHUNK == 0 || n == len || |pipe.buf| + n == CAP) && (n > 0 ==> pipe.readers > 0)
  }

  lemma QueueStart(pipe: Pipe, len: nat, good: nat)
    requires |pipe.buf| <= CAP
    ensures Queueing(0, pipe, len, good)
  {
  }

  lemma QueueNext(n: nat, pipe: Pipe, len: nat, good: nat)
    requires Queueing(n, pipe, len, good) && n < len
    ensures |pipe.buf| + n <= CAP && (pipe.readers == 0 ==> n == 0)
    ensures var c := Least(len - n, CHUNK);
            var room := Least(c, CAP - |pipe.buf| - n);
            if n + c > good then n == Least(Copied(len, good), CAP - |pipe.buf|) && if n == 0 then Copied(len, good) == 0 else Copied(len, good) > 0 && |pipe.buf| < CAP
            else
              && Copied(len, good) > 0
              && (room == 0 ==> n == Least(Copied(len, good), CAP - |pipe.buf|) && |pipe.buf| + n == CAP)
              && (pipe.readers > 0 ==> Queueing(n + room, pipe, len, good))
  {
  }

  lemma QueueDone(n: nat, pipe: Pipe, len: nat, good: nat)
    requires Queueing(n, pipe, len, good) && n == len
    ensures n == Least(Copied(len, good), CAP - |pipe.buf|) && (n > 0 ==> pipe.readers > 0 && Copied(len, good) > 0 && |pipe.buf| < CAP)
  {
  }

  /** How many of `total` bytes pass when they are copied in chunks and only the first `good` can be. */
  function Copied(total: nat, good: nat): nat { if total <= good then total else good - good % CHUNK }

  /** After some chunks `n` of `total` bytes have passed. */
  ghost predicate InChunks(n: nat, total: nat, good: nat) { n <= Copied(total, good) && (n % CHUNK == 0 || n == total) }

  /** The next chunk passes, or it holds the first byte that cannot. */
  lemma NextChunk(n: nat, total: nat, good: nat)
    requires InChunks(n, total, good) && n < total
    ensures var c := Least(total - n, CHUNK); if n + c <= good then InChunks(n + c, total, good) else n == Copied(total, good) && total > good
  {
  }

  lemma AllChunks(n: nat, total: nat, good: nat)
    requires InChunks(n, total, good)
    ensures n == total ==> n == Copied(total, good) && total <= good
  {
  }

  /** `out` was taken from the front of pipe `p`, and nothing else happened to the pipes. */
  ghost predicate Reading(ps0: seq<Pipe>, ps: seq<Pipe>, p: nat, out: seq<Byte>) {
    p < |ps0| && out <= ps0[p].buf && ps == ps0[p := ps0[p].(buf := ps0[p].buf[|out|..])]
  }

  /** What a read does to the pipes and what it reports. */
  ghost predicate ReadFrom(ps0: seq<Pipe>, ps: seq<Pipe>, p: nat, len: nat, good: nat, nonblock: bool, res: Result, out: seq<Byte>, lost: seq<Byte>) {
    && Reading(ps0, ps, p, out + lost)
    && var pipe, total := ps0[p], Least(len, |ps0[p].buf|);
    && |out| == Copied(total, good) && |lost| == (if total <= good then 0 else Least(total - |out|, CHUNK))
    && res == if out == [] && lost != [] then Fault
              else if len == 0 || pipe.buf != [] then Count
              else if pipe.writers == 0 then Eof
              else if nonblock then WouldBlock
              else Blocked
  }

  lemma ReadingStart(ps: seq<Pipe>, p: nat, len: nat, good: nat)
    requires p < |ps|
    ensures Reading(ps, ps, p, []) && InChunks(0, Least(len, |ps[p].buf|), good)
  {
  }

  lemma ReadingAt(ps0: seq<Pipe>, ps: seq<Pipe>, p: nat, out: seq<Byte>)
    requires Reading(ps0, ps, p, out)
    ensures |ps| == |ps0| && p < |ps| && ps[p] == ps0[p].(buf := ps[p].buf) && out + ps[p].buf == ps0[p].buf
  {
  }

  lemma ReadingNext(ps0: seq<Pipe>, ps: seq<Pipe>, ps': seq<Pipe>, p: nat, len: nat, good: nat, nonblock: bool, out: seq<Byte>, n: nat)
    requires Reading(ps0, ps, p, out) && p < |ps| && |out| < len && 0 < n == Least(Least(len - |out|, CHUNK), |ps[p].buf|) && ps' == ps[p := ps[p].(buf := ps[p].buf[n..])]
    requires InChunks(|out|, Least(len, |ps0[p].buf|), good)
    ensures Reading(ps0, ps', p, out + ps[p].buf[..n])
    ensures |out| + n <= good ==> InChunks(|out| + n, Least(len, |ps0[p].buf|), good)
    ensures |out| + n > good ==> ReadFrom(ps0, ps', p, len, good, nonblock, if out == [] then Fault else Count, out, ps[p].buf[..n])
  {
    var all := out + ps[p].buf[..n];
    assert ps0[p].buf[|all|..] == ps[p].buf[n..];
    NextChunk(|out|, Least(len, |ps0[p].buf|), good);
  }

  lemma ReadDone(ps0: seq<Pipe>, ps: seq<Pipe>, p: nat, len: nat, good: nat, nonblock: bool, res: Result, out: seq<Byte>)
    requires Reading(ps0, ps, p, out) && p < |ps| && |out| <= len && (|out| == len || ps[p].buf == []) && InChunks(|out|, Least(len, |ps0[p].buf|), good)
    requires res == if out == [] && len > 0 then (if ps[p].writers == 0 then Eof else if nonblock then WouldBlock else Blocked) else Count
    ensures ReadFrom(ps0, ps, p, len, good, nonblock, res, out, []) && out + [] == out
  {
    assert out + [] == out;
    AllChunks(|out|, Least(len, |ps0[p].buf|), good);
  }

  lemma {:induction false} NoRefs(ts: seq<Task>, f: Fd)
    requires PipeOf(f) >= 0 && forall i, j :: 0 <= i < |ts| && 0 <= j < |ts[i].fds| ==> PipeOf(ts[i].fds[j]) < 0
    ensures Refs(ts, f) == 0
    decreases |ts|
  {
    if ts != [] {
      NoRefs(ts[..|ts| - 1], f);
      NoEnds(ts[|ts| - 1].fds, f);
    }
  }

  /** Nobody waits to write into the pipe. */
  ghost predicate NoWriterWaits(ts: seq<Task>, p: nat) { forall i :: 0 <= i < |ts| && ts[i].live ==> ts[i].wait != OnWrite(p) }

  /** Waking once more changes nothing, and afterwards nobody waits on the pipe. */
  lemma WakeTwice(ts: seq<Task>, ts': seq<Task>, ts'': seq<Task>, p: nat)
    ensures AllWoken(ts, ts', p) && AllWoken(ts', ts'', p) ==> AllWoken(ts, ts'', p)
    ensures AllWoken(ts, ts', p) ==> NoWriterWaits(ts', p)
  {
  }

  /** An open end belongs to a pipe in use. */
  lemma OpenPipe(ts: seq<Task>, ps: seq<Pipe>, k: nat, f: Fd)
    requires Inv(ts, ps) && k < |ts| && ts[k].live && f in ts[k].fds && PipeOf(f) >= 0
    ensures PipeOf(f) < |ps| && var p: nat := PipeOf(f); ps[p].used && |ps[p].buf| <= CAP
  {
    hide Refs, FdCount;
    var j :| 0 <= j < |ts[k].fds| && ts[k].fds[j] == f;
    assert FdsOk(ts[k], |ps|);
    var p: nat := PipeOf(f);
    assert PipeOk(ts, ps, p);
    FdSome(ts[k].fds, j);
    RefsSome(ts, k, f);
  }
}
