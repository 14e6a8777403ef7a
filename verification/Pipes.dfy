/** Pipes as values (kernel/pipe.c, and their descriptors and waiting tasks in kernel/task.c):
    what the reader and writer counts and the blocked tasks must say at all times. */
module Pipes {

  const CAP: nat := 1024
  const CHUNK: nat := 128

  type Byte = bv8

  datatype Fd = Closed | Plain | ReadEnd(p: nat) | WriteEnd(p: nat)

  datatype Wait = Ready | OnRead(p: nat) | OnWrite(p: nat)

  datatype Task = Task(live: bool, fds: seq<Fd>, wait: Wait)

  /** `buf` is what the ring holds, oldest byte first. */
  datatype Pipe = Pipe(used: bool, readers: nat, writers: nat, buf: seq<Byte>)

  const FREE: Pipe := Pipe(false, 0, 0, [])

  function Least(a: nat, b: nat): nat { if a < b then a else b }

  // ---- descriptors ----

  function FdCount(fds: seq<Fd>, f: Fd): nat
    decreases |fds|
  {
    if fds == [] then 0 else FdCount(fds[..|fds| - 1], f) + if fds[|fds| - 1] == f then 1 else 0
  }

  function OpenIn(t: Task, f: Fd): nat { if t.live then FdCount(t.fds, f) else 0 }

  /** How many open descriptors of all tasks are `f`. */
  function Refs(ts: seq<Task>, f: Fd): nat
    decreases |ts|
  {
    if ts == [] then 0 else Refs(ts[..|ts| - 1], f) + OpenIn(ts[|ts| - 1], f)
  }

  lemma {:induction false} FdUpdate(fds: seq<Fd>, j: nat, g: Fd, f: Fd)
    requires j < |fds|
    ensures FdCount(fds[j := g], f) + (if fds[j] == f then 1 else 0) == FdCount(fds, f) + if g == f then 1 else 0
    decreases |fds|
  {
    var n := |fds| - 1;
    if j == n {
      assert fds[j := g][..n] == fds[..n];
    } else {
      assert fds[j := g][..n] == fds[..n][j := g];
      FdUpdate(fds[..n], j, g, f);
    }
  }

  lemma {:induction false} RefsUpdate(ts: seq<Task>, i: nat, t: Task, f: Fd)
    requires i < |ts|
    ensures Refs(ts[i := t], f) + OpenIn(ts[i], f) == Refs(ts, f) + OpenIn(t, f)
    decreases |ts|
  {
    var n := |ts| - 1;
    if i == n {
      assert ts[i := t][..n] == ts[..n];
    } else {
      assert ts[i := t][..n] == ts[..n][i := t];
      RefsUpdate(ts[..n], i, t, f);
    }
  }

  lemma {:induction false} FdSome(fds: seq<Fd>, j: nat)
    requires j < |fds|
    ensures FdCount(fds, fds[j]) > 0
    decreases |fds|
  {
    if j < |fds| - 1 {
      FdSome(fds[..|fds| - 1], j);
    }
  }

  lemma {:induction false} RefsSome(ts: seq<Task>, i: nat, f: Fd)
    requires i < |ts|
    ensures Refs(ts, f) >= OpenIn(ts[i], f)
    decreases |ts|
  {
    if i < |ts| - 1 {
      RefsSome(ts[..|ts| - 1], i, f);
    }
  }

  /** Changing how tasks wait changes no count. */
  lemma {:induction false} RefsSame(ts: seq<Task>, ts': seq<Task>, f: Fd)
    requires |ts'| == |ts| && forall i :: 0 <= i < |ts| ==> ts'[i].live == ts[i].live && ts'[i].fds == ts[i].fds
    ensures Refs(ts', f) == Refs(ts, f)
    decreases |ts|
  {
    if ts != [] {
      RefsSame(ts[..|ts| - 1], ts'[..|ts| - 1], f);
    }
  }

  // ---- the invariant ----

  /** The counts of a pipe are its open descriptors, and a pipe without any is free. */
  ghost predicate PipeOk(ts: seq<Task>, ps: seq<Pipe>, p: nat)
    requires p < |ps|
  {
    && ps[p].readers == Refs(ts, ReadEnd(p)) && ps[p].writers == Refs(ts, WriteEnd(p))
    && (ps[p].used <==> ps[p].readers + ps[p].writers > 0)
    && |ps[p].buf| <= CAP && (!ps[p].used ==> ps[p] == FREE)
  }

  ghost predicate FdsOk(t: Task, n: nat) {
    t.live ==> forall j :: 0 <= j < |t.fds| ==> (t.fds[j].ReadEnd? || t.fds[j].WriteEnd? ==> t.fds[j].p < n)
  }

  ghost predicate CountsOk(ts: seq<Task>, ps: seq<Pipe>) {
    && (forall p :: 0 <= p < |ps| ==> PipeOk(ts, ps, p))
    && (forall i :: 0 <= i < |ts| ==> FdsOk(ts[i], |ps|))
  }

  /** A task waits only for what cannot go on: an empty pipe with a writer, a full one with a reader. */
  ghost predicate WaitOk(t: Task, ps: seq<Pipe>) {
    match t.wait
    case Ready => true
    case OnRead(p) => t.live ==> p < |ps| && ps[p].used && ps[p].buf == [] && ps[p].writers > 0
    case OnWrite(p) => t.live ==> p < |ps| && ps[p].used && |ps[p].buf| == CAP && ps[p].readers > 0
  }

  predicate WaitsOn(t: Task, p: nat) { t.wait == OnRead(p) || t.wait == OnWrite(p) }

  ghost predicate NoneStuck(ts: seq<Task>, ps: seq<Pipe>) { forall i :: 0 <= i < |ts| ==> WaitOk(ts[i], ps) }

  /** As above, but for tasks that wait on `p`. */
  ghost predicate NoneElseStuck(ts: seq<Task>, ps: seq<Pipe>, p: nat) {
    forall i :: 0 <= i < |ts| && !WaitsOn(ts[i], p) ==> WaitOk(ts[i], ps)
  }

  ghost predicate Inv(ts: seq<Task>, ps: seq<Pipe>) { CountsOk(ts, ps) && NoneStuck(ts, ps) }

  // ---- what went through a pipe ----

  /** What was read from a pipe, followed by what it still holds, is what was written to it. */
  ghost predicate InOrder(ps: seq<Pipe>, written: seq<seq<Byte>>, taken: seq<seq<Byte>>) {
    |written| == |taken| == |ps| && forall p :: 0 <= p < |ps| && ps[p].used ==> taken[p] + ps[p].buf == written[p]
  }

  /** A pipe that is in use was so before and holds the same bytes. */
  ghost predicate SameBufs(ps: seq<Pipe>, ps': seq<Pipe>) {
    |ps'| == |ps| && forall p :: 0 <= p < |ps| && ps'[p].used ==> ps[p].used && ps'[p].buf == ps[p].buf
  }

  lemma BufsTwice(ps: seq<Pipe>, ps': seq<Pipe>, ps'': seq<Pipe>)
    requires SameBufs(ps, ps') && SameBufs(ps', ps'')
    ensures SameBufs(ps, ps'')
  {
  }

  lemma BufsInOrder(ps: seq<Pipe>, ps': seq<Pipe>, written: seq<seq<Byte>>, taken: seq<seq<Byte>>)
    requires InOrder(ps, written, taken) && SameBufs(ps, ps')
    ensures InOrder(ps', written, taken)
  {
  }

  // ---- steps ----

  /** `task_wake_pipe`. */
  function Woken(t: Task, p: nat): Task { if WaitsOn(t, p) then t.(wait := Ready) else t }

  ghost predicate AllWoken(ts: seq<Task>, ts': seq<Task>, p: nat) {
    |ts'| == |ts| && forall i :: 0 <= i < |ts| ==> ts'[i] == Woken(ts[i], p)
  }

  /** Whatever happened to one pipe, waking everyone on it makes things right again. */
  lemma WakeOk(ts: seq<Task>, ts': seq<Task>, ps: seq<Pipe>, p: nat)
    requires CountsOk(ts, ps) && NoneElseStuck(ts, ps, p) && AllWoken(ts, ts', p)
    ensures Inv(ts', ps)
  {
    hide Refs;
    forall q | 0 <= q < |ps| ensures PipeOk(ts', ps, q) {
      assert PipeOk(ts, ps, q);
      RefsSame(ts, ts', ReadEnd(q));
      RefsSame(ts, ts', WriteEnd(q));
    }
    forall i | 0 <= i < |ts'| ensures FdsOk(ts'[i], |ps|) && WaitOk(ts'[i], ps) {
      assert FdsOk(ts[i], |ps|);
    }
  }

  /** New contents for a pipe disturb nobody else. */
  lemma BufOk(ts: seq<Task>, ps: seq<Pipe>, p: nat, buf: seq<Byte>)
    requires Inv(ts, ps) && p < |ps| && ps[p].used && |buf| <= CAP
    ensures CountsOk(ts, ps[p := ps[p].(buf := buf)]) && NoneElseStuck(ts, ps[p := ps[p].(buf := buf)], p)
  {
    hide Refs;
    var ps' := ps[p := ps[p].(buf := buf)];
    forall q | 0 <= q < |ps'| ensures PipeOk(ts, ps', q) {
      assert PipeOk(ts, ps, q);
    }
    forall i | 0 <= i < |ts| ensures FdsOk(ts[i], |ps'|) {
      assert FdsOk(ts[i], |ps|);
    }
  }

  /** A read whose copy to user space fails has emptied part of the pipe and wakes nobody:
      all is well if and only if no writer was waiting. */
  lemma FailedCopyIff(ts: seq<Task>, ps: seq<Pipe>, p: nat, n: nat)
    requires Inv(ts, ps) && p < |ps| && ps[p].used && 0 < n <= |ps[p].buf|
    ensures Inv(ts, ps[p := ps[p].(buf := ps[p].buf[n..])]) <==> forall i :: 0 <= i < |ts| && ts[i].live ==> ts[i].wait != OnWrite(p)
  {
    hide Refs;
    var ps' := ps[p := ps[p].(buf := ps[p].buf[n..])];
    assert PipeOk(ts, ps, p);
    BufOk(ts, ps, p, ps[p].buf[n..]);
    if forall i :: 0 <= i < |ts| && ts[i].live ==> ts[i].wait != OnWrite(p) {
      forall i | 0 <= i < |ts| ensures WaitOk(ts[i], ps') {
        assert WaitOk(ts[i], ps);
      }
    } else {
      var i :| 0 <= i < |ts| && ts[i].live && ts[i].wait == OnWrite(p);
      assert !WaitOk(ts[i], ps');
    }
  }

  /** A descriptor less: the count goes down, and the pipe is free when both are zero. */
  function Dropped(pipe: Pipe, f: Fd): Pipe {
    var q := match f
             case ReadEnd(_) => if pipe.used && pipe.readers > 0 then pipe.(readers := pipe.readers - 1) else pipe
             case WriteEnd(_) => if pipe.used && pipe.writers > 0 then pipe.(writers := pipe.writers - 1) else pipe
             case _ => pipe;
    if pipe.used && q.readers == 0 && q.writers == 0 then FREE else q
  }

  /** A descriptor more. */
  function Referenced(pipe: Pipe, f: Fd): Pipe {
    match f
    case ReadEnd(_) => if pipe.used then pipe.(readers := pipe.readers + 1) else pipe
    case WriteEnd(_) => if pipe.used then pipe.(writers := pipe.writers + 1) else pipe
    case _ => pipe
  }

  function PipeOf(f: Fd): (p: int) {
    match f
    case ReadEnd(p) => p
    case WriteEnd(p) => p
    case _ => -1
  }

  lemma DropOk(ts: seq<Task>, ps: seq<Pipe>, i: nat, j: nat)
    requires Inv(ts, ps) && i < |ts| && ts[i].live && j < |ts[i].fds| && 0 <= PipeOf(ts[i].fds[j])
    ensures var f := ts[i].fds[j];
            var p: nat := PipeOf(f);
            && p < |ps|
            && CountsOk(ts[i := ts[i].(fds := ts[i].fds[j := Closed])], ps[p := Dropped(ps[p], f)])
            && NoneElseStuck(ts[i := ts[i].(fds := ts[i].fds[j := Closed])], ps[p := Dropped(ps[p], f)], p)
            && SameBufs(ps, ps[p := Dropped(ps[p], f)])
  {
    hide Refs, FdCount;
    var f := ts[i].fds[j];
    var p: nat := PipeOf(f);
    var t := ts[i].(fds := ts[i].fds[j := Closed]);
    var ts' := ts[i := t];
    assert FdsOk(ts[i], |ps|);
    var ps' := ps[p := Dropped(ps[p], f)];
    FdSome(ts[i].fds, j);
    RefsSome(ts, i, f);
    forall q: nat | q < |ps'| ensures PipeOk(ts', ps', q) {
      assert PipeOk(ts, ps, q);
      FdUpdate(ts[i].fds, j, Closed, ReadEnd(q));
      FdUpdate(ts[i].fds, j, Closed, WriteEnd(q));
      RefsUpdate(ts, i, t, ReadEnd(q));
      RefsUpdate(ts, i, t, WriteEnd(q));
    }
    forall k | 0 <= k < |ts'| ensures FdsOk(ts'[k], |ps'|) {
      assert FdsOk(ts[k], |ps|);
    }
    forall k | 0 <= k < |ts'| && !WaitsOn(ts'[k], p) ensures WaitOk(ts'[k], ps') {
      assert WaitOk(ts[k], ps);
    }
  }

  /** A slot that held no pipe end takes a copy of an open one. */
  lemma RefOk(ts: seq<Task>, ps: seq<Pipe>, i: nat, j: nat, f: Fd)
    requires Inv(ts, ps) && i < |ts| && ts[i].live && j < |ts[i].fds| && PipeOf(ts[i].fds[j]) < 0
    requires 0 <= PipeOf(f) < |ps| && ps[PipeOf(f)].used
    ensures var p: nat := PipeOf(f);
            && Inv(ts[i := ts[i].(fds := ts[i].fds[j := f])], ps[p := Referenced(ps[p], f)])
            && SameBufs(ps, ps[p := Referenced(ps[p], f)])
  {
    hide Refs, FdCount;
    var p: nat := PipeOf(f);
    var t := ts[i].(fds := ts[i].fds[j := f]);
    var ts' := ts[i := t];
    var ps' := ps[p := Referenced(ps[p], f)];
    forall q: nat | q < |ps'| ensures PipeOk(ts', ps', q) {
      assert PipeOk(ts, ps, q);
      FdUpdate(ts[i].fds, j, f, ReadEnd(q));
      FdUpdate(ts[i].fds, j, f, WriteEnd(q));
      RefsUpdate(ts, i, t, ReadEnd(q));
      RefsUpdate(ts, i, t, WriteEnd(q));
    }
    forall k | 0 <= k < |ts'| ensures FdsOk(ts'[k], |ps'|) && WaitOk(ts'[k], ps') {
      assert FdsOk(ts[k], |ps|) && WaitOk(ts[k], ps);
    }
  }

  /** A slot without a pipe end may become another such slot. */
  lemma PlainOk(ts: seq<Task>, ps: seq<Pipe>, i: nat, j: nat, f: Fd)
    requires Inv(ts, ps) && i < |ts| && ts[i].live && j < |ts[i].fds| && PipeOf(ts[i].fds[j]) < 0 && PipeOf(f) < 0
    ensures Inv(ts[i := ts[i].(fds := ts[i].fds[j := f])], ps)
  {
    hide Refs, FdCount;
    var t := ts[i].(fds := ts[i].fds[j := f]);
    var ts' := ts[i := t];
    forall q: nat | q < |ps| ensures PipeOk(ts', ps, q) {
      assert PipeOk(ts, ps, q);
      FdUpdate(ts[i].fds, j, f, ReadEnd(q));
      FdUpdate(ts[i].fds, j, f, WriteEnd(q));
      RefsUpdate(ts, i, t, ReadEnd(q));
      RefsUpdate(ts, i, t, WriteEnd(q));
    }
    forall k | 0 <= k < |ts'| ensures FdsOk(ts'[k], |ps|) && WaitOk(ts'[k], ps) {
      assert FdsOk(ts[k], |ps|) && WaitOk(ts[k], ps);
    }
  }

  /** A task may wait for what cannot go on. */
  lemma BlockOk(ts: seq<Task>, ps: seq<Pipe>, i: nat, w: Wait)
    requires Inv(ts, ps) && i < |ts| && WaitOk(ts[i].(wait := w), ps)
    ensures Inv(ts[i := ts[i].(wait := w)], ps)
  {
    hide Refs;
    var ts' := ts[i := ts[i].(wait := w)];
    forall q | 0 <= q < |ps| ensures PipeOk(ts', ps, q) {
      assert PipeOk(ts, ps, q);
      RefsSame(ts, ts', ReadEnd(q));
      RefsSame(ts, ts', WriteEnd(q));
    }
    forall k | 0 <= k < |ts'| ensures FdsOk(ts'[k], |ps|) && WaitOk(ts'[k], ps) {
      assert FdsOk(ts[k], |ps|) && WaitOk(ts[k], ps);
    }
  }

  lemma {:induction false} NoEnds(fds: seq<Fd>, f: Fd)
    requires PipeOf(f) >= 0 && forall j :: 0 <= j < |fds| ==> PipeOf(fds[j]) < 0
    ensures FdCount(fds, f) == 0
    decreases |fds|
  {
    if fds != [] {
      NoEnds(fds[..|fds| - 1], f);
    }
  }

  /** A task without pipe ends may come or go. */
  lemma TaskOk(ts: seq<Task>, ps: seq<Pipe>, i: nat, t: Task)
    requires Inv(ts, ps) && i < |ts| && t.wait == Ready
    requires ts[i].live ==> forall j :: 0 <= j < |ts[i].fds| ==> PipeOf(ts[i].fds[j]) < 0
    requires t.live ==> forall j :: 0 <= j < |t.fds| ==> PipeOf(t.fds[j]) < 0
    ensures Inv(ts[i := t], ps)
  {
    hide Refs, FdCount;
    var ts' := ts[i := t];
    forall q: nat | q < |ps| ensures PipeOk(ts', ps, q) {
      assert PipeOk(ts, ps, q);
      if ts[i].live {
        NoEnds(ts[i].fds, ReadEnd(q));
        NoEnds(ts[i].fds, WriteEnd(q));
      }
      if t.live {
        NoEnds(t.fds, ReadEnd(q));
        NoEnds(t.fds, WriteEnd(q));
      }
      RefsUpdate(ts, i, t, ReadEnd(q));
      RefsUpdate(ts, i, t, WriteEnd(q));
    }
    forall k | 0 <= k < |ts'| ensures FdsOk(ts'[k], |ps|) && WaitOk(ts'[k], ps) {
      assert FdsOk(ts[k], |ps|) && WaitOk(ts[k], ps);
    }
  }

  /** A free pipe gets one descriptor of each kind. */
  lemma MakeOk(ts: seq<Task>, ps: seq<Pipe>, i: nat, r: nat, w: nat, p: nat)
    requires Inv(ts, ps) && i < |ts| && ts[i].live && r != w && r < |ts[i].fds| && w < |ts[i].fds|
    requires PipeOf(ts[i].fds[r]) < 0 && PipeOf(ts[i].fds[w]) < 0 && p < |ps| && !ps[p].used
    ensures Inv(ts[i := ts[i].(fds := ts[i].fds[r := ReadEnd(p)][w := WriteEnd(p)])], ps[p := Pipe(true, 1, 1, [])])
  {
    hide Refs, FdCount;
    var fds := ts[i].fds[r := ReadEnd(p)];
    var t := ts[i].(fds := fds[w := WriteEnd(p)]);
    var ts', ps' := ts[i := t], ps[p := Pipe(true, 1, 1, [])];
    forall q: nat | q < |ps'| ensures PipeOk(ts', ps', q) {
      assert PipeOk(ts, ps, q);
      FdUpdate(ts[i].fds, r, ReadEnd(p), ReadEnd(q));
      FdUpdate(ts[i].fds, r, ReadEnd(p), WriteEnd(q));
      FdUpdate(fds, w, WriteEnd(p), ReadEnd(q));
      FdUpdate(fds, w, WriteEnd(p), WriteEnd(q));
      RefsUpdate(ts, i, t, ReadEnd(q));
      RefsUpdate(ts, i, t, WriteEnd(q));
    }
    forall k | 0 <= k < |ts'| ensures FdsOk(ts'[k], |ps'|) && WaitOk(ts'[k], ps') {
      assert FdsOk(ts[k], |ps|) && WaitOk(ts[k], ps);
    }
  }

  lemma TwoTasks(t: Task, u: Task, f: Fd)
    ensures Refs([t, u], f) == OpenIn(t, f) + OpenIn(u, f)
  {
    assert [t, u][..1] == [t] && [t][..0] == [];
    assert Refs([t], f) == OpenIn(t, f);
  }

  /** A writer asleep on a full pipe stays asleep when the reader's copy fails. */
  lemma LostWakeup(full: seq<Byte>)
    requires |full| == CAP
    ensures var ts, ps := [Task(true, [ReadEnd(0)], Ready), Task(true, [WriteEnd(0)], OnWrite(0))], [Pipe(true, 1, 1, full)];
            Inv(ts, ps) && !Inv(ts, ps[0 := ps[0].(buf := full[1..])])
  {
    var r, w := Task(true, [ReadEnd(0)], Ready), Task(true, [WriteEnd(0)], OnWrite(0));
    var ts, ps := [r, w], [Pipe(true, 1, 1, full)];
    assert r.fds[..0] == [] && w.fds[..0] == [];
    assert FdCount(r.fds, ReadEnd(0)) == 1 && FdCount(w.fds, ReadEnd(0)) == 0;
    assert FdCount(r.fds, WriteEnd(0)) == 0 && FdCount(w.fds, WriteEnd(0)) == 1;
    TwoTasks(r, w, ReadEnd(0));
    TwoTasks(r, w, WriteEnd(0));
    assert Inv(ts, ps);
    FailedCopyIff(ts, ps, 0, 1);
    assert ts[1].wait == OnWrite(0);
  }
}
