/** The user address spaces of kernel/task.c as an object over the page allocator: mapping,
    faults, protection changes, unmapping and fork, updating slots and counts in place. The
    ghost field `view` is the machine in which fork copies every private page; each method
    says what it does to that machine, and `Valid` says that tasks read the same from both. */
module AddressSpaces {
  import opened PageAllocator
  import opened CopyOnWrite

  const RESERVE: nat := 64

  ghost predicate Mapped(ts: seq<Task>, t: nat, va: nat) { exists i :: Used(ts, t, i) && At(ts, t, i).va == va }

  ghost predicate HasRoom(ts: seq<Task>, t: nat)
    requires t < |ts|
  {
    exists i :: 0 <= i < |ts[t].slots| && !ts[t].slots[i].used
  }

  /** A frame that one page alone names, or memory for a copy. */
  ghost predicate OwnFrame(k: Kern, s: Slot, available: int) { s.pa < |k.refs| && (k.refs[s.pa] == 1 || available > RESERVE) }

  /** The fault handler lets the write through; `file` says that the area at the address is of a
      file and may be written. */
  ghost predicate Faults(k: Kern, t: nat, i: nat, file: bool, available: int)
    requires t < |k.tasks| && i < |k.tasks[t].slots|
  {
    var s := At(k.tasks, t, i);
    s.intent && !s.w && if s.cow then OwnFrame(k, s, available) else s.va in k.tasks[t].shared && file
  }

  ghost predicate CanFault(k: Kern, t: nat, va: nat, file: bool, available: int) {
    exists i :: Used(k.tasks, t, i) && At(k.tasks, t, i).va == va && Faults(k, t, i, file, available)
  }

  ghost predicate CanStore(k: Kern, t: nat, va: nat, file: bool, available: int) {
    exists i :: Used(k.tasks, t, i) && At(k.tasks, t, i).va == va && (At(k.tasks, t, i).w || Faults(k, t, i, file, available))
  }

  /** Not a clean writable shared page. */
  predicate Forkable(s: Slot) { !(s.intent && !s.cow && !s.w) }

  ghost predicate CanReprotect(k: Kern, t: nat, va: nat, write: bool, available: int) {
    exists i :: Used(k.tasks, t, i) && At(k.tasks, t, i).va == va && (Copies(k, t, i, write) ==> available > RESERVE)
  }

  ghost predicate AddsSlot(ts: seq<Task>, ts': seq<Task>, t: nat, j: nat, s: Slot) {
    t < |ts| && j < |ts[t].slots| && !ts[t].slots[j].used && ts' == PutSlot(ts, t, j, s)
  }

  /** Exactly one slot was filled, with a private page. */
  ghost predicate NewPage(ts: seq<Task>, ts': seq<Task>, t: nat, va: nat, writable: bool, executable: bool) {
    exists j: nat, f: nat :: AddsSlot(ts, ts', t, j, Slot(true, va, f, writable, writable, executable, false))
  }

  /** The slot that fork leaves the parent with. */
  ghost function AfterFork(ts: seq<Task>, p: nat, x: nat): Slot
    requires p < |ts| && x < |ts[p].slots|
  {
    if At(ts, p, x).used && Private(ts, p, x) then Downgraded(At(ts, p, x)) else At(ts, p, x)
  }

  /** What fork has not changed in the parent before slot `i`. */
  ghost predicate ForkLoop(ts0: seq<Task>, ts: seq<Task>, p: nat, c: nat, i: nat)
    requires p < |ts0| == |ts| && c < |ts|
  {
    && ts[c].shared == ts[p].shared == ts0[p].shared && |ts[p].slots| == |ts[c].slots| == |ts0[p].slots|
    && (forall x :: i <= x < |ts[p].slots| ==> ts[p].slots[x] == ts0[p].slots[x])
    && (forall x :: 0 <= x < i && x < |ts[p].slots| ==> ts[p].slots[x] == AfterFork(ts0, p, x) && (Used(ts0, p, x) ==> Forkable(At(ts0, p, x))))
    && (forall u :: 0 <= u < |ts| && u != p && u != c ==> ts[u] == ts0[u])
  }

  lemma ForkRights(ts0: seq<Task>, ts: seq<Task>, p: nat, c: nat, i: nat)
    requires p < |ts0| == |ts| && c < |ts| && ForkLoop(ts0, ts, p, c, i)
    ensures Rights(ts[p]) == Rights(ts0[p])
  {
    forall j | 0 <= j < |ts[p].slots| ensures ts[p].slots[j].used == ts0[p].slots[j].used && RightOf(ts[p].slots[j]) == RightOf(ts0[p].slots[j]) {
      assert j < i ==> ts[p].slots[j] == AfterFork(ts0, p, j);
    }
    RightsKept(ts0[p], ts[p]);
  }

  /** With memory above the reserve, a task can store to a private page exactly when it has the
      right to. */
  lemma StoreIsRight(k: Kern, t: nat, va: nat, file: bool, available: int)
    requires Inv(k) && t < |k.tasks| && va !in k.tasks[t].shared && available > RESERVE
    ensures CanStore(k, t, va, file, available) <==> exists r :: r in Rights(k.tasks[t]) && r.va == va && r.write
  {
    if CanStore(k, t, va, file, available) {
      var i :| Used(k.tasks, t, i) && At(k.tasks, t, i).va == va && (At(k.tasks, t, i).w || Faults(k, t, i, file, available));
      InvSlot(k, t, i);
      RightAt(k.tasks[t], i);
    }
    if r :| r in Rights(k.tasks[t]) && r.va == va && r.write {
      var i :| 0 <= i < |k.tasks[t].slots| && k.tasks[t].slots[i].used && RightOf(k.tasks[t].slots[i]) == r;
      assert Used(k.tasks, t, i);
      InvSlot(k, t, i);
    }
  }

  /** A task reads exactly where it has a page. */
  lemma LoadIsRight(k: Kern, t: nat, va: nat)
    requires Inv(k) && t < |k.tasks|
    ensures Mapped(k.tasks, t, va) <==> exists r :: r in Rights(k.tasks[t]) && r.va == va
    ensures va !in k.tasks[t].shared ==> (Mapped(k.tasks, t, va) <==> va in k.view[t])
  {
    if Mapped(k.tasks, t, va) {
      var i :| Used(k.tasks, t, i) && At(k.tasks, t, i).va == va;
      InvSlot(k, t, i);
      RightAt(k.tasks[t], i);
    }
    if r :| r in Rights(k.tasks[t]) && r.va == va {
      var i :| 0 <= i < |k.tasks[t].slots| && k.tasks[t].slots[i].used && RightOf(k.tasks[t].slots[i]) == r;
      assert Used(k.tasks, t, i);
    }
    if va in k.view[t] {
      assert HasPrivate(k.tasks, t, va);
    }
  }

  class Machine {
    const pmm: Pmm
    var mem: seq<Page>
    var tasks: seq<Task>
    ghost var held: seq<nat>
    ghost var shr: seq<bool>
    ghost var view: View

    ghost function K(): Kern
      reads this, pmm.refs
    {
      Kern(mem, pmm.refs[..], held, shr, tasks, view)
    }

    ghost predicate Valid()
      reads this, pmm, pmm.refs, pmm.free
    {
      pmm.Valid() && |mem| == pmm.total && Inv(K())
    }

    /** No task has a page yet. */
    constructor (total: nat, first: nat, end: nat, maxTasks: nat, maxPages: nat)
      requires first <= end <= total
      ensures Valid() && fresh(pmm) && fresh(pmm.refs) && fresh(pmm.free) && pmm.Available() == end - first && |mem| == total
      ensures tasks == seq(maxTasks, _ => Task(seq(maxPages, _ => EMPTY), {}))
    {
      pmm := new Pmm(total, first, end);
      mem := seq(total, _ => []);
      var none := Task(seq(maxPages, _ => EMPTY), {});
      tasks := seq(maxTasks, _ => none);
      held, shr, view := seq(total, _ => 0), seq(total, _ => false), seq(maxTasks, _ => map[]);
      new;
      forall f | 0 <= f < total ensures CountAll(tasks, f) == 0 {
        NoneUsed(tasks, f);
      }
    }

    /** What a load by task `t` from page `va` returns. */
    method Load(t: nat, va: nat) returns (ok: bool, c: Page)
      requires Valid() && t < |tasks|
      ensures ok <==> Mapped(tasks, t, va)
      ensures ok && va !in tasks[t].shared ==> va in view[t] && c == view[t][va]
      ensures va in view[t] ==> ok
      ensures ok ==> exists i :: Used(tasks, t, i) && At(tasks, t, i).va == va && At(tasks, t, i).pa < |mem| && c == mem[At(tasks, t, i).pa]
    {
      hide Inv;
      var i := FindPage(t, va);
      if i == |tasks[t].slots| {
        return false, [];
      }
      InvSlot(K(), t, i);
      return true, mem[tasks[t].slots[i].pa];
    }

    /** `task_find_page`. */
    method FindPage(t: nat, va: nat) returns (i: nat)
      requires Valid() && t < |tasks|
      ensures i <= |tasks[t].slots|
      ensures i < |tasks[t].slots| ==> Used(tasks, t, i) && At(tasks, t, i).va == va
      ensures i == |tasks[t].slots| ==> NewVa(K(), t, va) && va !in view[t]
    {
      hide Inv, Pmm.Valid;
      i := 0;
      while i < |tasks[t].slots|
        invariant i <= |tasks[t].slots|
        invariant forall j :: 0 <= j < i && tasks[t].slots[j].used ==> tasks[t].slots[j].va != va
      {
        if tasks[t].slots[i].used && tasks[t].slots[i].va == va {
          return;
        }
        i := i + 1;
      }
      NoView(K(), t, va);
    }

    /** The search of `task_track_page`. */
    method FreeSlot(t: nat) returns (i: nat)
      requires t < |tasks|
      ensures i <= |tasks[t].slots| && (i < |tasks[t].slots| ==> !tasks[t].slots[i].used)
      ensures forall j :: 0 <= j < i ==> tasks[t].slots[j].used
    {
      i := 0;
      while i < |tasks[t].slots| && tasks[t].slots[i].used
        invariant i <= |tasks[t].slots| && forall j :: 0 <= j < i ==> tasks[t].slots[j].used
      {
        i := i + 1;
      }
    }

    method SetSlot(t: nat, i: nat, s: Slot)
      requires t < |tasks| && i < |tasks[t].slots|
      modifies `tasks
      ensures tasks == PutSlot(old(tasks), t, i, s)
    {
      tasks := tasks[t := tasks[t].(slots := tasks[t].slots[i := s])];
    }

    /** A private page on its first touch: zeroed, or a copy of the page cache's frame
        (`task_map_user_anon_fault_page`, `task_map_user_file_fault_page`). */
    method MapPrivate(t: nat, va: nat, c: Page, writable: bool, executable: bool) returns (ok: bool)
      requires Valid() && t < |tasks| && va !in tasks[t].shared
      modifies this, pmm, pmm.refs, pmm.free
      ensures Valid() && |tasks| == |old(tasks)| && held == old(held)
      ensures view == if ok then EagerStore(old(view), t, va, c) else old(view)
      ensures ok <==> old(pmm.Available()) > RESERVE && !Mapped(old(tasks), t, va) && HasRoom(old(tasks), t)
      ensures pmm.Available() == old(pmm.Available()) - if ok then 1 else 0
      ensures if ok then NewPage(old(tasks), tasks, t, va, writable, executable) else tasks == old(tasks)
      ensures ok ==> Rights(tasks[t]) == Rights(old(tasks)[t]) + {Right(va, writable, executable)}
    {
      hide Inv, Pmm.Valid;
      if pmm.Available() <= RESERVE {
        return false;
      }
      ghost var k := K();
      var i := FindPage(t, va);
      var j := FreeSlot(t);
      var _, f := pmm.AllocPage();
      if i < |tasks[t].slots| || j == |tasks[t].slots| {
        pmm.FreePage(f);
        assert K() == k;
        return false;
      }
      var s := Slot(true, va, f, writable, writable, executable, false);
      NoneThere(k, t, va);
      RightsPut(tasks[t], j, s, va);
      mem, shr, view := mem[f := c], shr[f := false], EagerStore(view, t, va, c);
      SetSlot(t, j, s);
      MapNewOk(k, t, j, s, c);
      assert K() == MapNew(k, t, j, s, c);
      assert AddsSlot(old(tasks), tasks, t, j, s);
      ok := true;
    }

    /** A page of the page cache is mapped into a shared area; the reference is the slot's. */
    method MapShared(t: nat, va: nat, f: nat, writable: bool, executable: bool) returns (ok: bool)
      requires Valid() && t < |tasks| && va in tasks[t].shared && f < |mem| && shr[f] && pmm.refs[f] > 0
      modifies this, pmm, pmm.refs, pmm.free
      ensures Valid() && |tasks| == |old(tasks)| && held == old(held) && view == old(view)
      ensures ok <==> !Mapped(old(tasks), t, va) && HasRoom(old(tasks), t)
      ensures ok ==> exists j: nat :: AddsSlot(old(tasks), tasks, t, j, Slot(true, va, f, writable, false, executable, false))
      ensures !ok ==> tasks == old(tasks)
      ensures ok ==> Rights(tasks[t]) == Rights(old(tasks)[t]) + {Right(va, writable, executable)}
    {
      hide Inv, Pmm.Valid;
      ghost var k := K();
      var i := FindPage(t, va);
      var j := FreeSlot(t);
      if i < |tasks[t].slots| || j == |tasks[t].slots| {
        return false;
      }
      pmm.RefPage(f);
      var s := Slot(true, va, f, writable, false, executable, false);
      NoneThere(k, t, va);
      RightsPut(tasks[t], j, s, va);
      SetSlot(t, j, s);
      NotShared(k, f);
      MapMoreOk(k, t, j, s);
      assert K() == MapMore(k, t, j, s);
      assert AddsSlot(old(tasks), tasks, t, j, s);
      ok := true;
    }

    /** A store: hardware lets it through when the entry is writable, and asks the fault
        handler otherwise. */
    method StorePage(t: nat, va: nat, c: Page, file: bool) returns (ok: bool)
      requires Valid() && t < |tasks|
      modifies this, pmm, pmm.refs, pmm.free
      ensures Valid() && |tasks| == |old(tasks)| && held == old(held)
      ensures view == if ok && va !in tasks[t].shared then EagerStore(old(view), t, va, c) else old(view)
      ensures ok <==> old(CanStore(K(), t, va, file, pmm.Available()))
      ensures SameRights(old(tasks), tasks) && forall u :: 0 <= u < |tasks| ==> tasks[u].shared == old(tasks)[u].shared
    {
      hide Inv, Pmm.Valid;
      var i := FindPage(t, va);
      if i == |tasks[t].slots| {
        return false;
      }
      OnlySlot(K(), t, i);
      if !tasks[t].slots[i].w {
        ok := WriteFault(t, va, file);
        if !ok {
          return;
        }
        i := FindPage(t, va);
        OnlySlot(K(), t, i);
      }
      ghost var k := K();
      StoreOk(k, t, i, c);
      mem := mem[tasks[t].slots[i].pa := c];
      view := Store(k, t, i, c).view;
      assert K() == Store(k, t, i, c);
      ok := true;
    }

    /** The write part of `task_handle_page_fault`: a copy-on-write page with other holders
        is copied, and the page becomes writable. */
    method WriteFault(t: nat, va: nat, file: bool) returns (ok: bool)
      requires Valid() && t < |tasks|
      modifies this, pmm, pmm.refs, pmm.free
      ensures Valid() && |tasks| == |old(tasks)| && tasks[t].shared == old(tasks)[t].shared && held == old(held) && view == old(view)
      ensures ok ==> exists i :: Used(tasks, t, i) && At(tasks, t, i).va == va && At(tasks, t, i).w
      ensures |tasks[t].slots| == |old(tasks)[t].slots| && forall u, j :: Used(old(tasks), u, j) && (u != t || At(old(tasks), u, j).va != va) ==>
                Used(tasks, u, j) && At(tasks, u, j) == At(old(tasks), u, j)
      ensures ok <==> old(CanFault(K(), t, va, file, pmm.Available()))
      ensures SameRights(old(tasks), tasks) && forall u :: 0 <= u < |tasks| && u != t ==> tasks[u] == old(tasks)[u]
    {
      hide Inv, Pmm.Valid;
      ghost var k := K();
      var i := FindPage(t, va);
      if i == |tasks[t].slots| {
        return false;
      }
      var s := tasks[t].slots[i];
      OnlySlot(k, t, i);
      InvSlot(k, t, i);
      if !s.intent || s.w {
        return false;
      }
      if !s.cow {
        if va !in tasks[t].shared || !file {
          return false;
        }
        SetSlot(t, i, s.(w := true));
        ReprotectOk(k, t, i, s.(w := true));
        assert K() == WithSlot(k, t, i, s.(w := true));
        assert Used(tasks, t, i) && At(tasks, t, i).w;
        RightsKept(k.tasks[t], tasks[t]);
        return true;
      }
      ok := MakeWritable(t, i, s.x);
      assert ok ==> Used(tasks, t, i) && At(tasks, t, i).w;
      RightsKept(k.tasks[t], tasks[t]);
    }

    /** The page gets a frame of its own, if it shares one, and becomes writable. */
    method MakeWritable(t: nat, i: nat, x: bool) returns (ok: bool)
      requires Valid() && Used(tasks, t, i) && Private(tasks, t, i) && At(tasks, t, i).pa < pmm.total
      modifies this, pmm, pmm.refs, pmm.free
      ensures Valid()
      ensures ok <==> !old(Copies(K(), t, i, true)) || old(pmm.Available()) > RESERVE
      ensures ok ==> SetsProt(old(K()), K(), t, i, true, x)
      ensures !ok ==> K() == old(K())
      ensures pmm.Available() == old(pmm.Available()) - if ok && old(Copies(K(), t, i, true)) then 1 else 0
    {
      hide Inv, Pmm.Valid;
      ghost var k := K();
      var s := tasks[t].slots[i];
      InvSlot(k, t, i);
      var refs := pmm.refs[s.pa];
      if refs == 1 {
        var s' := s.(intent := true, w := true, x := x, cow := false);
        SetSlot(t, i, s');
        ReprotectOk(k, t, i, s');
        assert K() == WithSlot(k, t, i, s');
        return true;
      }
      if pmm.Available() <= RESERVE {
        return false;
      }
      var _, f := pmm.AllocPage();
      var s' := s.(pa := f, intent := true, w := true, x := x, cow := false);
      mem, shr := mem[f := mem[s.pa]], shr[f := false];
      pmm.FreePage(s.pa);
      SetSlot(t, i, s');
      CopyToOk(k, t, i, f, s');
      assert K() == CopyTo(k, t, i, f, s');
      assert CopiesTo(k, K(), t, i, f, Reprotected(s, true, true, x));
      ok := true;
    }

    /** `task_page_set_prot`. */
    method SetProt(t: nat, va: nat, write: bool, exec: bool) returns (ok: bool, ghost i: nat)
      requires Valid() && t < |tasks|
      modifies this, pmm, pmm.refs, pmm.free
      ensures Valid()
      ensures ok <==> old(CanReprotect(K(), t, va, write, pmm.Available()))
      ensures ok ==> Used(old(tasks), t, i) && At(old(tasks), t, i).va == va && SetsProt(old(K()), K(), t, i, write, exec)
      ensures ok ==> |tasks| == |old(tasks)| && Rights(tasks[t]) == Without(Rights(old(tasks)[t]), va) + {Right(va, write, exec)}
      ensures pmm.Available() == old(pmm.Available()) - if ok && Copies(old(K()), t, i, write) then 1 else 0
      ensures !ok ==> K() == old(K())
    {
      hide Inv, Pmm.Valid;
      ghost var k := K();
      var j := FindPage(t, va);
      i := j;
      if j == |tasks[t].slots| {
        return false, j;
      }
      var s := tasks[t].slots[j];
      OnlySlot(k, t, j);
      InvSlot(k, t, j);
      OneSlot(k, t, j);
      if write && va !in tasks[t].shared {
        ok := MakeWritable(t, j, exec);
        if ok {
          RightsPut(k.tasks[t], j, tasks[t].slots[j], va);
        }
        return;
      }
      var s' := s.(intent := write, w := false, x := exec, cow := false);
      RightsPut(k.tasks[t], j, s', va);
      SetSlot(t, j, s');
      ReprotectOk(k, t, j, s');
      assert K() == WithSlot(k, t, j, s');
      ok := true;
    }

    /** Emptying one slot. */
    method ClearSlot(t: nat, i: nat)
      requires Valid() && Used(tasks, t, i)
      modifies this, pmm, pmm.refs, pmm.free
      ensures Valid() && held == old(held) && tasks == PutSlot(old(tasks), t, i, EMPTY)
      ensures view == EagerUnmap(old(view), t, old(At(tasks, t, i).va))
    {
      hide Inv, Pmm.Valid;
      ghost var k := K();
      UnmapOk(k, t, i);
      view := EagerUnmap(view, t, tasks[t].slots[i].va);
      pmm.FreePage(tasks[t].slots[i].pa);
      SetSlot(t, i, EMPTY);
      assert K() == Unmap(k, t, i);
    }

    /** `task_unmap_user_page`, its shared-page write-back having gone through. */
    method UnmapPage(t: nat, va: nat) returns (ok: bool)
      requires Valid() && t < |tasks|
      modifies this, pmm, pmm.refs, pmm.free
      ensures Valid() && held == old(held) && view == EagerUnmap(old(view), t, va)
      ensures ok == Mapped(old(tasks), t, va) && !Mapped(tasks, t, va)
      ensures |tasks| == |old(tasks)| && Rights(tasks[t]) == Without(Rights(old(tasks)[t]), va)
      ensures forall u :: 0 <= u < |tasks| && u != t ==> tasks[u] == old(tasks)[u]
    {
      hide Inv, Pmm.Valid;
      var i := FindPage(t, va);
      if i == |tasks[t].slots| {
        assert view[t] - {va} == view[t];
        NoneThere(K(), t, va);
        return false;
      }
      OnlySlot(K(), t, i);
      OneSlot(K(), t, i);
      RightsPut(tasks[t], i, EMPTY, va);
      ClearSlot(t, i);
      assert forall j :: Used(tasks, t, j) ==> j != i && tasks[t].slots[j] == old(tasks)[t].slots[j] && Used(old(tasks), t, j);
      ok := true;
    }

    /** `task_unmap_user`: exit, exec, and a fork that did not go through. */
    method UnmapAll(t: nat)
      requires Valid() && t < |tasks|
      modifies this, pmm, pmm.refs, pmm.free
      ensures Valid() && held == old(held) && view == old(view)[t := map[]] && |tasks| == |old(tasks)|
      ensures |tasks[t].slots| == |old(tasks)[t].slots| && forall i :: 0 <= i < |tasks[t].slots| ==> !tasks[t].slots[i].used
      ensures Rights(tasks[t]) == {}
      ensures forall u :: 0 <= u < |tasks| && u != t ==> tasks[u] == old(tasks)[u]
    {
      hide Inv, Pmm.Valid;
      var i := 0;
      while i < |tasks[t].slots|
        invariant Valid() && held == old(held) && |tasks| == |old(tasks)| && |view| == |old(view)| && i <= |tasks[t].slots| == |old(tasks)[t].slots|
        invariant forall j :: 0 <= j < i ==> !tasks[t].slots[j].used
        invariant forall u :: 0 <= u < |tasks| && u != t ==> tasks[u] == old(tasks)[u] && view[u] == old(view)[u]
      {
        if tasks[t].slots[i].used {
          ClearSlot(t, i);
        }
        i := i + 1;
      }
      NoPages(K(), t);
    }

    /** A shared area comes or goes where the task has no page: mmap, and munmap once it has
        unmapped the pages. */
    method SetShared(t: nat, shared: set<nat>)
      requires Valid() && t < |tasks|
      requires forall i :: Used(tasks, t, i) ==> (At(tasks, t, i).va in shared <==> At(tasks, t, i).va in tasks[t].shared)
      modifies `tasks
      ensures Valid() && tasks == old(tasks)[t := old(tasks)[t].(shared := shared)]
    {
      hide Inv, Pmm.Valid;
      ghost var k := K();
      tasks := tasks[t := tasks[t].(shared := shared)];
      ReareaOk(k, t, shared);
      assert K() == k.(tasks := k.tasks[t := k.tasks[t].(shared := shared)]);
    }

    /** `task_fork`: the child gets every page of the parent; private pages that may be
        written become copy-on-write in both. It fails on a clean writable shared page. */
    method Fork(p: nat, c: nat) returns (ok: bool)
      requires Valid() && p < |tasks| && c < |tasks| && p != c && |tasks[c].slots| == |tasks[p].slots|
      requires forall j :: 0 <= j < |tasks[c].slots| ==> !tasks[c].slots[j].used
      modifies this, pmm, pmm.refs, pmm.free
      ensures Valid() && held == old(held) && |tasks| == |old(tasks)|
      ensures view == if ok then EagerFork(old(view), p, c) else old(view)
      ensures ok <==> forall i :: Used(old(tasks), p, i) ==> Forkable(At(old(tasks), p, i))
      ensures ok ==> pmm.Available() == old(pmm.Available()) && tasks[p].shared == tasks[c].shared == old(tasks)[p].shared
      ensures ok ==> forall i :: Used(tasks, p, i) ==> SameFrame(tasks, p, i, c)
      ensures ok ==> |tasks[p].slots| == |old(tasks)[p].slots| && forall i :: 0 <= i < |tasks[p].slots| ==> tasks[p].slots[i] == AfterFork(old(tasks), p, i)
      ensures Rights(tasks[p]) == Rights(old(tasks)[p]) && Rights(tasks[c]) == if ok then Rights(tasks[p]) else {}
      ensures forall u :: 0 <= u < |tasks| && u != p && u != c ==> tasks[u] == old(tasks)[u]
    {
      hide Inv, Pmm.Valid, Forked, SameFrame;
      NoPages(K(), c);
      SetShared(c, tasks[p].shared);
      var i := 0;
      ForkedNone(K(), p, c);
      while i < |tasks[p].slots|
        invariant Valid() && held == old(held) && |tasks| == |old(tasks)| && i <= |tasks[p].slots| && pmm.Available() == old(pmm.Available())
        invariant ForkLoop(old(tasks), tasks, p, c, i) && Forked(K(), old(view), p, c, i)
      {
        var s := tasks[p].slots[i];
        if s.used {
          assert Used(old(tasks), p, i);
          if !Forkable(s) {
            ForkedUndone(K(), old(view), p, c, i);
            ForkRights(old(tasks), tasks, p, c, i);
            UnmapAll(c);
            return false;
          }
          ForkSlot(p, i, c, old(view));
        } else {
          ForkedSkip(K(), old(view), p, c, i);
        }
        i := i + 1;
      }
      ForkedAll(K(), old(view), p, c);
      ForkRights(old(tasks), tasks, p, c, i);
      ok := true;
    }

    method ForkSlot(p: nat, i: nat, c: nat, ghost v0: View)
      requires Valid() && Used(tasks, p, i) && c < |tasks| && p != c && |tasks[c].slots| == |tasks[p].slots| && tasks[c].shared == tasks[p].shared
      requires Forked(K(), v0, p, c, i)
      modifies this, pmm, pmm.refs, pmm.free
      ensures Valid() && held == old(held) && |tasks| == |old(tasks)| && |tasks[c].slots| == |tasks[p].slots| == |old(tasks)[p].slots|
      ensures pmm.Available() == old(pmm.Available())
      ensures tasks[c].shared == tasks[p].shared == old(tasks)[p].shared && Forked(K(), v0, p, c, i + 1)
      ensures forall x :: 0 <= x < |tasks[p].slots| && x != i ==> tasks[p].slots[x] == old(tasks)[p].slots[x]
      ensures tasks[p].slots[i] == AfterFork(old(tasks), p, i)
      ensures forall u :: 0 <= u < |tasks| && u != p && u != c ==> tasks[u] == old(tasks)[u]
    {
      hide Inv, Pmm.Valid, Forked, NoneOther, NewVa;
      ghost var k := K();
      InvSlot(k, p, i);
      var s := tasks[p].slots[i];
      var j := FreeSlot(c);
      ForkedNew(k, v0, p, c, i, j);
      ForkPageOk(k, p, i, c, j);
      pmm.RefPage(s.pa);
      if s.va in tasks[p].shared {
        SetSlot(c, j, s);
      } else {
        SetSlot(p, i, Downgraded(s));
        SetSlot(c, j, ForChild(s));
      }
      view := ForkPage(k, p, i, c, j).view;
      assert K() == ForkPage(k, p, i, c, j);
      ForkedMore(k, v0, p, c, i, j);
    }

    // ---- holders other than slots ----

    /** A page for the page cache, a page table or a kernel stack. */
    method HolderAlloc(shared: bool, c: Page) returns (ok: bool, f: nat)
      requires Valid()
      modifies this, pmm, pmm.refs
      ensures Valid() && tasks == old(tasks) && view == old(view) && ok == (old(pmm.Available()) > 0) && |mem| == |old(mem)|
      ensures pmm.Available() == old(pmm.Available()) - if ok then 1 else 0
      ensures ok ==> f < |mem| && held == old(held)[f := 1] && old(held)[f] == 0 && shr[f] == shared && mem == old(mem)[f := c]
    {
      hide Inv, Pmm.Valid;
      ghost var k := K();
      ok, f := pmm.AllocPage();
      if !ok {
        assert K() == k;
        return;
      }
      FreeFrame(k, f);
      HoldOk(k, f, 1, shared, c);
      mem, held, shr := mem[f := c], held[f := 1], shr[f := shared];
      assert K() == Held(k, f, 1, shared, c);
    }

    /** `pagecache_get_or_create` hands out a cached frame with a reference of its own. */
    method HolderRef(f: nat)
      requires Valid() && f < |mem| && shr[f] && pmm.refs[f] > 0
      modifies this`held, pmm`owned, pmm.refs
      ensures Valid() && held == old(held)[f := old(held)[f] + 1]
    {
      hide Inv, Pmm.Valid;
      ghost var k := K();
      HoldOk(k, f, 1, true, mem[f]);
      pmm.RefPage(f);
      held := held[f := held[f] + 1];
      assert K() == Held(k, f, 1, true, mem[f]);
    }

    method HolderFree(f: nat)
      requires Valid() && f < |mem| && held[f] > 0
      modifies this`held, pmm, pmm.refs, pmm.free
      ensures Valid() && held == old(held)[f := old(held)[f] - 1]
    {
      hide Inv, Pmm.Valid;
      ghost var k := K();
      HoldOk(k, f, -1, shr[f], mem[f]);
      pmm.FreePage(f);
      held := held[f := held[f] - 1];
      assert K() == Held(k, f, -1, shr[f], mem[f]);
    }

    /** What the kernel writes to pages it holds never shows in a private page. */
    method HolderWrite(f: nat, c: Page)
      requires Valid() && f < |mem| && held[f] > 0
      modifies this`mem
      ensures Valid() && mem == old(mem)[f := c]
    {
      hide Inv, Pmm.Valid;
      ghost var k := K();
      HoldOk(k, f, 0, shr[f], c);
      mem := mem[f := c];
      assert K() == Held(k, f, 0, shr[f], c);
    }
  }

  // ---- a shared page that was only read ----

  /** In every state: once a page of a writable shared file mapping has been read, fork fails,
      because the page is writable by intent and neither writable nor copy-on-write by its entry. */
  method ReadThenFork(machine: Machine, p: nat, c: nat, va: nat, f: nat) returns (mapped: bool, forked: bool)
    requires machine.Valid() && p < |machine.tasks| && c < |machine.tasks| && p != c && |machine.tasks[c].slots| == |machine.tasks[p].slots|
    requires forall j :: 0 <= j < |machine.tasks[c].slots| ==> !machine.tasks[c].slots[j].used
    requires va in machine.tasks[p].shared && f < |machine.mem| && machine.shr[f] && machine.pmm.refs[f] > 0
    modifies machine, machine.pmm, machine.pmm.refs, machine.pmm.free
    ensures machine.Valid() && mapped == (!Mapped(old(machine.tasks), p, va) && HasRoom(old(machine.tasks), p)) && (mapped ==> !forked)
  {
    hide Inv, Pmm.Valid;
    mapped := machine.MapShared(p, va, f, true, false);
    ghost var ts := machine.tasks;
    if mapped {
      ghost var j: nat :| AddsSlot(old(machine.tasks), ts, p, j, Slot(true, va, f, true, false, false, false));
      assert Used(ts, p, j) && !Forkable(At(ts, p, j));
    }
    forked := machine.Fork(p, c);
  }

  /** Such a state is reached from an empty machine. */
  method ForkRefused() returns (machine: Machine, forked: bool)
    ensures machine.Valid() && !forked
  {
    hide Inv, Pmm.Valid;
    machine := new Machine(1, 0, 1, 2, 1);
    var va := 4096;
    machine.SetShared(0, {va});
    var _, f := machine.HolderAlloc(true, []);
    HeldFrame(machine.K(), f);
    assert !machine.tasks[0].slots[0].used;
    var mapped;
    mapped, forked := ReadThenFork(machine, 0, 1, va, f);
  }

  lemma HeldFrame(k: Kern, f: nat)
    requires Inv(k) && f < |k.held| && k.held[f] > 0
    ensures k.refs[f] > 0
  {
  }
}
