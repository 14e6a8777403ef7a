/** The areas and the pages of a task together (kernel/task.c): stores, and `task_mprotect`.
    There the areas change first, then the pages of the range one by one, and a page that needs
    a copy may find no memory for it. The call then fails with the areas and the pages before
    that one changed. */
module Mprotect {
  import V = Vmas
  import T = VmaTable
  import opened PageAllocator
  import opened CopyOnWrite
  import opened AddressSpaces

  /** The task has a private page at this address that shares its frame. */
  ghost predicate Shares(k: Kern, t: nat, va: nat) {
    exists i :: Used(k.tasks, t, i) && At(k.tasks, t, i).va == va && Copies(k, t, i, true)
  }

  /** How many such pages the range has. */
  ghost function Cost(k: Kern, t: nat, lo: nat, hi: nat): nat
    decreases hi
  {
    if hi < lo + V.PAGE then 0 else Cost(k, t, lo, hi - V.PAGE) + if Shares(k, t, hi - V.PAGE) then 1 else 0
  }

  /** There is memory for `n` copies. */
  predicate Affords(n: nat, available: nat) { n == 0 || n + RESERVE <= available }

  predicate Between(lo: nat, hi: nat, a: nat) { lo <= a < hi && V.Aligned(a) }

  /** The new slot of a page of the range. */
  ghost predicate SlotSet(k0: Kern, t: nat, j: nat, s: Slot, write: bool, exec: bool)
    requires t < |k0.tasks| && j < |k0.tasks[t].slots|
  {
    var s0 := At(k0.tasks, t, j);
    s == Reprotected(s0, Private(k0.tasks, t, j), write, exec).(pa := s.pa) && (s.pa == s0.pa <==> !Copies(k0, t, j, write))
  }

  /** Nothing but the slots of task `t` and the frames of new copies differs. */
  ghost predicate SameRest(k0: Kern, k: Kern, t: nat) {
    && t < |k0.tasks| == |k.tasks| && |k.tasks[t].slots| == |k0.tasks[t].slots| && k.tasks[t].shared == k0.tasks[t].shared
    && k.view == k0.view && k.held == k0.held && |k.refs| == |k0.refs| && |k.mem| == |k0.mem|
    && (forall u :: 0 <= u < |k.tasks| && u != t ==> k.tasks[u] == k0.tasks[u])
    && (forall f :: 0 <= f < |k.refs| && f < |k.mem| && k0.refs[f] > 0 ==> k.refs[f] > 0 && k.mem[f] == k0.mem[f])
  }

  /** A page from `lo` up to `hi` got the protection, any other is as it was. */
  ghost predicate SlotDone(k0: Kern, k: Kern, t: nat, lo: nat, hi: nat, write: bool, exec: bool, j: nat)
    requires t < |k0.tasks| && t < |k.tasks| && j < |k0.tasks[t].slots| && j < |k.tasks[t].slots|
  {
    var s0, s := At(k0.tasks, t, j), At(k.tasks, t, j);
    if s0.used && Between(lo, hi, s0.va) then SlotSet(k0, t, j, s, write, exec)
    else s == s0 && (s.used ==> Copies(k, t, j, true) == Copies(k0, t, j, true))
  }

  /** From `k0` to `k` exactly the pages from `lo` up to `hi` got the protection. */
  ghost predicate Protected(k0: Kern, k: Kern, t: nat, lo: nat, hi: nat, write: bool, exec: bool) {
    SameRest(k0, k, t) && forall j :: 0 <= j < |k.tasks[t].slots| ==> SlotDone(k0, k, t, lo, hi, write, exec, j)
  }

  /** What a right becomes when the range gets the protection. */
  function Changed(r: Right, lo: nat, hi: nat, write: bool, exec: bool): Right {
    if Between(lo, hi, r.va) then Right(r.va, write, exec) else r
  }

  /** The task's rights: those in the range are as asked for, the others as they were. */
  lemma ProtectedRights(k0: Kern, k: Kern, t: nat, lo: nat, hi: nat, write: bool, exec: bool)
    requires Protected(k0, k, t, lo, hi, write, exec)
    ensures t < |k0.tasks| == |k.tasks| && Rights(k.tasks[t]) == set r | r in Rights(k0.tasks[t]) :: Changed(r, lo, hi, write, exec)
  {
    hide Between, Copies;
    var rs := set r | r in Rights(k0.tasks[t]) :: Changed(r, lo, hi, write, exec);
    forall r | r in Rights(k.tasks[t]) ensures r in rs {
      var j :| 0 <= j < |k.tasks[t].slots| && k.tasks[t].slots[j].used && RightOf(k.tasks[t].slots[j]) == r;
      assert SlotDone(k0, k, t, lo, hi, write, exec, j);
      RightAt(k0.tasks[t], j);
      assert r == Changed(RightOf(k0.tasks[t].slots[j]), lo, hi, write, exec);
    }
    forall r | r in rs ensures r in Rights(k.tasks[t]) {
      var r0 :| r0 in Rights(k0.tasks[t]) && r == Changed(r0, lo, hi, write, exec);
      var j :| 0 <= j < |k0.tasks[t].slots| && k0.tasks[t].slots[j].used && RightOf(k0.tasks[t].slots[j]) == r0;
      assert SlotDone(k0, k, t, lo, hi, write, exec, j);
      RightAt(k.tasks[t], j);
    }
  }

  lemma NextPage(lo: nat, va: nat, a: nat)
    requires V.Aligned(lo) && V.Aligned(va) && lo <= va
    ensures Between(lo, va + V.PAGE, a) <==> Between(lo, va, a) || a == va
  {
  }

  /** One page more, where the task has none. */
  lemma NoPage(k0: Kern, k: Kern, t: nat, lo: nat, va: nat, write: bool, exec: bool)
    requires Protected(k0, k, t, lo, va, write, exec) && NewVa(k, t, va) && V.Aligned(lo) && V.Aligned(va) && lo <= va
    ensures Protected(k0, k, t, lo, va + V.PAGE, write, exec) && !Shares(k0, t, va)
  {
    hide Between, Copies;
    var hi := va + V.PAGE;
    forall j | 0 <= j < |k.tasks[t].slots|
      ensures SlotDone(k0, k, t, lo, hi, write, exec, j) && !(At(k0.tasks, t, j).used && At(k0.tasks, t, j).va == va)
    {
      assert SlotDone(k0, k, t, lo, va, write, exec, j);
      NextPage(lo, va, At(k0.tasks, t, j).va);
      OwnEnd(lo, va);
      assert At(k.tasks, t, j).used ==> Used(k.tasks, t, j);
    }
  }

  lemma OwnEnd(lo: nat, va: nat)
    ensures !Between(lo, va, va)
  {
  }

  /** Setting one page's protection changes no other page, nor whether it shares its frame. */
  lemma OthersKept(k: Kern, k': Kern, t: nat, i: nat, write: bool, exec: bool, j: nat)
    requires Inv(k) && SetsProt(k, k', t, i, write, exec) && j < |k.tasks[t].slots| && j != i
    ensures t < |k'.tasks| && j < |k'.tasks[t].slots| && At(k'.tasks, t, j) == At(k.tasks, t, j)
    ensures Used(k.tasks, t, j) ==> Copies(k', t, j, true) == Copies(k, t, j, true)
  {
    if Used(k.tasks, t, j) && Copies(k, t, i, write) && Private(k.tasks, t, j) {
      InvSlot(k, t, j);
      assert At(k.tasks, t, j).pa != At(k.tasks, t, i).pa;
    }
  }

  lemma RestKept(k0: Kern, k: Kern, k': Kern, t: nat, i: nat, write: bool, exec: bool)
    requires SameRest(k0, k, t) && SetsProt(k, k', t, i, write, exec) && |k.refs| == |k.mem|
    ensures SameRest(k0, k', t)
  {
  }

  lemma OwnSlot(k: Kern, k': Kern, t: nat, i: nat, write: bool, exec: bool)
    requires SetsProt(k, k', t, i, write, exec)
    ensures t < |k'.tasks| && i < |k'.tasks[t].slots| && SlotSet(k, t, i, At(k'.tasks, t, i), write, exec)
  {
  }

  /** One page more, where the task has one. */
  lemma OnePage(k0: Kern, k: Kern, k': Kern, t: nat, i: nat, lo: nat, va: nat, write: bool, exec: bool)
    requires Inv(k) && Protected(k0, k, t, lo, va, write, exec) && SetsProt(k, k', t, i, write, exec) && At(k.tasks, t, i).va == va
    requires V.Aligned(lo) && V.Aligned(va) && lo <= va
    ensures Protected(k0, k', t, lo, va + V.PAGE, write, exec) && (Shares(k0, t, va) <==> Copies(k, t, i, true))
  {
    hide Inv, SlotDone, SetsProt;
    RestKept(k0, k, k', t, i, write, exec);
    var hi := va + V.PAGE;
    forall j | 0 <= j < |k'.tasks[t].slots| ensures SlotDone(k0, k', t, lo, hi, write, exec, j) {
      assert SlotDone(k0, k, t, lo, va, write, exec, j);
      OneSlot(k0, k, k', t, i, lo, va, write, exec, j);
    }
    SharesHere(k0, k, t, i, lo, va, write, exec);
  }

  lemma OneSlot(k0: Kern, k: Kern, k': Kern, t: nat, i: nat, lo: nat, va: nat, write: bool, exec: bool, j: nat)
    requires Inv(k) && SameRest(k0, k, t) && SetsProt(k, k', t, i, write, exec) && At(k.tasks, t, i).va == va
    requires V.Aligned(lo) && V.Aligned(va) && lo <= va && j < |k.tasks[t].slots| && SlotDone(k0, k, t, lo, va, write, exec, j)
    ensures t < |k'.tasks| && j < |k'.tasks[t].slots| && SlotDone(k0, k', t, lo, va + V.PAGE, write, exec, j)
  {
    hide Inv, SetsProt, Between, V.Aligned, SameRest;
    SharedKept(k0, k, t);
    NextPage(lo, va, At(k0.tasks, t, j).va);
    OwnEnd(lo, va);
    if j == i {
      OwnSlot(k, k', t, i, write, exec);
      assert Used(k.tasks, t, i);
    } else {
      OthersKept(k, k', t, i, write, exec, j);
      OnlySlot(k, t, i);
      assert At(k.tasks, t, j).used ==> Used(k.tasks, t, j);
    }
  }

  lemma SharedKept(k0: Kern, k: Kern, t: nat)
    requires SameRest(k0, k, t)
    ensures t < |k.tasks| == |k0.tasks| && |k.tasks[t].slots| == |k0.tasks[t].slots| && k.tasks[t].shared == k0.tasks[t].shared
  {
  }

  lemma SharesHere(k0: Kern, k: Kern, t: nat, i: nat, lo: nat, va: nat, write: bool, exec: bool)
    requires Inv(k) && Protected(k0, k, t, lo, va, write, exec) && Used(k.tasks, t, i) && At(k.tasks, t, i).va == va
    ensures Shares(k0, t, va) <==> Copies(k, t, i, true)
  {
    hide Inv, Copies;
    OnlySlot(k, t, i);
    OwnEnd(lo, va);
    assert SlotDone(k0, k, t, lo, va, write, exec, i);
    assert Used(k0.tasks, t, i);
    forall j | Used(k0.tasks, t, j) && At(k0.tasks, t, j).va == va ensures j == i {
      assert SlotDone(k0, k, t, lo, va, write, exec, j);
      assert Used(k.tasks, t, j);
    }
  }

  // ---- the cost of a range ----

  lemma {:induction false} CostGrows(k: Kern, t: nat, lo: nat, mid: nat, hi: nat)
    requires V.Aligned(lo) && V.Aligned(mid) && V.Aligned(hi) && lo <= mid <= hi
    ensures Cost(k, t, lo, mid) <= Cost(k, t, lo, hi)
    ensures mid < hi && Shares(k, t, mid) ==> Cost(k, t, lo, mid) < Cost(k, t, lo, hi)
    decreases hi
  {
    hide Shares;
    if mid < hi {
      CostGrows(k, t, lo, mid, hi - V.PAGE);
    }
  }

  lemma CostNone(k: Kern, t: nat, lo: nat)
    ensures Cost(k, t, lo, lo) == 0
  {
  }

  lemma CostNext(k: Kern, t: nat, lo: nat, va: nat)
    requires lo <= va
    ensures Cost(k, t, lo, va + V.PAGE) == Cost(k, t, lo, va) + if Shares(k, t, va) then 1 else 0
  {
    hide Shares;
  }

  lemma NothingDone(k: Kern, t: nat, lo: nat, write: bool, exec: bool)
    requires t < |k.tasks|
    ensures Protected(k, k, t, lo, lo, write, exec)
  {
  }

  // ---- areas and pages ----

  /** The area at the address is MAP_SHARED. */
  ghost predicate SharedArea(s: seq<V.Vma>, va: nat) {
    V.View(s, va).Some? && V.View(s, va).value.flags % 2 == 1
  }

  /** A page of task `t` is a shared one exactly when its area is. */
  ghost predicate Linked(s: seq<V.Vma>, ts: seq<Task>, t: nat) {
    forall i :: Used(ts, t, i) ==> (At(ts, t, i).va in ts[t].shared <==> SharedArea(s, At(ts, t, i).va))
  }

  lemma StaysLinked(s: seq<V.Vma>, s': seq<V.Vma>, k0: Kern, k: Kern, t: nat, lo: nat, hi: nat, write: bool, exec: bool)
    requires Linked(s, k0.tasks, t) && Protected(k0, k, t, lo, hi, write, exec) && forall a: nat :: SharedArea(s', a) <==> SharedArea(s, a)
    ensures Linked(s', k.tasks, t)
  {
    hide SharedArea;
    forall i | Used(k.tasks, t, i) ensures At(k.tasks, t, i).va in k.tasks[t].shared <==> SharedArea(s', At(k.tasks, t, i).va) {
      assert SlotDone(k0, k, t, lo, hi, write, exec, i);
      assert Used(k0.tasks, t, i);
    }
  }

  lemma ProtKeepsShared(s: seq<V.Vma>, s': seq<V.Vma>, lo: nat, hi: nat, prot: nat, a: nat)
    requires V.View(s', a) == if lo <= a < hi then V.WithProt(V.View(s, a), prot) else V.View(s, a)
    ensures SharedArea(s', a) <==> SharedArea(s, a)
  {
    hide V.View;
  }

  // ---- stores ----

  /** The area at the address is of a file and may be written. */
  ghost predicate WritableFile(s: seq<V.Vma>, va: nat) {
    V.View(s, va).Some? && T.Writes(V.View(s, va).value.prot) && V.View(s, va).value.file != 0
  }

  /** A store by the task, with what the fault handler asks of the area. */
  method StoreByTask(table: T.Table, machine: Machine, t: nat, va: nat, c: Page) returns (ok: bool)
    requires table.Valid() && machine.Valid() && t < |machine.tasks|
    modifies machine, machine.pmm, machine.pmm.refs, machine.pmm.free
    ensures machine.Valid() && |machine.tasks| == |old(machine.tasks)|
    ensures ok <==> CanStore(old(machine.K()), t, va, WritableFile(table.vmas[..], va), old(machine.pmm.Available()))
    ensures machine.view == if ok && va !in machine.tasks[t].shared then EagerStore(old(machine.view), t, va, c) else old(machine.view)
  {
    hide Inv, Pmm.Valid, V.Ok, V.View, CanStore;
    var j := table.Find(va);
    var file := j < table.vmas.Length && T.Writes(table.vmas[j].prot) && table.vmas[j].file != 0;
    ok := machine.StorePage(t, va, c, file);
  }

  // ---- the call ----

  /** The pages' part: up to the first page that needs a copy there is no memory for. */
  method ProtectPages(machine: Machine, t: nat, lo: nat, hi: nat, write: bool, exec: bool) returns (ok: bool, ghost stop: nat)
    requires machine.Valid() && t < |machine.tasks| && V.Aligned(lo) && V.Aligned(hi) && lo <= hi
    modifies machine, machine.pmm, machine.pmm.refs, machine.pmm.free
    ensures machine.Valid() && lo <= stop <= hi && V.Aligned(stop) && (ok <==> stop == hi)
    ensures Protected(old(machine.K()), machine.K(), t, lo, stop, write, exec)
    ensures ok <==> !write || Affords(Cost(old(machine.K()), t, lo, hi), old(machine.pmm.Available()))
    ensures machine.pmm.Available() == old(machine.pmm.Available()) - if write then Cost(old(machine.K()), t, lo, stop) else 0
    ensures !ok ==> Shares(old(machine.K()), t, stop) && machine.pmm.Available() <= RESERVE
  {
    hide Inv, Pmm.Valid, Protected, Cost, Shares, V.Aligned, Copies, SetsProt;
    ghost var k0, av := machine.K(), machine.pmm.Available();
    NothingDone(k0, t, lo, write, exec);
    CostNone(k0, t, lo);
    var va := lo;
    while va < hi
      invariant machine.Valid() && t < |machine.tasks| && lo <= va <= hi && V.Aligned(va) && Protected(k0, machine.K(), t, lo, va, write, exec)
      invariant machine.pmm.Available() == av - if write then Cost(k0, t, lo, va) else 0
      invariant write ==> Affords(Cost(k0, t, lo, va), av)
    {
      ghost var k := machine.K();
      CostNext(k0, t, lo, va);
      var j := machine.FindPage(t, va);
      if j < |machine.tasks[t].slots| {
        var done, i := machine.SetProt(t, va, write, exec);
        SharesHere(k0, k, t, j, lo, va, write, exec);
        OnlySlot(k, t, j);
        CopiesOnly(k, t, j, write);
        if !done {
          assert Copies(k, t, j, write) && machine.pmm.Available() <= RESERVE;
          CostGrows(k0, t, lo, va, hi);
          return false, va;
        }
        OnePage(k0, k, machine.K(), t, i, lo, va, write, exec);
        StillThere(k0, machine.K(), t, lo, va + V.PAGE, write, exec);
      } else {
        NoPage(k0, k, t, lo, va, write, exec);
      }
      PageEnds(lo, va, hi);
      va := va + V.PAGE;
    }
    return true, hi;
  }

  lemma CopiesOnly(k: Kern, t: nat, i: nat, write: bool)
    requires t < |k.tasks| && i < |k.tasks[t].slots|
    ensures Copies(k, t, i, write) <==> write && Copies(k, t, i, true)
  {
  }

  lemma StillThere(k0: Kern, k: Kern, t: nat, lo: nat, hi: nat, write: bool, exec: bool)
    requires Protected(k0, k, t, lo, hi, write, exec)
    ensures t < |k.tasks|
  {
  }

  lemma PageEnds(lo: nat, va: nat, hi: nat)
    requires V.Aligned(va) && V.Aligned(hi) && va < hi
    ensures va + V.PAGE <= hi && V.Aligned(va + V.PAGE)
  {
  }

  /** `task_mprotect`. It succeeds exactly when the areas allow it and the pages of the range
      that share a frame can all be copied. If only the latter fails, the areas have changed, and
      so have the pages below `stop`, which is the first page that could not be copied. */
  method Mprotect(table: T.Table, machine: Machine, t: nat, addr: nat, len: nat, prot: nat, locked: set<nat>)
    returns (ok: bool, ghost end: nat, ghost stop: nat)
    requires table.Valid() && machine.Valid() && t < |machine.tasks| && addr < V.TOP && len < V.TOP
    requires Linked(table.vmas[..], machine.tasks, t)
    modifies table.vmas, machine, machine.pmm, machine.pmm.refs, machine.pmm.free
    ensures table.Valid() && machine.Valid() && |machine.tasks| == |old(machine.tasks)| && Linked(table.vmas[..], machine.tasks, t)
    ensures len > 0 && V.Aligned(addr) && addr + len + V.PAGE <= V.TOP ==> V.Range(addr, end) && end - V.PAGE < addr + len <= end
    ensures ok <==>
      && T.Allows(old(table.vmas[..]), addr, len, end, prot, locked)
      && (T.Writes(prot) ==> Affords(Cost(old(machine.K()), t, addr, end), old(machine.pmm.Available())))
    ensures !T.Allows(old(table.vmas[..]), addr, len, end, prot, locked) ==>
      table.vmas[..] == old(table.vmas[..]) && machine.K() == old(machine.K()) && machine.pmm.Available() == old(machine.pmm.Available())
    ensures T.Allows(old(table.vmas[..]), addr, len, end, prot, locked) ==>
      && (forall a: nat :: table.Seen(a) == if addr <= a < end then V.WithProt(old(table.Seen(a)), prot) else old(table.Seen(a)))
      && Protected(old(machine.K()), machine.K(), t, addr, stop, T.Writes(prot), T.Executes(prot))
      && Rights(machine.tasks[t]) == (set r | r in Rights(old(machine.tasks)[t]) :: Changed(r, addr, stop, T.Writes(prot), T.Executes(prot)))
      && addr <= stop <= end && V.Aligned(stop) && (ok <==> stop == end)
      && (!ok ==> Shares(old(machine.K()), t, stop) && machine.pmm.Available() <= RESERVE)
  {
    hide V.Ok, V.View, Inv, Pmm.Valid, Protected, Cost, Shares, T.Mapped, T.Refused, V.InsideCount, V.FreeCount, V.Aligned, SharedArea, Linked;
    ghost var s0, k0 := table.vmas[..], machine.K();
    var hi;
    ok, hi := table.ProtectAreas(addr, len, prot, locked);
    end, stop := hi, hi;
    if !ok {
      return;
    }
    ok, stop := ProtectPages(machine, t, addr, hi, T.Writes(prot), T.Executes(prot));
    ProtectedRights(k0, machine.K(), t, addr, stop, T.Writes(prot), T.Executes(prot));
    forall a: nat ensures SharedArea(table.vmas[..], a) <==> SharedArea(s0, a) {
      assert table.Seen(a) == V.View(table.vmas[..], a);
      ProtKeepsShared(s0, table.vmas[..], addr, hi, prot, a);
    }
    StaysLinked(s0, table.vmas[..], k0, machine.K(), t, addr, stop, T.Writes(prot), T.Executes(prot));
  }

  // ---- a late failure ----

  /** A page that fork has given to a child shares its frame. */
  lemma ForkedShares(k: Kern, t: nat, i: nat, c: nat)
    requires Inv(k) && Used(k.tasks, t, i) && Private(k.tasks, t, i) && c != t && SameFrame(k.tasks, t, i, c)
    ensures Shares(k, t, At(k.tasks, t, i).va)
  {
    InvSlot(k, t, i);
    var j :| Used(k.tasks, c, j) && Twins(At(k.tasks, c, j), At(k.tasks, t, i));
    CountedTwice(k.tasks, t, i, c, j);
    assert Copies(k, t, i, true);
  }

  /** Private pages never keep fork from going through. */
  lemma PrivateForks(k: Kern, p: nat)
    requires Inv(k) && p < |k.tasks| && k.tasks[p].shared == {}
    ensures forall i :: Used(k.tasks, p, i) ==> Forkable(At(k.tasks, p, i))
  {
    forall i | Used(k.tasks, p, i) ensures Forkable(At(k.tasks, p, i)) {
      InvSlot(k, p, i);
    }
  }

  /** A private area that may only be read, with one page, over a range that is split nowhere. */
  lemma OneAreaAllows(s: seq<V.Vma>, lo: nat, prot: nat)
    requires V.Aligned(lo) && lo + 2 * V.PAGE <= V.TOP && prot < 8 && 0 < |s| && V.Ok(s)
    requires s[0] == V.Vma(true, lo, lo + V.PAGE, 0, 0, 1, 34) && forall i :: 0 < i < |s| ==> s[i] == V.FREE
    ensures T.Allows(s, lo, V.PAGE, lo + V.PAGE, prot, {})
    ensures forall a: nat :: !SharedArea(s, a)
  {
    V.InsideZero(s, lo);
    V.InsideZero(s, lo + V.PAGE);
    forall a: nat | lo <= a < lo + V.PAGE ensures V.View(s, a).Some? {
      V.ViewIs(s, 0, a);
    }
    forall a: nat ensures !SharedArea(s, a) {
      if V.Holds(s[0], a) {
        V.ViewIs(s, 0, a);
      } else {
        V.ViewNone(s, a);
      }
    }
  }

  /** A table with that area. */
  method ReadOnlyArea(lo: nat) returns (table: T.Table)
    requires V.Aligned(lo) && lo + 2 * V.PAGE <= V.TOP
    ensures table.Valid() && fresh(table) && fresh(table.vmas) && T.Allows(table.vmas[..], lo, V.PAGE, lo + V.PAGE, 3, {})
    ensures table.Seen(lo) == V.Some(V.Info(0, 0, 1, 34)) && forall a: nat :: !SharedArea(table.vmas[..], a)
  {
    hide V.View, T.Allows, SharedArea, V.FreeCount;
    table := new T.Table(64);
    assert !table.vmas[..][0].used;
    V.FreeSome(table.vmas[..]);
    var ok, k := table.Place(lo, lo + V.PAGE, V.Info(0, 0, 1, 34));
    OneAreaAllows(table.vmas[..], lo, 3);
  }

  /** A machine with 64 pages left, in which task 0 has one page, that it may not write and that
      task 1 shares. */
  method ReadOnlyPage(va: nat) returns (machine: Machine, ghost i: nat)
    ensures machine.Valid() && fresh(machine) && fresh(machine.pmm) && fresh(machine.pmm.refs) && fresh(machine.pmm.free)
    ensures machine.pmm.Available() == RESERVE && |machine.tasks| == 2 && machine.tasks[0].shared == {}
    ensures Used(machine.tasks, 0, i) && At(machine.tasks, 0, i).va == va && !At(machine.tasks, 0, i).intent && Shares(machine.K(), 0, va)
  {
    hide Inv, Pmm.Valid, Copies;
    machine := new Machine(67, 0, 67, 2, 4);
    assert !machine.tasks[0].slots[0].used;
    ghost var ts := machine.tasks;
    var ok := machine.MapPrivate(0, va, [], false, false);
    ghost var j: nat, f: nat :| AddsSlot(ts, machine.tasks, 0, j, Slot(true, va, f, false, false, false, false));
    i := j;
    PrivateForks(machine.K(), 0);
    ok := machine.Fork(0, 1);
    assert Used(machine.tasks, 0, i);
    var g;
    ok, g := machine.HolderAlloc(false, []);
    ok, g := machine.HolderAlloc(false, []);
    ForkedShares(machine.K(), 0, i, 1);
  }

  /** A page that was read, then shared by a fork, with no memory to spare: asking for write
      access fails, and leaves an area that may be written over a page that may not. */
  method LateFailure() returns (table: T.Table, machine: Machine, ok: bool)
    ensures table.Valid() && machine.Valid() && !ok
    ensures table.Seen(V.PAGE) == V.Some(V.Info(0, 0, 3, 34))
    ensures exists i :: Used(machine.tasks, 0, i) && At(machine.tasks, 0, i).va == V.PAGE && !At(machine.tasks, 0, i).intent
  {
    hide Inv, Pmm.Valid, V.Ok, V.View, T.Allows, Shares, SharedArea;
    var lo := V.PAGE;
    table := ReadOnlyArea(lo);
    ghost var i;
    machine, i := ReadOnlyPage(lo);
    ghost var k0 := machine.K();
    OneShare(k0, 0, lo);
    ghost var end, stop;
    ok, end, stop := Mprotect(table, machine, 0, lo, V.PAGE, 3, {});
    SameEnd(lo, end);
    assert SlotDone(k0, machine.K(), 0, lo, stop, true, false, i);
    assert Used(machine.tasks, 0, i);
  }

  lemma SameEnd(lo: nat, end: nat)
    requires V.Aligned(lo) && V.Aligned(end) && end - V.PAGE < lo + V.PAGE <= end
    ensures end == lo + V.PAGE && forall stop: nat :: lo <= stop < end && V.Aligned(stop) ==> stop == lo
  {
  }

  lemma OneShare(k: Kern, t: nat, lo: nat)
    requires Shares(k, t, lo)
    ensures Cost(k, t, lo, lo + V.PAGE) == 1
  {
    hide Shares;
    CostNone(k, t, lo);
    CostNext(k, t, lo, lo);
  }
}
