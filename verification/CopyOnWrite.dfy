/** Copy-on-write address spaces (kernel/task.c): user page slots with their hardware bits and
    page reference counts, against a machine in which fork copies every private page.
    `view` is that machine: what each task would read at each private address. */
module CopyOnWrite {

  type Page = seq<int>

  /** A user page of a task and its page table entry, which the code always sets together:
      `intent` is the software's write permission; `w`, `x` and `cow` are the entry's bits. */
  datatype Slot = Slot(used: bool, va: nat, pa: nat, intent: bool, w: bool, x: bool, cow: bool)

  /** A task's user pages; `shared` are the pages of its MAP_SHARED areas. */
  datatype Task = Task(slots: seq<Slot>, shared: set<nat>)

  const EMPTY: Slot := Slot(false, 0, 0, false, false, false, false)

  /** `held` counts the holders other than slots: page cache entries, page tables, kernel
      stacks. `shr` marks the frames of the page cache. */
  datatype Kern = Kern(mem: seq<Page>, refs: seq<nat>, held: seq<nat>, shr: seq<bool>, tasks: seq<Task>, view: View)

  // ---- the machine that copies eagerly ----

  type View = seq<map<nat, Page>>

  function EagerStore(v: View, t: nat, va: nat, c: Page): View
    requires t < |v|
  {
    var m: map<nat, Page> := v[t][va := c];
    v[t := m]
  }

  function EagerUnmap(v: View, t: nat, va: nat): View
    requires t < |v|
  {
    v[t := v[t] - {va}]
  }

  function EagerFork(v: View, parent: nat, child: nat): View
    requires parent < |v| && child < |v|
  {
    v[child := v[parent]]
  }

  // ---- counting the slots that name a frame ----

  function One(s: Slot, f: nat): nat { if s.used && s.pa == f then 1 else 0 }

  function Count(s: seq<Slot>, f: nat): nat
    decreases |s|
  {
    if s == [] then 0 else One(s[0], f) + Count(s[1..], f)
  }

  function CountAll(ts: seq<Task>, f: nat): nat
    decreases |ts|
  {
    if ts == [] then 0 else Count(ts[0].slots, f) + CountAll(ts[1..], f)
  }

  lemma {:induction false} CountUpdate(s: seq<Slot>, i: nat, x: Slot, f: nat)
    requires i < |s|
    ensures Count(s[i := x], f) + One(s[i], f) == Count(s, f) + One(x, f)
    decreases |s|
  {
    if i > 0 {
      assert s[i := x][1..] == s[1..][i - 1 := x];
      CountUpdate(s[1..], i - 1, x, f);
    } else {
      assert s[i := x][1..] == s[1..];
    }
  }

  lemma {:induction false} CountAllUpdate(ts: seq<Task>, t: nat, x: Task, f: nat)
    requires t < |ts|
    ensures CountAll(ts[t := x], f) + Count(ts[t].slots, f) == CountAll(ts, f) + Count(x.slots, f)
    decreases |ts|
  {
    if t > 0 {
      assert ts[t := x][1..] == ts[1..][t - 1 := x];
      CountAllUpdate(ts[1..], t - 1, x, f);
    } else {
      assert ts[t := x][1..] == ts[1..];
    }
  }

  function PutSlot(ts: seq<Task>, t: nat, i: nat, s: Slot): seq<Task>
    requires t < |ts| && i < |ts[t].slots|
  {
    ts[t := ts[t].(slots := ts[t].slots[i := s])]
  }

  lemma CountPut(ts: seq<Task>, t: nat, i: nat, s: Slot, f: nat)
    requires t < |ts| && i < |ts[t].slots|
    ensures CountAll(PutSlot(ts, t, i, s), f) + One(ts[t].slots[i], f) == CountAll(ts, f) + One(s, f)
  {
    CountUpdate(ts[t].slots, i, s, f);
    CountAllUpdate(ts, t, PutSlot(ts, t, i, s)[t], f);
  }

  lemma {:induction false} NoSlots(s: seq<Slot>, f: nat)
    requires forall i :: 0 <= i < |s| ==> !s[i].used
    ensures Count(s, f) == 0
    decreases |s|
  {
    if s != [] {
      NoSlots(s[1..], f);
    }
  }

  lemma {:induction false} NoneUsed(ts: seq<Task>, f: nat)
    requires forall t, i :: 0 <= t < |ts| && 0 <= i < |ts[t].slots| ==> !ts[t].slots[i].used
    ensures CountAll(ts, f) == 0
    decreases |ts|
  {
    if ts != [] {
      NoSlots(ts[0].slots, f);
      NoneUsed(ts[1..], f);
    }
  }

  /** The slot `(t, i)` is in use. */
  ghost predicate Used(ts: seq<Task>, t: int, i: int) {
    0 <= t < |ts| && 0 <= i < |ts[t].slots| && ts[t].slots[i].used
  }

  function At(ts: seq<Task>, t: nat, i: nat): Slot
    requires t < |ts| && i < |ts[t].slots|
  {
    ts[t].slots[i]
  }

  lemma Counted(ts: seq<Task>, t: nat, i: nat)
    requires Used(ts, t, i)
    ensures CountAll(ts, At(ts, t, i).pa) >= 1
  {
    CountPut(ts, t, i, EMPTY, At(ts, t, i).pa);
  }

  lemma CountedTwice(ts: seq<Task>, t: nat, i: nat, u: nat, j: nat)
    requires Used(ts, t, i) && Used(ts, u, j) && (t != u || i != j) && At(ts, t, i).pa == At(ts, u, j).pa
    ensures CountAll(ts, At(ts, t, i).pa) >= 2
  {
    CountPut(ts, t, i, EMPTY, At(ts, t, i).pa);
    Counted(PutSlot(ts, t, i, EMPTY), u, j);
  }

  // ---- what the tasks may do ----

  /** A task has a page here, and may write or execute it. */
  datatype Right = Right(va: nat, write: bool, exec: bool)

  function RightOf(s: Slot): Right { Right(s.va, s.intent, s.x) }

  ghost function Rights(t: Task): set<Right> {
    set i | 0 <= i < |t.slots| && t.slots[i].used :: RightOf(t.slots[i])
  }

  /** The rights once the page at `va`, if any, is gone. */
  ghost function Without(rs: set<Right>, va: nat): set<Right> { set r | r in rs && r.va != va }

  ghost predicate SameRights(ts: seq<Task>, ts': seq<Task>) {
    |ts| == |ts'| && forall u :: 0 <= u < |ts| ==> Rights(ts'[u]) == Rights(ts[u])
  }

  ghost predicate OneForVa(t: Task, i: nat, va: nat) {
    forall j :: 0 <= j < |t.slots| && j != i && t.slots[j].used ==> t.slots[j].va != va
  }

  /** One slot changes: it was empty or for this address, and no other slot is for it. */
  lemma RightsPut(t: Task, i: nat, s: Slot, va: nat)
    requires i < |t.slots| && OneForVa(t, i, va) && (t.slots[i].used ==> t.slots[i].va == va) && (s.used ==> s.va == va)
    ensures Rights(t.(slots := t.slots[i := s])) == Without(Rights(t), va) + if s.used then {RightOf(s)} else {}
  {
    var t' := t.(slots := t.slots[i := s]);
    forall r | r in Without(Rights(t), va) ensures r in Rights(t') {
      var j :| 0 <= j < |t.slots| && t.slots[j].used && RightOf(t.slots[j]) == r;
      assert t'.slots[j] == t.slots[j];
    }
    forall r | r in Rights(t') ensures r in Without(Rights(t), va) + if s.used then {RightOf(s)} else {} {
      var j :| 0 <= j < |t'.slots| && t'.slots[j].used && RightOf(t'.slots[j]) == r;
      if j != i {
        assert t.slots[j] == t'.slots[j];
      }
    }
    if s.used {
      assert t'.slots[i] == s;
    }
  }

  /** A slot that keeps address, intent and execute bit changes no right. */
  lemma RightsKept(t: Task, t': Task)
    requires |t'.slots| == |t.slots|
    requires forall j :: 0 <= j < |t.slots| ==> t'.slots[j].used == t.slots[j].used && (t.slots[j].used ==> RightOf(t'.slots[j]) == RightOf(t.slots[j]))
    ensures Rights(t') == Rights(t)
  {
    forall r ensures r in Rights(t') <==> r in Rights(t) {
      if r in Rights(t) {
        var j :| 0 <= j < |t.slots| && t.slots[j].used && RightOf(t.slots[j]) == r;
        assert t'.slots[j].used;
      }
      if r in Rights(t') {
        var j :| 0 <= j < |t'.slots| && t'.slots[j].used && RightOf(t'.slots[j]) == r;
        assert t.slots[j].used;
      }
    }
  }

  lemma RightAt(t: Task, i: nat)
    requires i < |t.slots| && t.slots[i].used
    ensures RightOf(t.slots[i]) in Rights(t)
  {
  }

  // ---- the invariant ----

  ghost predicate Private(ts: seq<Task>, t: nat, i: nat)
    requires t < |ts| && i < |ts[t].slots|
  {
    At(ts, t, i).va !in ts[t].shared
  }

  /** What the hardware bits may say: the checks of `task_page_validate_hw`, and for a private
      page that fork will accept it. */
  ghost predicate BitsOk(private: bool, s: Slot) {
    !(s.w && s.cow) && (!s.intent ==> !s.w && !s.cow) && if private then (s.intent <==> s.w || s.cow) else !s.cow
  }

  /** A private page that hardware may write has one holder only; frames of the page cache
      are mapped by shared areas only. */
  ghost predicate FrameOk(k: Kern, private: bool, s: Slot) {
    && s.pa < |k.refs| && s.pa < |k.held| && s.pa < |k.shr|
    && if private then !k.shr[s.pa] && k.held[s.pa] == 0 && (s.w ==> k.refs[s.pa] == 1) else k.shr[s.pa]
  }

  /** The slot of a private page leads to the bytes the eager machine has there. */
  ghost predicate SeesView(k: Kern, t: nat, s: Slot) {
    t < |k.view| && s.pa < |k.mem| && s.va in k.view[t] && k.mem[s.pa] == k.view[t][s.va]
  }

  ghost predicate SlotOk(k: Kern, t: nat, i: nat)
    requires t < |k.tasks| && i < |k.tasks[t].slots|
  {
    var s, p := At(k.tasks, t, i), Private(k.tasks, t, i);
    BitsOk(p, s) && FrameOk(k, p, s) && (p ==> SeesView(k, t, s))
  }

  ghost predicate Exact(k: Kern) {
    |k.refs| == |k.held| && forall f :: 0 <= f < |k.refs| ==> k.refs[f] == CountAll(k.tasks, f) + k.held[f]
  }

  /** No two slots of a task are for one address. */
  ghost predicate DistinctVas(ts: seq<Task>) {
    forall t, i, j :: Used(ts, t, i) && Used(ts, t, j) && i != j ==> At(ts, t, i).va != At(ts, t, j).va
  }

  /** No two private pages of a task are in one frame. */
  ghost predicate OwnFrames(ts: seq<Task>) {
    forall t, i, j :: Used(ts, t, i) && Used(ts, t, j) && i != j && Private(ts, t, i) && Private(ts, t, j) ==> At(ts, t, i).pa != At(ts, t, j).pa
  }

  /** The eager machine has exactly the private pages of each task. */
  ghost predicate HasPrivate(ts: seq<Task>, t: nat, va: nat) {
    exists i :: Used(ts, t, i) && At(ts, t, i).va == va && Private(ts, t, i)
  }

  ghost predicate KeysOk(k: Kern) {
    forall t, va :: 0 <= t < |k.view| && va in k.view[t] ==> HasPrivate(k.tasks, t, va)
  }

  ghost predicate Inv(k: Kern): (r: bool)
    ensures r ==> |k.mem| == |k.refs| == |k.held| == |k.shr| && |k.tasks| == |k.view|
  {
    && |k.mem| == |k.refs| == |k.held| == |k.shr| && |k.tasks| == |k.view|
    && Exact(k) && DistinctVas(k.tasks) && OwnFrames(k.tasks) && KeysOk(k) && forall t, i :: Used(k.tasks, t, i) ==> SlotOk(k, t, i)
  }

  /** No slot of the task is for this address. */
  ghost predicate NewVa(k: Kern, t: nat, va: nat) {
    forall j :: Used(k.tasks, t, j) ==> At(k.tasks, t, j).va != va
  }

  lemma InvSlot(k: Kern, t: nat, i: nat)
    requires Inv(k) && Used(k.tasks, t, i)
    ensures var s, p := At(k.tasks, t, i), Private(k.tasks, t, i);
            s.pa < |k.refs| && k.refs[s.pa] > 0 && BitsOk(p, s) && (p ==> SeesView(k, t, s))
  {
    assert SlotOk(k, t, i);
    Counted(k.tasks, t, i);
  }

  /** A private slot never names a frame of the page cache. */
  lemma NotShared(k: Kern, f: nat)
    requires Inv(k) && f < |k.shr| && k.shr[f]
    ensures forall u, j :: Used(k.tasks, u, j) && Private(k.tasks, u, j) ==> At(k.tasks, u, j).pa != f
  {
    forall u, j | Used(k.tasks, u, j) && Private(k.tasks, u, j) ensures At(k.tasks, u, j).pa != f {
      assert SlotOk(k, u, j);
    }
  }

  lemma NoView(k: Kern, t: nat, va: nat)
    requires Inv(k) && t < |k.tasks| && forall j :: 0 <= j < |k.tasks[t].slots| && k.tasks[t].slots[j].used ==> k.tasks[t].slots[j].va != va
    ensures NewVa(k, t, va) && va !in k.view[t]
  {
  }

  /** A frame without references is named by no slot and held by nobody. */
  lemma FreeFrame(k: Kern, f: nat)
    requires Inv(k) && f < |k.refs| && k.refs[f] == 0
    ensures k.held[f] == 0 && forall t, i :: Used(k.tasks, t, i) ==> At(k.tasks, t, i).pa != f
  {
    forall t, i | Used(k.tasks, t, i) ensures At(k.tasks, t, i).pa != f {
      Counted(k.tasks, t, i);
    }
  }

  /** A slot whose frame has one reference is the only one to name it. */
  lemma Alone(k: Kern, t: nat, i: nat)
    requires Inv(k) && Used(k.tasks, t, i) && At(k.tasks, t, i).pa < |k.refs| && k.refs[At(k.tasks, t, i).pa] == 1
    ensures k.held[At(k.tasks, t, i).pa] == 0
    ensures forall u, j :: Used(k.tasks, u, j) && (u != t || j != i) ==> At(k.tasks, u, j).pa != At(k.tasks, t, i).pa
  {
    Counted(k.tasks, t, i);
    forall u, j | Used(k.tasks, u, j) && (u != t || j != i) ensures At(k.tasks, u, j).pa != At(k.tasks, t, i).pa {
      if At(k.tasks, u, j).pa == At(k.tasks, t, i).pa {
        CountedTwice(k.tasks, t, i, u, j);
      }
    }
  }

  // ---- one slot changes ----

  /** The state after slot `(t, i)` becomes `s`, with new counts, contents and view. */
  ghost predicate Changes(k: Kern, k': Kern, t: nat, i: nat, s: Slot) {
    && t < |k.tasks| && i < |k.tasks[t].slots| && k'.tasks == PutSlot(k.tasks, t, i, s)
    && |k'.mem| == |k.mem| && |k'.refs| == |k'.held| == |k'.shr| == |k.refs| && |k'.view| == |k.view|
    && forall f :: 0 <= f < |k.refs| && f < |k.held| ==>
         k'.refs[f] + k.held[f] + One(At(k.tasks, t, i), f) == k.refs[f] + k'.held[f] + One(s, f)
  }

  lemma ChangesExact(k: Kern, k': Kern, t: nat, i: nat, s: Slot)
    requires Exact(k) && Changes(k, k', t, i, s)
    ensures Exact(k')
  {
    forall f | 0 <= f < |k'.refs| ensures k'.refs[f] == CountAll(k'.tasks, f) + k'.held[f] {
      CountPut(k.tasks, t, i, s, f);
    }
  }

  lemma KeysKept(k: Kern, k': Kern, t: nat, i: nat, s: Slot, u: nat, va: nat)
    requires KeysOk(k) && Changes(k, k', t, i, s) && u < |k.view| && t < |k.tasks| && i < |k.tasks[t].slots|
    requires if u == t then
               (s.used && s.va == va && va !in k.tasks[t].shared) ||
               (va in k.view[t] && (At(k.tasks, t, i).used ==> At(k.tasks, t, i).va != va))
             else va in k.view[u]
    ensures HasPrivate(k'.tasks, u, va)
  {
    if u == t && s.used && s.va == va && va !in k.tasks[t].shared {
      assert Used(k'.tasks, t, i) && At(k'.tasks, t, i).va == va;
    } else {
      var j :| Used(k.tasks, u, j) && At(k.tasks, u, j).va == va && Private(k.tasks, u, j);
      assert Used(k'.tasks, u, j) && At(k'.tasks, u, j).va == va;
    }
  }

  /** No private page of the task but the one in slot `i` is in frame `f`. */
  ghost predicate NoneOther(ts: seq<Task>, t: nat, i: nat, f: nat) {
    forall j :: Used(ts, t, j) && j != i && Private(ts, t, j) ==> At(ts, t, j).pa != f
  }

  lemma ChangesOwn(ts: seq<Task>, t: nat, i: nat, s: Slot)
    requires OwnFrames(ts) && t < |ts| && i < |ts[t].slots| && (s.used && s.va !in ts[t].shared ==> NoneOther(ts, t, i, s.pa))
    ensures OwnFrames(PutSlot(ts, t, i, s))
  {
    var ts' := PutSlot(ts, t, i, s);
    forall u, x, y | Used(ts', u, x) && Used(ts', u, y) && x != y && Private(ts', u, x) && Private(ts', u, y)
      ensures At(ts', u, x).pa != At(ts', u, y).pa
    {
      if u != t || x != i {
        assert Used(ts, u, x) && Private(ts, u, x);
      }
      if u != t || y != i {
        assert Used(ts, u, y) && Private(ts, u, y);
      }
    }
  }

  /** What is left to show: the new slot is fine, and every other one still is. */
  lemma ChangesInv(k: Kern, k': Kern, t: nat, i: nat, s: Slot)
    requires Inv(k) && Changes(k, k', t, i, s)
    requires s.used ==> SlotOk(k', t, i) && forall j :: Used(k.tasks, t, j) && j != i ==> At(k.tasks, t, j).va != s.va
    requires s.used && s.va !in k.tasks[t].shared ==> NoneOther(k.tasks, t, i, s.pa)
    requires forall u, j :: Used(k.tasks, u, j) && (u != t || j != i) ==> SlotOk(k', u, j)
    requires forall u :: 0 <= u < |k.view| && u != t ==> k'.view[u] == k.view[u]
    requires t < |k.view| && forall va :: va in k'.view[t] ==>
               (s.used && s.va == va && va !in k.tasks[t].shared) ||
               (va in k.view[t] && (At(k.tasks, t, i).used ==> At(k.tasks, t, i).va != va))
    ensures Inv(k')
  {
    hide SlotOk, OwnFrames, NoneOther;
    ChangesExact(k, k', t, i, s);
    ChangesOwn(k.tasks, t, i, s);
    forall u, va | 0 <= u < |k'.view| && va in k'.view[u] ensures HasPrivate(k'.tasks, u, va) {
      KeysKept(k, k', t, i, s, u, va);
    }
    forall u, j | Used(k'.tasks, u, j) ensures SlotOk(k', u, j) {
      if u != t || j != i {
        assert Used(k.tasks, u, j);
      }
    }
    forall u, x, y | Used(k'.tasks, u, x) && Used(k'.tasks, u, y) && x != y ensures At(k'.tasks, u, x).va != At(k'.tasks, u, y).va {
      if u != t || x != i {
        assert Used(k.tasks, u, x);
      }
      if u != t || y != i {
        assert Used(k.tasks, u, y);
      }
    }
  }

  // ---- the operations ----

  function WithSlot(k: Kern, t: nat, i: nat, s: Slot): Kern
    requires t < |k.tasks| && i < |k.tasks[t].slots|
  {
    k.(tasks := PutSlot(k.tasks, t, i, s))
  }

  function SetView(k: Kern, t: nat, v: map<nat, Page>): Kern
    requires t < |k.view|
  {
    k.(view := k.view[t := v])
  }

  /** Only the write intent and the hardware bits of one page change. */
  lemma ReprotectOk(k: Kern, t: nat, i: nat, s: Slot)
    requires Inv(k) && Used(k.tasks, t, i)
    requires var o := At(k.tasks, t, i); s == o.(intent := s.intent, w := s.w, x := s.x, cow := s.cow)
    requires BitsOk(Private(k.tasks, t, i), s) && s.pa < |k.refs| && (Private(k.tasks, t, i) && s.w ==> k.refs[s.pa] == 1)
    ensures Inv(WithSlot(k, t, i, s))
  {
    assert SlotOk(k, t, i);
    ChangesInv(k, WithSlot(k, t, i, s), t, i, s);
  }

  /** A private page gets a copy of its own: frame `f`, which nobody has. */
  function CopyTo(k: Kern, t: nat, i: nat, f: nat, s: Slot): Kern
    requires t < |k.tasks| && i < |k.tasks[t].slots| && f < |k.refs| == |k.mem| == |k.shr| && At(k.tasks, t, i).pa < |k.refs|
    requires k.refs[At(k.tasks, t, i).pa] > 0
  {
    var g := At(k.tasks, t, i).pa;
    WithSlot(k.(mem := k.mem[f := k.mem[g]], refs := k.refs[f := 1][g := k.refs[g] - 1], shr := k.shr[f := false]), t, i, s)
  }

  lemma CopyToOk(k: Kern, t: nat, i: nat, f: nat, s: Slot)
    requires Inv(k) && Used(k.tasks, t, i) && Private(k.tasks, t, i) && f < |k.refs| && k.refs[f] == 0
    requires At(k.tasks, t, i).pa < |k.refs| && k.refs[At(k.tasks, t, i).pa] > 1
    requires s.used && s.va == At(k.tasks, t, i).va && s.pa == f && BitsOk(true, s)
    ensures Inv(CopyTo(k, t, i, f, s))
  {
    var k' := CopyTo(k, t, i, f, s);
    assert SlotOk(k, t, i);
    FreeFrame(k, f);
    forall u, j | Used(k.tasks, u, j) && (u != t || j != i) ensures SlotOk(k', u, j) {
      assert SlotOk(k, u, j);
    }
    ChangesInv(k, k', t, i, s);
  }

  /** Making the page writable takes a copy. */
  ghost predicate Copies(k: Kern, t: nat, i: nat, write: bool)
    requires t < |k.tasks| && i < |k.tasks[t].slots|
  {
    write && Private(k.tasks, t, i) && At(k.tasks, t, i).pa < |k.refs| && k.refs[At(k.tasks, t, i).pa] > 1
  }

  /** The slot of a page once its protection is set; a shared page waits for its first write. */
  function Reprotected(s: Slot, private: bool, write: bool, exec: bool): Slot {
    s.(intent := write, w := write && private, x := exec, cow := false)
  }

  ghost predicate CopiesTo(k: Kern, k': Kern, t: nat, i: nat, f: nat, s: Slot)
    requires t < |k.tasks| && i < |k.tasks[t].slots|
  {
    f < |k.refs| == |k.mem| == |k.shr| && k.refs[f] == 0 && At(k.tasks, t, i).pa < |k.refs| && k.refs[At(k.tasks, t, i).pa] > 1 &&
    k' == CopyTo(k, t, i, f, s.(pa := f))
  }

  /** `task_page_set_prot` went through on slot `(t, i)`. */
  ghost predicate SetsProt(k: Kern, k': Kern, t: nat, i: nat, write: bool, exec: bool): (r: bool)
    ensures r ==> Used(k.tasks, t, i)
  {
    && Used(k.tasks, t, i)
    && var s := Reprotected(At(k.tasks, t, i), Private(k.tasks, t, i), write, exec);
       if Copies(k, t, i, write) then exists f: nat :: CopiesTo(k, k', t, i, f, s) else k' == WithSlot(k, t, i, s)
  }

  /** A new private page in an empty slot: frame `f`, which nobody has, with contents `c`. */
  function MapNew(k: Kern, t: nat, i: nat, s: Slot, c: Page): Kern
    requires t < |k.tasks| == |k.view| && i < |k.tasks[t].slots| && s.pa < |k.refs| == |k.mem| == |k.shr|
  {
    SetView(WithSlot(k.(mem := k.mem[s.pa := c], refs := k.refs[s.pa := 1], shr := k.shr[s.pa := false]), t, i, s), t, k.view[t][s.va := c])
  }

  lemma MapNewOk(k: Kern, t: nat, i: nat, s: Slot, c: Page)
    requires Inv(k) && t < |k.tasks| && i < |k.tasks[t].slots| && !At(k.tasks, t, i).used && NewVa(k, t, s.va)
    requires s.used && s.va !in k.tasks[t].shared && BitsOk(true, s) && s.pa < |k.refs| && k.refs[s.pa] == 0
    ensures Inv(MapNew(k, t, i, s, c))
  {
    var k' := MapNew(k, t, i, s, c);
    FreeFrame(k, s.pa);
    forall u, j | Used(k.tasks, u, j) && (u != t || j != i) ensures SlotOk(k', u, j) {
      assert SlotOk(k, u, j);
    }
    ChangesInv(k, k', t, i, s);
  }

  /** One more slot for a frame that has holders: a shared page, or a private one that nobody
      may write. */
  function MapMore(k: Kern, t: nat, i: nat, s: Slot): Kern
    requires t < |k.tasks| == |k.view| && i < |k.tasks[t].slots| && s.pa < |k.refs| == |k.mem|
  {
    var k' := WithSlot(k.(refs := k.refs[s.pa := k.refs[s.pa] + 1]), t, i, s);
    if s.va in k.tasks[t].shared then k' else SetView(k', t, k.view[t][s.va := k.mem[s.pa]])
  }

  lemma MapMoreOk(k: Kern, t: nat, i: nat, s: Slot)
    requires Inv(k) && t < |k.tasks| && i < |k.tasks[t].slots| && !At(k.tasks, t, i).used && NewVa(k, t, s.va)
    requires s.used && s.pa < |k.refs| && BitsOk(s.va !in k.tasks[t].shared, s)
    requires if s.va in k.tasks[t].shared then k.shr[s.pa] else !s.w && !k.shr[s.pa] && k.held[s.pa] == 0
    requires forall u, j :: Used(k.tasks, u, j) && Private(k.tasks, u, j) && At(k.tasks, u, j).pa == s.pa ==> !At(k.tasks, u, j).w
    requires s.va !in k.tasks[t].shared ==> NoneOther(k.tasks, t, i, s.pa)
    ensures Inv(MapMore(k, t, i, s))
  {
    var k' := MapMore(k, t, i, s);
    forall u, j | Used(k.tasks, u, j) && (u != t || j != i) ensures SlotOk(k', u, j) {
      assert SlotOk(k, u, j);
    }
    ChangesInv(k, k', t, i, s);
  }

  /** A slot is emptied: `task_unmap_user_page`. */
  function Unmap(k: Kern, t: nat, i: nat): Kern
    requires t < |k.tasks| == |k.view| && i < |k.tasks[t].slots| && At(k.tasks, t, i).pa < |k.refs| && k.refs[At(k.tasks, t, i).pa] > 0
  {
    var s := At(k.tasks, t, i);
    SetView(WithSlot(k.(refs := k.refs[s.pa := k.refs[s.pa] - 1]), t, i, EMPTY), t, k.view[t] - {s.va})
  }

  lemma UnmapOk(k: Kern, t: nat, i: nat)
    requires Inv(k) && Used(k.tasks, t, i)
    ensures At(k.tasks, t, i).pa < |k.refs| && k.refs[At(k.tasks, t, i).pa] > 0 && Inv(Unmap(k, t, i))
  {
    var s := At(k.tasks, t, i);
    assert SlotOk(k, t, i);
    Counted(k.tasks, t, i);
    var k' := Unmap(k, t, i);
    forall u, j | Used(k.tasks, u, j) && (u != t || j != i) ensures SlotOk(k', u, j) {
      assert SlotOk(k, u, j);
      if At(k.tasks, u, j).pa == s.pa {
        CountedTwice(k.tasks, t, i, u, j);
      }
    }
    ChangesInv(k, k', t, i, EMPTY);
  }

  /** A store by the task itself through a page its hardware entry lets it write. */
  function Store(k: Kern, t: nat, i: nat, c: Page): Kern
    requires t < |k.tasks| == |k.view| && i < |k.tasks[t].slots| && At(k.tasks, t, i).pa < |k.mem|
  {
    var s := At(k.tasks, t, i);
    var k' := k.(mem := k.mem[s.pa := c]);
    if s.va in k.tasks[t].shared then k' else SetView(k', t, k.view[t][s.va := c])
  }

  lemma StoreOk(k: Kern, t: nat, i: nat, c: Page)
    requires Inv(k) && Used(k.tasks, t, i) && At(k.tasks, t, i).w
    ensures At(k.tasks, t, i).pa < |k.mem| && Inv(Store(k, t, i, c))
  {
    var s := At(k.tasks, t, i);
    assert SlotOk(k, t, i);
    var k' := Store(k, t, i, c);
    if Private(k.tasks, t, i) {
      Alone(k, t, i);
    }
    forall u, j | Used(k.tasks, u, j) ensures SlotOk(k', u, j) {
      assert SlotOk(k, u, j);
    }
  }

  /** No page at this address, so no right to it. */
  lemma NoneThere(k: Kern, t: nat, va: nat)
    requires t < |k.tasks| && NewVa(k, t, va)
    ensures Without(Rights(k.tasks[t]), va) == Rights(k.tasks[t]) && forall i: nat :: OneForVa(k.tasks[t], i, va)
  {
    forall j | 0 <= j < |k.tasks[t].slots| && k.tasks[t].slots[j].used ensures k.tasks[t].slots[j].va != va {
      assert Used(k.tasks, t, j);
    }
    forall r | r in Rights(k.tasks[t]) ensures r.va != va {
      var j :| 0 <= j < |k.tasks[t].slots| && k.tasks[t].slots[j].used && RightOf(k.tasks[t].slots[j]) == r;
    }
  }

  lemma OneSlot(k: Kern, t: nat, i: nat)
    requires Inv(k) && Used(k.tasks, t, i)
    ensures OneForVa(k.tasks[t], i, At(k.tasks, t, i).va)
  {
    forall j | 0 <= j < |k.tasks[t].slots| && j != i && k.tasks[t].slots[j].used ensures k.tasks[t].slots[j].va != At(k.tasks, t, i).va {
      assert Used(k.tasks, t, j);
    }
  }

  /** Only one slot of the task is for this address. */
  lemma OnlySlot(k: Kern, t: nat, i: nat)
    requires Inv(k) && Used(k.tasks, t, i)
    ensures forall j :: Used(k.tasks, t, j) && At(k.tasks, t, j).va == At(k.tasks, t, i).va ==> j == i
  {
  }

  // ---- fork, one page at a time ----

  /** The slot fork leaves the parent with, and the one it gives the child. */
  function Downgraded(s: Slot): Slot { if s.intent && !s.cow then s.(w := false, cow := true) else s }
  function ForChild(s: Slot): Slot { s.(w := false, cow := s.intent) }

  function ForkPage(k: Kern, p: nat, i: nat, c: nat, j: nat): Kern
    requires p < |k.tasks| == |k.view| && i < |k.tasks[p].slots| && c < |k.tasks| && j < |k.tasks[c].slots| && p != c
    requires At(k.tasks, p, i).pa < |k.refs| == |k.mem|
  {
    var s := At(k.tasks, p, i);
    if s.va in k.tasks[p].shared then MapMore(k, c, j, s)
    else MapMore(WithSlot(k, p, i, Downgraded(s)), c, j, ForChild(s))
  }

  lemma ForkPageOk(k: Kern, p: nat, i: nat, c: nat, j: nat)
    requires Inv(k) && Used(k.tasks, p, i) && c < |k.tasks| && j < |k.tasks[c].slots| && !At(k.tasks, c, j).used && p != c
    requires k.tasks[c].shared == k.tasks[p].shared && NewVa(k, c, At(k.tasks, p, i).va)
    requires Private(k.tasks, p, i) ==> NoneOther(k.tasks, c, j, At(k.tasks, p, i).pa)
    ensures At(k.tasks, p, i).pa < |k.refs| && Inv(ForkPage(k, p, i, c, j))
    ensures var s := At(k.tasks, p, i);
            ForkPage(k, p, i, c, j).view ==
            if s.va in k.tasks[p].shared then k.view else assert SeesView(k, p, s); EagerStore(k.view, c, s.va, k.view[p][s.va])
    ensures var s, ts := At(k.tasks, p, i), ForkPage(k, p, i, c, j).tasks;
            && Used(ts, p, i) && Used(ts, c, j) && Twins(At(ts, p, i), s) && Twins(At(ts, c, j), s)
            && (s.va !in k.tasks[p].shared ==> CopiesFirst(At(ts, p, i)) && CopiesFirst(At(ts, c, j)))
  {
    var s := At(k.tasks, p, i);
    assert SlotOk(k, p, i);
    ForkPageBits(k, p, i, c, j);
    if s.va in k.tasks[p].shared {
      NotShared(k, s.pa);
      MapMoreOk(k, c, j, s);
    } else {
      ForkPrivateOk(k, p, i, c, j);
    }
  }

  /** Nobody writes through this page, and a write that is allowed copies it first. */
  predicate CopiesFirst(s: Slot) { !s.w && (s.cow <==> s.intent) }

  lemma ForkPageBits(k: Kern, p: nat, i: nat, c: nat, j: nat)
    requires p < |k.tasks| == |k.view| && Used(k.tasks, p, i) && c < |k.tasks| && j < |k.tasks[c].slots| && p != c
    requires At(k.tasks, p, i).pa < |k.refs| == |k.mem| && BitsOk(Private(k.tasks, p, i), At(k.tasks, p, i))
    ensures var s, ts := At(k.tasks, p, i), ForkPage(k, p, i, c, j).tasks;
            && Used(ts, p, i) && Used(ts, c, j) && Twins(At(ts, p, i), s) && Twins(At(ts, c, j), s)
            && (s.va !in k.tasks[p].shared ==> CopiesFirst(At(ts, p, i)) && CopiesFirst(At(ts, c, j)))
  {
  }

  lemma ForkPrivateOk(k: Kern, p: nat, i: nat, c: nat, j: nat)
    requires Inv(k) && Used(k.tasks, p, i) && c < |k.tasks| && j < |k.tasks[c].slots| && !At(k.tasks, c, j).used && p != c
    requires k.tasks[c].shared == k.tasks[p].shared && NewVa(k, c, At(k.tasks, p, i).va)
    requires Private(k.tasks, p, i) && NoneOther(k.tasks, c, j, At(k.tasks, p, i).pa) && FrameOk(k, true, At(k.tasks, p, i)) && SlotOk(k, p, i)
    ensures Inv(MapMore(WithSlot(k, p, i, Downgraded(At(k.tasks, p, i))), c, j, ForChild(At(k.tasks, p, i))))
  {
    hide Inv, MapMore;
    var s := At(k.tasks, p, i);
    var k1 := WithSlot(k, p, i, Downgraded(s));
    ReprotectOk(k, p, i, Downgraded(s));
    NoneWritable(k, p, i);
    assert k1.tasks[c] == k.tasks[c];
    assert forall y :: Used(k1.tasks, c, y) <==> Used(k.tasks, c, y);
    MapMoreOk(k1, c, j, ForChild(s));
  }

  /** Once the parent's own entry is read-only, no entry lets the frame be written. */
  lemma NoneWritable(k: Kern, p: nat, i: nat)
    requires Inv(k) && Used(k.tasks, p, i) && Private(k.tasks, p, i)
    ensures var k1 := WithSlot(k, p, i, Downgraded(At(k.tasks, p, i)));
            forall u, j :: Used(k1.tasks, u, j) && Private(k1.tasks, u, j) && At(k1.tasks, u, j).pa == At(k.tasks, p, i).pa ==> !At(k1.tasks, u, j).w
  {
    var s := At(k.tasks, p, i);
    assert SlotOk(k, p, i);
    var k1 := WithSlot(k, p, i, Downgraded(s));
    forall u, j | Used(k1.tasks, u, j) && Private(k1.tasks, u, j) && At(k1.tasks, u, j).pa == s.pa ensures !At(k1.tasks, u, j).w {
      if u != p || j != i {
        assert Used(k.tasks, u, j) && SlotOk(k, u, j);
        CountedTwice(k.tasks, p, i, u, j);
      }
    }
  }

  /** The first `i` slots of the parent have been forked: the child's slots are for addresses
      of those, there are no more of them, and the eager machine has copied the private ones. */
  ghost predicate Forked(k: Kern, v0: View, p: nat, c: nat, i: nat) {
    && p < |k.tasks| && c < |k.tasks| && p != c && i <= |k.tasks[p].slots| && |k.view| == |v0| == |k.tasks| && v0[c] == map[]
    && (forall j :: Used(k.tasks, c, j) ==> j < i && From(k.tasks, p, i, At(k.tasks, c, j)))
    && (forall t :: 0 <= t < |v0| && t != c ==> k.view[t] == v0[t])
    && (forall x :: 0 <= x < i && Used(k.tasks, p, x) && Private(k.tasks, p, x) ==> At(k.tasks, p, x).va in k.view[c])
    && (forall va :: va in k.view[c] ==> va in v0[p] && k.view[c][va] == v0[p][va])
    && (forall x :: 0 <= x < i && Used(k.tasks, p, x) ==> SameFrame(k.tasks, p, x, c))
  }

  /** Two pages at the same address in the same frame, with the same rights. */
  ghost predicate Twins(s: Slot, s': Slot) { s.pa == s'.pa && RightOf(s) == RightOf(s') }

  /** The other task has such a page. */
  ghost predicate SameFrame(ts: seq<Task>, p: nat, x: nat, c: nat)
    requires Used(ts, p, x)
  {
    exists j :: Used(ts, c, j) && Twins(At(ts, c, j), At(ts, p, x))
  }

  /** One of the first `i` pages of the task is such a page. */
  ghost predicate From(ts: seq<Task>, p: nat, i: nat, s: Slot) {
    exists x :: 0 <= x < i && Used(ts, p, x) && Twins(At(ts, p, x), s)
  }

  lemma ForkedNew(k: Kern, v0: View, p: nat, c: nat, i: nat, j: nat)
    requires Inv(k) && Forked(k, v0, p, c, i) && Used(k.tasks, p, i) && |k.tasks[c].slots| == |k.tasks[p].slots|
    requires j <= |k.tasks[c].slots| && forall x :: 0 <= x < j ==> k.tasks[c].slots[x].used
    requires k.tasks[c].shared == k.tasks[p].shared
    ensures j < |k.tasks[c].slots| && j <= i && NewVa(k, c, At(k.tasks, p, i).va)
    ensures Private(k.tasks, p, i) ==> NoneOther(k.tasks, c, j, At(k.tasks, p, i).pa)
  {
    if j > i {
      assert Used(k.tasks, c, i);
      assert false;
    }
    forall y | Used(k.tasks, c, y) && Private(k.tasks, c, y) && Private(k.tasks, p, i) ensures At(k.tasks, c, y).pa != At(k.tasks, p, i).pa {
      var x :| 0 <= x < i && Used(k.tasks, p, x) && Twins(At(k.tasks, p, x), At(k.tasks, c, y));
      assert Private(k.tasks, p, x);
    }
  }

  /** The slots a forked page touches. */
  ghost predicate ForkShape(ts: seq<Task>, ts': seq<Task>, p: nat, i: nat, c: nat, j: nat) {
    && p < |ts| && c < |ts| && p != c && i < |ts[p].slots| && j < |ts[c].slots|
    && |ts'| == |ts| && |ts'[p].slots| == |ts[p].slots| && |ts'[c].slots| == |ts[c].slots|
    && ts'[p].shared == ts[p].shared && At(ts', c, j).used && Twins(At(ts', c, j), At(ts, p, i))
    && (forall x :: 0 <= x < |ts[p].slots| ==> At(ts', p, x).used == At(ts, p, x).used && Twins(At(ts', p, x), At(ts, p, x)))
    && (forall y :: 0 <= y < |ts[c].slots| && y != j ==> At(ts', c, y) == At(ts, c, y))
  }

  lemma ForkPageShape(k: Kern, p: nat, i: nat, c: nat, j: nat)
    requires p < |k.tasks| == |k.view| && Used(k.tasks, p, i) && c < |k.tasks| && j < |k.tasks[c].slots| && p != c
    requires At(k.tasks, p, i).pa < |k.refs| == |k.mem|
    ensures ForkShape(k.tasks, ForkPage(k, p, i, c, j).tasks, p, i, c, j)
  {
    var s := At(k.tasks, p, i);
    if s.va in k.tasks[p].shared {
      assert ForkPage(k, p, i, c, j).tasks == PutSlot(k.tasks, c, j, s);
    } else {
      assert ForkPage(k, p, i, c, j).tasks == PutSlot(PutSlot(k.tasks, p, i, Downgraded(s)), c, j, ForChild(s));
    }
  }

  lemma ForkShapeFrom(ts: seq<Task>, ts': seq<Task>, p: nat, i: nat, c: nat, j: nat, y: nat)
    requires ForkShape(ts, ts', p, i, c, j) && Used(ts, p, i) && Used(ts', c, y) && j <= i
    requires y != j ==> y < i && From(ts, p, i, At(ts, c, y))
    ensures y < i + 1 && From(ts', p, i + 1, At(ts', c, y))
  {
    if y == j {
      assert Used(ts', p, i) && Twins(At(ts', p, i), At(ts', c, y));
    } else {
      var x :| 0 <= x < i && Used(ts, p, x) && Twins(At(ts, p, x), At(ts, c, y));
      assert Used(ts', p, x) && Twins(At(ts', p, x), At(ts', c, y));
    }
  }

  lemma ForkShapeSame(ts: seq<Task>, ts': seq<Task>, p: nat, i: nat, c: nat, j: nat, x: nat)
    requires ForkShape(ts, ts', p, i, c, j) && Used(ts, p, i) && !At(ts, c, j).used && x <= i && Used(ts, p, x) && Used(ts', p, x)
    requires x < i ==> SameFrame(ts, p, x, c)
    ensures SameFrame(ts', p, x, c)
  {
    if x < i {
      var y :| Used(ts, c, y) && Twins(At(ts, c, y), At(ts, p, x));
      assert Used(ts', c, y) && At(ts', c, y) == At(ts, c, y);
    } else {
      assert Used(ts', c, j);
    }
  }

  lemma ForkedMore(k: Kern, v0: View, p: nat, c: nat, i: nat, j: nat)
    requires Inv(k) && Forked(k, v0, p, c, i) && Used(k.tasks, p, i) && j <= i && j < |k.tasks[c].slots| && !At(k.tasks, c, j).used
    requires k.tasks[c].shared == k.tasks[p].shared && NewVa(k, c, At(k.tasks, p, i).va)
    requires Private(k.tasks, p, i) ==> NoneOther(k.tasks, c, j, At(k.tasks, p, i).pa)
    ensures At(k.tasks, p, i).pa < |k.refs| && Forked(ForkPage(k, p, i, c, j), v0, p, c, i + 1)
  {
    hide Inv, ForkPage, From, SameFrame, NoneOther;
    var s := At(k.tasks, p, i);
    InvSlot(k, p, i);
    var k' := ForkPage(k, p, i, c, j);
    ForkPageOk(k, p, i, c, j);
    ForkPageShape(k, p, i, c, j);
    forall y | Used(k'.tasks, c, y) ensures y < i + 1 && From(k'.tasks, p, i + 1, At(k'.tasks, c, y)) {
      assert y != j ==> At(k'.tasks, c, y) == At(k.tasks, c, y) && Used(k.tasks, c, y);
      ForkShapeFrom(k.tasks, k'.tasks, p, i, c, j, y);
    }
    forall x | 0 <= x < i + 1 && Used(k'.tasks, p, x) ensures Used(k.tasks, p, x) && SameFrame(k'.tasks, p, x, c) {
      assert At(k'.tasks, p, x).used == At(k.tasks, p, x).used && Used(k.tasks, p, x);
      ForkShapeSame(k.tasks, k'.tasks, p, i, c, j, x);
    }
    forall x | 0 <= x < i + 1 && Used(k'.tasks, p, x) && Private(k'.tasks, p, x) ensures At(k'.tasks, p, x).va in k'.view[c] {
      if x < i {
        assert Used(k.tasks, p, x) && Private(k.tasks, p, x);
      }
    }
  }

  /** While two tasks share a private page, hardware lets neither write it, and a fault will copy
      it for whoever may. */
  lemma SharedBits(k: Kern, p: nat, x: nat, c: nat, j: nat)
    requires Inv(k) && Used(k.tasks, p, x) && Private(k.tasks, p, x) && Used(k.tasks, c, j) && Twins(At(k.tasks, c, j), At(k.tasks, p, x)) && p != c
    ensures var s := At(k.tasks, p, x); !s.w && (s.cow <==> s.intent)
  {
    assert SlotOk(k, p, x);
    CountedTwice(k.tasks, p, x, c, j);
  }

  lemma ForkedNone(k: Kern, p: nat, c: nat)
    requires Inv(k) && p < |k.tasks| && c < |k.tasks| && p != c && k.view[c] == map[]
    requires forall j :: 0 <= j < |k.tasks[c].slots| ==> !k.tasks[c].slots[j].used
    ensures Forked(k, k.view, p, c, 0)
  {
  }

  lemma ForkedSkip(k: Kern, v0: View, p: nat, c: nat, i: nat)
    requires Forked(k, v0, p, c, i) && i < |k.tasks[p].slots| && !k.tasks[p].slots[i].used
    ensures Forked(k, v0, p, c, i + 1)
  {
    hide SameFrame;
    forall j | Used(k.tasks, c, j) ensures From(k.tasks, p, i + 1, At(k.tasks, c, j)) {
      var x :| 0 <= x < i && Used(k.tasks, p, x) && Twins(At(k.tasks, p, x), At(k.tasks, c, j));
    }
  }

  /** Taking the child's pages away again leaves the eager machine as it was. */
  lemma ForkedUndone(k: Kern, v0: View, p: nat, c: nat, i: nat)
    requires Forked(k, v0, p, c, i)
    ensures k.view[c := map[]] == v0
  {
  }

  lemma ForkedAll(k: Kern, v0: View, p: nat, c: nat)
    requires Inv(k) && p < |k.tasks| && Forked(k, v0, p, c, |k.tasks[p].slots|)
    ensures k.view == EagerFork(v0, p, c) && forall x :: Used(k.tasks, p, x) ==> SameFrame(k.tasks, p, x, c)
    ensures Rights(k.tasks[c]) == Rights(k.tasks[p])
  {
    assert forall x :: Used(k.tasks, p, x) ==> x < |k.tasks[p].slots|;
    forall r ensures r in Rights(k.tasks[c]) <==> r in Rights(k.tasks[p]) {
      if r in Rights(k.tasks[c]) {
        var j :| 0 <= j < |k.tasks[c].slots| && k.tasks[c].slots[j].used && RightOf(k.tasks[c].slots[j]) == r;
        assert Used(k.tasks, c, j);
        var x :| Used(k.tasks, p, x) && Twins(At(k.tasks, p, x), At(k.tasks, c, j));
        RightAt(k.tasks[p], x);
      }
      if r in Rights(k.tasks[p]) {
        var x :| 0 <= x < |k.tasks[p].slots| && k.tasks[p].slots[x].used && RightOf(k.tasks[p].slots[x]) == r;
        assert Used(k.tasks, p, x) && SameFrame(k.tasks, p, x, c);
        var j :| Used(k.tasks, c, j) && Twins(At(k.tasks, c, j), At(k.tasks, p, x));
        RightAt(k.tasks[c], j);
      }
    }
    forall va | va in v0[p] ensures va in k.view[c] {
      var x :| Used(k.tasks, p, x) && At(k.tasks, p, x).va == va && Private(k.tasks, p, x);
      assert 0 <= x < |k.tasks[p].slots|;
    }
    assert k.view[c] == v0[p];
  }

  /** A task without pages has nothing in the eager machine, and its areas may change. */
  lemma NoPages(k: Kern, t: nat)
    requires Inv(k) && t < |k.tasks| && forall i :: 0 <= i < |k.tasks[t].slots| ==> !k.tasks[t].slots[i].used
    ensures k.view[t] == map[]
  {
    assert forall va :: va !in k.view[t];
  }

  /** The areas of a task may change wherever the task has no page. */
  lemma ReareaOk(k: Kern, t: nat, shared: set<nat>)
    requires Inv(k) && t < |k.tasks| && forall i :: Used(k.tasks, t, i) ==> (At(k.tasks, t, i).va in shared <==> At(k.tasks, t, i).va in k.tasks[t].shared)
    ensures Inv(k.(tasks := k.tasks[t := k.tasks[t].(shared := shared)]))
  {
    var k' := k.(tasks := k.tasks[t := k.tasks[t].(shared := shared)]);
    forall f | 0 <= f < |k.refs| ensures k'.refs[f] == CountAll(k'.tasks, f) + k'.held[f] {
      CountAllUpdate(k.tasks, t, k'.tasks[t], f);
    }
    forall u, j | Used(k'.tasks, u, j) ensures SlotOk(k', u, j) && Used(k.tasks, u, j) && Private(k'.tasks, u, j) == Private(k.tasks, u, j) {
      assert Used(k.tasks, u, j) && SlotOk(k, u, j);
    }
    forall u, va | 0 <= u < |k'.view| && va in k'.view[u] ensures HasPrivate(k'.tasks, u, va) {
      var i :| Used(k.tasks, u, i) && At(k.tasks, u, i).va == va && Private(k.tasks, u, i);
      assert Used(k'.tasks, u, i) && At(k'.tasks, u, i).va == va && Private(k'.tasks, u, i);
    }
  }

  // ---- holders other than slots ----

  /** Frame `f` with other contents and `n` more or fewer holders than slots. */
  function Held(k: Kern, f: nat, n: int, shared: bool, c: Page): Kern
    requires f < |k.refs| == |k.held| == |k.shr| == |k.mem| && k.held[f] + n >= 0 && k.refs[f] + n >= 0
  {
    k.(refs := k.refs[f := k.refs[f] + n], held := k.held[f := k.held[f] + n], shr := k.shr[f := shared], mem := k.mem[f := c])
  }

  /** This disturbs no task, as long as no private page is in the frame: it is held, or it
      belongs to the page cache, or nobody has it. */
  lemma HoldOk(k: Kern, f: nat, n: int, shared: bool, c: Page)
    requires Inv(k) && f < |k.refs| && k.held[f] + n >= 0
    requires k.held[f] > 0 || k.refs[f] == 0 || k.shr[f]
    requires k.refs[f] > 0 ==> shared == k.shr[f]
    ensures k.refs[f] >= k.held[f] && Inv(Held(k, f, n, shared, c))
  {
    assert k.refs[f] == CountAll(k.tasks, f) + k.held[f];
    var k' := Held(k, f, n, shared, c);
    forall u, j | Used(k.tasks, u, j) ensures SlotOk(k', u, j) {
      assert SlotOk(k, u, j);
      if At(k.tasks, u, j).pa == f {
        Counted(k.tasks, u, j);
      }
    }
  }
}
