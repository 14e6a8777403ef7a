/** Address-space identifiers (kernel/task.c): how tasks get them, what a rollover does, and
    which translations the TLB can hold under each. */
module Asids {

  const MIN_ASID: nat := 1
  const MAX_ASID: nat := 255

  /** A slot of the task table. `space` names the address space and is never used twice. */
  datatype Task = Task(live: bool, asid: nat, epoch: nat, space: nat)

  /** What is loaded in the translation base register. */
  datatype Loaded = Nothing | Loaded(asid: nat, space: nat)

  ghost predicate Current(t: Task, epoch: nat) { t.live && t.epoch == epoch }

  /** `owner`: the address space that each number was given to since the last full flush. */
  ghost predicate Owned(ts: seq<Task>, epoch: nat, next: nat, owner: map<nat, nat>) {
    && (forall a :: a in owner ==> MIN_ASID <= a < next)
    && (forall i :: 0 <= i < |ts| && Current(ts[i], epoch) ==> ts[i].asid in owner && owner[ts[i].asid] == ts[i].space)
  }

  /** Epochs are the current one or none, and no two tasks share an address space. */
  ghost predicate TasksOk(ts: seq<Task>, epoch: nat, spaces: nat) {
    && epoch > 0
    && (forall i :: 0 <= i < |ts| && ts[i].live ==> (ts[i].epoch == 0 || ts[i].epoch == epoch) && ts[i].space < spaces)
    && (forall i, j :: 0 <= i < j < |ts| && ts[i].live && ts[j].live ==> ts[i].space != ts[j].space)
  }

  ghost predicate TlbOk(tlb: set<(nat, nat)>, owner: map<nat, nat>) {
    forall e :: e in tlb ==> e.0 in owner && owner[e.0] == e.1
  }

  /** Live tasks of the current epoch have pairwise different numbers. */
  lemma Distinct(ts: seq<Task>, epoch: nat, next: nat, owner: map<nat, nat>, spaces: nat, i: nat, j: nat)
    requires Owned(ts, epoch, next, owner) && TasksOk(ts, epoch, spaces)
    requires i < j < |ts| && Current(ts[i], epoch) && Current(ts[j], epoch)
    ensures ts[i].asid != ts[j].asid
  {
    assert owner[ts[i].asid] == ts[i].space && owner[ts[j].asid] == ts[j].space;
  }

  /** With every epoch forgotten nobody owns a number, whatever the new epoch is. */
  lemma Forgotten(ts: seq<Task>, ts': seq<Task>, epoch: nat, epoch': nat, spaces: nat)
    requires TasksOk(ts, epoch, spaces) && epoch' > 0 && |ts'| == |ts|
    requires forall i :: 0 <= i < |ts| ==> ts'[i] == if ts[i].live then ts[i].(epoch := 0) else ts[i]
    ensures TasksOk(ts', epoch', spaces) && Owned(ts', epoch', MIN_ASID, map[]) && TlbOk({}, map[])
  {
  }

  /** A live task may take the next number. */
  lemma Given(ts: seq<Task>, epoch: nat, next: nat, owner: map<nat, nat>, spaces: nat, tlb: set<(nat, nat)>, i: nat)
    requires Owned(ts, epoch, next, owner) && TasksOk(ts, epoch, spaces) && TlbOk(tlb, owner) && i < |ts| && ts[i].live && next >= MIN_ASID
    ensures var ts', owner' := ts[i := ts[i].(asid := next, epoch := epoch)], owner[next := ts[i].space];
            && next !in owner && Owned(ts', epoch, next + 1, owner') && TasksOk(ts', epoch, spaces) && TlbOk(tlb, owner')
  {
  }

  lemma Added(ts: seq<Task>, epoch: nat, next: nat, owner: map<nat, nat>, spaces: nat, i: nat)
    requires Owned(ts, epoch, next, owner) && TasksOk(ts, epoch, spaces) && i < |ts| && !ts[i].live
    ensures var ts' := ts[i := Task(true, 0, 0, spaces)];
            Owned(ts', epoch, next, owner) && TasksOk(ts', epoch, spaces + 1)
  {
  }

  class Scheduler {
    const tasks: array<Task>
    var current: nat  // an index, or `tasks.Length` before the first task runs
    var next: nat
    var epoch: nat
    ghost var loaded: Loaded
    ghost var tlb: set<(nat, nat)>
    ghost var owner: map<nat, nat>
    ghost var flushes: nat
    var spaces: nat  // address spaces made so far, as the pid counter tells

    /** What holds also in the middle of a switch. */
    ghost predicate Sound() reads this, tasks {
      && MIN_ASID <= next <= MAX_ASID + 1 && current <= tasks.Length
      && Owned(tasks[..], epoch, next, owner) && TasksOk(tasks[..], epoch, spaces) && TlbOk(tlb, owner)
    }

    /** The running task is in the current epoch and the register holds its number and space. */
    ghost predicate Valid() reads this, tasks {
      && Sound()
      && (current < tasks.Length ==> Current(tasks[current], epoch) && loaded == Loaded(tasks[current].asid, tasks[current].space))
      && (current == tasks.Length ==> loaded == Nothing)
    }

    /** `task_init`. */
    constructor (max: nat)
      ensures Valid() && fresh(tasks) && tasks.Length == max && tlb == {} && owner == map[]
    {
      tasks := new Task[max](_ => Task(false, 0, 0, 0));
      current, next, epoch := max, MIN_ASID, 1;
      loaded, tlb, owner, flushes, spaces := Nothing, {}, map[], 0, 0;
    }

    /** No number goes from one address space to another except through a full flush. */
    twostate predicate NoReuse() reads this {
      && (flushes == old(flushes) ==> forall a :: a in old(owner) ==> a in owner && owner[a] == old(owner)[a])
      && (flushes != old(flushes) ==> tlb == {})
    }

    /** `task_asid_rollover`. */
    method Rollover()
      requires Sound() && (current < tasks.Length ==> tasks[current].live)
      modifies this`next, this`epoch, this`loaded, this`tlb, this`owner, this`flushes, tasks
      ensures Sound() && flushes == old(flushes) + 1 && next <= MAX_ASID && tlb == {}
      ensures forall i :: 0 <= i < tasks.Length ==> tasks[i].live == old(tasks[i]).live && tasks[i].space == old(tasks[i]).space
      ensures forall i :: 0 <= i < tasks.Length && !tasks[i].live ==> tasks[i] == old(tasks[i])
      ensures current < tasks.Length ==> Current(tasks[current], epoch) && loaded == Loaded(tasks[current].asid, tasks[current].space)
      ensures current == tasks.Length ==> loaded == old(loaded)
    {
      hide Owned, TasksOk, TlbOk;
      tlb, owner, flushes := {}, map[], flushes + 1;
      epoch := (epoch + 1) % 0x1_0000_0000;
      if epoch == 0 {
        epoch := 1;
      }
      next := MIN_ASID;
      ghost var ts := tasks[..];
      ForgetAll();
      Forgotten(ts, tasks[..], old(epoch), epoch, spaces);
      if current < tasks.Length {
        Give(current);
        loaded := Loaded(tasks[current].asid, tasks[current].space);
      }
    }

    method ForgetAll()
      modifies tasks
      ensures forall i :: 0 <= i < tasks.Length ==> tasks[i] == if old(tasks[i]).live then old(tasks[i]).(epoch := 0) else old(tasks[i])
    {
      var i := 0;
      while i < tasks.Length
        invariant 0 <= i <= tasks.Length
        invariant forall j :: 0 <= j < i ==> tasks[j] == if old(tasks[j]).live then old(tasks[j]).(epoch := 0) else old(tasks[j])
        invariant forall j :: i <= j < tasks.Length ==> tasks[j] == old(tasks[j])
      {
        if tasks[i].live {
          tasks[i] := tasks[i].(epoch := 0);
        }
        i := i + 1;
      }
    }

    /** The next number, which no address space has had since the last full flush. */
    method Give(i: nat)
      requires Sound() && i < tasks.Length && tasks[i].live && next <= MAX_ASID
      modifies this`next, this`owner, tasks
      ensures Sound() && next == old(next) + 1 && tasks[..] == old(tasks[..])[i := old(tasks[i]).(asid := old(next), epoch := epoch)]
      ensures old(next) !in old(owner) && owner == old(owner)[old(next) := tasks[i].space]
    {
      hide Owned, TasksOk, TlbOk;
      ghost var ts := tasks[..];
      Given(ts, epoch, next, owner, spaces, tlb, i);
      owner := owner[next := tasks[i].space];
      tasks[i] := tasks[i].(asid := next, epoch := epoch);
      next := next + 1;
      assert tasks[..] == ts[i := ts[i].(asid := next - 1, epoch := epoch)];
    }

    /** `task_alloc_asid` for the task in slot `i`. */
    method AllocFor(i: nat)
      requires Sound() && i < tasks.Length && tasks[i].live && (current < tasks.Length ==> tasks[current].live)
      modifies this`next, this`epoch, this`loaded, this`tlb, this`owner, this`flushes, tasks
      ensures Sound() && Current(tasks[i], epoch) && NoReuse() && flushes == old(flushes) + if old(next) > MAX_ASID then 1 else 0
      ensures forall j :: 0 <= j < tasks.Length ==> tasks[j].live == old(tasks[j]).live && tasks[j].space == old(tasks[j]).space
      ensures flushes == old(flushes) ==> epoch == old(epoch) && loaded == old(loaded) && forall j :: 0 <= j < tasks.Length && j != i ==> tasks[j] == old(tasks[j])
      ensures flushes > old(flushes) && current < tasks.Length && current != i ==> Current(tasks[current], epoch) && loaded == Loaded(tasks[current].asid, tasks[current].space)
      ensures current == tasks.Length ==> loaded == old(loaded)
    {
      hide Owned, TasksOk, TlbOk;
      if next < MIN_ASID || next > MAX_ASID {
        Rollover();
      }
      Give(i);
    }

    /** `task_alloc`: the first unused slot becomes a task with an address space of its own. */
    method TaskAlloc() returns (i: nat)
      requires Valid()
      modifies this`next, this`epoch, this`loaded, this`tlb, this`owner, this`flushes, this`spaces, tasks
      ensures Valid() && NoReuse() && i <= tasks.Length
      ensures i < tasks.Length ==> !old(tasks[i]).live && Current(tasks[i], epoch) && tasks[i].space == old(spaces)
      ensures i == tasks.Length ==> tasks[..] == old(tasks[..]) && flushes == old(flushes) && forall j :: 0 <= j < tasks.Length ==> tasks[j].live
      ensures forall j :: 0 <= j < i ==> old(tasks[j]).live
      ensures forall j :: 0 <= j < tasks.Length && j != i ==> tasks[j].live == old(tasks[j]).live && tasks[j].space == old(tasks[j]).space
      ensures i < tasks.Length ==> flushes == old(flushes) + if old(next) > MAX_ASID then 1 else 0
    {
      i := 0;
      while i < tasks.Length && tasks[i].live
        invariant 0 <= i <= tasks.Length && forall j :: 0 <= j < i ==> tasks[j].live
      {
        i := i + 1;
      }
      if i == tasks.Length {
        return;
      }
      NewTask(i);
      AllocFor(i);
    }

    /** The end of `task_schedule`: the chosen task gets a number of this epoch and runs. */
    method Switch(j: nat)
      requires Valid() && j < tasks.Length && tasks[j].live
      modifies this`current, this`next, this`epoch, this`loaded, this`tlb, this`owner, this`flushes, tasks
      ensures Valid() && current == j && NoReuse()
      ensures loaded == Loaded(tasks[j].asid, old(tasks[j]).space)
      ensures flushes == old(flushes) + if old(tasks[j]).epoch != old(epoch) && old(next) > MAX_ASID then 1 else 0
      ensures old(tasks[j]).epoch == old(epoch) ==> tasks[..] == old(tasks[..]) && tlb == old(tlb)
      ensures forall k :: 0 <= k < tasks.Length ==> tasks[k].live == old(tasks[k]).live && tasks[k].space == old(tasks[k]).space
    {
      hide Owned, TasksOk, TlbOk;
      current := j;
      if tasks[j].epoch != epoch {
        AllocFor(j);
      }
      loaded := Loaded(tasks[j].asid, tasks[j].space);
    }

    /** `task_release` of a task that is not running: its translations are flushed. */
    method Release(i: nat)
      requires Valid() && i < tasks.Length && i != current && tasks[i].live
      modifies this`tlb, tasks
      ensures Valid() && !tasks[i].live && forall e :: e in tlb <==> e in old(tlb) && e.0 != old(tasks[i]).asid
      ensures forall k :: 0 <= k < tasks.Length && k != i ==> tasks[k] == old(tasks[k])
    {
      tlb := set e | e in tlb && e.0 != tasks[i].asid;
      ghost var ts := tasks[..];
      tasks[i] := Task(false, 0, 0, 0);
      assert tasks[..] == ts[i := Task(false, 0, 0, 0)];
    }

    /** User code runs: translations of the loaded address space are cached under the loaded
        number. They never contradict what the TLB has. */
    ghost method Run()
      requires Valid()
      modifies this`tlb
      ensures Valid() && loaded == old(loaded) && tlb == old(tlb) + if loaded.Loaded? then {(loaded.asid, loaded.space)} else {}
      ensures loaded.Loaded? ==> forall e :: e in tlb && e.0 == loaded.asid ==> e.1 == loaded.space
    {
      if loaded.Loaded? {
        assert tasks[..][current] == tasks[current];
        tlb := tlb + {(loaded.asid, loaded.space)};
      }
    }

    method NewTask(i: nat)
      requires Valid() && i < tasks.Length && !tasks[i].live
      modifies tasks, this`spaces
      ensures Valid() && spaces == old(spaces) + 1 && tasks[..] == old(tasks[..])[i := Task(true, 0, 0, old(spaces))]
    {
      hide Owned, TasksOk, TlbOk;
      ghost var ts := tasks[..];
      Added(ts, epoch, next, owner, spaces, i);
      tasks[i] := Task(true, 0, 0, spaces);
      spaces := spaces + 1;
      assert tasks[..] == ts[i := Task(true, 0, 0, spaces - 1)];
    }
  }
}
