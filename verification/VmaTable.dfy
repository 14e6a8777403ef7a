/** The area table of a task, changed in place: mmap, munmap and mprotect of kernel/task.c. */
module VmaTable {
  import opened Vmas

  class Table {
    const vmas: array<Vma>

    constructor (max: nat)
      ensures Valid() && fresh(vmas) && vmas.Length == max && forall a: nat :: Seen(a) == None
      ensures forall i :: 0 <= i < max ==> vmas[i] == FREE
    {
      vmas := new Vma[max](_ => FREE);
      new;
      forall a: nat ensures Seen(a) == None {
        ViewNone(vmas[..], a);
      }
    }

    ghost predicate Valid() reads this, vmas { Ok(vmas[..]) }

    ghost function Seen(a: nat): Option<Info> reads this, vmas { View(vmas[..], a) }

    /** `task_vma_slot`. */
    method FindSlot() returns (k: nat)
      ensures k <= vmas.Length && (forall i :: 0 <= i < k ==> vmas[i].used) && (k < vmas.Length ==> !vmas[k].used)
      ensures k < vmas.Length <==> FreeCount(vmas[..]) > 0
    {
      k := 0;
      while k < vmas.Length && vmas[k].used
        invariant 0 <= k <= vmas.Length && forall i :: 0 <= i < k ==> vmas[i].used
      {
        k := k + 1;
      }
      FreeSome(vmas[..]);
      if k < vmas.Length {
        assert !vmas[..][k].used;
      }
    }

    /** `task_vma_find`. */
    method Find(a: nat) returns (k: nat)
      requires Valid()
      ensures k <= vmas.Length && (k < vmas.Length ==> Holds(vmas[k], a) && Seen(a) == Some(InfoAt(vmas[k], a)))
      ensures k == vmas.Length ==> Seen(a) == None
    {
      k := 0;
      while k < vmas.Length && !Holds(vmas[k], a)
        invariant 0 <= k <= vmas.Length && forall i :: 0 <= i < k ==> !Holds(vmas[i], a)
      {
        k := k + 1;
      }
      if k < vmas.Length {
        ViewFirst(vmas[..], k, a);
      } else {
        ViewNone(vmas[..], a);
      }
    }

    /** `task_vma_range_mapped`. */
    method RangeMapped(lo: nat, hi: nat) returns (ok: bool)
      requires Valid()
      ensures ok <==> lo < hi && Mapped(vmas[..], lo, hi)
    {
      if lo >= hi {
        return false;
      }
      var cur := lo;
      while cur < hi
        invariant lo <= cur <= hi && forall a: nat :: lo <= a < cur ==> View(vmas[..], a).Some?
        decreases hi - cur
      {
        var k := Find(cur);
        if k == vmas.Length {
          assert View(vmas[..], cur) == None;
          return false;
        }
        var v := vmas[k];
        var next := if v.end < hi then v.end else hi;
        forall a: nat | cur <= a < next ensures View(vmas[..], a).Some? {
          ViewIs(vmas[..], k, a);
        }
        cur := next;
      }
      ok := true;
    }

    /** `task_vma_free_slots`. */
    method FreeSlots() returns (n: nat)
      ensures n == FreeCount(vmas[..])
    {
      n := 0;
      var i := 0;
      while i < vmas.Length
        invariant 0 <= i <= vmas.Length && n == FreeCount(vmas[..i])
      {
        assert vmas[..i + 1][..i] == vmas[..i];
        if !vmas[i].used {
          n := n + 1;
        }
        i := i + 1;
      }
      assert vmas[..i] == vmas[..];
    }

    /** `task_vma_split_need`. */
    method SplitNeed(lo: nat, hi: nat) returns (n: nat)
      requires lo < hi
      ensures n == InnerCount(vmas[..], lo, hi)
    {
      n := 0;
      var i := 0;
      while i < vmas.Length
        invariant 0 <= i <= vmas.Length && n == InnerCount(vmas[..i], lo, hi)
      {
        assert vmas[..i + 1][..i] == vmas[..i];
        var v := vmas[i];
        if v.used && !(hi <= v.start || lo >= v.end) {
          var cutLo := if lo > v.start then lo else v.start;
          var cutHi := if hi < v.end then hi else v.end;
          if cutLo > v.start && cutHi < v.end {
            n := n + 1;
          }
        }
        i := i + 1;
      }
      assert vmas[..i] == vmas[..];
    }

    /** One area of the loop in `task_vma_unmap_range`. */
    method CutArea(i: nat, lo: nat, hi: nat) returns (ok: bool, ghost k: nat)
      requires Valid() && i < vmas.Length && Range(lo, hi)
      modifies vmas
      ensures ok <==> !Inner(old(vmas[i]), lo, hi) || FreeCount(old(vmas[..])) > 0
      ensures ok ==> k < vmas.Length && (Inner(old(vmas[i]), lo, hi) ==> !old(vmas[..])[k].used)
      ensures vmas[..] == if ok then Cut(old(vmas[..]), i, lo, hi, k) else old(vmas[..])
    {
      ok, k := true, 0;
      var v := vmas[i];
      if !v.used || hi <= v.start || lo >= v.end {
        return;
      }
      var cutLo := if lo > v.start then lo else v.start;
      var cutHi := if hi < v.end then hi else v.end;
      if cutLo <= v.start && cutHi >= v.end {
        vmas[i] := FREE;
      } else if cutLo <= v.start {
        vmas[i] := v.(start := cutHi, off := v.off + (cutHi - cutLo));
      } else if cutHi >= v.end {
        vmas[i] := v.(end := cutLo);
      } else {
        var slot := FindSlot();
        if slot == vmas.Length {
          return false, 0;
        }
        k := slot;
        vmas[slot] := v.(start := cutHi, off := v.off + (cutHi - v.start));
        vmas[i] := v.(end := cutLo);
      }
    }

    /** `task_vma_unmap_range`: refused up front or done to the end. */
    method UnmapRange(lo: nat, hi: nat) returns (ok: bool)
      requires Valid() && Aligned(lo) && Aligned(hi)
      modifies vmas
      ensures Valid()
      ensures ok <==> lo < hi && InnerCount(old(vmas[..]), lo, hi) <= FreeCount(old(vmas[..]))
      ensures ok ==> forall a: nat :: Seen(a) == if lo <= a < hi then None else old(Seen(a))
      ensures ok ==> FreeCount(vmas[..]) + InnerCount(old(vmas[..]), lo, hi) == FreeCount(old(vmas[..])) + CoveredCount(old(vmas[..]), lo, hi)
      ensures !ok ==> vmas[..] == old(vmas[..])
    {
      if lo >= hi {
        return false;
      }
      var need := SplitNeed(lo, hi);
      var free := FreeSlots();
      if free < need {
        return false;
      }
      ghost var s0 := vmas[..];
      var i := 0;
      InnerStart(s0, lo, hi);
      while i < vmas.Length
        invariant 0 <= i <= vmas.Length && CutSoFar(s0, vmas[..], lo, hi, i)
      {
        ghost var s := vmas[..];
        var done, k := CutArea(i, lo, hi);
        CutNext(s0, s, lo, hi, i, k, done);
        i := i + 1;
      }
      CutAll(s0, vmas[..], lo, hi);
      ok := true;
    }

    /** The page range of a system call: from `addr`, `len` bytes, rounded up in 64 bits. */
    method PageRange(addr: nat, len: nat) returns (ok: bool, end: nat)
      requires addr < TOP && len < TOP
      ensures ok <==> len > 0 && Aligned(addr) && addr + len + PAGE <= TOP
      ensures ok ==> Range(addr, end) && end - PAGE < addr + len <= end
    {
      end := 0;
      if len == 0 || !Aligned(addr) {
        return false, 0;
      }
      var raw := (addr + len) % TOP;
      if raw < addr {
        return false, 0;
      }
      end := AlignUp(raw);
      AlignUpIs(raw);
      if end <= addr {
        return false, end;
      }
      ok := true;
    }

    /** `task_munmap`. */
    method Munmap(addr: nat, len: nat) returns (ok: bool, ghost end: nat)
      requires Valid() && addr < TOP && len < TOP
      modifies vmas
      ensures Valid()
      ensures ok <==> len > 0 && Aligned(addr) && addr + len + PAGE <= TOP && InnerCount(old(vmas[..]), addr, end) <= FreeCount(old(vmas[..]))
      ensures ok ==> Range(addr, end) && end - PAGE < addr + len <= end
      ensures ok ==> forall a: nat :: Seen(a) == if addr <= a < end then None else old(Seen(a))
      ensures !ok ==> vmas[..] == old(vmas[..])
    {
      hide Ok, View, InnerCount, FreeCount, CoveredCount;
      var hi;
      ok, hi := PageRange(addr, len);
      end := hi;
      if ok {
        ok := UnmapRange(addr, hi);
      }
    }

    /** `task_vma_split_at`. */
    method SplitAt(at: nat) returns (ok: bool)
      requires Valid()
      modifies vmas
      ensures Valid()
      ensures forall a: nat :: View(vmas[..], a) == View(old(vmas[..]), a)
      ensures ok <==> Aligned(at) && InsideCount(old(vmas[..]), at) <= FreeCount(old(vmas[..]))
      ensures ok ==> FreeCount(vmas[..]) + InsideCount(old(vmas[..]), at) == FreeCount(old(vmas[..]))
      ensures ok ==> forall x: nat :: InsideCount(vmas[..], x) == if x == at then 0 else InsideCount(old(vmas[..]), x)
      ensures !ok ==> vmas[..] == old(vmas[..])
    {
      if !Aligned(at) {
        return false;
      }
      ghost var s := vmas[..];
      InsideZero(s, at);
      InsideOne(s, at);
      var i := 0;
      while i < vmas.Length && !Inside(vmas[i], at)
        invariant 0 <= i <= vmas.Length && vmas[..] == s
        invariant forall j :: 0 <= j < i ==> !Inside(s[j], at)
      {
        i := i + 1;
      }
      if i == vmas.Length {
        return true;
      }
      var v := vmas[i];
      var slot := FindSlot();
      if slot == vmas.Length {
        assert Inside(s[i], at);
        return false;
      }
      vmas[slot] := v.(start := at, off := v.off + (at - v.start));
      vmas[i] := v.(end := at);
      assert vmas[..] == Split(s, i, at, slot);
      AfterSplit(s, i, at, slot);
      ok := true;
    }

    method MayWrite(lo: nat, hi: nat, locked: set<nat>) returns (ok: bool)
      ensures ok <==> !Refused(vmas[..], lo, hi, locked)
    {
      ghost var s := vmas[..];
      var i := 0;
      while i < vmas.Length
        invariant 0 <= i <= vmas.Length
        invariant forall j :: 0 <= j < i ==> !(Overlaps(s[j], lo, hi) && Locked(s[j], locked))
      {
        if Overlaps(vmas[i], lo, hi) && Locked(vmas[i], locked) {
          assert Overlaps(s[i], lo, hi) && Locked(s[i], locked);
          return false;
        }
        i := i + 1;
      }
      ok := true;
    }

    /** The slots that two splits will take. */
    method NeedSlots(lo: nat, hi: nat) returns (n: nat)
      ensures n == InsideCount(vmas[..], lo) + InsideCount(vmas[..], hi)
    {
      n := 0;
      var i := 0;
      while i < vmas.Length
        invariant 0 <= i <= vmas.Length && n == InsideCount(vmas[..i], lo) + InsideCount(vmas[..i], hi)
      {
        assert vmas[..i + 1][..i] == vmas[..i];
        if Inside(vmas[i], lo) {
          n := n + 1;
        }
        if Inside(vmas[i], hi) {
          n := n + 1;
        }
        i := i + 1;
      }
      assert vmas[..i] == vmas[..];
    }

    /** Every area inside the range gets the protection. */
    method SetProt(lo: nat, hi: nat, prot: nat)
      modifies vmas
      ensures forall i :: 0 <= i < vmas.Length ==> vmas[i] == Reprotected(old(vmas[i]), lo, hi, prot)
    {
      var i := 0;
      while i < vmas.Length
        invariant 0 <= i <= vmas.Length
        invariant forall j :: 0 <= j < i ==> vmas[j] == Reprotected(old(vmas[j]), lo, hi, prot)
        invariant forall j :: i <= j < vmas.Length ==> vmas[j] == old(vmas[j])
      {
        if vmas[i].used && vmas[i].start >= lo && vmas[i].end <= hi {
          vmas[i] := vmas[i].(prot := prot);
        }
        i := i + 1;
      }
    }

    /** The areas' part of `task_mprotect`: the range gets the protection and nothing else changes. */
    method ProtectAreas(addr: nat, len: nat, prot: nat, locked: set<nat>) returns (ok: bool, end: nat)
      requires Valid() && addr < TOP && len < TOP
      modifies vmas
      ensures Valid()
      ensures ok <==> Allows(old(vmas[..]), addr, len, end, prot, locked)
      ensures len > 0 && Aligned(addr) && addr + len + PAGE <= TOP ==> Range(addr, end) && end - PAGE < addr + len <= end
      ensures ok ==> forall a: nat :: Seen(a) == if addr <= a < end then WithProt(old(Seen(a)), prot) else old(Seen(a))
      ensures !ok ==> vmas[..] == old(vmas[..])
    {
      hide Ok, View, InsideCount, FreeCount, Mapped, Refused, Aligned;
      var hi;
      ok, hi := PageRange(addr, len);
      end := hi;
      if !ok || prot >= 8 {
        return false, hi;
      }
      ok := RangeMapped(addr, hi);
      if !ok {
        return;
      }
      if Writes(prot) {
        ok := MayWrite(addr, hi, locked);
        if !ok {
          return;
        }
      }
      var need := NeedSlots(addr, hi);
      var free := FreeSlots();
      if free < need {
        return false, hi;
      }
      var first := SplitAt(addr);
      var second := SplitAt(hi);
      ghost var s := vmas[..];
      NoneInside(s, addr, hi);
      SetProt(addr, hi, prot);
      ReprotectOk(s, vmas[..], addr, hi, prot);
      forall a: nat
        ensures View(vmas[..], a) == if addr <= a < hi then WithProt(View(old(vmas[..]), a), prot) else View(old(vmas[..]), a)
      {
        ReprotectView(s, vmas[..], addr, hi, prot, a);
      }
      ok := first && second;
    }

    /** `task_vma_overlaps`. */
    method Taken(lo: nat, hi: nat) returns (b: bool)
      requires Valid() && lo < hi
      ensures b <==> !Empty(vmas[..], lo, hi)
      ensures !b ==> forall j :: 0 <= j < vmas.Length ==> !Overlaps(vmas[..][j], lo, hi)
    {
      hide Ok, View, Empty;
      ghost var s := vmas[..];
      OverlapSeen(s, lo, hi);
      var i := 0;
      while i < vmas.Length
        invariant 0 <= i <= vmas.Length && forall j :: 0 <= j < i ==> !Overlaps(s[j], lo, hi)
      {
        if Overlaps(vmas[i], lo, hi) {
          assert Overlaps(s[i], lo, hi);
          return true;
        }
        i := i + 1;
      }
      b := false;
    }

    /** A new area over a range where nothing is mapped. */
    method Place(lo: nat, hi: nat, info: Info) returns (ok: bool, ghost k: nat)
      requires Valid() && Range(lo, hi) && forall j :: 0 <= j < vmas.Length ==> !Overlaps(vmas[..][j], lo, hi)
      modifies vmas
      ensures Valid()
      ensures ok <==> FreeCount(old(vmas[..])) > 0
      ensures ok ==> k < vmas.Length && !old(vmas[..])[k].used && forall i :: 0 <= i < k ==> old(vmas[..])[i].used
      ensures ok ==> vmas[..] == old(vmas[..])[k := Vma(true, lo, hi, info.off, info.file, info.prot, info.flags)]
      ensures ok ==> forall a: nat :: Seen(a) == if lo <= a < hi then Some(info.(off := info.off + (a - lo))) else old(Seen(a))
      ensures !ok ==> vmas[..] == old(vmas[..])
    {
      hide Ok, View, FreeCount;
      ghost var s := vmas[..];
      var slot := FindSlot();
      k := slot;
      if slot == vmas.Length {
        return false, slot;
      }
      var v := Vma(true, lo, hi, info.off, info.file, info.prot, info.flags);
      vmas[slot] := v;
      assert vmas[..] == s[k := v];
      FillView(s, k, v, lo);
      forall a: nat ensures Seen(a) == if lo <= a < hi then Some(InfoAt(v, a)) else View(s, a) {
        FillView(s, k, v, a);
      }
      ok := true;
    }

    /** `task_mmap` with MAP_FIXED, once its arguments are accepted. When it is refused, the
        range may be gone: exactly when unmapping went through and left no slot. */
    method MapFixed(lo: nat, hi: nat, info: Info) returns (ok: bool)
      requires Valid() && Range(lo, hi)
      modifies vmas
      ensures Valid()
      ensures ok <==> Unmaps(old(vmas[..]), lo, hi) && LeavesSlot(old(vmas[..]), lo, hi)
      ensures ok ==> forall a: nat :: Seen(a) == if lo <= a < hi then Some(info.(off := info.off + (a - lo))) else old(Seen(a))
      ensures !ok && !Unmaps(old(vmas[..]), lo, hi) ==> vmas[..] == old(vmas[..])
      ensures !ok && Unmaps(old(vmas[..]), lo, hi) ==> forall a: nat :: Seen(a) == if lo <= a < hi then None else old(Seen(a))
    {
      hide Ok, View, FreeCount, InnerCount, CoveredCount;
      ok := UnmapRange(lo, hi);
      if ok {
        assert Empty(vmas[..], lo, hi) by {
          forall a: nat | lo <= a < hi ensures View(vmas[..], a) == None {
            assert Seen(a) == None;
          }
        }
        OverlapSeen(vmas[..], lo, hi);
        ghost var k;
        ok, k := Place(lo, hi, info);
      }
    }

    /** `task_mmap` without MAP_FIXED: the highest gap below `top` that is not under `floor`. */
    method MapAnywhere(floor: nat, top: nat, len: nat, info: Info) returns (ok: bool, lo: nat)
      requires Valid() && 0 < len && Aligned(floor) && Aligned(top) && Aligned(len)
      modifies vmas
      ensures Valid()
      ensures ok ==> Gap(old(vmas[..]), floor, top, len, lo)
      ensures ok ==> forall x: nat :: x > lo ==> !Gap(old(vmas[..]), floor, top, len, x)
      ensures ok ==> forall a: nat :: Seen(a) == if lo <= a < lo + len then Some(info.(off := info.off + (a - lo))) else old(Seen(a))
      ensures !ok ==> vmas[..] == old(vmas[..])
      ensures !ok ==> FreeCount(vmas[..]) == 0 || forall x: nat :: !Gap(vmas[..], floor, top, len, x)
    {
      hide Ok, View, FreeCount, Empty, Aligned;
      lo := 0;
      if floor >= top || len > top - floor {
        return false, 0;
      }
      ghost var s := vmas[..];
      var cand := top - len;
      AlignedBelow(top, len);
      while true
        invariant floor <= cand <= top - len && Aligned(cand) && vmas[..] == s
        invariant forall x: nat :: x > cand ==> !Gap(s, floor, top, len, x)
        decreases cand
      {
        var taken := Taken(cand, cand + len);
        if !taken {
          break;
        }
        assert !Gap(s, floor, top, len, cand);
        AlignedGap(cand);
        if cand < floor + PAGE {
          return false, 0;
        }
        AlignedBelow(cand, PAGE);
        cand := cand - PAGE;
      }
      AlignedAbove(cand, len);
      ghost var k;
      ok, k := Place(cand, cand + len, info);
      lo := cand;
    }
  }

  lemma AlignedBelow(a: nat, n: nat)
    requires Aligned(a) && (Aligned(n) || n == PAGE) && n <= a
    ensures Aligned(a - n)
  {
  }

  lemma AlignedAbove(a: nat, n: nat)
    requires Aligned(a) && Aligned(n)
    ensures Aligned(a + n)
  {
  }

  lemma AlignedGap(a: nat)
    requires Aligned(a)
    ensures forall x: nat :: a - PAGE < x < a ==> !Aligned(x)
  {
  }

  /** An aligned place between `floor` and `top` where nothing is mapped. */
  ghost predicate Gap(s: seq<Vma>, floor: nat, top: nat, len: nat, x: nat) {
    floor <= x <= x + len <= top && Aligned(x) && Empty(s, x, x + len)
  }

  /** Enough slots to cut the range out. */
  ghost predicate Unmaps(s: seq<Vma>, lo: nat, hi: nat) { InnerCount(s, lo, hi) <= FreeCount(s) }

  /** A slot is free once it is cut out. */
  ghost predicate LeavesSlot(s: seq<Vma>, lo: nat, hi: nat) { InnerCount(s, lo, hi) < FreeCount(s) + CoveredCount(s, lo, hi) }

  lemma NoneInside(s: seq<Vma>, lo: nat, hi: nat)
    requires InsideCount(s, lo) == 0 && InsideCount(s, hi) == 0
    ensures forall i :: 0 <= i < |s| ==> !Inside(s[i], lo) && !Inside(s[i], hi)
  {
    InsideZero(s, lo);
    InsideZero(s, hi);
  }

  /** What mprotect asks of the areas and of its arguments. */
  ghost predicate Allows(s: seq<Vma>, addr: nat, len: nat, end: nat, prot: nat, locked: set<nat>) {
    && len > 0 && Aligned(addr) && prot < 8 && addr + len + PAGE <= TOP
    && Mapped(s, addr, end) && !(Writes(prot) && Refused(s, addr, end, locked))
    && InsideCount(s, addr) + InsideCount(s, end) <= FreeCount(s)
  }

  predicate Executes(prot: nat) { prot / 4 % 2 == 1 }

  predicate Writes(prot: nat) { prot / 2 % 2 == 1 }

  /** A shared mapping of a file that may not be written. */
  predicate Locked(v: Vma, locked: set<nat>) { v.flags % 2 == 1 && v.file != 0 && v.file in locked }

  predicate Refused(s: seq<Vma>, lo: nat, hi: nat, locked: set<nat>) {
    exists i :: 0 <= i < |s| && Overlaps(s[i], lo, hi) && Locked(s[i], locked)
  }

  /** The whole range is mapped. */
  ghost predicate Mapped(s: seq<Vma>, lo: nat, hi: nat) { forall a: nat :: lo <= a < hi ==> View(s, a).Some? }

  lemma AfterSplit(s: seq<Vma>, i: nat, at: nat, k: nat)
    requires Ok(s) && i < |s| && k < |s| && !s[k].used && Inside(s[i], at) && Aligned(at)
    ensures var t := Split(s, i, at, k);
            && Ok(t) && InsideCount(s, at) == 1 && FreeCount(t) + 1 == FreeCount(s)
            && (forall a: nat :: View(t, a) == View(s, a))
            && (forall x: nat :: InsideCount(t, x) == if x == at then 0 else InsideCount(s, x))
  {
    hide View, InsideCount, FreeCount, Ok;
    var t := Split(s, i, at, k);
    SplitView(s, i, at, k, at);
    SplitInside(s, i, at, k, at);
    InsideZero(s, at);
    InsideOne(s, at);
    forall a: nat ensures View(t, a) == View(s, a) {
      SplitView(s, i, at, k, a);
    }
    forall x: nat ensures InsideCount(t, x) == if x == at then 0 else InsideCount(s, x) {
      SplitInside(s, i, at, k, x);
    }
  }

  /** The state of the unmap loop before area `i`. */
  ghost predicate CutSoFar(s0: seq<Vma>, s: seq<Vma>, lo: nat, hi: nat, i: nat) {
    && |s| == |s0| && i <= |s| && Ok(s)
    && (forall a: nat :: View(s, a) == View(s0, a) || (lo <= a < hi && View(s, a) == None))
    && (forall j :: 0 <= j < i ==> !Overlaps(s[j], lo, hi))
    && (forall j :: 0 <= j < |s| && Inner(s[j], lo, hi) ==> FreeCount(s) > 0)
    && (forall j :: i <= j < |s| ==> s[j] == s0[j] || (!Overlaps(s[j], lo, hi) && !Overlaps(s0[j], lo, hi)))
    && FreeCount(s) + InnerCount(s0[..i], lo, hi) == FreeCount(s0) + CoveredCount(s0[..i], lo, hi)
  }

  lemma InnerStart(s: seq<Vma>, lo: nat, hi: nat)
    requires Ok(s) && InnerCount(s, lo, hi) <= FreeCount(s)
    ensures CutSoFar(s, s, lo, hi, 0)
  {
    InnerZero(s, lo, hi);
  }

  lemma CutNext(s0: seq<Vma>, s: seq<Vma>, lo: nat, hi: nat, i: nat, k: nat, done: bool)
    requires CutSoFar(s0, s, lo, hi, i) && Range(lo, hi) && i < |s|
    requires done <==> !Inner(s[i], lo, hi) || FreeCount(s) > 0
    requires done ==> k < |s| && (Inner(s[i], lo, hi) ==> !s[k].used)
    ensures done && CutSoFar(s0, Cut(s, i, lo, hi, k), lo, hi, i + 1)
  {
    hide View, FreeCount, Ok, Cut;
    var t := Cut(s, i, lo, hi, k);
    CutOk(s, i, lo, hi, k);
    forall a: nat ensures View(t, a) == View(s0, a) || (lo <= a < hi && View(t, a) == None) {
      CutView(s, i, lo, hi, k, a);
    }
    CutClears(s, i, lo, hi, k);
    forall j | 0 <= j < |t| && Inner(t[j], lo, hi) ensures FreeCount(t) > 0 {
      assert Overlaps(t[j], lo, hi);
      CutFree(s, i, lo, hi, k, j);
    }
    CutKeeps(s, i, lo, hi, k);
    CutCount(s, i, lo, hi, k);
    assert s0[..i + 1][..i] == s0[..i] && s0[..i + 1][i] == s0[i];
  }

  lemma CutKeeps(s: seq<Vma>, i: nat, lo: nat, hi: nat, k: nat)
    requires lo < hi && i < |s| && k < |s| && (Inner(s[i], lo, hi) ==> !s[k].used)
    ensures var t := Cut(s, i, lo, hi, k);
            forall j :: 0 <= j < |s| && j != i ==> t[j] == s[j] || (!Overlaps(t[j], lo, hi) && !Overlaps(s[j], lo, hi))
  {
  }

  /** While an area still needs splitting, cutting another one takes no slot. */
  lemma CutFree(s: seq<Vma>, i: nat, lo: nat, hi: nat, k: nat, j: nat)
    requires Ok(s) && lo < hi && i < |s| && j < |s| && k < |s| && i != j && Inner(s[j], lo, hi) && FreeCount(s) > 0
    ensures FreeCount(Cut(s, i, lo, hi, k)) > 0
  {
    if Overlaps(s[i], lo, hi) {
      OneInner(s, lo, hi, j, i);
    }
  }

  lemma CutAll(s0: seq<Vma>, s: seq<Vma>, lo: nat, hi: nat)
    requires CutSoFar(s0, s, lo, hi, |s|)
    ensures FreeCount(s) + InnerCount(s0, lo, hi) == FreeCount(s0) + CoveredCount(s0, lo, hi)
    ensures forall a: nat :: View(s, a) == if lo <= a < hi then None else View(s0, a)
  {
    forall a: nat ensures View(s, a) == if lo <= a < hi then None else View(s0, a) {
      if lo <= a < hi {
        ViewNone(s, a);
      }
    }
    assert s0[..|s|] == s0;
  }
}
