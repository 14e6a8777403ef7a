/** The memory areas of a task (kernel/task.c) as values: what the table of areas says about
    each address, and what cutting, splitting and filling a slot does to that. */
module Vmas {

  const PAGE: nat := 4096
  const TOP: nat := 0x1_0000_0000_0000_0000

  datatype Option<T> = None | Some(value: T)

  /** A slot of the table; `file` is 0 for anonymous memory. */
  datatype Vma = Vma(used: bool, start: nat, end: nat, off: nat, file: nat, prot: nat, flags: nat)

  const FREE: Vma := Vma(false, 0, 0, 0, 0, 0, 0)

  /** What is mapped at one address. */
  datatype Info = Info(file: nat, off: nat, prot: nat, flags: nat)

  predicate Holds(v: Vma, a: nat) { v.used && v.start <= a < v.end }

  function InfoAt(v: Vma, a: nat): Info
    requires v.start <= a
  {
    Info(v.file, v.off + (a - v.start), v.prot, v.flags)
  }

  /** The first area that holds the address, as `task_vma_find` picks it. */
  function View(s: seq<Vma>, a: nat): Option<Info>
    decreases |s|
  {
    if s == [] then None
    else if Holds(s[0], a) then Some(InfoAt(s[0], a))
    else View(s[1..], a)
  }

  predicate Aligned(x: nat) { x % PAGE == 0 }

  ghost predicate Good(v: Vma) { v.used ==> v.start < v.end && Aligned(v.start) && Aligned(v.end) }

  ghost predicate Apart(v: Vma, w: Vma) { !v.used || !w.used || v.end <= w.start || w.end <= v.start }

  /** Areas are page-aligned and pairwise disjoint. */
  ghost predicate Ok(s: seq<Vma>) {
    && (forall i :: 0 <= i < |s| ==> Good(s[i]))
    && (forall i, j :: 0 <= i < j < |s| ==> Apart(s[i], s[j]))
  }

  lemma {:induction false} ViewNone(s: seq<Vma>, a: nat)
    requires forall i :: 0 <= i < |s| ==> !Holds(s[i], a)
    ensures View(s, a) == None
    decreases |s|
  {
    if s != [] {
      ViewNone(s[1..], a);
    }
  }

  lemma {:induction false} ViewFirst(s: seq<Vma>, i: nat, a: nat)
    requires i < |s| && Holds(s[i], a) && forall j :: 0 <= j < i ==> !Holds(s[j], a)
    ensures View(s, a) == Some(InfoAt(s[i], a))
    decreases i
  {
    if i > 0 {
      ViewFirst(s[1..], i - 1, a);
    }
  }

  /** With disjoint areas, whichever area holds the address is the one seen. */
  lemma ViewIs(s: seq<Vma>, i: nat, a: nat)
    requires Ok(s) && i < |s| && Holds(s[i], a)
    ensures View(s, a) == Some(InfoAt(s[i], a)) && forall j :: 0 <= j < |s| && j != i ==> !Holds(s[j], a)
  {
    forall j | 0 <= j < |s| && j != i ensures !Holds(s[j], a) {
      assert Apart(s[if i < j then i else j], s[if i < j then j else i]);
    }
    ViewFirst(s, i, a);
  }

  /** Changing one slot changes the view only where the old or the new area lies. */
  lemma UpdateView(s: seq<Vma>, i: nat, v: Vma, a: nat)
    requires i < |s| && Ok(s) && Ok(s[i := v])
    ensures View(s[i := v], a) ==
            if Holds(v, a) then Some(InfoAt(v, a)) else if Holds(s[i], a) then None else View(s, a)
  {
    hide View;
    var t := s[i := v];
    if Holds(v, a) {
      ViewIs(t, i, a);
    } else if Holds(s[i], a) {
      ViewIs(s, i, a);
      ViewNone(t, a);
    } else if j :| 0 <= j < |s| && Holds(s[j], a) {
      ViewIs(s, j, a);
      ViewIs(t, j, a);
    } else {
      ViewNone(s, a);
      ViewNone(t, a);
    }
  }

  lemma UpdateOk(s: seq<Vma>, i: nat, v: Vma)
    requires Ok(s) && i < |s| && Good(v) && forall j :: 0 <= j < |s| && j != i ==> Apart(s[j], v)
    ensures Ok(s[i := v])
  {
    var t := s[i := v];
    forall j, k | 0 <= j < k < |t| ensures Apart(t[j], t[k]) {
      if j != i && k != i {
        assert Apart(s[j], s[k]);
      }
    }
  }

  /** A part of an area, or nothing, may replace it. */
  lemma ShrinkOk(s: seq<Vma>, i: nat, v: Vma)
    requires Ok(s) && i < |s| && Good(v) && (v.used ==> s[i].used && s[i].start <= v.start && v.end <= s[i].end)
    ensures Ok(s[i := v])
  {
    forall j | 0 <= j < |s| && j != i ensures Apart(s[j], v) {
      assert Apart(s[if i < j then i else j], s[if i < j then j else i]);
    }
    UpdateOk(s, i, v);
  }

  // ---- cutting a range out of one area ----

  predicate Overlaps(v: Vma, lo: nat, hi: nat) { v.used && v.start < hi && lo < v.end }

  /** The range lies strictly inside the area. */
  predicate Inner(v: Vma, lo: nat, hi: nat) { v.used && v.start < lo && hi < v.end }

  function Upper(v: Vma, at: nat): Vma
    requires v.start <= at
  {
    v.(start := at, off := v.off + (at - v.start))
  }

  /** What is left of the area below and above the range; `k` takes the upper part when both are left. */
  function Cut(s: seq<Vma>, i: nat, lo: nat, hi: nat, k: nat): seq<Vma>
    requires i < |s| && k < |s| && lo < hi
  {
    var v := s[i];
    if !Overlaps(v, lo, hi) then s
    else if lo <= v.start && v.end <= hi then s[i := FREE]
    else if lo <= v.start then s[i := Upper(v, hi)]
    else if v.end <= hi then s[i := v.(end := lo)]
    else s[k := Upper(v, hi)][i := v.(end := lo)]
  }

  ghost predicate Range(lo: nat, hi: nat) { lo < hi && Aligned(lo) && Aligned(hi) }

  lemma CutOk(s: seq<Vma>, i: nat, lo: nat, hi: nat, k: nat)
    requires Ok(s) && Range(lo, hi) && i < |s| && k < |s| && (Inner(s[i], lo, hi) ==> !s[k].used)
    ensures Ok(Cut(s, i, lo, hi, k))
  {
    hide Ok, Aligned;
    OkAt(s, i);
    var v := s[i];
    if !Overlaps(v, lo, hi) {
    } else if lo <= v.start && v.end <= hi {
      ShrinkOk(s, i, FREE);
    } else if lo <= v.start {
      ShrinkOk(s, i, Upper(v, hi));
    } else if v.end <= hi {
      ShrinkOk(s, i, v.(end := lo));
    } else {
      SplitOk(s, i, lo, hi, k);
    }
  }

  lemma OkAt(s: seq<Vma>, i: nat)
    requires Ok(s) && i < |s|
    ensures Good(s[i])
  {
  }

  /** Shortening an area and putting its upper part in a free slot. */
  lemma SplitOk(s: seq<Vma>, i: nat, lo: nat, hi: nat, k: nat)
    requires Ok(s) && i < |s| && k < |s| && !s[k].used && s[i].used && s[i].start < lo <= hi < s[i].end && Aligned(lo) && Aligned(hi)
    ensures Ok(s[i := s[i].(end := lo)]) && Ok(s[k := Upper(s[i], hi)][i := s[i].(end := lo)])
    ensures s[k := Upper(s[i], hi)][i := s[i].(end := lo)] == s[i := s[i].(end := lo)][k := Upper(s[i], hi)]
  {
    var v, u := s[i].(end := lo), Upper(s[i], hi);
    OkAt(s, i);
    ShrinkOk(s, i, v);
    var t := s[i := v];
    forall j | 0 <= j < |t| && j != k ensures Apart(t[j], u) {
      if j != i {
        assert Apart(s[if i < j then i else j], s[if i < j then j else i]);
      }
    }
    UpdateOk(t, k, u);
    assert s[k := u][i := v] == t[k := u];
  }

  /** Cutting empties exactly the part of the range that lay in the area. */
  lemma CutView(s: seq<Vma>, i: nat, lo: nat, hi: nat, k: nat, a: nat)
    requires Ok(s) && Range(lo, hi) && i < |s| && k < |s| && (Inner(s[i], lo, hi) ==> !s[k].used)
    ensures View(Cut(s, i, lo, hi, k), a) == if lo <= a < hi && Holds(s[i], a) then None else View(s, a)
  {
    hide Ok, View, Aligned;
    CutOk(s, i, lo, hi, k);
    var v := s[i];
    if Holds(v, a) {
      ViewIs(s, i, a);
    }
    if !Overlaps(v, lo, hi) {
    } else if lo <= v.start && v.end <= hi {
      UpdateView(s, i, FREE, a);
    } else if lo <= v.start {
      UpdateView(s, i, Upper(v, hi), a);
    } else if v.end <= hi {
      UpdateView(s, i, v.(end := lo), a);
    } else {
      SplitOk(s, i, lo, hi, k);
      var w := v.(end := lo);
      UpdateView(s, i, w, a);
      UpdateView(s[i := w], k, Upper(v, hi), a);
    }
  }

  /** Afterwards the slot is clear of the range, and no slot got in its way. */
  lemma CutClears(s: seq<Vma>, i: nat, lo: nat, hi: nat, k: nat)
    requires Range(lo, hi) && i < |s| && k < |s| && (Inner(s[i], lo, hi) ==> !s[k].used)
    ensures var t := Cut(s, i, lo, hi, k);
            && |t| == |s| && !Overlaps(t[i], lo, hi)
            && forall j :: 0 <= j < |s| && Overlaps(t[j], lo, hi) ==> t[j] == s[j]
  {
  }

  /** At most one area has the whole range strictly inside. */
  lemma OneInner(s: seq<Vma>, lo: nat, hi: nat, i: nat, j: nat)
    requires Ok(s) && lo < hi && i < |s| && j < |s| && Inner(s[i], lo, hi) && Overlaps(s[j], lo, hi)
    ensures i == j
  {
  }

  // ---- counting ----

  function FreeCount(s: seq<Vma>): nat
    decreases |s|
  {
    if s == [] then 0 else FreeCount(s[..|s| - 1]) + if s[|s| - 1].used then 0 else 1
  }

  function InnerCount(s: seq<Vma>, lo: nat, hi: nat): nat
    decreases |s|
  {
    if s == [] then 0 else InnerCount(s[..|s| - 1], lo, hi) + if Inner(s[|s| - 1], lo, hi) then 1 else 0
  }

  /** An address strictly inside an area. */
  predicate Inside(v: Vma, at: nat) { v.used && v.start < at < v.end }

  function InsideCount(s: seq<Vma>, at: nat): nat
    decreases |s|
  {
    if s == [] then 0 else InsideCount(s[..|s| - 1], at) + if Inside(s[|s| - 1], at) then 1 else 0
  }

  lemma {:induction false} FreeUpdate(s: seq<Vma>, i: nat, v: Vma)
    requires i < |s|
    ensures FreeCount(s[i := v]) + (if s[i].used then 0 else 1) == FreeCount(s) + if v.used then 0 else 1
    decreases |s|
  {
    var n, t := |s| - 1, s[i := v];
    if i == n {
      assert t[..n] == s[..n];
    } else {
      assert t[..n] == s[..n][i := v];
      FreeUpdate(s[..n], i, v);
    }
  }

  lemma {:induction false} FreeSome(s: seq<Vma>)
    ensures FreeCount(s) > 0 <==> exists i :: 0 <= i < |s| && !s[i].used
    decreases |s|
  {
    if s != [] {
      var n := |s| - 1;
      FreeSome(s[..n]);
      if i :| 0 <= i < n && !s[i].used {
        assert !s[..n][i].used;
      }
      if i :| 0 <= i < n && !s[..n][i].used {
        assert !s[i].used;
      }
    }
  }

  lemma {:induction false} InnerZero(s: seq<Vma>, lo: nat, hi: nat)
    ensures InnerCount(s, lo, hi) == 0 <==> forall i :: 0 <= i < |s| ==> !Inner(s[i], lo, hi)
    decreases |s|
  {
    if s != [] {
      var n := |s| - 1;
      InnerZero(s[..n], lo, hi);
      assert (forall i :: 0 <= i < n ==> !Inner(s[..n][i], lo, hi)) <==> forall i :: 0 <= i < n ==> !Inner(s[i], lo, hi);
    }
  }

  lemma {:induction false} InsideZero(s: seq<Vma>, at: nat)
    ensures InsideCount(s, at) == 0 <==> forall i :: 0 <= i < |s| ==> !Inside(s[i], at)
    decreases |s|
  {
    if s != [] {
      var n := |s| - 1;
      InsideZero(s[..n], at);
      assert (forall i :: 0 <= i < n ==> !Inside(s[..n][i], at)) <==> forall i :: 0 <= i < n ==> !Inside(s[i], at);
    }
  }

  lemma {:induction false} InnerOne(s: seq<Vma>, lo: nat, hi: nat)
    requires Ok(s) && lo < hi
    ensures InnerCount(s, lo, hi) <= 1
    decreases |s|
  {
    if s != [] {
      var n := |s| - 1;
      InnerOne(s[..n], lo, hi);
      if Inner(s[n], lo, hi) {
        forall i | 0 <= i < n ensures !Inner(s[..n][i], lo, hi) {
          assert Apart(s[i], s[n]);
        }
        InnerZero(s[..n], lo, hi);
      }
    }
  }

  lemma {:induction false} InsideOne(s: seq<Vma>, at: nat)
    requires Ok(s)
    ensures InsideCount(s, at) <= 1
    decreases |s|
  {
    if s != [] {
      var n := |s| - 1;
      InsideOne(s[..n], at);
      if Inside(s[n], at) {
        forall i | 0 <= i < n ensures !Inside(s[..n][i], at) {
          assert Apart(s[i], s[n]);
        }
        InsideZero(s[..n], at);
      }
    }
  }

  /** An area that the range covers. */
  predicate Covered(v: Vma, lo: nat, hi: nat) { Overlaps(v, lo, hi) && lo <= v.start && v.end <= hi }

  function CoveredCount(s: seq<Vma>, lo: nat, hi: nat): nat
    decreases |s|
  {
    if s == [] then 0 else CoveredCount(s[..|s| - 1], lo, hi) + if Covered(s[|s| - 1], lo, hi) then 1 else 0
  }

  /** Cutting frees the slot of a covered area and takes one when it splits an area. */
  lemma CutCount(s: seq<Vma>, i: nat, lo: nat, hi: nat, k: nat)
    requires i < |s| && k < |s| && lo < hi && (Inner(s[i], lo, hi) ==> !s[k].used)
    ensures FreeCount(Cut(s, i, lo, hi, k)) + (if Inner(s[i], lo, hi) then 1 else 0)
         == FreeCount(s) + if Covered(s[i], lo, hi) then 1 else 0
  {
    hide FreeCount;
    var v := s[i];
    if Inner(v, lo, hi) {
      FreeUpdate(s, k, Upper(v, hi));
      FreeUpdate(s[k := Upper(v, hi)], i, v.(end := lo));
    } else if Covered(v, lo, hi) {
      FreeUpdate(s, i, FREE);
    } else if Overlaps(v, lo, hi) && lo <= v.start {
      FreeUpdate(s, i, Upper(v, hi));
    } else if Overlaps(v, lo, hi) {
      FreeUpdate(s, i, v.(end := lo));
    }
  }

  // ---- splitting an area, changing protection, filling a slot ----

  /** `task_vma_split_at`: the area ends at `at`, slot `k` takes the rest. */
  function Split(s: seq<Vma>, i: nat, at: nat, k: nat): seq<Vma>
    requires i < |s| && k < |s| && s[i].start <= at
  {
    s[k := Upper(s[i], at)][i := s[i].(end := at)]
  }

  /** Splitting is invisible. */
  lemma SplitView(s: seq<Vma>, i: nat, at: nat, k: nat, a: nat)
    requires Ok(s) && i < |s| && k < |s| && !s[k].used && Inside(s[i], at) && Aligned(at)
    ensures Ok(Split(s, i, at, k)) && View(Split(s, i, at, k), a) == View(s, a)
  {
    hide View;
    var w := s[i].(end := at);
    SplitOk(s, i, at, at, k);
    UpdateView(s, i, w, a);
    UpdateView(s[i := w], k, Upper(s[i], at), a);
    if Holds(s[i], a) {
      ViewIs(s, i, a);
    }
  }

  /** It leaves no area around `at`, and every other address as it was. */
  lemma SplitInside(s: seq<Vma>, i: nat, at: nat, k: nat, x: nat)
    requires Ok(s) && i < |s| && k < |s| && !s[k].used && Inside(s[i], at) && Aligned(at)
    ensures InsideCount(Split(s, i, at, k), x) == if x == at then 0 else InsideCount(s, x)
    ensures FreeCount(Split(s, i, at, k)) + 1 == FreeCount(s)
  {
    hide InsideCount, FreeCount, View;
    var t := Split(s, i, at, k);
    SplitView(s, i, at, k, at);
    InsideOne(s, x);
    InsideOne(t, x);
    InsideZero(s, x);
    InsideZero(t, x);
    FreeUpdate(s, k, Upper(s[i], at));
    FreeUpdate(s[k := Upper(s[i], at)], i, s[i].(end := at));
    if x == at {
      forall j | 0 <= j < |t| ensures !Inside(t[j], at) {
        if j != i && j != k {
          assert Apart(s[if i < j then i else j], s[if i < j then j else i]);
        }
      }
    } else if j :| 0 <= j < |s| && Inside(s[j], x) {
      assert Inside(t[if j != i then j else if x < at then i else k], x);
    } else {
      forall j | 0 <= j < |t| ensures !Inside(t[j], x) {
        assert !Inside(s[j], x) && !Inside(s[i], x);
      }
    }
  }

  function Reprotected(v: Vma, lo: nat, hi: nat, prot: nat): Vma {
    if v.used && lo <= v.start && v.end <= hi then v.(prot := prot) else v
  }

  function WithProt(o: Option<Info>, prot: nat): Option<Info> {
    if o.None? then o else Some(o.value.(prot := prot))
  }

  /** Once no area straddles an end of the range, changing whole areas changes the range. */
  lemma {:induction false} ReprotectView(s: seq<Vma>, t: seq<Vma>, lo: nat, hi: nat, prot: nat, a: nat)
    requires |t| == |s| && forall i :: 0 <= i < |s| ==> t[i] == Reprotected(s[i], lo, hi, prot)
    requires forall i :: 0 <= i < |s| ==> !Inside(s[i], lo) && !Inside(s[i], hi)
    ensures View(t, a) == if lo <= a < hi then WithProt(View(s, a), prot) else View(s, a)
    decreases |s|
  {
    if s != [] {
      assert t[0] == Reprotected(s[0], lo, hi, prot) && !Inside(s[0], lo) && !Inside(s[0], hi);
      ReprotectView(s[1..], t[1..], lo, hi, prot, a);
    }
  }

  lemma ReprotectOk(s: seq<Vma>, t: seq<Vma>, lo: nat, hi: nat, prot: nat)
    requires Ok(s) && |t| == |s| && forall i :: 0 <= i < |s| ==> t[i] == Reprotected(s[i], lo, hi, prot)
    ensures Ok(t)
  {
    forall i, j | 0 <= i < j < |t| ensures Apart(t[i], t[j]) {
      assert Apart(s[i], s[j]);
    }
  }

  /** A new area in a free slot, where nothing was mapped. */
  lemma FillView(s: seq<Vma>, k: nat, v: Vma, a: nat)
    requires Ok(s) && k < |s| && !s[k].used && v.used && Range(v.start, v.end)
    requires forall j :: 0 <= j < |s| ==> !Overlaps(s[j], v.start, v.end)
    ensures Ok(s[k := v]) && View(s[k := v], a) == if v.start <= a < v.end then Some(InfoAt(v, a)) else View(s, a)
  {
    hide View;
    UpdateOk(s, k, v);
    UpdateView(s, k, v, a);
  }

  ghost predicate Empty(s: seq<Vma>, lo: nat, hi: nat) { forall a: nat :: lo <= a < hi ==> View(s, a) == None }

  /** Nothing overlaps a range exactly when nothing is mapped in it. */
  lemma OverlapSeen(s: seq<Vma>, lo: nat, hi: nat)
    requires Ok(s) && lo < hi
    ensures (forall j :: 0 <= j < |s| ==> !Overlaps(s[j], lo, hi)) <==> Empty(s, lo, hi)
  {
    hide View;
    if forall j :: 0 <= j < |s| ==> !Overlaps(s[j], lo, hi) {
      forall a: nat | lo <= a < hi ensures View(s, a) == None {
        assert forall j :: 0 <= j < |s| ==> !Holds(s[j], a);
        ViewNone(s, a);
      }
    } else {
      var j :| 0 <= j < |s| && Overlaps(s[j], lo, hi);
      OkAt(s, j);
      ViewIs(s, j, if lo < s[j].start then s[j].start else lo);
    }
  }

  /** `n` areas of three pages, one behind the other. */
  function ThreePages(n: nat): (s: seq<Vma>)
    ensures |s| == n && forall i :: 0 <= i < n ==> s[i] == Vma(true, 3 * i * PAGE, (3 * i + 3) * PAGE, 0, 1, 3, 2)
  {
    seq(n, i requires 0 <= i => Vma(true, 3 * i * PAGE, (3 * i + 3) * PAGE, 0, 1, 3, 2))
  }

  lemma {:induction false} ThreePagesCounts(n: nat)
    requires n >= 1
    ensures var s := ThreePages(n); FreeCount(s) == 0 && InnerCount(s, PAGE, 2 * PAGE) == 1 && CoveredCount(s, PAGE, 2 * PAGE) == 0
  {
    var s := ThreePages(n);
    if n == 1 {
      assert s[..0] == [];
    } else {
      assert s[..n - 1] == ThreePages(n - 1);
      ThreePagesCounts(n - 1);
    }
  }

  /** A fixed mapping that must split an area with the last free slot is refused after it has
      already unmapped its range: a table with `n` areas and one free slot, for every `n`. */
  lemma FixedMapCanLose(n: nat)
    requires n >= 1
    ensures var s, lo, hi := ThreePages(n) + [FREE], PAGE, 2 * PAGE;
            && Ok(s) && Range(lo, hi) && View(s, lo).Some? && FreeCount(s) == 1
            && InnerCount(s, lo, hi) <= FreeCount(s) && FreeCount(s) + CoveredCount(s, lo, hi) == InnerCount(s, lo, hi)
  {
    hide View, InnerCount, CoveredCount, FreeCount, Ok;
    var s := ThreePages(n) + [FREE];
    ThreePagesCounts(n);
    assert s[..n] == ThreePages(n);
    ThreePagesOk(n);
    CountsOneMore(s, PAGE, 2 * PAGE);
    ViewIs(s, 0, PAGE);
  }

  lemma CountsOneMore(s: seq<Vma>, lo: nat, hi: nat)
    requires s != [] && s[|s| - 1] == FREE
    ensures var front := s[..|s| - 1];
            FreeCount(s) == FreeCount(front) + 1 && InnerCount(s, lo, hi) == InnerCount(front, lo, hi) && CoveredCount(s, lo, hi) == CoveredCount(front, lo, hi)
  {
  }

  lemma ThreePagesOk(n: nat)
    ensures Ok(ThreePages(n) + [FREE])
  {
    var s := ThreePages(n) + [FREE];
    forall i | 0 <= i < |s| ensures Good(s[i]) {
    }
    forall i, j | 0 <= i < j < |s| ensures Apart(s[i], s[j]) {
      if j < n {
        assert 3 * i + 3 <= 3 * j;
      }
    }
  }

  /** `align_up` in 64 bits. */
  function AlignUp(x: nat): nat { (x + PAGE - 1) % TOP / PAGE * PAGE }

  lemma AlignUpIs(x: nat)
    requires x < TOP
    ensures Aligned(AlignUp(x)) && (x + PAGE <= TOP ==> x <= AlignUp(x) < x + PAGE) && (x + PAGE > TOP ==> AlignUp(x) == 0)
  {
  }
}
