/** The physical page allocator of kernel/pmm.c: a reference count per page, a stack of freed
    pages and a bump pointer. Pages are numbered; addresses that are not pages of RAM are the
    numbers from `total` on. */
module PageAllocator {
  import opened Pigeonhole

  /** Of the pages handed out so far, `first` up to `cur`, exactly those without references
      are on the free stack, once each. */
  ghost predicate StackOk(refs: seq<nat>, free: seq<nat>, first: nat, cur: nat) {
    && first <= cur <= |refs| && DistinctSeq(free)
    && (forall i :: 0 <= i < |free| ==> first <= free[i] < cur && refs[free[i]] == 0)
    && (forall p :: 0 <= p < |refs| && !(first <= p < cur) ==> refs[p] == 0)
    && (forall p :: first <= p < cur && refs[p] == 0 ==> p in free)
  }

  lemma PushOk(refs: seq<nat>, free: seq<nat>, first: nat, cur: nat, p: nat)
    requires StackOk(refs, free, first, cur) && p < |refs| && refs[p] > 0
    ensures first <= p < cur && |free| < cur - first && StackOk(refs[p := 0], free + [p], first, cur)
  {
    DistinctBound(free + [p], Range(first, cur));
  }

  lemma PopOk(refs: seq<nat>, free: seq<nat>, first: nat, cur: nat)
    requires StackOk(refs, free, first, cur) && free != []
    ensures var p := free[|free| - 1]; refs[p] == 0 && StackOk(refs[p := 1], free[..|free| - 1], first, cur)
  {
    var p, free' := free[|free| - 1], free[..|free| - 1];
    forall q | first <= q < cur && refs[p := 1][q] == 0 ensures q in free' {
      assert q in free && free == free' + [p];
    }
  }

  lemma BumpOk(refs: seq<nat>, free: seq<nat>, first: nat, cur: nat)
    requires StackOk(refs, free, first, cur) && cur < |refs|
    ensures refs[cur] == 0 && StackOk(refs[cur := 1], free, first, cur + 1)
  {
  }

  /** Counting up or down above zero changes nothing here. */
  lemma RecountOk(refs: seq<nat>, free: seq<nat>, first: nat, cur: nat, p: nat, n: nat)
    requires StackOk(refs, free, first, cur) && p < |refs| && refs[p] > 0 && n > 0
    ensures StackOk(refs[p := n], free, first, cur)
  {
  }

  class Pmm {
    const total: nat
    const first: nat
    const end: nat
    const refs: array<nat>
    const free: array<nat>
    var top: nat
    var cur: nat
    var owned: nat

    ghost predicate Valid(): (r: bool)
      reads this, refs, free
      ensures r ==> refs != free && refs.Length == free.Length == total
    {
      && refs != free && refs.Length == free.Length == total && cur <= end <= total && top <= total
      && StackOk(refs[..], free[..top], first, cur) && owned + top == cur - first
    }

    /** `pmm_init`. */
    constructor (total: nat, first: nat, end: nat)
      requires first <= end <= total
      ensures Valid() && fresh(refs) && fresh(free) && this.total == total && this.first == first && this.end == end && cur == first
      ensures forall p :: 0 <= p < total ==> refs[p] == 0
    {
      this.total, this.first, this.end := total, first, end;
      refs, free := new nat[total](_ => 0), new nat[total](_ => 0);
      top, cur, owned := 0, first, 0;
    }

    /** `pmm_available_pages`. */
    function Available(): nat
      reads this
    {
      top + if cur < end then end - cur else 0
    }

    /** `pmm_alloc_page`. A page that is handed out had no holder, and it is not handed out
        again while it has one. */
    method AllocPage() returns (ok: bool, p: nat)
      requires Valid()
      modifies this, refs
      ensures Valid() && ok == (old(Available()) > 0)
      ensures ok ==> p < total && old(refs[..])[p] == 0 && refs[..] == old(refs[..])[p := 1] && Available() == old(Available()) - 1
      ensures !ok ==> refs[..] == old(refs[..]) && Available() == 0
    {
      hide StackOk;
      if top > 0 {
        StackFacts();
        PopOk(refs[..], free[..top], first, cur);
        assert free[..top][..top - 1] == free[..top - 1];
        top := top - 1;
        p := free[top];
        refs[p], owned := 1, owned + 1;
        return true, p;
      }
      if cur + 1 > end {
        return false, 0;
      }
      BumpOk(refs[..], free[..top], first, cur);
      p := cur;
      refs[p], owned, cur := 1, owned + 1, cur + 1;
      ok := true;
    }

    lemma StackFacts()
      requires Valid()
      ensures forall i :: 0 <= i < top ==> free[i] < total
    {
      assert forall i :: 0 <= i < top ==> free[i] == free[..top][i];
    }

    /** `pmm_ref_page`. On a page without holders it breaks the allocator: the page is still
        free to be handed out. So it is safe exactly when the page is held or not RAM. */
    method RefPage(p: nat)
      requires Valid()
      modifies this`owned, refs
      ensures Valid() <==> p >= total || old(refs[p]) > 0
      ensures refs[..] == if p < total then old(refs[..])[p := old(refs[p]) + 1] else old(refs[..])
    {
      if p >= total {
        return;
      }
      if refs[p] == 0 {
        assert refs[..][p] == 0;
        refs[p], owned := 1, owned + 1;
        assert refs[..][p] == 1;
        return;
      }
      RecountOk(refs[..], free[..top], first, cur, p, refs[p] + 1);
      refs[p] := refs[p] + 1;
    }

    /** `pmm_free_page`: one holder lets go; with the last one the page joins the stack, which
        has room for it. */
    method FreePage(p: nat)
      requires Valid()
      modifies this, refs, free
      ensures Valid() && cur == old(cur)
      ensures refs[..] == if p < total && old(refs[p]) > 0 then old(refs[..])[p := old(refs[p]) - 1] else old(refs[..])
      ensures Available() == old(Available()) + if p < total && old(refs[p]) == 1 then 1 else 0
    {
      hide StackOk;
      if p >= total || refs[p] == 0 {
        return;
      }
      PushOk(refs[..], free[..top], first, cur, p);
      if refs[p] > 1 {
        RecountOk(refs[..], free[..top], first, cur, p, refs[p] - 1);
      }
      refs[p] := refs[p] - 1;
      if refs[p] != 0 {
        return;
      }
      if owned > 0 {
        owned := owned - 1;
      }
      if top < free.Length {
        free[top] := p;
        top := top + 1;
      }
      assert free[..top] == old(free[..top]) + [p];
    }
  }
}
