/** Whole runs of allocations and releases: live blocks never overlap and never move, and the account of available
    bytes. */
module HeapRuns {
  import opened Blocks
  import opened Markers
  import opened Heap

  /** What a release does to the live blocks: exactly the one released leaves. */
  lemma CoalescedRemovesOne(bs: seq<Block>, i: nat, s: nat)
    requires i < |bs| && !bs[i].free && forall j :: 0 <= j < |bs| ==> bs[j].size > 0
    ensures var r := Coalesced(bs, i);
            && Live(r, s) == Live(bs, s) - {(s + Sum(bs[..i]), bs[i].size)} && Used(r) + bs[i].size == Used(bs)
            && Sum(r) == Sum(bs) - (if i == |bs| - 1 then bs[i].size else 0)
  {
    hide Sum, Live, Used;
    FreeRemovesOne(bs, i, s);
    var marked := bs[i := Block(true, bs[i].size)];
    if i == |bs| - 1 {
      DropKeepsLive(marked, s);
      assert marked[..i] == bs[..i];
    } else {
      var joins := bs[i + 1].free && Fits(bs[i].size, bs[i + 1].size);
      var joined := if joins then Merged(marked, i) else marked;
      if joins { MergeKeepsLive(marked, i, s); }
      if i > 0 && bs[i - 1].free { MergeKeepsLive(joined, i - 1, s); }
    }
  }

  /** A release shortens the chain by one marker for each merge, and by one if the last marker is deleted. */
  lemma CoalescedLength(bs: seq<Block>, i: nat)
    requires i < |bs|
    ensures i == |bs| - 1 ==> |Coalesced(bs, i)| == |bs| - 1
    ensures i < |bs| - 1 ==> |Coalesced(bs, i)| == |bs|
                              - (if bs[i + 1].free && Fits(bs[i].size, bs[i + 1].size) then 1 else 0)
                              - (if i > 0 && bs[i - 1].free then 1 else 0)
  {
  }

  /** The block at an address is the one whose prefix sum it is. */
  lemma {:induction false} BlockAtFinds(bs: seq<Block>, s: nat, at: nat)
    requires forall j :: 0 <= j < |bs| ==> bs[j].size > 0
    ensures var i := BlockAt(bs, s, at);
            && (i < |bs| ==> s + Sum(bs[..i]) == at)
            && (i < |bs| && !bs[i].free <==> exists n :: (at, n) in Live(bs, s))
            && forall n :: (at, n) in Live(bs, s) ==> i < |bs| && n == bs[i].size
  {
    if bs != [] {
      var i := BlockAt(bs, s, at);
      if s == at {
        forall n | (at, n) in Live(bs[1..], s + bs[0].size) ensures false {
          LiveInside(bs[1..], s + bs[0].size, (at, n));
        }
        if !bs[0].free { assert (at, bs[0].size) in Live(bs, s); }
      } else {
        BlockAtFinds(bs[1..], s + bs[0].size, at);
        assert i <= |bs| && bs[..i] == [bs[0]] + bs[1..][..i - 1];
        assert forall n :: (at, n) in Live(bs, s) <==> (at, n) in Live(bs[1..], s + bs[0].size);
      }
    }
  }

  /** Main result on release: the block at the address leaves the live ones, and all others stay where they are. */
  lemma ReleaseRemovesOne(h: Heap, at: nat, n: nat)
    requires Valid(h) && (at, n) in LiveIn(h)
    requires var i := BlockAt(BlocksIn(h), h.start, at); i < |BlocksIn(h)| ==> Releasable(BlocksIn(h), i)
    ensures var r := Released(h, at);
            && r.1 == Done && Valid(r.0) && r.0.start == h.start
            && LiveIn(r.0) == LiveIn(h) - {(at, n)} && Used(BlocksIn(r.0)) + n == Used(BlocksIn(h))
            && r.0.remaining == (h.remaining + n) % WORD
  {
    hide Valid, BlocksIn, Chain, Releasable, Coalesced, Sum, Live, Used, Freed;
    CountIs(h);
    SizesPositive(h);
    var bs := BlocksIn(h);
    BlockAtFinds(bs, h.start, at);
    var i := BlockAt(bs, h.start, at);
    ReleaseCoalesces(h, i);
    CoalescedRemovesOne(bs, i, h.start);
  }

  // ----- what the calls answer

  /** The release service answers that the heap is empty, that the address is wrong or that it is done exactly if
      there is no block, no block that starts at the address, or one; in the first two cases it changes nothing. */
  lemma ReleaseAnswers(h: Heap, at: nat)
    requires Valid(h)
    ensures var (g, s), bs := Released(h, at), BlocksIn(h);
            && (s == EmptyHeap <==> bs == [])
            && (s == WrongPointer <==> bs != [] && forall j :: 0 <= j < |bs| ==> h.start + Sum(bs[..j]) != at)
            && (s == Done <==> exists j :: 0 <= j < |bs| && h.start + Sum(bs[..j]) == at)
            && (s != Done ==> g == h)
  {
    hide Valid, Chain, BlocksIn, ReleasedAt, Sum;
    CountIs(h);
    BlockAtFirst(BlocksIn(h), h.start, at);
  }

  lemma {:induction false} BlockAtFirst(bs: seq<Block>, s: nat, at: nat)
    ensures var i := BlockAt(bs, s, at);
            && (forall j :: 0 <= j < i && j < |bs| ==> s + Sum(bs[..j]) != at) && (i < |bs| ==> s + Sum(bs[..i]) == at)
  {
    if bs != [] {
      assert bs[..0] == [];
      if s != at {
        BlockAtFirst(bs[1..], s + bs[0].size, at);
        forall j | 0 < j <= |bs| ensures Sum(bs[..j]) == bs[0].size + Sum(bs[1..][..j - 1]) {
          assert bs[..j][1..] == bs[1..][..j - 1];
        }
      }
    }
  }

  /** A request is refused exactly if it comes to more than 32767 bytes, is not within the account, or finds neither a
      free block that is large enough nor an empty word in the top quarter of the region. */
  lemma RequestAnswers(h: Heap, n: nat)
    requires Valid(h) && Rounded(n) > 0
    ensures var size, bs, top := Rounded(n), BlocksIn(h), |h.m| - 2;
            Requested(h, n).1 == NULL <==>
              || size > 32767 || size > h.remaining
              || (&& (forall i :: 0 <= i < |bs| && bs[i].free ==> bs[i].size < size)
                  && forall x :: top - top / 4 < x <= top ==> h.m[x] != EMPTY)
    ensures Requested(h, n).1 == NULL ==> Requested(h, n).0 == h
  {
    hide Valid, Chain, BlocksIn, Sum, Rounded, SplitCells, AppendCells;
    CountIs(h);
    assert Top(h.m) == |h.m| - 2;
    if h.count > 0 { LastInRange(h); }
  }

  /** What the first free block that fits is handed out for is the request itself if and only if it fits exactly or some
      word of the region below the top one is empty; otherwise the whole of it is. */
  lemma HandsOutExactly(h: Heap, size: nat, i: nat)
    requires Valid(h) && 0 < size && i < |BlocksIn(h)| && BlocksIn(h)[i].free && BlocksIn(h)[i].size >= size
    requires forall j :: 0 <= j < i && BlocksIn(h)[j].free ==> BlocksIn(h)[j].size < size
    ensures Handed(h, size) == size <==> BlocksIn(h)[i].size == size ||
                                         exists x :: 0 <= x < |h.m| - 2 && h.m[x] == EMPTY
    ensures Handed(h, size) != size ==> Handed(h, size) == BlocksIn(h)[i].size
  {
    hide Valid, Chain, BlocksIn;
    CountIs(h);
    assert Top(h.m) == |h.m| - 2;
    assert FirstFit(BlocksIn(h), size) == i;
  }

  // ----- runs

  datatype Event = Allocate(n: nat) | Release(at: nat)

  ghost function Step(h: Heap, e: Event): Heap
    requires Valid(h)
  {
    match e
    case Allocate(n) => Requested(h, n).0
    case Release(at) => Released(h, at).0
  }

  ghost predicate Refused(h: Heap, n: nat) {
    Rounded(n) > 32767 || h.remaining < Rounded(n)
  }

  /** The side conditions: the request is not empty and does not split the last block; what is released is live and can
      be merged. */
  ghost predicate Admitted(h: Heap, e: Event)
    requires Valid(h)
  {
    match e
    case Allocate(n) => !Refused(h, n) ==> Rounded(n) > 0 && !SplitsLast(h, Rounded(n))
    case Release(at) =>
      var i := BlockAt(BlocksIn(h), h.start, at);
      i < |BlocksIn(h)| ==> !BlocksIn(h)[i].free && Releasable(BlocksIn(h), i)
  }

  /** One step: the heap stays valid, and only the block released leaves the live ones. */
  lemma StepKeeps(h: Heap, e: Event)
    requires Valid(h) && Admitted(h, e)
    ensures var g := Step(h, e);
            Valid(g) && g.start == h.start && forall b :: b in LiveIn(h) && e != Release(b.0) ==> b in LiveIn(g)
  {
    hide Valid, BlocksIn, SplitsLast, Releasable, ReleasedAt, Live, Allocated;
    match e
    case Allocate(n) =>
      if !Refused(h, n) { AllocationAddsOne(h, Rounded(n)); }
    case Release(at) =>
      var bs := BlocksIn(h);
      var i := BlockAt(bs, h.start, at);
      CountIs(h);
      if i < |bs| {
        SizesPositive(h);
        BlockAtFinds(bs, h.start, at);
        var n :| (at, n) in Live(bs, h.start);
        ReleaseRemovesOne(h, at, n);
      }
  }

  ghost predicate Run(hs: seq<Heap>, es: seq<Event>) {
    && |hs| == |es| + 1 && Valid(hs[0])
    && forall i :: 0 <= i < |es| ==> Move(hs[i], es[i], hs[i + 1])
  }

  ghost predicate Move(h: Heap, e: Event, g: Heap) {
    Valid(h) ==> Admitted(h, e) && g == Step(h, e)
  }

  /** Every state of a run is valid. */
  lemma {:induction false} RunKeeps(hs: seq<Heap>, es: seq<Event>, i: nat)
    requires Run(hs, es) && i < |hs|
    ensures Valid(hs[i]) && hs[i].start == hs[0].start
  {
    hide Valid, Admitted, Step, LiveIn;
    if i > 0 {
      RunKeeps(hs, es, i - 1);
      assert Move(hs[i - 1], es[i - 1], hs[i - 1 + 1]);
      StepKeeps(hs[i - 1], es[i - 1]);
    }
  }

  /** In every state of a run the live blocks are disjoint and lie inside the tiling. */
  lemma RunDisjoint(hs: seq<Heap>, es: seq<Event>, i: nat, a: (nat, nat), b: (nat, nat))
    requires Run(hs, es) && i < |hs| && a in LiveIn(hs[i]) && b in LiveIn(hs[i]) && a != b
    ensures a.0 + a.1 <= b.0 || b.0 + b.1 <= a.0
    ensures hs[0].start <= a.0 && a.0 + a.1 <= hs[0].start + Sum(BlocksIn(hs[i]))
  {
    hide Valid, Admitted, Step, Run, BlocksIn, Live, Sum;
    RunKeeps(hs, es, i);
    SizesPositive(hs[i]);
    LiveDisjoint(BlocksIn(hs[i]), hs[i].start, a, b);
    LiveInside(BlocksIn(hs[i]), hs[i].start, a);
  }

  /** A live block stays where it is, with its size, until it is released, whatever is split, merged or trimmed around
      it. */
  lemma {:induction false} LiveStays(hs: seq<Heap>, es: seq<Event>, i: nat, j: nat, b: (nat, nat))
    requires Run(hs, es) && i <= j < |hs| && b in LiveIn(hs[i])
    requires forall k :: i <= k < j ==> es[k] != Release(b.0)
    ensures b in LiveIn(hs[j])
    decreases j
  {
    hide Valid, Admitted, Step, LiveIn;
    if i < j {
      LiveStays(hs, es, i, j - 1, b);
      RunKeeps(hs, es, j - 1);
      assert Move(hs[j - 1], es[j - 1], hs[j - 1 + 1]);
      StepKeeps(hs[j - 1], es[j - 1]);
    }
  }

  // ----- the account

  /** Available plus live bytes. */
  ghost function Account(h: Heap): nat {
    h.remaining + Used(BlocksIn(h))
  }

  /** The bytes that an allocation hands out beyond the request, which nobody subtracts: the remainder of a block that
      could not be split for want of an empty word. */
  ghost function Excess(h: Heap, e: Event): nat
    requires Valid(h)
  {
    match e
    case Release(at) => 0
    case Allocate(n) =>
      if Refused(h, n) || Requested(h, n).1 == NULL || Handed(h, Rounded(n)) < Rounded(n) then 0
      else Handed(h, Rounded(n)) - Rounded(n)
  }

  lemma HandedEnough(h: Heap, size: nat)
    requires Valid(h)
    ensures Handed(h, size) >= size
    ensures Handed(h, size) > size <==>
            var bs := BlocksIn(h);
            var i := FirstFit(bs, size);
            i < |bs| && bs[i].size > size && Spare(h) == Top(h.m)
  {
    hide Valid;
  }

  /** Every step moves the account by exactly the excess. */
  lemma StepAccount(h: Heap, e: Event)
    requires Valid(h) && Admitted(h, e) && Account(h) < WORD
    ensures Valid(Step(h, e)) && Account(Step(h, e)) == Account(h) + Excess(h, e)
  {
    hide Valid, BlocksIn, SplitsLast, Releasable, ReleasedAt, LiveIn, Allocated, Used, Handed;
    StepKeeps(h, e);
    match e
    case Allocate(n) =>
      if !Refused(h, n) {
        AllocationAddsOne(h, Rounded(n));
        HandedEnough(h, Rounded(n));
      }
    case Release(at) =>
      CountIs(h);
      var bs := BlocksIn(h);
      var i := BlockAt(bs, h.start, at);
      if i < |bs| {
        SizesPositive(h);
        BlockAtFinds(bs, h.start, at);
        var n :| (at, n) in Live(bs, h.start);
        assert (at, n) in LiveIn(h) by { LiveIs(h); }
        ReleaseRemovesOne(h, at, n);
      }
  }

  lemma LiveIs(h: Heap)
    ensures LiveIn(h) == Live(BlocksIn(h), h.start)
  {
  }

  /** Over a run, available plus live bytes are constant if and only if every split that was needed found a spare
      word. */
  lemma AccountConstant(hs: seq<Heap>, es: seq<Event>)
    requires Run(hs, es) && Account(hs[0]) < WORD
    ensures (forall i :: 0 <= i < |hs| ==> Account(hs[i]) == Account(hs[0])) <==>
            (forall i :: 0 <= i < |es| ==> Valid(hs[i]) && Excess(hs[i], es[i]) == 0)
  {
    hide Valid, Admitted, Step, Account, Excess;
    if forall i :: 0 <= i < |es| ==> Valid(hs[i]) && Excess(hs[i], es[i]) == 0 {
      forall i | 0 <= i < |hs| ensures Account(hs[i]) == Account(hs[0]) { NoExcess(hs, es, i); }
    }
    if forall i :: 0 <= i < |hs| ==> Account(hs[i]) == Account(hs[0]) {
      forall i | 0 <= i < |es| ensures Valid(hs[i]) && Excess(hs[i], es[i]) == 0 {
        RunKeeps(hs, es, i);
        assert Account(hs[i]) == Account(hs[0]) && Account(hs[i + 1]) == Account(hs[0]);
        StepAccount(hs[i], es[i]);
      }
    }
  }

  lemma {:induction false} NoExcess(hs: seq<Heap>, es: seq<Event>, i: nat)
    requires Run(hs, es) && Account(hs[0]) < WORD && i < |hs|
    requires forall i :: 0 <= i < |es| ==> Valid(hs[i]) && Excess(hs[i], es[i]) == 0
    ensures Account(hs[i]) == Account(hs[0])
  {
    hide Valid, Admitted, Step, Account, Excess;
    if i > 0 {
      NoExcess(hs, es, i - 1);
      assert Move(hs[i - 1], es[i - 1], hs[i - 1 + 1]);
      StepAccount(hs[i - 1], es[i - 1]);
    }
  }

  // ----- the end of the memory

  /** The event puts a new block behind the tiling: nothing that is free fits, and there is a word for its marker. */
  ghost predicate Appending(h: Heap, e: Event) {
    && Valid(h) && e.Allocate? && !Refused(h, e.n)
    && FirstFit(BlocksIn(h), Rounded(e.n)) == |BlocksIn(h)| && Fresh(h) != -1
  }

  /** Bytes in free blocks. */
  ghost function Scattered(h: Heap): nat {
    UsedFits(BlocksIn(h));
    Sum(BlocksIn(h)) - Used(BlocksIn(h))
  }

  lemma {:induction false} UsedFits(bs: seq<Block>)
    ensures Used(bs) <= Sum(bs)
  {
    if bs != [] { UsedFits(bs[1..]); }
  }

  lemma AppendingStep(h: Heap, e: Event)
    requires Valid(h) && Admitted(h, e) && Appending(h, e)
    ensures var g, size := Step(h, e), Rounded(e.n);
            && Valid(g) && Sum(BlocksIn(g)) == Sum(BlocksIn(h)) + size &&
                (h.start + Sum(BlocksIn(h)), size) in LiveIn(g)
  {
    hide Valid, BlocksIn, Given, Sum, Live, Used, Chain;
    var bs, size := BlocksIn(h), Rounded(e.n);
    CountIs(h);
    GivenKeeps(h, size);
    assert bs[..|bs|] == bs;
    assert |Grown(h, size)| == |bs| + 1;
    AppendAddsOne(bs, size, h.start);
    Rebilled(Given(h, size).0, Step(h, e).remaining);
  }

  lemma OtherStep(h: Heap, e: Event)
    requires Valid(h) && Admitted(h, e) && !Appending(h, e)
    ensures Valid(Step(h, e)) && Sum(BlocksIn(Step(h, e))) <= Sum(BlocksIn(h))
  {
    hide Valid, BlocksIn, Given, Sum, Live, Used, Chain, ReleasedAt, SplitsLast, Splitting, Taken;
    StepKeeps(h, e);
    CountIs(h);
    var bs := BlocksIn(h);
    match e
    case Allocate(n) =>
      if !Refused(h, n) {
        var size := Rounded(n);
        GivenKeeps(h, size);
        Rebilled(Given(h, size).0, Step(h, e).remaining);
        var i := FirstFit(bs, size);
        if i < |bs| { TakeAddsOne(bs, i, size, Splitting(h, i, size), h.start); }
      }
    case Release(at) =>
      var i := BlockAt(bs, h.start, at);
      if i < |bs| {
        SizesPositive(h);
        ReleaseCoalesces(h, i);
        CoalescedRemovesOne(bs, i, h.start);
      }
  }

  /** Every block that is put behind the tiling leaves the account with room for the free blocks it did not fit. */
  ghost predicate AppendsFit(h: Heap, e: Event) {
    Appending(h, e) ==> Scattered(h) + Rounded(e.n) <= h.remaining
  }

  lemma {:induction false} TilingFits(hs: seq<Heap>, es: seq<Event>, i: nat)
    requires Run(hs, es) && hs[0].count == 0 && Account(hs[0]) < WORD && i < |hs|
    requires forall j :: 0 <= j < |es| ==> Valid(hs[j]) && Excess(hs[j], es[j]) == 0
    requires forall j :: 0 <= j < i ==> AppendsFit(hs[j], es[j])
    ensures Sum(BlocksIn(hs[i])) <= Account(hs[0])
  {
    hide Valid, Admitted, Step, Excess, BlocksIn, Sum, Used, Appending;
    if i == 0 {
      EmptyTiling(hs[0]);
    } else {
      TilingFits(hs, es, i - 1);
      var h, e := hs[i - 1], es[i - 1];
      assert Move(h, e, hs[i - 1 + 1]);
      NoExcess(hs, es, i - 1);
      if Appending(h, e) {
        assert AppendsFit(h, e);
        AppendingStep(h, e);
      } else {
        OtherStep(h, e);
      }
    }
  }

  lemma EmptyTiling(h: Heap)
    requires Valid(h) && h.count == 0
    ensures Sum(BlocksIn(h)) == 0 && Used(BlocksIn(h)) == 0
  {
    CountIs(h);
    assert BlocksIn(h) == [];
  }

  /** Runs of an empty heap that ends at `end`, in which every split that was needed found a spare word: every live
      block of every state ends at or before `end`, if and only if at every append the request and all free blocks
      together are within the account. The library's check of the request against the account alone does not see what is
      scattered. */
  lemma InsideExactly(hs: seq<Heap>, es: seq<Event>, end: nat)
    requires Run(hs, es) && hs[0].count == 0 && hs[0].remaining < WORD && end == hs[0].start + hs[0].remaining
    requires forall j :: 0 <= j < |es| ==> Valid(hs[j]) && Excess(hs[j], es[j]) == 0
    ensures (forall i, b :: 0 <= i < |hs| && b in LiveIn(hs[i]) ==> b.0 + b.1 <= end) <==>
            (forall i :: 0 <= i < |es| ==> AppendsFit(hs[i], es[i]))
  {
    hide Valid, Admitted, Step, Excess, BlocksIn, Sum, Used, LiveIn, AppendsFit;
    EmptyTiling(hs[0]);
    if forall i :: 0 <= i < |es| ==> AppendsFit(hs[i], es[i]) {
      forall i, b | 0 <= i < |hs| && b in LiveIn(hs[i]) ensures b.0 + b.1 <= end {
        TilingFits(hs, es, i);
        RunKeeps(hs, es, i);
        LiveIs(hs[i]);
        LiveInside(BlocksIn(hs[i]), hs[i].start, b);
      }
    }
    if forall i, b :: 0 <= i < |hs| && b in LiveIn(hs[i]) ==> b.0 + b.1 <= end {
      forall i | 0 <= i < |es| ensures AppendsFit(hs[i], es[i]) {
        RunKeeps(hs, es, i);
        NoExcess(hs, es, i);
        assert Move(hs[i], es[i], hs[i + 1]);
        AppendFits(hs[i], es[i], hs[i + 1], end);
      }
    }
  }

  lemma AppendFits(h: Heap, e: Event, g: Heap, end: nat)
    requires Valid(h) && Admitted(h, e) && g == Step(h, e) && h.start + Account(h) == end
    requires forall b :: b in LiveIn(g) ==> b.0 + b.1 <= end
    ensures AppendsFit(h, e)
  {
    hide Valid, Admitted, Step, BlocksIn, Sum, Used, LiveIn, Appending;
    if Appending(h, e) { AppendingStep(h, e); }
  }
}
