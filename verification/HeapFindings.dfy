/** Where the heap departs from what it is meant to do: exact conditions, and runs that reach the bad states. */
module HeapFindings {
  import opened Blocks
  import opened Markers
  import opened Heap
  import opened HeapRuns

  // ----- sizes and addresses

  /** Rounding gives the least multiple of 4 that holds the request, except that the three largest requests wrap to
      0. */
  lemma RoundedIsLeast(n: nat, m: nat)
    requires n < WORD
    ensures n > WORD - 4 <==> Rounded(n) < n
    ensures Rounded(n) < n ==> Rounded(n) == 0
    ensures Rounded(n) >= n && m >= n && m % 4 == 0 ==> Rounded(n) % 4 == 0 && Rounded(n) <= m
  {
    var q, r := n / 4, n % 4;
    assert n == 4 * q + r;
    var s := n + if r == 0 then 0 else 4 - r;
    Multiple(if r == 0 then q else q + 1);
    if n > WORD - 4 {
      assert q == WORD / 4 - 1 && s == WORD;
    } else {
      assert Rounded(n) == s by { Small(s); }
      if m >= n && m % 4 == 0 { assert m == 4 * (m / 4); }
    }
  }

  lemma Multiple(k: nat)
    ensures (4 * k) % 4 == 0
  {
  }

  lemma Small(s: nat)
    requires s < WORD
    ensures s % WORD == s
  {
  }

  /** Initialisation moves the start address up by its own remainder, which gives a multiple of 4 exactly for even
      ones. */
  lemma StartAligned(raw: nat)
    ensures (raw + raw % 4) % 4 == 0 <==> raw % 2 == 0
  {
    var q, r := raw / 4, raw % 4;
    assert raw + r == 4 * q + 2 * r;
    if r == 0 { Multiple(q); assert raw == 2 * (2 * q); }
    else if r == 1 { assert raw + r == 4 * q + 2 && raw == 2 * (2 * q) + 1; }
    else if r == 2 { Multiple(q + 1); assert raw == 2 * (2 * q + 1); }
    else { assert raw + r == 4 * (q + 1) + 2 && raw == 2 * (2 * q + 1) + 1; }
  }

  // ----- empty requests

  /** A request for no bytes that gets an address leaves a valid heap only when it happens to be given a whole free
      block: otherwise it writes a header that reads as an empty word into the chain. */
  lemma ZeroRequest(h: Heap)
    requires Valid(h) && Allocated(h, 0).1 != NULL
    ensures var i := FirstFit(BlocksIn(h), 0);
            Valid(Allocated(h, 0).0) <==> i < |BlocksIn(h)| && !Splitting(h, i, 0)
  {
    hide Valid, Chain, BlocksIn, Linked, SplitCells, Region, Clean, Path, AppendCells;
    CountIs(h);
    var bs, g := BlocksIn(h), Given(h, 0).0;
    Rebilled(g, Allocated(h, 0).0.remaining);
    var i := FirstFit(bs, 0);
    if i == |bs| {
      AppendsZero(h);
    } else if Splitting(h, i, 0) {
      SplitsZero(h, i);
    } else {
      WholeKeeps(h, i);
    }
  }

  lemma AppendsZero(h: Heap)
    requires Valid(h) && Fresh(h) != -1
    ensures !Valid(Extended(h, 0).0)
  {
    hide SizeOf, IsFree, Good, Region, Clean, AppendCells;
    var c, x, g := Chain(h), Fresh(h), Extended(h, 0).0;
    FreshAppends(h);
    var p: seq<nat> := c + [x];
    AppendedWord(h.m, h.last, x);
    assert |g.m| == |h.m|;
    forall j | 0 <= j < |p| - 1 ensures p[j] + g.m[p[j]].off == p[j + 1] { AppendOthers(h.m, c, j, x, 0); }
    assert Path(g.m, p);
    if Valid(g) {
      SamePath(g.m, p, Chain(g), |c|);
      HasSize(g, |c|);
    }
  }

  lemma AppendedWord(m: seq<Cell>, l: nat, x: nat)
    requires l < |m| && x < |m|
    ensures |AppendCells(m, l, x, 0)| == |m| && SizeOf(AppendCells(m, l, x, 0)[x]) == 0
  {
  }

  lemma HasSize(h: Heap, i: nat)
    requires Valid(h) && i < |Chain(h)|
    ensures SizeOf(h.m[Chain(h)[i]]) > 0
  {
    hide Path, Distinct, Clean, Region;
    assert Good(h.m[Chain(h)[i]]);
  }

  lemma SplitsZero(h: Heap, i: nat)
    requires Valid(h) && i < |BlocksIn(h)| && Splitting(h, i, 0)
    ensures !Valid(h.(m := SplitCells(h.m, Chain(h)[i], Spare(h), 0, Header(true, BlocksIn(h)[i].size)),
        count := h.count + 1))
  {
    hide SizeOf, IsFree, Region, Clean, Header;
    var c, x := Chain(h), Spare(h);
    var g := h.(m := SplitCells(h.m, c[i], x, 0, Header(true, BlocksIn(h)[i].size)), count := h.count + 1);
    EmptyNotLinked(h.m, c, x);
    if Valid(g) {
      forall j | 0 <= j < i ensures g.m[c[j]] == h.m[c[j]] { assert c[j] != c[i]; }
      PrefixPath(h.m, g.m, c, i + 1);
      SamePath(g.m, c[..i + 1], Chain(g), i);
      HasSize(g, i);
      NoSize(g.m[c[i]]);
    }
  }

  lemma NoSize(c: Cell)
    requires c.head == 0
    ensures SizeOf(c) == 0
  {
  }

  // ----- reaching a state in which the last block is free

  lemma Room(h: Heap)
    requires Valid(h) && 16 <= Top(h.m) && |Chain(h)| <= 2
    ensures Fresh(h) != -1 && Spare(h) < Top(h.m)
  {
    hide Good, Distinct, Tagged, Path;
    var t, c := Top(h.m), Chain(h);
    assert c != [] ==> c[0] == t;
    assert t - 1 in c ==> t - 2 !in c;
    assert 2 in c ==> 3 !in c;
    assert h.m[t - 1] == EMPTY || h.m[t - 2] == EMPTY;
    assert h.m[2] == EMPTY || h.m[3] == EMPTY;
  }

  lemma AppendStep(h: Heap, n: nat)
    requires Valid(h) && 16 <= Top(h.m) && |BlocksIn(h)| <= 2 && FirstFit(BlocksIn(h), n) == |BlocksIn(h)|
    requires n % 4 == 0 && 0 < n <= 32767 && n <= h.remaining < WORD
    ensures var g := Step(h, Allocate(n));
            && Valid(g) && BlocksIn(g) == BlocksIn(h) + [Block(false, n)]
            && |g.m| == |h.m| && g.start == h.start && g.remaining == h.remaining - n
            && Requested(h, n).1 == h.start + Sum(BlocksIn(h))
  {
    hide Valid, Chain, BlocksIn, Fresh, Spare, Given, Sum, Rounded;
    CountIs(h);
    Room(h);
    RoundedMultiple(n);
    GivenKeeps(h, n);
    SameLength(h, n);
    assert (h.remaining - n) % WORD == h.remaining - n by { Small(h.remaining - n); }
    assert BlocksIn(h)[..|BlocksIn(h)|] == BlocksIn(h);
    assert |Grown(h, n)| != |BlocksIn(h)|;
    Rebilled(Given(h, n).0, h.remaining - n);
  }

  lemma RoundedMultiple(n: nat)
    requires n % 4 == 0 && n < WORD
    ensures Rounded(n) == n
  {
  }

  lemma SameLength(h: Heap, n: nat)
    requires Valid(h)
    ensures |Given(h, n).0.m| == |h.m|
  {
    hide Valid;
    CountIs(h);
    LastInRange(h);
  }

  lemma ReleaseStep(h: Heap, at: nat)
    requires Valid(h) && h.count > 0
    requires var i := BlockAt(BlocksIn(h), h.start, at); i < |BlocksIn(h)| && Releasable(BlocksIn(h), i)
    ensures var g := Step(h, Release(at));
            && Valid(g) && BlocksIn(g) == Coalesced(BlocksIn(h), BlockAt(BlocksIn(h), h.start, at))
            && |g.m| == |h.m| && g.start == h.start
            && g.remaining == (h.remaining + BlocksIn(h)[BlockAt(BlocksIn(h), h.start, at)].size) % WORD
  {
    hide Valid, Chain, BlocksIn, Coalesced, Releasable, BlockAt;
    var i := BlockAt(BlocksIn(h), h.start, at);
    CountIs(h);
    ReleaseCoalesces(h, i);
  }

  /** Four calls on an empty heap suffice: allocate 20 and 8 bytes, release both in that order, and the free block of 20
      bytes is the last one. A request for 8 bytes then splits it, and there is no chain any more. */
  lemma SplitLastReached(h: Heap, es: seq<Event>)
    requires Valid(h) && h.count == 0 && 16 <= Top(h.m) && 100 <= h.remaining < WORD
    requires es == [Allocate(20), Allocate(8), Release(h.start), Release(h.start + 20)]
    ensures var h1 := Step(h, es[0]);
            Valid(h1) && (var h2 := Step(h1, es[1]);
            Valid(h2) && (var h3 := Step(h2, es[2]);
            Valid(h3) && (var h4 := Step(h3, es[3]);
            Valid(h4) && BlocksIn(h4) == [Block(true, 20)] && !Valid(Step(h4, Allocate(8))))))
  {
    hide Valid, Chain, BlocksIn, Fresh, Given, ReleasedAt, Step;
    CountIs(h);
    AppendStep(h, 20);
    var h1 := Step(h, es[0]);
    CountIs(h1);
    AppendStep(h1, 8);
    var h2 := Step(h1, es[1]);
    CountIs(h2);
    ReleaseStep(h2, h.start);
    var h3 := Step(h2, es[2]);
    CountIs(h3);
    assert BlocksIn(h3) == [Block(true, 20), Block(false, 8)];
    ReleaseStep(h3, h.start + 20);
    var h4 := Step(h3, es[3]);
    CountIs(h4);
    assert BlocksIn(h4) == [Block(true, 20)];
    SplitLastStep(h4);
  }

  lemma SplitLastStep(h: Heap)
    requires Valid(h) && BlocksIn(h) == [Block(true, 20)] && 16 <= Top(h.m) && 8 <= h.remaining
    ensures !Valid(Step(h, Allocate(8)))
  {
    hide Valid, Chain, BlocksIn, Spare, Given;
    CountIs(h);
    Room(h);
    GivenKeeps(h, 8);
    Rebilled(Given(h, 8).0, Step(h, Allocate(8)).remaining);
  }

  /** Allocate three blocks, release the second and then the third: of the two that remain the last is free. Releasing
      the first now absorbs the last one, and there is no chain any more. */
  lemma AbsorbLastReached(h: Heap, es: seq<Event>)
    requires Valid(h) && h.count == 0 && 16 <= Top(h.m) && 100 <= h.remaining < WORD
    requires es == [Allocate(20), Allocate(8), Allocate(12), Release(h.start + 20), Release(h.start + 28)]
    ensures var h1 := Step(h, es[0]);
            Valid(h1) && (var h2 := Step(h1, es[1]);
            Valid(h2) && (var h3 := Step(h2, es[2]);
            Valid(h3) && (var h4 := Step(h3, es[3]);
            Valid(h4) && (var h5 := Step(h4, es[4]);
            Valid(h5) && BlocksIn(h5) == [Block(false, 20), Block(true, 8)] && !Valid(Step(h5, Release(h.start)))))))
  {
    hide Valid, Chain, BlocksIn, Fresh, Given, ReleasedAt, Step;
    CountIs(h);
    AppendStep(h, 20);
    var h1 := Step(h, es[0]);
    CountIs(h1);
    AppendStep(h1, 8);
    var h2 := Step(h1, es[1]);
    CountIs(h2);
    AppendStep(h2, 12);
    var h3 := Step(h2, es[2]);
    CountIs(h3);
    ReleaseStep(h3, h.start + 20);
    var h4 := Step(h3, es[3]);
    CountIs(h4);
    var bs := BlocksIn(h4);
    assert bs == [Block(false, 20), Block(true, 8), Block(false, 12)];
    assert bs[1..] == [Block(true, 8), Block(false, 12)] && bs[1..][1..] == [Block(false, 12)];
    assert BlockAt(bs[1..][1..], h.start + 28, h.start + 28) == 0;
    assert BlockAt(bs[1..], h.start + 20, h.start + 28) == 1;
    ReleaseStep(h4, h.start + 28);
    var h5 := Step(h4, es[4]);
    CountIs(h5);
    assert BlocksIn(h5) == [Block(false, 20), Block(true, 8)];
    AbsorbLastStep(h5);
  }

  lemma AbsorbLastStep(h: Heap)
    requires Valid(h) && BlocksIn(h) == [Block(false, 20), Block(true, 8)]
    ensures !Valid(Step(h, Release(h.start)))
  {
    hide Valid, Chain, BlocksIn, ReleasedAt;
    CountIs(h);
    AbsorbsLastBreaks(h, 0);
  }

  // ----- memory that is not there

  /** In a memory of 40 bytes: allocate 20 and 16, release the first, and ask for 24. The account allows it, and the
      block is put at offset 36. */
  lemma PastTheEnd(h: Heap, es: seq<Event>)
    requires Valid(h) && h.count == 0 && 16 <= Top(h.m) && h.remaining == 40
    requires es == [Allocate(20), Allocate(16), Release(h.start)]
    ensures var h1 := Step(h, es[0]);
            Valid(h1) && (var h2 := Step(h1, es[1]);
            Valid(h2) && (var h3 := Step(h2, es[2]);
            Valid(h3) && Requested(h3, 24).1 == h.start + 36))
  {
    hide Valid, Chain, BlocksIn, Fresh, Given, ReleasedAt, Step, Allocated;
    CountIs(h);
    AppendStep(h, 20);
    var h1 := Step(h, es[0]);
    CountIs(h1);
    AppendStep(h1, 16);
    var h2 := Step(h1, es[1]);
    CountIs(h2);
    ReleaseStep(h2, h.start);
    var h3 := Step(h2, es[2]);
    CountIs(h3);
    assert BlocksIn(h3) == [Block(true, 20), Block(false, 16)];
    AppendStep(h3, 24);
    assert Sum(BlocksIn(h3)) == 36;
  }

  /** Releasing a block that is free already counts its bytes once more. */
  lemma ReleasedTwice(h: Heap, at: nat)
    requires Valid(h) && Account(h) < WORD
    requires var i := BlockAt(BlocksIn(h), h.start, at);
             i < |BlocksIn(h)| && BlocksIn(h)[i].free && Releasable(BlocksIn(h), i) &&
                 h.remaining + BlocksIn(h)[i].size < WORD
    ensures var g := Released(h, at);
            && g.1 == Done && Valid(g.0) && LiveIn(g.0) == LiveIn(h)
            && Account(g.0) == Account(h) + BlocksIn(h)[BlockAt(BlocksIn(h), h.start, at)].size > Account(h)
  {
    hide Valid, BlocksIn, Chain, Releasable, Coalesced, Sum, Live, Used, Freed;
    var bs := BlocksIn(h);
    var i := BlockAt(bs, h.start, at);
    CountIs(h);
    SizesPositive(h);
    ReleaseCoalesces(h, i);
    FreeAgain(bs, i, h.start);
  }

  lemma FreeAgain(bs: seq<Block>, i: nat, s: nat)
    requires i < |bs| && bs[i].free
    ensures Live(Coalesced(bs, i), s) == Live(bs, s) && Used(Coalesced(bs, i)) == Used(bs)
  {
    hide Sum, Live, Used;
    var marked := bs[i := Block(true, bs[i].size)];
    assert marked == bs;
    if i == |bs| - 1 {
      DropKeepsLive(bs, s);
    } else {
      var joins := bs[i + 1].free && Fits(bs[i].size, bs[i + 1].size);
      var joined := if joins then Merged(bs, i) else bs;
      if joins { MergeKeepsLive(bs, i, s); }
      if i > 0 && bs[i - 1].free { MergeKeepsLive(joined, i - 1, s); }
    }
  }

  // ----- a header that overflows

  /** Allocate 20000, 20000 and 8 bytes and release the first block. Releasing the second now merges 40000 bytes under a
      header that holds 15 bits. */
  lemma OverflowReached(h: Heap, es: seq<Event>)
    requires Valid(h) && h.count == 0 && 16 <= Top(h.m) && 40008 <= h.remaining < WORD
    requires es == [Allocate(20000), Allocate(20000), Allocate(8), Release(h.start)]
    ensures var h1 := Step(h, es[0]);
            Valid(h1) && (var h2 := Step(h1, es[1]);
            Valid(h2) && (var h3 := Step(h2, es[2]);
            Valid(h3) && (var h4 := Step(h3, es[3]);
            Valid(h4) && BlocksIn(h4) == [Block(true, 20000), Block(false, 20000), Block(false, 8)]
            && (var g := Step(h4, Release(h.start + 20000));
                !(Valid(g) && BlocksIn(g) == Coalesced(BlocksIn(h4), 1))))))
  {
    hide Valid, Chain, BlocksIn, Fresh, Given, ReleasedAt, Step, Coalesced;
    CountIs(h);
    AppendStep(h, 20000);
    var h1 := Step(h, es[0]);
    CountIs(h1);
    AppendStep(h1, 20000);
    var h2 := Step(h1, es[1]);
    CountIs(h2);
    AppendStep(h2, 8);
    var h3 := Step(h2, es[2]);
    CountIs(h3);
    ReleaseStep(h3, h.start);
    var h4 := Step(h3, es[3]);
    FirstFreed(BlocksIn(h3));
    CountIs(h4);
    OverflowStep(h4);
  }

  lemma FirstFreed(bs: seq<Block>)
    requires bs == [Block(false, 20000), Block(false, 20000), Block(false, 8)]
    ensures Coalesced(bs, 0) == [Block(true, 20000), Block(false, 20000), Block(false, 8)]
  {
  }

  lemma OverflowStep(h: Heap)
    requires Valid(h) && BlocksIn(h) == [Block(true, 20000), Block(false, 20000), Block(false, 8)]
    ensures var g := Step(h, Release(h.start + 20000)); !(Valid(g) && BlocksIn(g) == Coalesced(BlocksIn(h), 1))
  {
    hide Valid, Chain, BlocksIn, ReleasedAt, Coalesced;
    CountIs(h);
    var bs := BlocksIn(h);
    assert bs[1..][0] == Block(false, 20000);
    assert BlockAt(bs[1..], h.start + 20000, h.start + 20000) == 0;
    assert BlockAt(bs, h.start, h.start + 20000) == 1;
    ReleaseExact(h, 1);
  }

  // ----- bytes that nobody accounts for

  /** j blocks of four bytes that are in use, a free block and one more in use. */
  function Carved(j: nat, r: nat): seq<Block> {
    seq(j, _ => Block(false, 4)) + [Block(true, r), Block(false, 4)]
  }

  lemma CarvedFit(j: nat, r: nat)
    requires r >= 4
    ensures FirstFit(Carved(j, r), 4) == j && |Carved(j, r)| == j + 2 && Carved(j, r)[j] == Block(true, r)
    ensures r > 4 ==> Taken(Carved(j, r), j, 4, true) == Carved(j + 1, r - 4)
  {
    var bs := Carved(j, r);
    assert forall i :: 0 <= i < j ==> !bs[i].free;
    assert bs[j] == Block(true, r);
    var i := FirstFit(bs, 4);
    assert !(i < j) && !(j < i);
    if r > 4 {
      assert Taken(bs, j, 4, true) == bs[..j] + [Block(false, 4), Block(true, r - 4)] + bs[j + 1..];
    }
  }

  lemma {:induction false} FirstEmptyIs(m: seq<Cell>, x: nat, end: nat, y: nat)
    requires x <= y <= end <= |m| && forall z :: x <= z < y ==> m[z] != EMPTY
    ensures FirstEmpty(m, x, end) >= y
  {
  }

  /** A split takes the spare word, and no word becomes empty. */
  lemma SpareMovesOn(h: Heap, i: nat, size: nat)
    requires Region(h.m) && i < |BlocksIn(h)| && 0 < size < BlocksIn(h)[i].size && Spare(h) < Top(h.m)
    ensures var g := SplitOff(h, i, size); |g.m| == |h.m| && Region(g.m) && Spare(g) > Spare(h)
  {
    var x, g := Spare(h), SplitOff(h, i, size);
    forall z | 0 <= z < x + 1 ensures g.m[z] != EMPTY {
      assert z < x ==> h.m[z] != EMPTY;
    }
    FirstEmptyIs(g.m, 0, Top(g.m), x + 1);
  }

  lemma CarveStep(h: Heap, j: nat, r: nat)
    requires Valid(h) && BlocksIn(h) == Carved(j, r) && 8 <= r <= h.remaining < WORD && Spare(h) < Top(h.m)
    ensures Admitted(h, Allocate(4))
    ensures var g := Step(h, Allocate(4));
            && Valid(g) && BlocksIn(g) == Carved(j + 1, r - 4) && g.remaining == h.remaining - 4
            && |g.m| == |h.m| && Spare(g) > Spare(h)
  {
    hide Valid, BlocksIn, Chain, SplitOff, Carved, Spare, Region;
    CountIs(h);
    CarvedFit(j, r);
    var g := Step(h, Allocate(4));
    SplitKeeps(h, j, 4);
    SpareMovesOn(h, j, 4);
    AllocatesBySplit(h, j);
    Rebilled(SplitOff(h, j, 4), h.remaining - 4);
    SpareIgnores(SplitOff(h, j, 4), h.remaining - 4);
  }

  lemma SpareIgnores(h: Heap, n: nat)
    requires Region(h.m)
    ensures Spare(h.(remaining := n)) == Spare(h)
  {
  }

  lemma AllocatesBySplit(h: Heap, j: nat)
    requires Valid(h) && j < |BlocksIn(h)| && FirstFit(BlocksIn(h), 4) == j && 4 < BlocksIn(h)[j].size
    requires 4 <= h.remaining < WORD && Spare(h) < Top(h.m) && j < |BlocksIn(h)| - 1
    ensures Step(h, Allocate(4)) == SplitOff(h, j, 4).(remaining := h.remaining - 4) && Admitted(h, Allocate(4))
  {
    hide Valid, BlocksIn, Chain, Spare;
    CountIs(h);
  }

  lemma ExcessStep(h: Heap, j: nat, r: nat)
    requires Valid(h) && BlocksIn(h) == Carved(j, r) && 8 <= r <= h.remaining < WORD && Spare(h) == Top(h.m)
    ensures Admitted(h, Allocate(4)) && Excess(h, Allocate(4)) == r - 4 > 0
  {
    hide Valid, BlocksIn, Chain, Carved, Spare;
    CountIs(h);
    CarvedFit(j, r);
  }

  /** Go on allocating four bytes until no spare word is left: the next request is given a whole larger block. */
  lemma {:induction false} Carve(h: Heap, j: nat, r: nat) returns (hs: seq<Heap>, es: seq<Event>)
    requires Valid(h) && BlocksIn(h) == Carved(j, r) && r <= h.remaining < WORD && r >= 4 * (Top(h.m) - Spare(h) + 2)
    ensures Run(hs, es) && hs[0] == h && es != []
    ensures Valid(hs[|es| - 1]) && Excess(hs[|es| - 1], es[|es| - 1]) > 0
    decreases Top(h.m) - Spare(h)
  {
    hide Valid, BlocksIn, Admitted, Step, Excess, Spare, Carved;
    CountIs(h);
    var e := Allocate(4);
    if Spare(h) == Top(h.m) {
      ExcessStep(h, j, r);
      hs, es := [h, Step(h, e)], [e];
    } else {
      CarveStep(h, j, r);
      var g := Step(h, e);
      var hs', es' := Carve(g, j + 1, r - 4);
      hs, es := [h] + hs', [e] + es';
      forall i | 0 <= i < |es| ensures Move(hs[i], es[i], hs[i + 1]) {
        if i > 0 { assert Move(hs'[i - 1], es'[i - 1], hs'[i - 1 + 1]); }
      }
    }
  }

  /** From every empty heap whose memory and marker region allow it, some run hands out bytes that nobody accounts
      for. */
  lemma ExcessReached(h: Heap) returns (hs: seq<Heap>, es: seq<Event>)
    requires Valid(h) && h.count == 0 && 16 <= Top(h.m) <= 8000 && 4 * Top(h.m) + 20 <= h.remaining < WORD
    ensures Run(hs, es) && hs[0] == h && es != []
    ensures Valid(hs[|es| - 1]) && Excess(hs[|es| - 1], es[|es| - 1]) > 0
  {
    hide Valid, BlocksIn, Admitted, Step, Excess, Spare, Carved;
    CountIs(h);
    var r := 4 * (Top(h.m) + 4);
    AppendStep(h, r);
    var e1, e2, e3 := Allocate(r), Allocate(4), Release(h.start);
    var h1 := Step(h, e1);
    CountIs(h1);
    AppendStep(h1, 4);
    var h2 := Step(h1, e2);
    CountIs(h2);
    FreesFirst(h2, r);
    var h3 := Step(h2, e3);
    CountIs(h3);
    var hs', es' := Carve(h3, 0, r);
    hs, es := [h, h1, h2] + hs', [e1, e2, e3] + es';
    AppendAdmitted(h, r);
    AppendAdmitted(h1, 4);
    forall i | 0 <= i < |es| ensures Move(hs[i], es[i], hs[i + 1]) {
      if i > 2 { assert Move(hs'[i - 3], es'[i - 3], hs'[i - 3 + 1]); }
    }
  }

  lemma AppendAdmitted(h: Heap, n: nat)
    requires Valid(h) && n % 4 == 0 && 0 < n < WORD && FirstFit(BlocksIn(h), n) == |BlocksIn(h)|
    ensures Admitted(h, Allocate(n))
  {
    hide Valid, BlocksIn;
  }

  lemma FreesFirst(h: Heap, r: nat)
    requires Valid(h) && BlocksIn(h) == [Block(false, r), Block(false, 4)] && h.remaining + r < WORD
    ensures Admitted(h, Release(h.start))
    ensures var g := Step(h, Release(h.start));
            && Valid(g) && BlocksIn(g) == Carved(0, r) && g.remaining == h.remaining + r && |g.m| == |h.m|
  {
    hide Valid, BlocksIn, Chain, Step;
    CountIs(h);
    assert BlockAt(BlocksIn(h), h.start, h.start) == 0;
    ReleaseStep(h, h.start);
    assert Coalesced(BlocksIn(h), 0) == [Block(true, r), Block(false, 4)];
    assert Carved(0, r) == [Block(true, r), Block(false, 4)];
  }
}
