/** The global heap: what one allocation and one release do to the markers, and what they keep. */
module Heap {
  import opened Blocks
  import opened Markers

  const NULL := 0
  const WORD := 0x1_0000_0000

  /** The marker words, the slot of the last marker, the number of markers, the bytes accounted as available and the
      address where the tiling starts. */
  datatype Heap = Heap(m: seq<Cell>, last: nat, count: nat, remaining: nat, start: nat)

  ghost function Chain(h: Heap): (c: seq<nat>)
    ensures |c| <= h.count && forall i :: 0 <= i < |c| ==> c[i] < |h.m|
  {
    ChainOf(h.m, Top(h.m), h.count)
  }

  ghost function BlocksIn(h: Heap): (bs: seq<Block>)
    ensures |bs| == |Chain(h)| && forall i :: 0 <= i < |bs| ==> bs[i] == BlockOf(h.m[Chain(h)[i]])
  {
    BlocksOf(h.m, Chain(h))
  }

  /** The live blocks: address and size. */
  ghost function LiveIn(h: Heap): set<(nat, nat)> {
    Live(BlocksIn(h), h.start)
  }

  /** The bookkeeping region: its number of words is a multiple of 256, and slots fit 16-bit offsets. */
  predicate Region(m: seq<Cell>) {
    4 <= Top(m) && Top(m) % 4 == 0 && |m| < FREE
  }

  /** The markers form one chain of `count` blocks from the top word to `last`, and no other word is taken. */
  ghost predicate Valid(h: Heap) {
    var c := Chain(h);
    Region(h.m) && h.start > 0 && |c| == h.count && Linked(h.m, c) && Clean(h.m, c) && h.last == End(h.m, c)
  }

  /** To be valid it is enough to name the chain. */
  lemma ValidBy(h: Heap, c: seq<nat>)
    requires Region(h.m) && h.start > 0 && |c| == h.count && Linked(h.m, c) && Clean(h.m, c) && h.last == End(h.m, c)
    ensures Valid(h) && Chain(h) == c && BlocksIn(h) == BlocksOf(h.m, c)
  {
    hide Good, Clean, Distinct, Tagged, End, BlocksOf;
    if c != [] { ChainFound(h.m, c, 0); }
  }

  // ----- allocation

  /** The first empty word from x on, or `end`. */
  function FirstEmpty(m: seq<Cell>, x: nat, end: nat): (y: nat)
    requires x <= end <= |m|
    ensures x <= y <= end && (y < end ==> m[y] == EMPTY) && forall z :: x <= z < y ==> m[z] != EMPTY
    decreases end - x
  {
    if x == end || m[x] == EMPTY then x else FirstEmpty(m, x + 1, end)
  }

  /** The first empty word among n words from x downwards, or -1. */
  function LastEmpty(m: seq<Cell>, x: int, n: nat): (y: int)
    requires n - 1 <= x < |m|
    ensures y == -1 || (x - n < y <= x && m[y] == EMPTY)
    ensures forall z :: (if y == -1 then x - n else y) < z <= x ==> m[z] != EMPTY
    decreases n
  {
    if n == 0 then -1 else if m[x] == EMPTY then x else LastEmpty(m, x - 1, n - 1)
  }

  /** The word a split would use: the first empty one, the search starting one word below the region and leaving out the
      top word. */
  ghost function Spare(h: Heap): (x: nat)
    requires Region(h.m)
    ensures x <= Top(h.m) && (x < Top(h.m) ==> h.m[x] == EMPTY)
  {
    FirstEmpty(h.m, 0, Top(h.m))
  }

  ghost predicate Splitting(h: Heap, i: nat, size: nat)
    requires Region(h.m) && i < |BlocksIn(h)|
  {
    BlocksIn(h)[i].size != size && Spare(h) < Top(h.m)
  }

  /** Take the first free block that is large enough. A larger one is split if there is a spare word; otherwise all of
      it is handed out. */
  ghost function Searched(h: Heap, size: nat): (Heap, nat)
    requires Valid(h)
  {
    var c, bs := Chain(h), BlocksIn(h);
    var i := FirstFit(bs, size);
    if i == |bs| then (h, NULL)
    else
      var at := h.start + Sum(bs[..i]);
      if Splitting(h, i, size) then
        var rest := Header(true, bs[i].size - size);
        (h.(m := SplitCells(h.m, c[i], Spare(h), size, rest), count := h.count + 1), at)
      else (h.(m := h.m[c[i] := Cell(bs[i].size, h.m[c[i]].off)]), at)
  }

  /** The word a new marker takes: the first empty one among the top quarter of the region, from the top down. */
  ghost function Fresh(h: Heap): (x: int)
    requires Region(h.m)
    ensures x == -1 || (0 < x <= Top(h.m) && h.m[x] == EMPTY)
  {
    LastEmpty(h.m, Top(h.m), Top(h.m) / 4)
  }

  /** Put a new block behind the last one. */
  ghost function Extended(h: Heap, size: nat): (Heap, nat)
    requires Valid(h)
  {
    var x := Fresh(h);
    if x == -1 then (h, NULL)
    else
      assert h.last < |h.m| by { LastInRange(h); }
      (h.(m := AppendCells(h.m, h.last, x, size), last := x, count := h.count + 1), h.start + Sum(BlocksIn(h)))
  }

  lemma LastInRange(h: Heap)
    requires Valid(h)
    ensures h.last <= Top(h.m)
  {
    hide Good, Clean, Tagged, Distinct;
  }

  ghost function Given(h: Heap, size: nat): (Heap, nat)
    requires Valid(h)
  {
    if h.count == 0 then Extended(h, size)
    else
      var r := Searched(h, size);
      if r.1 == NULL then Extended(h, size) else r
  }

  /** The allocation service. */
  ghost function Allocated(h: Heap, size: nat): (Heap, nat)
    requires Valid(h)
  {
    var r := Given(h, size);
    if r.1 == NULL then r else (r.0.(remaining := (r.0.remaining - size) % WORD), r.1)
  }

  /** Up to the next multiple of 4, in 32 bits. */
  function Rounded(n: nat): (r: nat) {
    (n + (if n % 4 == 0 then 0 else 4 - n % 4)) % WORD
  }

  /** The library call: refuse what is too large, then ask the service. */
  ghost function Requested(h: Heap, n: nat): (Heap, nat)
    requires Valid(h)
  {
    var size := Rounded(n);
    if size > 32767 || h.remaining < size then (h, NULL) else Allocated(h, size)
  }

  // ----- what allocation keeps

  lemma Spares(h: Heap, i: nat, size: nat)
    requires Valid(h) && i < |BlocksIn(h)| && 0 < size < BlocksIn(h)[i].size && Spare(h) < Top(h.m)
    ensures BlocksIn(h)[i].size < FREE
    ensures Splits(h.m, Chain(h), i, Spare(h), size, Header(true, BlocksIn(h)[i].size - size))
  {
    var c, x, rest := Chain(h), Spare(h), BlocksIn(h)[i].size - size;
    EmptyNotLinked(h.m, c, x);
    assert BlocksIn(h)[i].size < FREE;
    forall off ensures Good(Cell(size, off)) && Good(Cell(Header(true, rest), off)) {
      HeaderReads(false, size, off);
      HeaderReads(true, rest, off);
    }
  }

  ghost function SplitOff(h: Heap, i: nat, size: nat): Heap
    requires Region(h.m) && i < |BlocksIn(h)| && size <= BlocksIn(h)[i].size
  {
    h.(m := SplitCells(h.m, Chain(h)[i], Spare(h), size, Header(true, BlocksIn(h)[i].size - size)),
        count := h.count + 1)
  }

  lemma SplitInner(h: Heap, i: nat, size: nat)
    requires Valid(h) && i < |BlocksIn(h)| - 1 && BlocksIn(h)[i].free && 0 < size < BlocksIn(h)[i].size &&
        Spare(h) < Top(h.m)
    ensures var g := SplitOff(h, i, size); Valid(g) && BlocksIn(g) == Taken(BlocksIn(h), i, size, true)
  {
    hide Good, SizeOf, IsFree, Valid, Linked, Header, Splits, Path, Distinct, BlockOf, Spare, BlocksOf, Chain,
        Inserted, SplitOff;
    CountIs(h);
    var c, x, bs := Chain(h), Spare(h), BlocksIn(h);
    var head, g := Header(true, bs[i].size - size), SplitOff(h, i, size);
    Spares(h, i, size);
    SplitChain(h, i, size);
    ValidBy(g, Inserted(c, i, x));
    SplitBlocks(h.m, c, i, x, size, head);
    SplitReads(size, bs[i].size - size);
  }

  lemma SplitChain(h: Heap, i: nat, size: nat)
    requires Valid(h) && i < |BlocksIn(h)| - 1 && 0 < size < BlocksIn(h)[i].size && Spare(h) < Top(h.m)
    ensures var g, d := SplitOff(h, i, size), Inserted(Chain(h), i, Spare(h));
            && g.m == SplitCells(h.m, Chain(h)[i], Spare(h), size, Header(true, BlocksIn(h)[i].size - size))
            && Region(g.m) && g.start > 0 && |d| == g.count && Linked(g.m, d) && Clean(g.m, d) && g.last == End(g.m, d)
            && Tagged(g.m, d)
  {
    hide Good, SizeOf, IsFree, Linked, Clean, Region, Header, Splits, Distinct, Tagged, Path, BlockOf, Spare, BlocksOf;
    var c, x, bs := Chain(h), Spare(h), BlocksIn(h);
    var head, g := Header(true, bs[i].size - size), SplitOff(h, i, size);
    Spares(h, i, size);
    RegionKept(h.m, g.m);
    SplitLinks(h.m, c, i, x, size, head);
    SplitRest(h.m, c, i, x, size, head);
    SplitClean(h.m, c, i, x, size, head);
  }

  lemma SplitOuter(h: Heap, i: nat, size: nat)
    requires Valid(h) && i == |BlocksIn(h)| - 1 && 0 < size < BlocksIn(h)[i].size && Spare(h) < Top(h.m)
    ensures !Valid(SplitOff(h, i, size))
  {
    hide Good, SizeOf, IsFree, Linked, Clean, Region, Header, Splits, Distinct, Tagged, Path, BlockOf, Spare;
    var c, x, bs := Chain(h), Spare(h), BlocksIn(h);
    var head, g := Header(true, bs[i].size - size), SplitOff(h, i, size);
    Spares(h, i, size);
    SplitsOutside(h.m, c, i, x, size, head);
    if |Chain(g)| == g.count { SplitLastBreaks(h.m, c, x, size, head, Chain(g)); }
  }

  /** Splitting keeps a valid heap exactly if the block split is not the last one. */
  lemma SplitKeeps(h: Heap, i: nat, size: nat)
    requires Valid(h) && i < |BlocksIn(h)| && BlocksIn(h)[i].free && 0 < size < BlocksIn(h)[i].size &&
        Spare(h) < Top(h.m)
    ensures var g := SplitOff(h, i, size);
            && (Valid(g) <==> i < |BlocksIn(h)| - 1)
            && (Valid(g) ==> BlocksIn(g) == Taken(BlocksIn(h), i, size, true))
  {
    hide Valid, SplitOff, BlocksIn, Taken;
    if i < |BlocksIn(h)| - 1 { SplitInner(h, i, size); } else { SplitOuter(h, i, size); }
  }

  lemma SplitsOutside(m: seq<Cell>, c: seq<nat>, i: nat, x: nat, head: nat, rest: nat)
    requires Splits(m, c, i, x, head, rest)
    ensures Linked(m, c) && x !in c && x <= Top(m)
  {
  }

  lemma SplitReads(size: nat, rest: nat)
    requires 0 < size < FREE && 0 < rest < FREE
    ensures BlockOf(Cell(size, 0)) == Block(false, size) && BlockOf(Cell(Header(true, rest), 0)) == Block(true, rest)
  {
    HeaderReads(true, rest, 0);
  }

  lemma RegionKept(m: seq<Cell>, r: seq<Cell>)
    requires Region(m) && |r| == |m|
    ensures Region(r)
  {
  }

  /** Handing out a whole free block keeps a valid heap. */
  lemma WholeKeeps(h: Heap, i: nat)
    requires Valid(h) && i < |BlocksIn(h)| && BlocksIn(h)[i].free
    ensures var c, size := Chain(h), BlocksIn(h)[i].size;
            var g := h.(m := h.m[c[i] := Cell(size, h.m[c[i]].off)]);
            Valid(g) && BlocksIn(g) == Taken(BlocksIn(h), i, size, false)
  {
    hide Clean, Linked, Region;
    var c, size := Chain(h), BlocksIn(h)[i].size;
    var g := h.(m := h.m[c[i] := Cell(size, h.m[c[i]].off)]);
    SizesPositive(h);
    HeaderReads(false, size, h.m[c[i]].off);
    Retagged(h.m, c, i, size);
    RegionKept(h.m, g.m);
    ValidBy(g, c);
  }

  lemma SizesPositive(h: Heap)
    requires Valid(h)
    ensures forall i :: 0 <= i < |BlocksIn(h)| ==> 0 < BlocksIn(h)[i].size < FREE
  {
    hide Path, Distinct, Clean, Region;
    forall i | 0 <= i < |BlocksIn(h)| ensures 0 < BlocksIn(h)[i].size < FREE { assert Good(h.m[Chain(h)[i]]); }
  }

  /** A new marker behind the last one keeps a valid heap. */
  lemma ExtendKeeps(h: Heap, size: nat)
    requires Valid(h) && 0 < size < FREE && Fresh(h) != -1
    ensures var r := Extended(h, size);
            && Valid(r.0) && BlocksIn(r.0) == BlocksIn(h) + [Block(false, size)] && r.1 == h.start + Sum(BlocksIn(h))
  {
    hide SizeOf, IsFree, Linked, Clean, Region, BlockOf;
    var c, x := Chain(h), Fresh(h);
    FreshAppends(h);
    forall off ensures Good(Cell(size, off)) { HeaderReads(false, size, off); }
    AppendLinks(h.m, c, x, size);
    AppendBlocks(h.m, c, x, size);
    var g := Extended(h, size).0;
    RegionKept(h.m, g.m);
    ValidBy(g, c + [x]);
    SizeReads(size);
  }

  lemma SizeReads(size: nat)
    requires 0 < size < FREE
    ensures BlockOf(Cell(size, 0)) == Block(false, size)
  {
  }

  lemma FreshAppends(h: Heap)
    requires Valid(h) && Fresh(h) != -1
    ensures Appends(h.m, Chain(h), Fresh(h))
  {
    hide Path, Distinct;
    EmptyNotLinked(h.m, Chain(h), Fresh(h));
    if Chain(h) == [] {
      assert h.m[Top(h.m)] == EMPTY;
    }
  }

  /** The condition on an allocation: it does not split the last block. */
  ghost predicate SplitsLast(h: Heap, size: nat)
    requires Valid(h)
  {
    var bs := BlocksIn(h);
    var i := FirstFit(bs, size);
    i < |bs| && i == |bs| - 1 && Splitting(h, i, size)
  }

  /** The bytes an allocation hands out: the request, or a whole larger block when no word is left for a split. */
  ghost function Handed(h: Heap, size: nat): nat
    requires Valid(h)
  {
    var bs := BlocksIn(h);
    var i := FirstFit(bs, size);
    if i < |bs| && !Splitting(h, i, size) then bs[i].size else size
  }

  /** What an allocation does to the tiling. */
  ghost function Grown(h: Heap, size: nat): seq<Block>
    requires Valid(h)
  {
    var bs := BlocksIn(h);
    var i := FirstFit(bs, size);
    if i < |bs| then Taken(bs, i, size, Splitting(h, i, size))
    else if Fresh(h) == -1 then bs
    else bs + [Block(false, size)]
  }

  ghost function Address(h: Heap, size: nat): nat
    requires Valid(h)
  {
    var bs := BlocksIn(h);
    h.start + Sum(bs[..FirstFit(bs, size)])
  }

  /** The path the service takes comes to first fit, and a new block at the end of the tiling only if nothing fits. It
      keeps a valid heap exactly if it does not split the last block. */
  lemma GivenKeeps(h: Heap, size: nat)
    requires Valid(h) && 0 < size < FREE
    ensures var r := Given(h, size);
            && (Valid(r.0) <==> !SplitsLast(h, size))
            && (Valid(r.0) ==> BlocksIn(r.0) == Grown(h, size))
            && r.0.start == h.start && r.0.remaining == h.remaining
            && r.1 == (if Grown(h, size) == BlocksIn(h) then NULL else Address(h, size))
  {
    hide Valid, SplitCells, Chain, BlocksIn, Sum;
    var bs := BlocksIn(h);
    var i := FirstFit(bs, size);
    CountIs(h);
    assert bs[..|bs|] == bs;
    if i < |bs| {
      assert Grown(h, size) != bs by {
        assert Splitting(h, i, size) ==> |Grown(h, size)| == |bs| + 1;
        assert !Splitting(h, i, size) ==> !Grown(h, size)[i].free;
      }
      if Splitting(h, i, size) { SplitKeeps(h, i, size); } else { WholeKeeps(h, i); TakenWhole(bs, i, size); }
    } else if Fresh(h) != -1 {
      ExtendKeeps(h, size);
      assert |Grown(h, size)| == |bs| + 1;
    }
  }

  lemma CountIs(h: Heap)
    requires Valid(h)
    ensures |BlocksIn(h)| == h.count && |Chain(h)| == h.count && Region(h.m) && h.start > 0
  {
  }

  lemma TakenWhole(bs: seq<Block>, i: nat, size: nat)
    requires i < |bs| && size <= bs[i].size
    ensures Taken(bs, i, size, false) == Taken(bs, i, bs[i].size, false)
  {
  }

  /** Main result on allocation. Unless it splits the last block, it keeps a valid heap; and if it returns an address,
      exactly one block joins the live ones, at that address, disjoint from them, and all others stay where they are. */
  lemma AllocationAddsOne(h: Heap, size: nat)
    requires Valid(h) && 0 < size < FREE && !SplitsLast(h, size)
    ensures var r := Allocated(h, size);
            && Valid(r.0) && r.0.start == h.start
            && (r.1 == NULL ==> r.0 == h)
            && (r.1 != NULL ==>
                  && LiveIn(r.0) == LiveIn(h) + {(r.1, Handed(h, size))}
                  && Used(BlocksIn(r.0)) == Used(BlocksIn(h)) + Handed(h, size)
                  && r.0.remaining == (h.remaining - size) % WORD)
  {
    hide Valid, SplitCells, Chain, BlocksIn, Sum, Used, Live, Taken;
    GivenKeeps(h, size);
    var r, g := Allocated(h, size), Given(h, size);
    Rebilled(g.0, r.0.remaining);
    var bs := BlocksIn(h);
    var i := FirstFit(bs, size);
    CountIs(h);
    assert bs[..|bs|] == bs;
    if i < |bs| {
      TakeAddsOne(bs, i, size, Splitting(h, i, size), h.start);
    } else if Fresh(h) != -1 {
      AppendAddsOne(bs, size, h.start);
    }
  }

  /** The account does not touch the markers. */
  lemma Rebilled(h: Heap, n: nat)
    ensures Valid(h.(remaining := n)) == Valid(h)
    ensures BlocksIn(h.(remaining := n)) == BlocksIn(h) && Chain(h.(remaining := n)) == Chain(h)
  {
    hide Linked, Clean, BlocksOf, ChainOf, End, Region;
  }

  // ----- release

  /** The block that starts at an address, or |bs|. */
  function BlockAt(bs: seq<Block>, s: nat, at: nat): (i: nat)
    ensures i <= |bs|
  {
    if bs == [] || s == at then 0 else 1 + BlockAt(bs[1..], s + bs[0].size, at)
  }

  /** What releasing marker i does when it is not the last: free it, let it absorb a free next marker if the header
      allows the sum, then let a free previous marker absorb it, whatever the sum. Results in the words, the number of
      markers and the value that the previous marker adds to its size. */
  ghost function Freed(h: Heap, i: nat): (seq<Cell>, nat, nat)
    requires Valid(h) && i + 1 < |Chain(h)|
  {
    var c, bs := Chain(h), BlocksIn(h);
    var size, next := bs[i].size, bs[i + 1];
    if next.free && FREE + size + next.size < 0xFFFF then
      (AbsorbCells(h.m, c[i], c[i + 1], FREE + size + next.size), h.count - 1, FREE + size + next.size)
    else
      (h.m[c[i] := Cell(FREE + size, h.m[c[i]].off)], h.count, FREE + size + if next.free then next.size else 0)
  }

  ghost function ReleasedAt(h: Heap, i: nat): Heap
    requires Valid(h) && i < |Chain(h)|
  {
    var c, bs := Chain(h), BlocksIn(h);
    var g := h.(remaining := (h.remaining + bs[i].size) % WORD);
    if i == |c| - 1 then
      g.(m := DropCells(h.m, c), count := h.count - 1, last := if i == 0 then h.last else c[i - 1])
    else
      var f := Freed(h, i);
      if i > 0 && bs[i - 1].free then
        var head := (f.2 + bs[i - 1].size) % 0x1_0000;
        g.(m := AbsorbCells(f.0, c[i - 1], c[i], head), count := f.1 - 1)
      else g.(m := f.0, count := f.1)
  }

  datatype Status = Done | EmptyHeap | WrongPointer

  /** The release service. */
  ghost function Released(h: Heap, at: nat): (Heap, Status)
    requires Valid(h)
  {
    if h.count == 0 then (h, EmptyHeap)
    else
      var i := BlockAt(BlocksIn(h), h.start, at);
      if i == |BlocksIn(h)| then (h, WrongPointer) else (ReleasedAt(h, i), Done)
  }

  // ----- what a release keeps

  predicate Fits(size: nat, other: nat) {
    size + other < FREE - 1
  }

  /** What a release does to the tiling: the last block is dropped, another one is merged with exactly its free
      neighbours; with the next one only if the sum fits a header. */
  function Coalesced(bs: seq<Block>, i: nat): seq<Block>
    requires i < |bs|
  {
    if i == |bs| - 1 then bs[..i]
    else
      var marked := bs[i := Block(true, bs[i].size)];
      var joined := if bs[i + 1].free && Fits(bs[i].size, bs[i + 1].size) then Merged(marked, i) else marked;
      if i > 0 && bs[i - 1].free then Merged(joined, i - 1) else joined
  }

  /** The condition on a release: no absorbed marker is the last, and what is merged into the previous block fits. */
  predicate Releasable(bs: seq<Block>, i: nat)
    requires i < |bs|
  {
    i == |bs| - 1 ||
    (var next := bs[i + 1];
     && !(i == |bs| - 2 && next.free && Fits(bs[i].size, next.size))
     && (i > 0 && bs[i - 1].free ==>
           if next.free then Fits(bs[i].size, next.size) && bs[i - 1].size + bs[i].size + next.size < FREE
           else bs[i - 1].size + bs[i].size < FREE))
  }

  lemma DropKeeps(h: Heap, i: nat)
    requires Valid(h) && i == |Chain(h)| - 1
    ensures Valid(ReleasedAt(h, i)) && BlocksIn(ReleasedAt(h, i)) == BlocksIn(h)[..i]
  {
    hide Clean, Linked, Region, BlockOf;
    var c, g := Chain(h), ReleasedAt(h, i);
    DropLinks(h.m, c);
    DropBlocks(h.m, c);
    DropClean(h.m, c);
    RegionKept(h.m, g.m);
    ValidBy(g, c[..i]);
    TopFirst(h);
  }

  lemma TopFirst(h: Heap)
    requires Valid(h) && Chain(h) != []
    ensures Chain(h)[0] == Top(h.m)
  {
  }

  ghost function JoinOff(h: Heap, i: nat): Heap
    requires i + 1 < |Chain(h)| && h.count > 0
  {
    var c, bs := Chain(h), BlocksIn(h);
    h.(m := AbsorbCells(h.m, c[i], c[i + 1], Header(true, bs[i].size + bs[i + 1].size)), count := h.count - 1)
  }

  lemma JoinChain(h: Heap, i: nat)
    requires Valid(h) && i + 2 < |Chain(h)| && BlocksIn(h)[i].size + BlocksIn(h)[i + 1].size < FREE
    ensures var c, g, head := Chain(h), JoinOff(h, i), Header(true, BlocksIn(h)[i].size + BlocksIn(h)[i + 1].size);
            var d := Dropped(c, i + 1);
            && g.m == AbsorbCells(h.m, c[i], c[i + 1], head) && Absorbs(h.m, c, i, head)
            && Region(g.m) && g.start > 0 && |d| == g.count && Linked(g.m, d) && Clean(g.m, d) && g.last == End(g.m, d)
            && Tagged(g.m, d)
  {
    hide Clean, Linked, Region, BlockOf, AbsorbCells, Path, Good, Tagged, Distinct, BlocksOf;
    var c, size := Chain(h), BlocksIn(h)[i].size + BlocksIn(h)[i + 1].size;
    var head := Header(true, size);
    SizesPositive(h);
    forall off ensures Good(Cell(head, off)) { HeaderReads(true, size, off); }
    AbsorbLinks(h.m, c, i, head);
    AbsorbTags(h.m, c, i, head);
    AbsorbClean(h.m, c, i, head);
    AbsorbOthers(h.m, c, i, head, i);
    RegionKept(h.m, JoinOff(h, i).m);
  }

  /** Absorbing a next block that is not the last, under a header with the sum of the sizes, merges the two. */
  lemma JoinKeeps(h: Heap, i: nat)
    requires Valid(h) && i + 2 < |Chain(h)| && BlocksIn(h)[i].size + BlocksIn(h)[i + 1].size < FREE
    ensures var c, size := Chain(h), BlocksIn(h)[i].size + BlocksIn(h)[i + 1].size;
            var g := h.(m := AbsorbCells(h.m, c[i], c[i + 1], FREE + size), count := h.count - 1);
            && Valid(g) && Chain(g) == Dropped(c, i + 1) && BlocksIn(g) == Merged(BlocksIn(h), i)
  {
    hide Valid, Linked, Clean, BlockOf, AbsorbCells, Path, Chain, Absorbs;
    CountIs(h);
    var c, size := Chain(h), BlocksIn(h)[i].size + BlocksIn(h)[i + 1].size;
    SizesPositive(h);
    JoinChain(h, i);
    ValidBy(JoinOff(h, i), Dropped(c, i + 1));
    AbsorbBlocks(h.m, c, i, Header(true, size));
    FreeReads(size);
  }

  lemma FreeReads(size: nat)
    requires 0 < size < FREE
    ensures BlockOf(Cell(Header(true, size), 0)) == Block(true, size)
  {
    HeaderReads(true, size, 0);
  }

  /** Marking a block free. */
  lemma MarkKeeps(h: Heap, i: nat)
    requires Valid(h) && i < |Chain(h)|
    ensures var c, size := Chain(h), BlocksIn(h)[i].size;
            var g := h.(m := h.m[c[i] := Cell(FREE + size, h.m[c[i]].off)]);
            && Valid(g) && Chain(g) == c && BlocksIn(g) == BlocksIn(h)[i := Block(true, size)]
  {
    hide Clean, Linked, Region;
    var c, size := Chain(h), BlocksIn(h)[i].size;
    var g := h.(m := h.m[c[i] := Cell(FREE + size, h.m[c[i]].off)]);
    SizesPositive(h);
    HeaderReads(true, size, h.m[c[i]].off);
    Retagged(h.m, c, i, FREE + size);
    RegionKept(h.m, g.m);
    ValidBy(g, c);
  }

  /** The first half of a release, when the next marker is not absorbed as the last one. */
  lemma FreedKeeps(h: Heap, i: nat)
    requires Valid(h) && i + 1 < |Chain(h)|
    requires var bs := BlocksIn(h); i + 2 < |bs| || !bs[i + 1].free || !Fits(bs[i].size, bs[i + 1].size)
    ensures var bs, f := BlocksIn(h), Freed(h, i);
            var g, marked := h.(m := f.0, count := f.1), bs[i := Block(true, bs[i].size)];
            && Valid(g) && BlocksIn(g) == (if bs[i + 1].free &&
                Fits(bs[i].size, bs[i + 1].size) then Merged(marked, i) else marked)
            && i + 1 < |Chain(g)| && forall j :: 0 <= j <= i ==> Chain(g)[j] == Chain(h)[j]
  {
    hide Valid, Chain, BlocksIn, AbsorbCells;
    CountIs(h);
    var c, bs, f := Chain(h), BlocksIn(h), Freed(h, i);
    var g := h.(m := f.0, count := f.1);
    if bs[i + 1].free && Fits(bs[i].size, bs[i + 1].size) {
      JoinKeeps(h, i);
      assert Merged(bs, i) == Merged(bs[i := Block(true, bs[i].size)], i);
    } else {
      MarkKeeps(h, i);
    }
  }

  /** The second half of a release: a free previous marker absorbs the block. */
  lemma BackKeeps(h: Heap, i: nat)
    requires Valid(h) && 0 < i < |Chain(h)| - 1 && BlocksIn(h)[i - 1].free && Releasable(BlocksIn(h), i)
    ensures var g := ReleasedAt(h, i); Valid(g) && BlocksIn(g) == Coalesced(BlocksIn(h), i)
  {
    hide Valid, Chain, BlocksIn, AbsorbCells, DropCells, Freed;
    CountIs(h);
    var c, bs, g, f := Chain(h), BlocksIn(h), ReleasedAt(h, i), Freed(h, i);
    FreedKeeps(h, i);
    FreedAdds(h, i);
    var w := h.(m := f.0, count := f.1);
    CountIs(w);
    JoinKeeps(w, i - 1);
    var v := w.(m := AbsorbCells(w.m, c[i - 1], c[i], FREE + BlocksIn(w)[i - 1].size + BlocksIn(w)[i].size),
        count := f.1 - 1);
    Rebilled(v, g.remaining);
    assert g == v.(remaining := g.remaining);
  }

  /** A release that the condition admits keeps a valid heap and merges the block with exactly its free neighbours. */
  lemma ReleaseCoalesces(h: Heap, i: nat)
    requires Valid(h) && i < |Chain(h)| && Releasable(BlocksIn(h), i)
    ensures var g := ReleasedAt(h, i); Valid(g) && BlocksIn(g) == Coalesced(BlocksIn(h), i)
  {
    hide Valid, Chain, BlocksIn, AbsorbCells, DropCells, Freed, Merged;
    CountIs(h);
    var bs, g := BlocksIn(h), ReleasedAt(h, i);
    if i == |bs| - 1 {
      DropKeeps(h, i);
    } else if i > 0 && bs[i - 1].free {
      BackKeeps(h, i);
    } else {
      FreedKeeps(h, i);
      var f := Freed(h, i);
      Rebilled(h.(m := f.0, count := f.1), g.remaining);
    }
  }

  /** What the previous marker adds is the header of the block after the first half. */
  lemma FreedAdds(h: Heap, i: nat)
    requires Valid(h) && i + 1 < |Chain(h)|
    ensures var bs, f := BlocksIn(h), Freed(h, i);
            f.2 == FREE + bs[i].size + if bs[i + 1].free then bs[i + 1].size else 0
  {
    hide Valid;
  }

  // ----- when a release breaks the chain

  /** Words before marker k - 1 are untouched, so they still lead to it. */
  lemma PrefixPath(m: seq<Cell>, r: seq<Cell>, c: seq<nat>, k: nat)
    requires Linked(m, c) && k <= |c| && |r| == |m| && forall j :: 0 <= j < k - 1 ==> r[c[j]] == m[c[j]]
    ensures Path(r, c[..k])
  {
    hide Good;
    forall j | 0 <= j < k - 1 ensures c[..k][j] + r[c[..k][j]].off == c[..k][j + 1] {
      assert c[j] + m[c[j]].off == c[j + 1];
    }
  }

  /** The words after a release that merges into the previous marker. */
  lemma MergedBack(h: Heap, i: nat)
    requires Valid(h) && 0 < i < |Chain(h)| - 1 && BlocksIn(h)[i - 1].free
    ensures var c, bs, g := Chain(h), BlocksIn(h), ReleasedAt(h, i);
            var p := c[i - 1];
            var add := if bs[i + 1].free then bs[i + 1].size else 0;
            && |g.m| == |h.m| && Path(g.m, c[..i])
            && g.m[p].head == (FREE + bs[i].size + add + bs[i - 1].size) % 0x1_0000
            && (i == |c| - 2 && bs[i + 1].free && Fits(bs[i].size, bs[i + 1].size) ==>
                g.m[p].off == c[i + 1] as int - p != 0)
  {
    hide Good, SizeOf, IsFree, Clean;
    var c, bs, g := Chain(h), BlocksIn(h), ReleasedAt(h, i);
    assert c[i - 1] != c[i] && c[i - 1] != c[i + 1] && c[i] != c[i + 1];
    forall j | 0 <= j < i - 1 ensures g.m[c[j]] == h.m[c[j]] {
      assert c[j] != c[i - 1] && c[j] != c[i] && c[j] != c[i + 1];
    }
    PrefixPath(h.m, g.m, c, i);
  }

  /** Absorbing the last marker leaves no chain. */
  lemma AbsorbsLastBreaks(h: Heap, i: nat)
    requires Valid(h) && i == |Chain(h)| - 2
    requires var bs := BlocksIn(h); bs[i + 1].free && Fits(bs[i].size, bs[i + 1].size)
    ensures !Valid(ReleasedAt(h, i))
  {
    var c, bs, g := Chain(h), BlocksIn(h), ReleasedAt(h, i);
    if |Chain(g)| == g.count {
      if i > 0 && bs[i - 1].free {
        MergedBack(h, i);
        Dangling(g.m, c[..i], Chain(g));
      } else {
        AbsorbLastBreaks(h.m, c, FREE + bs[i].size + bs[i + 1].size, Chain(g));
      }
    }
  }

  /** A merge into the previous marker whose header overflows, or which adds a block that was not absorbed, leaves a
      wrong tiling. */
  lemma OverflowBreaks(h: Heap, i: nat)
    requires Valid(h) && 0 < i < |Chain(h)| - 1 && !Releasable(BlocksIn(h), i) && BlocksIn(h)[i - 1].free
    requires i + 2 < |Chain(h)| || !BlocksIn(h)[i + 1].free || !Fits(BlocksIn(h)[i].size, BlocksIn(h)[i + 1].size)
    ensures var g := ReleasedAt(h, i); !(Valid(g) && BlocksIn(g) == Coalesced(BlocksIn(h), i))
  {
    hide Valid, ReleasedAt, Linked, Clean, Region, Chain, BlocksIn, Good, SizeOf, IsFree;
    CountIs(h);
    SizesPositive(h);
    MergedBack(h, i);
    var c, bs, g := Chain(h), BlocksIn(h), ReleasedAt(h, i);
    if Valid(g) && BlocksIn(g) == Coalesced(bs, i) {
      CountIs(g);
      assert |Coalesced(bs, i)| >= i;
      ChainPath(g);
      SamePath(g.m, c[..i], Chain(g), i - 1);
      BlocksAre(g, i - 1);
      var add := if bs[i + 1].free then bs[i + 1].size else 0;
      WrongSum(bs[i - 1].size, bs[i].size, add, bs[i + 1].free, g.m[c[i - 1]]);
    }
  }

  lemma ChainPath(h: Heap)
    requires Valid(h)
    ensures Path(h.m, Chain(h))
  {
  }

  lemma BlocksAre(h: Heap, i: nat)
    requires i < |Chain(h)|
    ensures BlocksIn(h)[i].size == SizeOf(h.m[Chain(h)[i]])
  {
  }

  lemma WrongSum(prev: nat, size: nat, add: nat, free: bool, c: Cell)
    requires 0 < prev < FREE && 0 < size < FREE && add < FREE && (free <==> add > 0)
    requires !((free ==> Fits(size, add)) && prev + size + add < FREE)
    requires c.head == (FREE + size + add + prev) % 0x1_0000
    ensures SizeOf(c) != prev + size + if free && Fits(size, add) then add else 0
  {
  }

  /** Main result on release: the heap stays valid with the block merged with exactly its free neighbours if and only if
      the condition holds. */
  lemma ReleaseExact(h: Heap, i: nat)
    requires Valid(h) && i < |Chain(h)|
    ensures var g := ReleasedAt(h, i);
            Valid(g) && BlocksIn(g) == Coalesced(BlocksIn(h), i) <==> Releasable(BlocksIn(h), i)
  {
    hide Valid, ReleasedAt, Chain, BlocksIn, Coalesced;
    CountIs(h);
    var bs := BlocksIn(h);
    if Releasable(bs, i) {
      ReleaseCoalesces(h, i);
    } else if i == |bs| - 2 && bs[i + 1].free && Fits(bs[i].size, bs[i + 1].size) {
      AbsorbsLastBreaks(h, i);
    } else {
      OverflowBreaks(h, i);
    }
  }
}
