/** The heap code itself: marker words rewritten in place by loops that follow offsets and add up sizes. */
module MarkerHeap {
  import opened Blocks
  import opened Markers
  import opened Heap

  /** What a loop at marker i may use. */
  lemma AtMarker(h: Heap, i: nat)
    requires Valid(h) && i < |Chain(h)|
    ensures var c, w := Chain(h), h.m[Chain(h)[i]];
            && |c| == h.count && c[i] <= Top(h.m) && c[0] == Top(h.m) && (c[i] == Top(h.m) <==> i == 0)
            && (w.off == 0 <==> i == |c| - 1) && (i + 1 < |c| ==> c[i] + w.off == c[i + 1])
            && BlocksIn(h)[i] == Block(IsFree(w), SizeOf(w)) && |BlocksIn(h)| == |c|
  {
    hide Good, SizeOf, IsFree, Clean;
    var c := Chain(h);
    if 0 < i { assert c[0] != c[i]; }
    if i + 1 < |c| { assert c[i] + h.m[c[i]].off == c[i + 1] && c[i] != c[i + 1]; }
  }

  /** A prefix sum grows by the size of the next block. */
  lemma NextSum(bs: seq<Block>, i: nat)
    requires i < |bs|
    ensures Sum(bs[..i + 1]) == Sum(bs[..i]) + bs[i].size
  {
    var one := One(bs[i].free, bs[i].size);
    assert bs[..i + 1] == bs[..i] + one;
    Joined(bs[..i], one, 0);
    OneBlock(bs[i].free, bs[i].size, 0);
  }

  lemma {:induction false} FitIs(bs: seq<Block>, size: nat, i: nat)
    requires i <= |bs| && forall j :: 0 <= j < i ==> !(bs[j].free && bs[j].size >= size)
    requires i == |bs| || (bs[i].free && bs[i].size >= size)
    ensures FirstFit(bs, size) == i
  {
  }

  lemma {:induction false} BlockAtIs(bs: seq<Block>, s: nat, at: nat, i: nat)
    requires i <= |bs| && (forall j :: 0 <= j < i ==> s + Sum(bs[..j]) != at) && (i == |bs| || s + Sum(bs[..i]) == at)
    ensures BlockAt(bs, s, at) == i
  {
    if i > 0 {
      assert bs[..0] == [];
      forall j | 0 <= j < i ensures bs[..j + 1] == [bs[0]] + bs[1..][..j] {}
      forall j | 0 <= j < i - 1 ensures s + bs[0].size + Sum(bs[1..][..j]) != at { assert s + Sum(bs[..j + 1]) != at; }
      assert i < |bs| ==> bs[..i] == bs[..i - 1 + 1];
      BlockAtIs(bs[1..], s + bs[0].size, at, i - 1);
    } else {
      assert bs[..0] == [];
    }
  }

  class MarkerHeap {
    const cells: array<Cell>
    var last: nat
    var count: nat
    var remaining: nat
    const start: nat

    function Model(): Heap
      reads this, cells
    {
      Heap(cells[..], last, count, remaining, start)
    }

    ghost predicate Ok()
      reads this, cells
    {
      Valid(Model())
    }

    /** Initialisation. The loop clears the region from its second word to the word behind it; the start address is
        moved up by its own remainder. Whatever the memory held before, the heap is valid and empty. */
    constructor (memory: seq<Cell>, raw: nat, end: nat)
      requires Region(memory) && raw > 0
      ensures Ok() && fresh(cells) && BlocksIn(Model()) == [] && start == raw + raw % 4 &&
          remaining == (end - start) % WORD
      ensures cells.Length == |memory| && cells[..2] == memory[..2]
      ensures forall x :: 2 <= x < cells.Length ==> cells[x] == EMPTY
    {
      hide Linked;
      cells := new Cell[|memory|](i requires 0 <= i < |memory| => memory[i]);
      start := raw + raw % 4;
      last := |memory| - 2;
      count := 0;
      remaining := (end - (raw + raw % 4)) % WORD;
      new;
      var r := cells.Length - 2;
      while r > 0
        invariant 0 <= r <= cells.Length - 2 && cells.Length == |memory| && cells[..2] == memory[..2]
        invariant forall x :: r + 1 < x < cells.Length ==> cells[x] == EMPTY
        modifies cells
      {
        cells[r + 1] := EMPTY;
        r := r - 1;
      }
      NoMarkers(Model());
    }

    // ----- allocation

    /** Walk the markers, adding up sizes, to the first free block that is large enough. */
    method FindFit(size: nat) returns (found: bool, x: nat, at: nat)
      requires Ok()
      ensures var c, bs := Chain(Model()), BlocksIn(Model());
              var i := FirstFit(bs, size);
              && found == (i < |bs|) && at == start + Sum(bs[..i]) && (found ==> x == c[i] && x < cells.Length)
    {
      hide Valid, Chain, BlocksIn, Sum, SizeOf, IsFree, FirstFit;
      ghost var h := Model();
      ghost var c, bs := Chain(h), BlocksIn(h);
      CountIs(h);
      ghost var i := 0;
      if count > 0 { AtMarker(h, 0); }
      x, at, found := cells.Length - 2, start, false;
      assert Sum(bs[..0]) == 0 by { NoSum(bs); }
      var left := count;
      while left > 0
        invariant left == count - i && 0 <= i <= |bs| && (i < |bs| ==> x == c[i]) && at == start + Sum(bs[..i]) &&
            !found
        invariant forall j :: 0 <= j < i ==> !(bs[j].free && bs[j].size >= size)
      {
        AtMarker(h, i);
        if IsFree(cells[x]) && SizeOf(cells[x]) >= size {
          FitIs(bs, size, i);
          found := true;
          return;
        }
        NextSum(bs, i);
        at := at + SizeOf(cells[x]);
        if i + 1 < |bs| { AtMarker(h, i + 1); }
        x := x + cells[x].off;
        left := left - 1;
        i := i + 1;
      }
      FitIs(bs, size, |bs|);
    }

    /** Look for an empty word from the one below the region upwards; the top word is left out. */
    method FindSpare() returns (x: nat)
      requires Ok()
      ensures x == Spare(Model())
    {
      hide Valid, Chain, BlocksIn;
      ghost var h := Model();
      CountIs(h);
      x := 0;
      while x < cells.Length - 2 && cells[x] != EMPTY
        invariant x <= cells.Length - 2 && FirstEmpty(h.m, x, Top(h.m)) == Spare(h)
      {
        x := x + 1;
      }
    }

    method SearchFree(size: nat) returns (at: nat)
      requires Ok()
      modifies this`count, cells
      ensures (Model(), at) == Searched(old(Model()), size)
    {
      hide Valid, Chain, BlocksIn, Sum, SizeOf, IsFree, FirstFit, Spare;
      ghost var h := Model();
      CountIs(h);
      var found, x;
      found, x, at := FindFit(size);
      if !found {
        at := NULL;
      } else {
        ghost var i := FirstFit(BlocksIn(h), size);
        FitHolds(BlocksIn(h), size);
        AtMarker(h, i);
        var rest := SizeOf(cells[x]) - size;
        var y := cells.Length - 2;
        if rest != 0 { y := FindSpare(); }
        if rest != 0 && y < cells.Length - 2 {
          var off := x - y + cells[x].off;
          cells[y] := Cell(FREE + rest, off);
          cells[x] := Cell(size, y - x);
          count := count + 1;
          assert cells[..] == SplitCells(h.m, x, y, size, Header(true, rest));
        } else {
          cells[x] := Cell(rest + size, cells[x].off);
        }
      }
    }

    /** Look for an empty word from the top of the region downwards. The counter goes up by 4 for every word, so only a
        quarter of the region is seen. */
    method FindFresh() returns (x: int)
      requires Ok()
      ensures x == Fresh(Model())
    {
      hide Valid, Chain, BlocksIn;
      ghost var h := Model();
      CountIs(h);
      x := cells.Length - 2;
      var seen := 0;
      while seen != cells.Length - 2 && cells[x] != EMPTY
        invariant 0 <= seen <= cells.Length - 2 && seen % 4 == 0 && x == cells.Length - 2 - seen / 4
        invariant LastEmpty(h.m, x, (Top(h.m) - seen) / 4) == Fresh(h)
      {
        x := x - 1;
        seen := seen + 4;
      }
      if seen == cells.Length - 2 { x := -1; }
    }

    method Extend(size: nat) returns (at: nat)
      requires Ok()
      modifies this`count, this`last, cells
      ensures (Model(), at) == Extended(old(Model()), size)
    {
      hide Valid, Chain, BlocksIn, Sum, SizeOf, IsFree, Fresh, AppendCells;
      ghost var h := Model();
      CountIs(h);
      LastInRange(h);
      var x := FindFresh();
      at := NULL;
      if x != -1 {
        cells[x] := Cell(size, 0);
        cells[last] := Cell(cells[last].head, x - last);
        AppendIs(h.m, last, x, size, cells[..]);
        at := AddUp(h, x, size);
        last := x;
        count := count + 1;
      }
    }

    /** Add up the sizes from the first marker to the new one. */
    method AddUp(ghost h: Heap, x: nat, size: nat) returns (at: nat)
      requires Valid(h) && h.start == start && Fresh(h) == x && h.last < |h.m| &&
          cells[..] == AppendCells(h.m, h.last, x, size)
      ensures at == start + Sum(BlocksIn(h))
    {
      hide Valid, Chain, BlocksIn, Sum, SizeOf, IsFree, Fresh, AppendCells;
      ghost var c, bs := Chain(h), BlocksIn(h);
      ghost var i := 0;
      FreshAppends(h);
      CountIs(h);
      NoSum(bs);
      LengthKept(h, x, size);
      var y := cells.Length - 2;
      at := start;
      FirstPlace(h, x);
      while y != x
        invariant 0 <= i <= |c| && y == (if i < |c| then c[i] else x) && at == start + Sum(bs[..i])
        decreases |c| - i
      {
        AppendedWalk(h, x, size, i);
        NextSum(bs, i);
        at := at + SizeOf(cells[y]);
        y := y + cells[y].off;
        i := i + 1;
      }
      assert bs[..i] == bs;
    }

    method Allocate(size: nat) returns (at: nat)
      requires Ok()
      modifies this, cells
      ensures (Model(), at) == Allocated(old(Model()), size)
    {
      hide Valid, Searched, Extended;
      if count == 0 {
        at := Extend(size);
      } else {
        at := SearchFree(size);
        if at == NULL {
          NullUnchanged(old(Model()), size);
          at := Extend(size);
        }
      }
      if at != NULL {
        remaining := (remaining - size) % WORD;
      }
    }

    /** The library call. */
    method HeapAllocate(n: nat) returns (at: nat)
      requires Ok() && n < WORD
      modifies this, cells
      ensures (Model(), at) == Requested(old(Model()), n)
    {
      hide Valid, Allocated;
      var rem := n % 4;
      rem := if rem == 0 then 0 else 4 - rem;
      var size := (n + rem) % WORD;
      if size > 32767 || remaining < size {
        return NULL;
      }
      at := Allocate(size);
    }

    // ----- release

    /** Walk the markers, adding up sizes, to the block that starts at the address. */
    method FindBlock(at: nat) returns (found: bool, x: nat)
      requires Ok() && count > 0
      ensures var c, bs := Chain(Model()), BlocksIn(Model());
              var i := BlockAt(bs, start, at);
              found == (i < |bs|) && (found ==> x == c[i] && x < cells.Length)
    {
      hide Valid, Chain, BlocksIn, Sum, SizeOf, IsFree, BlockAt;
      ghost var h := Model();
      ghost var c, bs := Chain(h), BlocksIn(h);
      CountIs(h);
      NoSum(bs);
      ghost var i := 0;
      AtMarker(h, 0);
      x, found := cells.Length - 2, true;
      var left, sum := count, start;
      while sum != at
        invariant left == count - i && 0 <= i < |bs| && x == c[i] && sum == start + Sum(bs[..i]) && x < cells.Length
        invariant forall j :: 0 <= j < i ==> start + Sum(bs[..j]) != at
        decreases left
      {
        AtMarker(h, i);
        NextSum(bs, i);
        sum := sum + SizeOf(cells[x]);
        left := left - 1;
        if left == 0 {
          BlockAtIs(bs, start, at, |bs|);
          return false, x;
        }
        AtMarker(h, i + 1);
        x := x + cells[x].off;
        i := i + 1;
      }
      BlockAtIs(bs, start, at, i);
    }

    /** Walk from the first marker to the one before x. */
    method FindPrevious(ghost h: Heap, ghost i: nat, x: nat) returns (p: nat)
      requires Valid(h) && 0 < i < |Chain(h)| && x == Chain(h)[i] && cells.Length == |h.m|
      requires forall j :: 0 <= j < i ==> cells[Chain(h)[j]] == h.m[Chain(h)[j]]
      ensures p == Chain(h)[i - 1]
    {
      hide Valid, Chain, BlocksIn;
      ghost var c := Chain(h);
      AtMarker(h, i);
      p := cells.Length - 2;
      var y := p;
      ghost var j := 0;
      while y != x
        invariant 0 <= j <= i && y == c[j] && (j > 0 ==> p == c[j - 1])
        decreases i - j
      {
        AtMarker(h, j);
        if j < i { AtMarker(h, j + 1); }
        p := y;
        y := y + cells[y].off;
        j := j + 1;
      }
      MarkersDiffer(h, j, i);
    }

    /** Free the marker at x, which is not the last, and let it absorb a free next marker whose size can be added.
        Returns the value left in the size register: it includes the next size even when that marker was not
        absorbed. */
    method FreeMarker(ghost h: Heap, ghost i: nat, x: nat) returns (head: nat)
      requires Valid(h) && i + 1 < |Chain(h)| && x == Chain(h)[i] && cells[..] == h.m && count == h.count
      modifies this`count, cells
      ensures (cells[..], count, head) == Freed(h, i)
    {
      hide Valid, Chain, BlocksIn, SizeOf, IsFree;
      CountIs(h);
      AtMarker(h, i);
      AtMarker(h, i + 1);
      head := FREE + SizeOf(cells[x]);
      var off := cells[x].off;
      cells[x] := Cell(head, off);
      assert cells[..] == h.m[x := Cell(head, off)];
      var b := x + off;
      assert cells[b] == h.m[b];
      if IsFree(cells[b]) {
        head := head + SizeOf(cells[b]);
        if head < 0xFFFF {
          cells[x] := Cell(head, b - x + cells[b].off);
          cells[b] := EMPTY;
          count := count - 1;
          assert cells[..] == AbsorbCells(h.m, x, b, head);
        }
      }
    }

    /** Free the block at an address. Returns the number of markers left, or 0 if there is no such block. */
    method ReleaseMarker(at: nat) returns (left: nat)
      requires Ok() && count > 0
      modifies this, cells
      ensures var h := old(Model());
              var i := BlockAt(BlocksIn(h), start, at);
              && (i < |BlocksIn(h)| ==> Model() == ReleasedAt(h, i) && left == count)
              && (i == |BlocksIn(h)| ==> Model() == h && left == 0)
    {
      hide Valid, Chain, BlocksIn, SizeOf, IsFree, BlockAt, Freed, AbsorbCells, DropCells;
      ghost var h := Model();
      CountIs(h);
      var found, x := FindBlock(at);
      if !found {
        return 0;
      }
      ghost var i := BlockAt(BlocksIn(h), start, at);
      AtMarker(h, i);
      remaining := (remaining + SizeOf(cells[x])) % WORD;
      if cells[x].off == 0 {
        DropLast(h, i, x);
      } else {
        var head := FreeMarker(h, i, x);
        JoinPrevious(h, i, x, head);
      }
      left := count;
    }

    /** Delete the last marker, at x; the one before it becomes the last. */
    method DropLast(ghost h: Heap, ghost i: nat, x: nat)
      requires Valid(h) && i == |Chain(h)| - 1 && x == Chain(h)[i] && BlocksIn(h) != []
      requires Model() == h.(remaining := (h.remaining + BlocksIn(h)[i].size) % WORD)
      modifies this, cells
      ensures Model() == ReleasedAt(h, i)
    {
      hide Valid, Chain, BlocksIn;
      CountIs(h);
      AtMarker(h, i);
      MarkersApart(h, i);
      cells[x] := EMPTY;
      count := count - 1;
      if x != cells.Length - 2 {
        var p := FindPrevious(h, i, x);
        cells[p] := Cell(cells[p].head, 0);
        last := p;
      }
    }

    /** Let a free marker before x absorb it, with no check of the sum. */
    method JoinPrevious(ghost h: Heap, ghost i: nat, x: nat, head: nat)
      requires Valid(h) && i + 1 < |Chain(h)| && x == Chain(h)[i] && |BlocksIn(h)| == |Chain(h)|
      requires (cells[..], count, head) == Freed(h, i) && last == h.last && start == h.start
      requires remaining == (h.remaining + BlocksIn(h)[i].size) % WORD
      modifies this`count, cells
      ensures Model() == ReleasedAt(h, i)
    {
      hide Valid, Chain, BlocksIn, SizeOf, IsFree, Freed;
      CountIs(h);
      AtMarker(h, i);
      MarkersApart(h, i);
      FreedPrefix(h, i);
      if x != cells.Length - 2 {
        var p := FindPrevious(h, i, x);
        AtMarker(h, i - 1);
        if IsFree(cells[p]) {
          var sum := head + SizeOf(cells[p]);
          cells[p] := Cell(sum % 0x1_0000, x - p + cells[x].off);
          cells[x] := EMPTY;
          count := count - 1;
        }
      }
    }

    /** The service. */
    method Release(at: nat) returns (s: Status)
      requires Ok()
      modifies this, cells
      ensures (Model(), s) == Released(old(Model()), at)
    {
      hide Valid, Chain, BlocksIn, ReleasedAt, BlockAt;
      CountIs(Model());
      if count == 0 {
        return EmptyHeap;
      }
      var left := ReleaseMarker(at);
      BlockAtEnds(BlocksIn(old(Model())), start, at);
      s := if left == 0 && count != 0 then WrongPointer else Done;
    }
  }

  lemma NoMarkers(h: Heap)
    requires Region(h.m) && h.start > 0 && h.count == 0 && h.last == Top(h.m)
    requires forall x :: 2 <= x < |h.m| ==> h.m[x] == EMPTY
    ensures Valid(h) && BlocksIn(h) == []
  {
    ValidBy(h, []);
  }

  lemma NoSum(bs: seq<Block>)
    ensures Sum(bs[..0]) == 0
  {
  }

  lemma FitHolds(bs: seq<Block>, size: nat)
    ensures var i := FirstFit(bs, size); i <= |bs| && (i < |bs| ==> bs[i].free && bs[i].size >= size)
  {
  }

  lemma AppendIs(m: seq<Cell>, l: nat, x: nat, size: nat, r: seq<Cell>)
    requires l < |m| && x < |m| && r == m[x := Cell(size, 0)][l := Cell(m[x := Cell(size, 0)][l].head, x - l)]
    ensures r == AppendCells(m, l, x, size)
  {
  }

  lemma LengthKept(h: Heap, x: nat, size: nat)
    requires h.last < |h.m| && x < |h.m|
    ensures |AppendCells(h.m, h.last, x, size)| == |h.m|
  {
  }

  lemma FirstPlace(h: Heap, x: nat)
    requires Valid(h) && Appends(h.m, Chain(h), x)
    ensures Top(h.m) == (if 0 < |Chain(h)| then Chain(h)[0] else x)
  {
  }

  lemma AppendedWalk(h: Heap, x: nat, size: nat, i: nat)
    requires Valid(h) && Appends(h.m, Chain(h), x) && i < |Chain(h)| && h.last < |h.m|
    ensures var c, r := Chain(h), AppendCells(h.m, h.last, x, size);
            && c[i] != x && c[i] < |r| && c[i] + r[c[i]].off == (if i + 1 < |c| then c[i + 1] else x)
            && SizeOf(r[c[i]]) == BlocksIn(h)[i].size && |BlocksIn(h)| == |c|
  {
    AppendOthers(h.m, Chain(h), i, x, size);
  }

  lemma NullUnchanged(h: Heap, size: nat)
    requires Valid(h)
    ensures Searched(h, size).1 == NULL ==> Searched(h, size).0 == h
  {
    CountIs(h);
  }

  lemma MarkersDiffer(h: Heap, i: nat, j: nat)
    requires Valid(h) && i < |Chain(h)| && j < |Chain(h)| && Chain(h)[i] == Chain(h)[j]
    ensures i == j
  {
  }

  /** Markers before marker i lie in other slots. */
  lemma MarkersApart(h: Heap, i: nat)
    requires Valid(h) && i < |Chain(h)|
    ensures forall j :: 0 <= j < i ==> Chain(h)[j] != Chain(h)[i] && Chain(h)[j] <= Top(h.m)
  {
  }

  lemma FreedPrefix(h: Heap, i: nat)
    requires Valid(h) && i + 1 < |Chain(h)|
    ensures var c, f := Chain(h), Freed(h, i);
            && |f.0| == |h.m| && f.1 > 0
            && forall j :: 0 <= j < i ==> c[j] < |h.m| && f.0[c[j]] == h.m[c[j]]
  {
    hide Good, SizeOf, IsFree, Clean;
    var c, f := Chain(h), Freed(h, i);
    forall j | 0 <= j < i ensures f.0[c[j]] == h.m[c[j]] {
      assert c[j] != c[i] && c[j] != c[i + 1];
    }
  }

  lemma BlockAtEnds(bs: seq<Block>, s: nat, at: nat)
    ensures BlockAt(bs, s, at) <= |bs|
  {
  }
}
