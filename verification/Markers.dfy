/** The marker words of the heap: a chain of slots in a bookkeeping array, linked by word offsets, each describing one
    block. Slots are numbered upwards: 1 is the first word of the region, 0 the word below it, and the last word of the
    array lies just behind the region. The chain starts in the top word of the region. */
module Markers {
  import opened Blocks

  /** A marker word: a 16-bit header, whose top bit says free, and a signed 16-bit offset to the next marker. */
  datatype Cell = Cell(head: nat, off: int)

  const EMPTY := Cell(0, 0)
  const FREE := 0x8000

  function SizeOf(c: Cell): nat { c.head % FREE }

  predicate IsFree(c: Cell) { (c.head / FREE) % 2 == 1 }

  /** A header for a block: 15 bits of size, not 0, and the free bit. */
  predicate Good(c: Cell) { 0 < SizeOf(c) && c.head < 0x1_0000 }

  function Header(free: bool, size: nat): nat { if free then FREE + size else size }

  lemma HeaderReads(free: bool, size: nat, off: int)
    requires 0 < size < FREE
    ensures var c := Cell(Header(free, size), off); Good(c) && SizeOf(c) == size && IsFree(c) == free
  {
  }

  function Top(m: seq<Cell>): int { |m| - 2 }

  /** p follows the offsets from the top word on. */
  ghost predicate Path(m: seq<Cell>, p: seq<nat>) {
    && (forall i :: 0 <= i < |p| ==> p[i] <= Top(m))
    && (forall i :: 0 <= i < |p| - 1 ==> p[i] + m[p[i]].off == p[i + 1])
    && (p != [] ==> p[0] == Top(m))
  }

  ghost predicate Distinct(c: seq<nat>) {
    forall i, j :: 0 <= i < j < |c| ==> c[i] != c[j]
  }

  ghost predicate Tagged(m: seq<Cell>, c: seq<nat>) {
    forall i :: 0 <= i < |c| ==> c[i] < |m| && Good(m[c[i]])
  }

  /** c lists the slots of the chain in order: every offset leads to the next marker, the last offset is 0, no slot
      comes twice, and every header describes a block. */
  ghost predicate Linked(m: seq<Cell>, c: seq<nat>) {
    Path(m, c) && Distinct(c) && Tagged(m, c) && (c != [] ==> m[c[|c| - 1]].off == 0)
  }

  /** No marker is lost: the words of the region that initialisation clears and that are not in the chain are empty. */
  ghost predicate Clean(m: seq<Cell>, c: seq<nat>) {
    forall x :: 2 <= x <= Top(m) && x !in c ==> m[x] == EMPTY
  }

  function BlockOf(c: Cell): Block { Block(IsFree(c), SizeOf(c)) }

  /** The tiling a chain describes. */
  function BlocksOf(m: seq<Cell>, c: seq<nat>): (bs: seq<Block>)
    requires forall i :: 0 <= i < |c| ==> c[i] < |m|
    ensures |bs| == |c| && forall i :: 0 <= i < |c| ==> bs[i] == BlockOf(m[c[i]])
  {
    seq(|c|, i requires 0 <= i < |c| => BlockOf(m[c[i]]))
  }

  lemma EmptyNotLinked(m: seq<Cell>, c: seq<nat>, x: nat)
    requires Tagged(m, c) && x < |m| && m[x] == EMPTY
    ensures x !in c
  {
    assert !Good(EMPTY);
  }

  /** Two paths agree as far as both go. */
  lemma {:induction false} SamePath(m: seq<Cell>, c: seq<nat>, d: seq<nat>, i: nat)
    requires Path(m, c) && Path(m, d) && i < |c| && i < |d|
    ensures c[i] == d[i]
  {
    if i > 0 {
      SamePath(m, c, d, i - 1);
    }
  }

  /** A path whose last offset is not 0 cannot be a chain of its length. */
  lemma Dangling(m: seq<Cell>, p: seq<nat>, d: seq<nat>)
    requires Path(m, p) && p != [] && |d| == |p| && m[p[|p| - 1]].off != 0
    ensures !Linked(m, d)
  {
    if Linked(m, d) {
      SamePath(m, p, d, |p| - 1);
    }
  }

  /** Offsets are differences of slots, so in a region of fewer than 32768 words they fit their 16 bits: those of a
      chain, and those that a split into slot x, an append in slot x and an absorption compute, the last marker
      included. */
  lemma OffsetsFit(m: seq<Cell>, c: seq<nat>, i: nat, x: nat)
    requires Linked(m, c) && i < |c| && x <= Top(m) && |m| < FREE
    ensures -FREE < m[c[i]].off < FREE
    ensures -FREE < c[i] - x + m[c[i]].off < FREE && -FREE < x - c[i] < FREE
    ensures i + 1 < |c| ==> -FREE < c[i + 1] - c[i] + m[c[i + 1]].off < FREE
  {
    hide Good;
    if i < |c| - 1 {
      assert c[i] + m[c[i]].off == c[i + 1];
    }
    if i < |c| - 2 {
      assert c[i + 1] + m[c[i + 1]].off == c[i + 2];
    }
  }

  // ----- surgery on the chain

  /** Rewrite the header of marker i. */
  lemma Retagged(m: seq<Cell>, c: seq<nat>, i: nat, head: nat)
    requires Linked(m, c) && i < |c| && Good(Cell(head, m[c[i]].off))
    ensures var r := m[c[i] := Cell(head, m[c[i]].off)];
            && Linked(r, c) && BlocksOf(r, c) == BlocksOf(m, c)[i := BlockOf(Cell(head, m[c[i]].off))]
    ensures Clean(m, c) ==> Clean(m[c[i] := Cell(head, m[c[i]].off)], c)
  {
    hide Good, BlockOf;
    var r := m[c[i] := Cell(head, m[c[i]].off)];
    assert forall j :: 0 <= j < |c| && j != i ==> r[c[j]] == m[c[j]];
  }

  /** Split marker i: the empty slot x takes over its offset, and it points to x. The new offset is computed from the
      old one, so marker i must not be the last. */
  function SplitCells(m: seq<Cell>, a: nat, x: nat, head: nat, rest: nat): seq<Cell>
    requires a < |m| && x < |m|
  {
    m[x := Cell(rest, a - x + m[a].off)][a := Cell(head, x - a)]
  }

  function Inserted(c: seq<nat>, i: nat, x: nat): (d: seq<nat>)
    requires i < |c|
    ensures |d| == |c| + 1
    ensures forall j :: 0 <= j < |d| ==> d[j] == if j <= i then c[j] else if j == i + 1 then x else c[j - 1]
  {
    c[..i + 1] + [x] + c[i + 1..]
  }

  /** What splitting needs: an empty slot x outside the chain and two good headers. */
  ghost predicate Splits(m: seq<Cell>, c: seq<nat>, i: nat, x: nat, head: nat, rest: nat) {
    && Linked(m, c) && i < |c| && x <= Top(m) && x !in c
    && (forall off :: Good(Cell(head, off)) && Good(Cell(rest, off)))
  }

  lemma SplitPath(m: seq<Cell>, c: seq<nat>, i: nat, x: nat, head: nat, rest: nat)
    requires Splits(m, c, i, x, head, rest) && i < |c| - 1
    ensures Path(SplitCells(m, c[i], x, head, rest), Inserted(c, i, x))
  {
    hide Good;
    var r, d := SplitCells(m, c[i], x, head, rest), Inserted(c, i, x);
    forall j | 0 <= j < |d| - 1 ensures d[j] + r[d[j]].off == d[j + 1] {
      if j == i || j == i + 1 {
        assert c[i] + m[c[i]].off == c[i + 1];
      } else {
        var k := if j < i then j else j - 1;
        assert c[k] + m[c[k]].off == c[k + 1];
      }
    }
  }

  lemma SplitRest(m: seq<Cell>, c: seq<nat>, i: nat, x: nat, head: nat, rest: nat)
    requires Splits(m, c, i, x, head, rest)
    ensures Distinct(Inserted(c, i, x)) && Tagged(SplitCells(m, c[i], x, head, rest), Inserted(c, i, x))
  {
    hide Good;
    var r, d := SplitCells(m, c[i], x, head, rest), Inserted(c, i, x);
    forall j | 0 <= j < |d| ensures d[j] < |r| && Good(r[d[j]]) {
      var k := if j <= i then j else j - 1;
      assert Good(m[c[k]]);
    }
  }

  lemma SplitLinks(m: seq<Cell>, c: seq<nat>, i: nat, x: nat, head: nat, rest: nat)
    requires Splits(m, c, i, x, head, rest) && i < |c| - 1
    ensures Linked(SplitCells(m, c[i], x, head, rest), Inserted(c, i, x))
  {
    hide Path, Distinct, Tagged, Splits, SplitCells, Inserted;
    SplitPath(m, c, i, x, head, rest);
    SplitRest(m, c, i, x, head, rest);
    SplitEnd(m, c, i, x, head, rest);
  }

  lemma SplitEnd(m: seq<Cell>, c: seq<nat>, i: nat, x: nat, head: nat, rest: nat)
    requires Splits(m, c, i, x, head, rest) && i < |c| - 1
    ensures var r, d := SplitCells(m, c[i], x, head, rest), Inserted(c, i, x);
            |d| == |c| + 1 && d[|c|] < |r| && r[d[|c|]].off == 0
  {
    hide Good;
  }

  lemma SplitClean(m: seq<Cell>, c: seq<nat>, i: nat, x: nat, head: nat, rest: nat)
    requires Splits(m, c, i, x, head, rest) && Clean(m, c)
    ensures Clean(SplitCells(m, c[i], x, head, rest), Inserted(c, i, x))
  {
    hide Good, Distinct, Tagged;
    var d := Inserted(c, i, x);
    assert d[i + 1] == x && d[i] == c[i];
    forall y | y in c ensures y in d {
      var j :| 0 <= j < |c| && c[j] == y;
      assert d[if j <= i then j else j + 1] == y;
    }
  }

  lemma SplitBlocks(m: seq<Cell>, c: seq<nat>, i: nat, x: nat, head: nat, rest: nat)
    requires Splits(m, c, i, x, head, rest) && Tagged(SplitCells(m, c[i], x, head, rest), Inserted(c, i, x))
    ensures BlocksOf(SplitCells(m, c[i], x, head, rest), Inserted(c, i, x)) ==
            BlocksOf(m, c)[..i] + [BlockOf(Cell(head, 0)), BlockOf(Cell(rest, 0))] + BlocksOf(m, c)[i + 1..]
  {
    hide Good, SizeOf, IsFree, BlocksOf, Path;
    var r, d := SplitCells(m, c[i], x, head, rest), Inserted(c, i, x);
    var was := BlocksOf(m, c);
    var bs := was[..i] + [BlockOf(Cell(head, 0)), BlockOf(Cell(rest, 0))] + was[i + 1..];
    SameHeads(Cell(head, 0), r[c[i]]);
    SameHeads(Cell(rest, 0), r[x]);
    forall j | 0 <= j < |d| ensures BlockOf(r[d[j]]) == bs[j] {
      if j != i && j != i + 1 {
        var k := if j <= i then j else j - 1;
        assert r[c[k]] == m[c[k]] && d[j] == c[k] && bs[j] == was[k];
      }
    }
    assert BlocksOf(r, d) == bs;
  }

  lemma SameHeads(a: Cell, b: Cell)
    requires a.head == b.head
    ensures BlockOf(a) == BlockOf(b)
  {
  }

  /** Splitting the last marker makes the two point at each other: there is no chain any more. */
  lemma SplitLastBreaks(m: seq<Cell>, c: seq<nat>, x: nat, head: nat, rest: nat, d: seq<nat>)
    requires Linked(m, c) && c != [] && x <= Top(m) && x !in c && |d| == |c| + 1
    ensures !Linked(SplitCells(m, c[|c| - 1], x, head, rest), d)
  {
    hide Good;
    var a := c[|c| - 1];
    var r, p := SplitCells(m, a, x, head, rest), c + [x];
    forall i | 0 <= i < |p| - 1 ensures p[i] + r[p[i]].off == p[i + 1] {
      assert i < |c| - 1 ==> c[i] + m[c[i]].off == c[i + 1] && r[c[i]] == m[c[i]];
    }
    Dangling(r, p, d);
  }

  /** Append a marker in the empty slot x behind the last one. */
  function AppendCells(m: seq<Cell>, l: nat, x: nat, size: nat): seq<Cell>
    requires l < |m| && x < |m|
  {
    var w := m[x := Cell(size, 0)];
    w[l := Cell(w[l].head, x - l)]
  }

  ghost predicate Appends(m: seq<Cell>, c: seq<nat>, x: nat) {
    Linked(m, c) && 0 <= x <= Top(m) && x !in c && (c == [] ==> x == Top(m))
  }

  function End(m: seq<Cell>, c: seq<nat>): (l: int)
    ensures c != [] ==> l == c[|c| - 1]
    ensures c == [] ==> l == Top(m)
  {
    if c == [] then Top(m) else c[|c| - 1]
  }

  lemma AppendLinks(m: seq<Cell>, c: seq<nat>, x: nat, size: nat)
    requires Appends(m, c, x) && forall off :: Good(Cell(size, off))
    ensures 0 <= End(m, c) < |m| && Linked(AppendCells(m, End(m, c), x, size), c + [x])
  {
    hide Good, End;
    var l, d := End(m, c), c + [x];
    assert 0 <= l < |m| by { if c != [] { assert l == c[|c| - 1]; } }
    var r := AppendCells(m, l, x, size);
    assert Path(r, d) by {
      hide Distinct, Tagged;
      forall i | 0 <= i < |d| - 1 ensures d[i] + r[d[i]].off == d[i + 1] {
        AppendOthers(m, c, i, x, size);
      }
    }
    assert Tagged(r, d) by {
      forall i | 0 <= i < |d| ensures d[i] < |r| && Good(r[d[i]]) {
        if i < |c| { AppendOthers(m, c, i, x, size); assert Good(m[c[i]]); SameGood(m[c[i]], r[c[i]]); }
      }
    }
  }

  lemma SameGood(a: Cell, b: Cell)
    requires a.head == b.head
    ensures Good(a) == Good(b)
  {
  }

  lemma AppendOthers(m: seq<Cell>, c: seq<nat>, i: nat, x: nat, size: nat)
    requires Appends(m, c, x) && i < |c|
    ensures 0 <= End(m, c) < |m| && c[i] < |m|
    ensures var r := AppendCells(m, End(m, c), x, size);
            && r[c[i]].head == m[c[i]].head && r[c[i]].off == (if i < |c| - 1 then m[c[i]].off else x - c[i])
            && (i < |c| - 1 ==> c[i] + m[c[i]].off == c[i + 1])
  {
    hide Good;
  }

  lemma AppendBlocks(m: seq<Cell>, c: seq<nat>, x: nat, size: nat)
    requires Appends(m, c, x) && 0 <= End(m, c) < |m| && Linked(AppendCells(m, End(m, c), x, size), c + [x])
    ensures BlocksOf(AppendCells(m, End(m, c), x, size), c + [x]) == BlocksOf(m, c) + [BlockOf(Cell(size, 0))]
    ensures Clean(m, c) ==> Clean(AppendCells(m, End(m, c), x, size), c + [x])
  {
    hide Good, SizeOf, IsFree, BlocksOf, End;
    var r, d := AppendCells(m, End(m, c), x, size), c + [x];
    var bs := BlocksOf(m, c) + [BlockOf(Cell(size, 0))];
    forall j | 0 <= j < |d| ensures BlockOf(r[d[j]]) == bs[j] {
      if j < |c| { AppendOthers(m, c, j, x, size); SameHeads(m[c[j]], r[c[j]]); } else {
        SameHeads(Cell(size, 0), r[x]);
      }
    }
    assert BlocksOf(r, d) == bs;
    assert d[|c|] == x;
    forall y | y in c ensures y in d { assert y in c + [x]; }
  }

  /** Let a marker take over the next one: size and offset go to it, and the slot of the other is emptied. The new
      offset is computed from that of the absorbed marker, which must not be the last. */
  function AbsorbCells(m: seq<Cell>, a: nat, b: nat, head: nat): seq<Cell>
    requires a < |m| && b < |m|
  {
    m[a := Cell(head, b - a + m[b].off)][b := EMPTY]
  }

  function Dropped(c: seq<nat>, i: nat): (d: seq<nat>)
    requires i < |c|
    ensures |d| == |c| - 1 && forall j :: 0 <= j < |d| ==> d[j] == if j < i then c[j] else c[j + 1]
  {
    c[..i] + c[i + 1..]
  }

  ghost predicate Absorbs(m: seq<Cell>, c: seq<nat>, i: nat, head: nat) {
    Linked(m, c) && i + 2 < |c| && forall off :: Good(Cell(head, off))
  }

  /** The words of the chain after absorbing marker i + 1. */
  lemma AbsorbOthers(m: seq<Cell>, c: seq<nat>, i: nat, head: nat, j: nat)
    requires Absorbs(m, c, i, head) && j < |c| - 1
    ensures c[i] < |m| && c[i + 1] < |m|
    ensures var r := AbsorbCells(m, c[i], c[i + 1], head);
            && |r| == |m| && Dropped(c, i + 1)[j] <= Top(m)
            && (j < i ==> r[c[j]] == m[c[j]])
            && (j == i ==> r[c[i]] == Cell(head, c[i + 2] as int - c[i]))
            && (j > i ==> r[c[j + 1]] == m[c[j + 1]])
  {
    hide Good;
    assert c[i + 1] + m[c[i + 1]].off == c[i + 2];
  }

  lemma AbsorbPath(m: seq<Cell>, c: seq<nat>, i: nat, head: nat)
    requires Absorbs(m, c, i, head)
    ensures Path(AbsorbCells(m, c[i], c[i + 1], head), Dropped(c, i + 1))
  {
    hide Good, AbsorbCells, Distinct, Tagged;
    AbsorbOthers(m, c, i, head, 0);
    var r, d := AbsorbCells(m, c[i], c[i + 1], head), Dropped(c, i + 1);
    forall j | 0 <= j < |d| - 1 ensures d[j] < |r| && d[j] + r[d[j]].off == d[j + 1] {
      AbsorbOthers(m, c, i, head, j);
      var k := if j <= i then j else j + 1;
      assert c[k] + m[c[k]].off == c[k + 1];
    }
    forall j | 0 <= j < |d| ensures d[j] <= Top(m) {
      AbsorbOthers(m, c, i, head, j);
    }
  }

  lemma AbsorbTags(m: seq<Cell>, c: seq<nat>, i: nat, head: nat)
    requires Absorbs(m, c, i, head)
    ensures Tagged(AbsorbCells(m, c[i], c[i + 1], head), Dropped(c, i + 1)) && Distinct(Dropped(c, i + 1))
  {
    hide Good, AbsorbCells;
    var r, d := AbsorbCells(m, c[i], c[i + 1], head), Dropped(c, i + 1);
    forall j | 0 <= j < |d| ensures d[j] < |r| && Good(r[d[j]]) {
      AbsorbOthers(m, c, i, head, j);
      assert Good(m[c[if j <= i then j else j + 1]]);
    }
  }

  lemma AbsorbLinks(m: seq<Cell>, c: seq<nat>, i: nat, head: nat)
    requires Absorbs(m, c, i, head)
    ensures Linked(AbsorbCells(m, c[i], c[i + 1], head), Dropped(c, i + 1))
  {
    hide Path, Distinct, Tagged, AbsorbCells, Good;
    AbsorbPath(m, c, i, head);
    AbsorbTags(m, c, i, head);
    AbsorbOthers(m, c, i, head, |c| - 2);
  }

  lemma AbsorbBlocks(m: seq<Cell>, c: seq<nat>, i: nat, head: nat)
    requires Absorbs(m, c, i, head) && Tagged(AbsorbCells(m, c[i], c[i + 1], head), Dropped(c, i + 1))
    ensures BlocksOf(AbsorbCells(m, c[i], c[i + 1], head), Dropped(c, i + 1)) ==
            BlocksOf(m, c)[..i] + [BlockOf(Cell(head, 0))] + BlocksOf(m, c)[i + 2..]
  {
    hide Good, SizeOf, IsFree, BlockOf, AbsorbCells;
    var r, d := AbsorbCells(m, c[i], c[i + 1], head), Dropped(c, i + 1);
    var bs := BlocksOf(m, c)[..i] + [BlockOf(Cell(head, 0))] + BlocksOf(m, c)[i + 2..];
    forall j | 0 <= j < |d| ensures BlockOf(r[d[j]]) == bs[j] {
      AbsorbOthers(m, c, i, head, j);
      if j == i { SameHeads(Cell(head, 0), r[c[i]]); }
    }
    assert BlocksOf(r, d) == bs;
  }

  lemma AbsorbClean(m: seq<Cell>, c: seq<nat>, i: nat, head: nat)
    requires Linked(m, c) && i + 1 < |c| && Clean(m, c)
    ensures Clean(AbsorbCells(m, c[i], c[i + 1], head), Dropped(c, i + 1))
  {
    var d, r := Dropped(c, i + 1), AbsorbCells(m, c[i], c[i + 1], head);
    hide Path, Distinct, Tagged, Dropped;
    DroppedKeeps(c, i);
    forall x | 2 <= x <= Top(m) && x !in d ensures r[x] == EMPTY {
      assert x in c ==> x == c[i + 1];
    }
  }

  lemma DroppedKeeps(c: seq<nat>, i: nat)
    requires i + 1 < |c|
    ensures c[i] in Dropped(c, i + 1) && forall y :: y in c && y != c[i + 1] ==> y in Dropped(c, i + 1)
  {
    var d := Dropped(c, i + 1);
    assert d[i] == c[i];
    forall y | y in c && y != c[i + 1] ensures y in d {
      var j :| 0 <= j < |c| && c[j] == y;
      assert d[if j <= i then j else j - 1] == y;
    }
  }

  /** Absorbing the last marker leaves an offset to a slot that is empty now: there is no chain any more. */
  lemma AbsorbLastBreaks(m: seq<Cell>, c: seq<nat>, head: nat, d: seq<nat>)
    requires Linked(m, c) && |c| >= 2 && |d| == |c| - 1
    ensures !Linked(AbsorbCells(m, c[|c| - 2], c[|c| - 1], head), d)
  {
    hide Good;
    AbsorbLastDangles(m, c, head);
    Dangling(AbsorbCells(m, c[|c| - 2], c[|c| - 1], head), c[..|c| - 1], d);
  }

  lemma AbsorbLastDangles(m: seq<Cell>, c: seq<nat>, head: nat)
    requires Linked(m, c) && |c| >= 2
    ensures var r := AbsorbCells(m, c[|c| - 2], c[|c| - 1], head);
            Path(r, c[..|c| - 1]) && r[c[|c| - 2]].off == c[|c| - 1] as int - c[|c| - 2] != 0
  {
    hide Good;
    var r, p := AbsorbCells(m, c[|c| - 2], c[|c| - 1], head), c[..|c| - 1];
    forall i | 0 <= i < |p| - 1 ensures p[i] + r[p[i]].off == p[i + 1] {
      assert c[i] + m[c[i]].off == c[i + 1] && r[c[i]] == m[c[i]];
    }
  }

  /** Delete the last marker; the one before it, if any, becomes the last. */
  function DropCells(m: seq<Cell>, c: seq<nat>): seq<Cell>
    requires c != [] && forall i :: 0 <= i < |c| ==> c[i] < |m|
  {
    var w := m[c[|c| - 1] := EMPTY];
    if |c| == 1 then w else w[c[|c| - 2] := Cell(w[c[|c| - 2]].head, 0)]
  }

  lemma DropLinks(m: seq<Cell>, c: seq<nat>)
    requires Linked(m, c) && c != []
    ensures Linked(DropCells(m, c), c[..|c| - 1])
  {
    hide Good;
    var r, d := DropCells(m, c), c[..|c| - 1];
    assert Path(r, d) by {
      forall i | 0 <= i < |d| - 1 ensures d[i] + r[d[i]].off == d[i + 1] {
        assert c[i] + m[c[i]].off == c[i + 1];
      }
    }
    assert Tagged(r, d) by {
      forall i | 0 <= i < |d| ensures d[i] < |r| && Good(r[d[i]]) {
        SameGood(m[c[i]], r[c[i]]);
      }
    }
  }

  lemma DropBlocks(m: seq<Cell>, c: seq<nat>)
    requires Linked(m, c) && c != [] && Linked(DropCells(m, c), c[..|c| - 1])
    ensures BlocksOf(DropCells(m, c), c[..|c| - 1]) == BlocksOf(m, c)[..|c| - 1]
  {
    hide Good, SizeOf, IsFree, BlockOf, Path;
    var r, d := DropCells(m, c), c[..|c| - 1];
    forall j | 0 <= j < |d| ensures BlockOf(r[d[j]]) == BlocksOf(m, c)[j] {
      SameHeads(m[c[j]], r[c[j]]);
    }
    assert BlocksOf(r, d) == BlocksOf(m, c)[..|c| - 1];
  }

  lemma DropClean(m: seq<Cell>, c: seq<nat>)
    requires Linked(m, c) && c != [] && Clean(m, c)
    ensures Clean(DropCells(m, c), c[..|c| - 1])
  {
    hide Good, Distinct, Tagged;
    var d := c[..|c| - 1];
    forall y | y in c && y != c[|c| - 1] ensures y in d {
      var j :| 0 <= j < |c| && c[j] == y;
      assert d[j] == y;
    }
    assert |c| > 1 ==> d[|c| - 2] == c[|c| - 2];
    forall x | 2 <= x <= Top(m) && x !in d ensures DropCells(m, c)[x] == EMPTY {
      assert x == c[|c| - 1] || m[x] == EMPTY;
    }
  }

  // ----- reading the chain off the words

  function ChainOf(m: seq<Cell>, x: int, n: nat): (c: seq<nat>)
    ensures |c| <= n && forall i :: 0 <= i < |c| ==> c[i] < |m|
    decreases n
  {
    if n == 0 || !(0 <= x < |m|) then [] else [x] + ChainOf(m, x + m[x].off, n - 1)
  }

  lemma {:induction false} ChainFound(m: seq<Cell>, c: seq<nat>, i: nat)
    requires Linked(m, c) && i < |c|
    ensures ChainOf(m, c[i], |c| - i) == c[i..]
    decreases |c| - i
  {
    hide Good;
    if i + 1 < |c| {
      ChainFound(m, c, i + 1);
      assert c[i] + m[c[i]].off == c[i + 1];
      assert c[i..] == [c[i]] + c[i + 1..];
    } else {
      assert c[i..] == [c[i]];
    }
  }
}
