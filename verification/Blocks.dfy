/** The heap as a tiling: consecutive blocks from the start address on, each free or live. A block's address is never
    stored; it is the sum of the sizes before it. */
module Blocks {

  datatype Block = Block(free: bool, size: nat)

  function Sum(bs: seq<Block>): nat {
    if bs == [] then 0 else bs[0].size + Sum(bs[1..])
  }

  /** The live blocks of a tiling that starts at s, as address and size. */
  function Live(bs: seq<Block>, s: nat): set<(nat, nat)> {
    if bs == [] then {}
    else (if bs[0].free then {} else {(s, bs[0].size)}) + Live(bs[1..], s + bs[0].size)
  }

  /** Bytes in live blocks. */
  function Used(bs: seq<Block>): nat {
    if bs == [] then 0 else (if bs[0].free then 0 else bs[0].size) + Used(bs[1..])
  }

  lemma {:induction false} Joined(xs: seq<Block>, ys: seq<Block>, s: nat)
    ensures Sum(xs + ys) == Sum(xs) + Sum(ys)
    ensures Used(xs + ys) == Used(xs) + Used(ys)
    ensures Live(xs + ys, s) == Live(xs, s) + Live(ys, s + Sum(xs))
  {
    if xs == [] {
      assert xs + ys == ys;
    } else {
      assert (xs + ys)[1..] == xs[1..] + ys;
      Joined(xs[1..], ys, s + xs[0].size);
    }
  }

  /** Live blocks lie inside the tiling. */
  lemma {:induction false} LiveInside(bs: seq<Block>, s: nat, b: (nat, nat))
    requires b in Live(bs, s)
    ensures s <= b.0 && b.0 + b.1 <= s + Sum(bs)
  {
    if bs[0].free || b != (s, bs[0].size) {
      LiveInside(bs[1..], s + bs[0].size, b);
    }
  }

  /** Live blocks of positive size never overlap. */
  lemma {:induction false} LiveDisjoint(bs: seq<Block>, s: nat, a: (nat, nat), b: (nat, nat))
    requires a in Live(bs, s) && b in Live(bs, s) && a != b
    requires forall i :: 0 <= i < |bs| ==> bs[i].size > 0
    ensures a.0 + a.1 <= b.0 || b.0 + b.1 <= a.0
  {
    var t := s + bs[0].size;
    if a in Live(bs[1..], t) && b in Live(bs[1..], t) {
      LiveDisjoint(bs[1..], t, a, b);
    } else if a in Live(bs[1..], t) {
      LiveInside(bs[1..], t, a);
    } else {
      LiveInside(bs[1..], t, b);
    }
  }

  function One(free: bool, size: nat): seq<Block> {
    [Block(free, size)]
  }

  lemma OneBlock(free: bool, size: nat, s: nat)
    ensures Sum(One(free, size)) == size && Used(One(free, size)) == (if free then 0 else size)
    ensures Live(One(free, size), s) == if free then {} else {(s, size)}
  {
    var bs := One(free, size);
    assert bs[1..] == [];
  }

  /** The blocks from i on to j, and around them. */
  lemma Split3(bs: seq<Block>, i: nat, j: nat, s: nat)
    requires i <= j <= |bs|
    ensures Sum(bs) == Sum(bs[..i]) + Sum(bs[i..j]) + Sum(bs[j..])
    ensures Used(bs) == Used(bs[..i]) + Used(bs[i..j]) + Used(bs[j..])
    ensures Live(bs, s) == Live(bs[..i], s) + Live(bs[i..j], s + Sum(bs[..i])) + Live(bs[j..],
        s + Sum(bs[..i]) + Sum(bs[i..j]))
  {
    hide Sum, Used, Live;
    assert bs == bs[..i] + (bs[i..j] + bs[j..]);
    Joined(bs[..i], bs[i..j] + bs[j..], s);
    Joined(bs[i..j], bs[j..], s + Sum(bs[..i]));
  }

  /** Replacing a stretch of blocks by another of the same total size moves nothing around it. */
  lemma Replace(bs: seq<Block>, i: nat, j: nat, mid: seq<Block>, s: nat) returns (others: set<(nat, nat)>)
    requires i <= j <= |bs| && Sum(mid) == Sum(bs[i..j])
    ensures var r := bs[..i] + mid + bs[j..];
            var a := s + Sum(bs[..i]);
            && Sum(r) == Sum(bs)
            && Used(r) + Used(bs[i..j]) == Used(bs) + Used(mid)
            && Live(bs, s) == others + Live(bs[i..j], a) && Live(r, s) == others + Live(mid, a)
  {
    hide Sum, Live, Used;
    var r := bs[..i] + mid + bs[j..];
    Split3(bs, i, j, s);
    Split3(r, i, i + |mid|, s);
    assert r[..i] == bs[..i] && r[i..i + |mid|] == mid && r[i + |mid|..] == bs[j..];
    var a := s + Sum(bs[..i]);
    others := Live(bs[..i], s) + Live(bs[j..], a + Sum(mid));
  }

  // ----- the operations on the tiling

  /** First fit: the first free block of at least the given size, or |bs|. */
  function FirstFit(bs: seq<Block>, size: nat): (i: nat)
    ensures i <= |bs| && forall j :: 0 <= j < i ==> !(bs[j].free && bs[j].size >= size)
    ensures i < |bs| ==> bs[i].free && bs[i].size >= size
  {
    if bs == [] || (bs[0].free && bs[0].size >= size) then 0
    else
      var i := FirstFit(bs[1..], size);
      assert forall j :: 1 <= j < 1 + i ==> bs[j] == bs[1..][j - 1];
      1 + i
  }

  /** Make block i live: all of it, or its first `size` bytes with a free remainder behind. */
  function Taken(bs: seq<Block>, i: nat, size: nat, split: bool): seq<Block>
    requires i < |bs| && size <= bs[i].size
  {
    if split then bs[..i] + [Block(false, size), Block(true, bs[i].size - size)] + bs[i + 1..]
    else bs[i := Block(false, bs[i].size)]
  }

  /** Taking a free block adds it to the live blocks; the others stay where they are. */
  lemma TakeAddsOne(bs: seq<Block>, i: nat, size: nat, split: bool, s: nat)
    requires i < |bs| && bs[i].free && size <= bs[i].size
    ensures var r := Taken(bs, i, size, split);
            var given := if split then size else bs[i].size;
            && Sum(r) == Sum(bs) && Used(r) == Used(bs) + given
            && Live(r, s) == Live(bs, s) + {(s + Sum(bs[..i]), given)}
  {
    hide Sum, Live, Used;
    var a := s + Sum(bs[..i]);
    assert bs[i..i + 1] == One(true, bs[i].size);
    OneBlock(true, bs[i].size, a);
    if split {
      var mid := One(false, size) + One(true, bs[i].size - size);
      OneBlock(false, size, a);
      OneBlock(true, bs[i].size - size, a + size);
      Joined(One(false, size), One(true, bs[i].size - size), a);
      var others := Replace(bs, i, i + 1, mid, s);
      assert Taken(bs, i, size, true) == bs[..i] + mid + bs[i + 1..];
    } else {
      OneBlock(false, bs[i].size, a);
      var others := Replace(bs, i, i + 1, One(false, bs[i].size), s);
      assert Taken(bs, i, size, false) == bs[..i] + One(false, bs[i].size) + bs[i + 1..];
    }
  }

  lemma AppendAddsOne(bs: seq<Block>, size: nat, s: nat)
    ensures var r := bs + [Block(false, size)];
            Sum(r) == Sum(bs) + size && Used(r) == Used(bs) + size && Live(r, s) == Live(bs, s) + {(s + Sum(bs), size)}
  {
    Joined(bs, One(false, size), s);
    OneBlock(false, size, s + Sum(bs));
  }

  /** Mark block i free. */
  lemma FreeRemovesOne(bs: seq<Block>, i: nat, s: nat)
    requires i < |bs| && !bs[i].free && forall j :: 0 <= j < |bs| ==> bs[j].size > 0
    ensures var r := bs[i := Block(true, bs[i].size)];
            && Sum(r) == Sum(bs) && Used(r) + bs[i].size == Used(bs)
            && Live(r, s) == Live(bs, s) - {(s + Sum(bs[..i]), bs[i].size)}
  {
    hide Sum, Live, Used;
    var a := s + Sum(bs[..i]);
    var b := (a, bs[i].size);
    assert bs[i..i + 1] == One(false, bs[i].size);
    OneBlock(false, bs[i].size, a);
    OneBlock(true, bs[i].size, a);
    Split3(bs, i, i + 1, s);
    var r := bs[i := Block(true, bs[i].size)];
    Split3(r, i, i + 1, s);
    assert r[..i] == bs[..i] && r[i..i + 1] == One(true, bs[i].size) && r[i + 1..] == bs[i + 1..];
    if b in Live(bs[..i], s) { LiveInside(bs[..i], s, b); }
    if b in Live(bs[i + 1..], a + bs[i].size) { LiveInside(bs[i + 1..], a + bs[i].size, b); }
  }

  /** Merge free block i + 1 into free block i. */
  function Merged(bs: seq<Block>, i: nat): seq<Block>
    requires i + 1 < |bs|
  {
    bs[..i] + [Block(true, bs[i].size + bs[i + 1].size)] + bs[i + 2..]
  }

  lemma MergeKeepsLive(bs: seq<Block>, i: nat, s: nat)
    requires i + 1 < |bs| && bs[i].free && bs[i + 1].free
    ensures Sum(Merged(bs, i)) == Sum(bs) && Used(Merged(bs, i)) == Used(bs) && Live(Merged(bs, i), s) == Live(bs, s)
  {
    var a := s + Sum(bs[..i]);
    assert bs[i..i + 2] == One(true, bs[i].size) + One(true, bs[i + 1].size);
    OneBlock(true, bs[i].size, a);
    OneBlock(true, bs[i + 1].size, a + bs[i].size);
    Joined(One(true, bs[i].size), One(true, bs[i + 1].size), a);
    OneBlock(true, bs[i].size + bs[i + 1].size, a);
    var others := Replace(bs, i, i + 2, One(true, bs[i].size + bs[i + 1].size), s);
  }

  /** Drop the last block, which is free. */
  lemma DropKeepsLive(bs: seq<Block>, s: nat)
    requires bs != [] && bs[|bs| - 1].free
    ensures var r := bs[..|bs| - 1];
            Sum(r) + bs[|bs| - 1].size == Sum(bs) && Used(r) == Used(bs) && Live(r, s) == Live(bs, s)
  {
    var r := bs[..|bs| - 1];
    var l := One(true, bs[|bs| - 1].size);
    assert bs == r + l;
    Joined(r, l, s);
    OneBlock(true, bs[|bs| - 1].size, s + Sum(r));
  }
}
