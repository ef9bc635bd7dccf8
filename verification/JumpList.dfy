/** `jmp_list`: each live slot holds the relative jump to its cyclic successor among the live slots. */
module JumpList {
  import opened Slots

  /** How far u lies after i going up and wrapping at n; i itself is a whole turn away. */
  function Ahead(i: int, u: int, n: int): int {
    if u > i then u - i else u - i + n
  }

  /** j is the first live slot met when going up from i. */
  ghost predicate Follows(t: seq<Slot>, i: int, j: int) {
    && 0 <= j < |t| && Live(t[j])
    && forall u :: 0 <= u < |t| && Live(t[u]) ==> Ahead(i, j, |t|) <= Ahead(i, u, |t|)
  }

  ghost predicate LinkOk(t: seq<Slot>, i: int)
    requires 0 <= i < |t|
  {
    if Live(t[i]) then Follows(t, i, i + t[i].jmp) else t[i].jmp == 0
  }

  /** The list is one cycle through exactly the live slots in increasing order, and idle slots hold 0. */
  ghost predicate Ring(t: seq<Slot>) {
    && |t| > 0 && Live(t[0])
    && forall i :: 0 <= i < |t| ==> LinkOk(t, i)
  }

  function Hop(t: seq<Slot>, i: nat): int
    requires i < |t|
  {
    i + t[i].jmp
  }

  /** Every jump fits the signed byte it is stored in. */
  lemma JumpFits(t: seq<Slot>, i: nat)
    requires Ring(t) && i < |t| <= 127
    ensures -127 <= t[i].jmp <= 127
  {
    assert LinkOk(t, i);
  }

  /** Linking a new slot i in after its live neighbour i - 1, as creation does. */
  function Link(t: seq<Slot>, i: nat, s: Slot): seq<Slot>
    requires 0 < i < |t|
  {
    t[i := s.(jmp := t[i - 1].jmp - 1)][i - 1 := t[i - 1].(jmp := 1)]
  }

  lemma LinkKeepsRing(t: seq<Slot>, i: nat, s: Slot)
    requires Ring(t) && 0 < i < |t| && !Live(t[i]) && Live(t[i - 1]) && Live(s)
    ensures Ring(Link(t, i, s))
  {
    var r := Link(t, i, s);
    assert LinkOk(t, i - 1);
    var succ := i - 1 + t[i - 1].jmp;
    forall x | 0 <= x < |r| ensures LinkOk(r, x) {
      assert LinkOk(t, x);
      if x == i {
        assert Follows(r, i, succ);
      } else if x == i - 1 {
        assert Follows(r, x, i);
      } else if Live(t[x]) {
        var y := x + t[x].jmp;
        assert Ahead(x, y, |t|) <= Ahead(x, i - 1, |t|);
        assert Follows(r, x, y);
      }
    }
  }

  /** The predecessor of i: the slot below it whose jump reaches it. */
  function Pred(t: seq<Slot>, i: nat, j: nat): (r: nat)
    requires j <= i < |t|
    ensures j <= r <= i && (r < i ==> Hop(t, r) == i)
    ensures forall x :: j <= x < r ==> Hop(t, x) != i
    decreases i - j
  {
    if j == i || Hop(t, j) == i then j else Pred(t, i, j + 1)
  }

  /** Some live slot below i jumps to it. */
  lemma PredExists(t: seq<Slot>, i: nat)
    requires Ring(t) && 0 < i < |t| && Live(t[i])
    ensures Pred(t, i, 0) < i && Live(t[Pred(t, i, 0)])
  {
    var j := i - 1;
    while !Live(t[j])
      invariant 0 <= j < i
      invariant forall x :: j < x < i ==> !Live(t[x])
      decreases j
    {
      j := j - 1;
    }
    assert LinkOk(t, j);
    var y := Hop(t, j);
    assert Ahead(j, y, |t|) <= Ahead(j, i, |t|);
    assert y == i;
    var p := Pred(t, i, 0);
    assert LinkOk(t, p);
  }

  /** Taking slot i out, as a kill does; the slot's own fields become s. Without a predecessor only slot i changes. */
  function Unlink(t: seq<Slot>, i: nat, s: Slot): (r: seq<Slot>)
    requires i < |t|
    ensures |r| == |t|
  {
    var j := Pred(t, i, 0);
    t[j := t[j].(jmp := t[j].jmp + t[i].jmp)][i := s.(jmp := 0)]
  }

  /** The jump of slot i while it is taken out: a slot without a predecessor has added it to itself. */
  function Stride(t: seq<Slot>, i: nat): int
    requires i < |t|
  {
    if Pred(t, i, 0) == i then 2 * t[i].jmp else t[i].jmp
  }

  /** A slot that some slot below it jumps to keeps its jump; another one doubles it. A live slot but the first is
      always of the first kind, if the list is a ring. */
  lemma StrideCases(t: seq<Slot>, i: nat)
    requires i < |t|
    ensures Stride(t, i) == (if exists x :: 0 <= x < i && x + t[x].jmp == i then 1 else 2) * t[i].jmp
    ensures Ring(t) && 0 < i && Live(t[i]) ==> Stride(t, i) == t[i].jmp
  {
    assert forall x :: 0 <= x < i ==> Hop(t, x) == x + t[x].jmp;
    if Ring(t) && 0 < i && Live(t[i]) { PredExists(t, i); }
  }

  /** If y is the first slot after i, and i the first after j, then y is the first after j once i is gone. */
  lemma SkipPast(j: int, i: int, y: int, u: int, n: int)
    requires 0 <= j < i < n && 0 <= y < n && 0 <= u < n && u != i
    requires Ahead(j, i, n) <= Ahead(j, u, n)
    requires Ahead(i, y, n) <= Ahead(i, u, n) && Ahead(i, y, n) <= Ahead(i, j, n)
    ensures Ahead(j, y, n) <= Ahead(j, u, n)
  {
  }

  lemma UnlinkedAfter(t: seq<Slot>, i: nat, s: Slot, j: nat)
    requires Ring(t) && 0 < i < |t| && Live(t[i]) && !Live(s)
    requires j == Pred(t, i, 0) && j < i && Live(t[j])
    ensures Follows(Unlink(t, i, s), j, Hop(t, i))
  {
    assert LinkOk(t, i) && LinkOk(t, j);
    var y, r := Hop(t, i), Unlink(t, i, s);
    assert Ahead(i, y, |t|) <= Ahead(i, j, |t|);
    forall u | 0 <= u < |r| && Live(r[u]) ensures Ahead(j, y, |t|) <= Ahead(j, u, |t|) {
      SkipPast(j, i, y, u, |t|);
    }
  }

  lemma UnlinkedElsewhere(t: seq<Slot>, i: nat, s: Slot, x: nat)
    requires Ring(t) && 0 < i < |t| && Live(t[i]) && !Live(s)
    requires Pred(t, i, 0) < i && Live(t[Pred(t, i, 0)])
    requires x < |t| && x != i && x != Pred(t, i, 0) && Live(t[x])
    ensures Follows(Unlink(t, i, s), x, Hop(t, x))
  {
    var j, z := Pred(t, i, 0), Hop(t, x);
    assert LinkOk(t, x) && LinkOk(t, j);
    assert Ahead(x, z, |t|) <= Ahead(x, 0, |t|) && Ahead(x, z, |t|) <= Ahead(x, j, |t|);
    assert Ahead(j, i, |t|) <= Ahead(j, x, |t|);
  }

  lemma UnlinkKeepsRing(t: seq<Slot>, i: nat, s: Slot)
    requires Ring(t) && 0 < i < |t| && Live(t[i]) && !Live(s)
    ensures Pred(t, i, 0) < i
    ensures Ring(Unlink(t, i, s))
  {
    PredExists(t, i);
    var j := Pred(t, i, 0);
    var r := Unlink(t, i, s);
    forall x | 0 <= x < |r| ensures LinkOk(r, x) {
      assert LinkOk(t, x);
      if x == j {
        UnlinkedAfter(t, i, s, j);
      } else if x != i && Live(t[x]) {
        UnlinkedElsewhere(t, i, s, x);
      }
    }
  }

  /** The slot reached from i after m jumps. */
  ghost function Jumps(t: seq<Slot>, i: nat, m: nat): (r: nat)
    requires Ring(t) && i < |t| && Live(t[i])
    ensures r < |t| && Live(t[r])
    decreases m
  {
    assert LinkOk(t, i);
    if m == 0 then i else Jumps(t, Hop(t, i), m - 1)
  }

  /** One cycle: from any live slot the jumps reach every live slot, itself included, within one turn. */
  lemma {:induction false} JumpsReach(t: seq<Slot>, i: nat, u: nat) returns (m: nat)
    requires Ring(t) && i < |t| && u < |t| && Live(t[i]) && Live(t[u])
    ensures 1 <= m <= Ahead(i, u, |t|) && Jumps(t, i, m) == u
    decreases Ahead(i, u, |t|)
  {
    assert LinkOk(t, i);
    var j: nat := Hop(t, i);
    if j == u {
      m := 1;
      assert Jumps(t, j, 0) == u;
    } else {
      m := JumpsReach(t, j, u);
      m := m + 1;
    }
  }

  /** Updating a slot without touching its link or its liveness keeps the ring. */
  lemma UpdateKeepsRing(t: seq<Slot>, u: seq<Slot>)
    requires Ring(t) && |u| == |t|
    requires forall i :: 0 <= i < |t| ==> u[i].jmp == t[i].jmp && (Live(u[i]) <==> Live(t[i]))
    ensures Ring(u)
  {
    forall i | 0 <= i < |u| ensures LinkOk(u, i) {
      assert LinkOk(t, i);
      if Live(t[i]) {
        assert Follows(u, i, Hop(u, i));
      }
    }
  }
}
