/** The task table: one record per slot, gathering the kernel's parallel per-task arrays.
    Addresses are numbers, 0 being the null pointer. */
module Slots {

  datatype TaskState = Active | Sleep | Idle | Hold | HibernateG | HibernateL

  /** The byte stored for a state. The hibernate states are decimal 80 and 81. */
  function Code(s: TaskState): nat {
    match s
    case Active => 40
    case Sleep => 41
    case Idle => 42
    case Hold => 43
    case HibernateG => 80
    case HibernateL => 81
  }

  /** The test `(state & 0x80) == 0x80`. */
  predicate HibernateBit(s: TaskState) {
    (Code(s) / 0x80) % 2 == 1
  }

  /** No state byte carries the hibernate mask, so the test never sees a hibernating task. */
  lemma HibernateBitNeverSet(s: TaskState)
    ensures !HibernateBit(s)
  {
  }

  datatype Slot = Slot(
    state: TaskState,
    jmp: int,        // relative jump to the next slot of the ring
    prio: nat,       // current priority
    saved: nat,      // priority stashed by a promotion
    mutex: nat,      // address of the mutex that caused the promotion
    op1: nat,        // first hibernation operand, or the mutex a held task waits for
    op2: nat,
    hib: nat,        // hibernation value, or the error returned by the base task
    id: nat,
    obj: nat,        // address of the task object
    perm: nat)

  /** The user priority of a slot: what it runs at when no promotion is in force. */
  function Level(s: Slot): nat {
    if s.prio > 127 then s.saved else s.prio
  }

  predicate Live(s: Slot) { s.state != Idle }

  function LiveLevel(level: nat): Slot -> bool {
    (s: Slot) => Live(s) && Level(s) == level
  }

  function Bit(b: bool): nat { if b then 1 else 0 }

  /** How many slots satisfy p. */
  function Count(t: seq<Slot>, p: Slot -> bool): nat {
    if |t| == 0 then 0 else Count(t[..|t| - 1], p) + Bit(p(t[|t| - 1]))
  }

  lemma {:induction false} CountUpdate(t: seq<Slot>, i: nat, s: Slot, p: Slot -> bool)
    requires i < |t|
    ensures Count(t[i := s], p) + Bit(p(t[i])) == Count(t, p) + Bit(p(s))
  {
    var m := |t| - 1;
    if i == m {
      assert t[i := s][..m] == t[..m];
    } else {
      assert t[i := s][..m] == t[..m][i := s];
      CountUpdate(t[..m], i, s, p);
    }
  }

  /** Counting is monotone along a slot-by-slot implication between two tables. */
  lemma {:induction false} CountMono(t: seq<Slot>, p: Slot -> bool, u: seq<Slot>, q: Slot -> bool)
    requires |t| == |u|
    requires forall i :: 0 <= i < |t| && p(t[i]) ==> q(u[i])
    ensures Count(t, p) <= Count(u, q)
  {
    if |t| > 0 {
      CountMono(t[..|t| - 1], p, u[..|t| - 1], q);
    }
  }

  lemma {:induction false} CountBound(t: seq<Slot>, p: Slot -> bool)
    ensures Count(t, p) <= |t|
  {
    if |t| > 0 {
      CountBound(t[..|t| - 1], p);
    }
  }

  /** A positive count exhibits a slot, and a slot makes the count positive. */
  lemma {:induction false} CountPositive(t: seq<Slot>, p: Slot -> bool)
    ensures Count(t, p) > 0 <==> exists i :: 0 <= i < |t| && p(t[i])
  {
    if |t| > 0 {
      var m := |t| - 1;
      CountPositive(t[..m], p);
      if Count(t[..m], p) > 0 {
        var i :| 0 <= i < m && p(t[..m][i]);
        assert p(t[i]);
      }
      if i :| 0 <= i < |t| && p(t[i]) && i != m {
        assert p(t[..m][i]);
      }
    }
  }

  /** A count of at most one leaves room for one slot only. */
  lemma {:induction false} CountOne(t: seq<Slot>, p: Slot -> bool, i: nat, j: nat)
    requires i < |t| && j < |t| && p(t[i]) && p(t[j]) && Count(t, p) <= 1
    ensures i == j
  {
    var m := |t| - 1;
    if i != j {
      if i == m || j == m {
        var x := if i == m then j else i;
        assert p(t[..m][x]);
        CountPositive(t[..m], p);
      } else {
        assert t[..m][i] == t[i] && t[..m][j] == t[j];
        CountOne(t[..m], p, i, j);
      }
    }
  }

  /** A count equal to the table's length means every slot satisfies p. */
  lemma {:induction false} CountAll(t: seq<Slot>, p: Slot -> bool)
    ensures Count(t, p) == |t| <==> forall i :: 0 <= i < |t| ==> p(t[i])
  {
    if |t| > 0 {
      var m := |t| - 1;
      CountAll(t[..m], p);
      CountBound(t[..m], p);
      if forall i :: 0 <= i < |t| ==> p(t[i]) {
        assert forall i :: 0 <= i < m ==> p(t[..m][i]);
      }
      if Count(t, p) == |t| {
        forall i | 0 <= i < |t| ensures p(t[i]) {
          if i < m { assert t[..m][i] == t[i]; }
        }
      }
    }
  }

  /** The first free slot. */
  function FirstIdle(t: seq<Slot>): (i: nat)
    requires Count(t, Live) < |t|
    ensures i < |t| && !Live(t[i]) && forall j :: 0 <= j < i ==> Live(t[j])
  {
    var m := |t| - 1;
    if Count(t[..m], Live) < m then FirstIdle(t[..m]) else CountAll(t[..m], Live); CountBound(t[..m], Live); m
  }

  /** The greater of m and the highest current priority of a live slot. */
  function TopLevel(t: seq<Slot>, m: nat): (r: nat)
    ensures m <= r
    ensures forall i :: 0 <= i < |t| && Live(t[i]) ==> t[i].prio <= r
    ensures r == m || exists i :: 0 <= i < |t| && Live(t[i]) && t[i].prio == r
  {
    if |t| == 0 then m
    else
      var l := t[|t| - 1];
      var r := TopLevel(t[..|t| - 1], m);
      assert forall i :: 0 <= i < |t| - 1 ==> t[..|t| - 1][i] == t[i];
      if Live(l) && l.prio > r then l.prio else r
  }
}
