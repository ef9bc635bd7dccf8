/** The scheduler: the wake-up sweep around the ring and the unbounded loop that selects the next task. */
module Scheduler {
  import opened Slots
  import opened JumpList
  import opened LevelStash
  import opened Services

  // ----- the wake-up sweep

  type Word32 = w: nat | w < 0x1_0000_0000

  /** The memory the hibernation operands point into, read once per sweep. */
  type Memory = nat -> Word32

  /** 32-bit wrapping subtraction. */
  function Minus32(x: nat, y: nat): nat {
    (x - y) % 0x1_0000_0000
  }

  predicate Due(s: Slot, mem: Memory) {
    var d := Minus32(mem(s.op1), mem(s.op2));
    (s.state == HibernateG && d >= s.hib) || (s.state == HibernateL && d <= s.hib)
  }

  function Wake(s: Slot, mem: Memory): Slot {
    if Due(s, mem) then s.(state := Sleep) else s
  }

  function DueAt(level: nat, mem: Memory): Slot -> bool {
    (s: Slot) => Due(s, mem) && s.prio == level
  }

  function WakeAll(t: seq<Slot>, mem: Memory): (r: seq<Slot>)
    ensures |r| == |t|
    ensures forall i :: 0 <= i < |t| ==> r[i] == Wake(t[i], mem)
  {
    seq(|t|, i requires 0 <= i < |t| => Wake(t[i], mem))
  }

  /** Every due task is woken and moved from the hibernating to the active count of the top level. */
  function Swept(k: Kernel, mem: Memory): Kernel {
    var w := Count(k.slots, DueAt(k.maxLevel, mem));
    k.(slots := WakeAll(k.slots, mem), alc := Byte(k.alc + w), hlc := Byte(k.hlc - w))
  }

  /** On a timer tick the running task goes to sleep; after a service its state is already settled. */
  function Prepared(k: Kernel): Kernel
    requires k.current < |k.slots|
  {
    (if k.normal then SetState(k, k.current, Sleep) else k.(normal := true)).(timer := false)
  }

  // ----- selection

  /** u is runnable at the given level. */
  predicate Ready(k: Kernel, u: int, level: nat) {
    0 <= u < |k.slots| && k.slots[u].state == Sleep && k.slots[u].prio == level
  }

  predicate Rival(k: Kernel, u: int) {
    u != k.current && Ready(k, u, k.maxLevel)
  }

  /** How far u lies after i, counting i itself as distance 0. */
  function Gap(i: int, u: int, n: int): int {
    if u >= i then u - i else u - i + n
  }

  /** The m-th listed level can be reached once the walk has come round to the current task. */
  predicate Below(k: Kernel, m: int) {
    0 <= m <= k.lstash - 2 && m < |k.stash|
  }

  /** The task the loop selects, and the level it selects it at:
      the first other task after `next_task` that is runnable at the top level; failing that, at the highest
      listed level strictly under the last entry at which some task is runnable, the first one from the current
      task on, the current task included. */
  ghost predicate Picked(k: Kernel, t: int, level: nat) {
    if exists u :: Rival(k, u) then
      && Rival(k, t) && level == k.maxLevel
      && forall u :: Rival(k, u) ==> Ahead(k.next, t, |k.slots|) <= Ahead(k.next, u, |k.slots|)
    else
      && k.current < |k.slots| && Live(k.slots[k.current]) && Ready(k, t, level)
      && (forall u :: Ready(k, u, level) ==> Gap(k.current, t, |k.slots|) <= Gap(k.current, u, |k.slots|))
      && exists m :: Below(k, m) && k.stash[m] == level && NoneAbove(k, m)
  }

  ghost predicate NoneAbove(k: Kernel, m: int) {
    forall x, u :: m < x && Below(k, x) && 0 <= u < |k.slots| ==> !Ready(k, u, k.stash[x])
  }

  /** Something can be selected. */
  ghost predicate Selectable(k: Kernel) {
    || (exists u :: Rival(k, u))
    || (k.current < |k.slots| && Live(k.slots[k.current])
        && exists u, m :: Below(k, m) && Ready(k, u, k.stash[m]))
  }

  /** Where the loop may start: on the ring, at the current task or with the current task off the ring. */
  ghost predicate Walkable(k: Kernel) {
    && Ring(k.slots) && k.next < |k.slots| && k.current < |k.slots| && Live(k.slots[k.next])
    && |k.stash| == |k.slots| + 1 && Sorted(k.stash, k.lstash)
    && (Live(k.slots[k.current]) ==> k.next == k.current)
  }

  /** There is at most one task to select. */
  lemma PickIsUnique(k: Kernel, t: int, level: nat, t': int, level': nat)
    requires Walkable(k) && Picked(k, t, level) && Picked(k, t', level')
    ensures t == t' && level == level'
  {
    if !exists u :: Rival(k, u) {
      var m :| Below(k, m) && k.stash[m] == level && NoneAbove(k, m);
      var m' :| Below(k, m') && k.stash[m'] == level' && NoneAbove(k, m');
      assert Ready(k, t, k.stash[m]) && Ready(k, t', k.stash[m']);
    }
  }

  lemma PickSleeps(k: Kernel, t: nat, level: nat)
    requires t < |k.slots| && Picked(k, t, level)
    ensures k.slots[t].state == Sleep
  {
    assert (exists u :: Rival(k, u)) ==> Rival(k, t);
  }

  // ----- the loop itself, one iteration at a time

  datatype Walk = At(slot: nat, lptr: nat, level: nat) | OutOfRange

  function Start(k: Kernel): Walk
    requires k.lstash > 0
  {
    At(k.next, k.lstash - 1, k.maxLevel)
  }

  /** One iteration, up to the test for leaving the loop. `lptr` is a byte: going below 0 leaves the stash. */
  function Advance(k: Kernel, w: Walk): Walk {
    if w.OutOfRange? || w.slot >= |k.slots| || Hop(k.slots, w.slot) < 0 then OutOfRange
    else
      var s := Hop(k.slots, w.slot);
      if s != k.current then At(s, w.lptr, w.level)
      else if w.lptr == 0 || w.lptr - 1 >= |k.stash| then OutOfRange
      else At(s, w.lptr - 1, k.stash[w.lptr - 1])
  }

  predicate Leaves(k: Kernel, w: Walk) {
    w.At? && Ready(k, w.slot, w.level)
  }

  function Iterate(k: Kernel, m: nat): Walk
    requires k.lstash > 0
  {
    if m == 0 then Start(k) else Advance(k, Iterate(k, m - 1))
  }

  /** The loop is left at its m-th iteration. */
  ghost predicate EndsAt(k: Kernel, m: nat)
    requires k.lstash > 0
  {
    && 0 < m && Leaves(k, Iterate(k, m))
    && forall j :: 0 < j < m ==> !Leaves(k, Iterate(k, j))
  }

  /** What the walk has already ruled out when it stands at w. */
  ghost predicate Passed(k: Kernel, w: Walk)
    requires Walkable(k)
  {
    && w.At? && w.slot < |k.slots| && Live(k.slots[w.slot]) && w.lptr < k.lstash
    && if w.lptr == k.lstash - 1 then
         && w.level == k.maxLevel
         && forall u :: Rival(k, u) ==> Ahead(k.next, u, |k.slots|) > Gap(k.next, w.slot, |k.slots|)
       else
         && Live(k.slots[k.current]) && Below(k, w.lptr) && w.level == k.stash[w.lptr]
         && (forall u :: !Rival(k, u))
         && NoneAbove(k, w.lptr)
         && forall u :: Ready(k, u, w.level) ==> Gap(k.current, u, |k.slots|) > Gap(k.current, w.slot, |k.slots|)
  }

  lemma StartPassed(k: Kernel)
    requires Walkable(k)
    ensures Passed(k, Start(k))
  {
  }

  /** Going from s to its successor v skips no slot u that lay further on in the lap that started at a. */
  lemma HopGap(a: int, s: int, v: int, u: int, n: int)
    requires 0 <= a < n && 0 <= s < n && 0 <= v < n && 0 <= u < n
    requires Ahead(s, v, n) <= Ahead(s, u, n) && Ahead(s, v, n) <= Ahead(s, a, n)
    ensures Ahead(a, u, n) > Gap(a, s, n) ==> Ahead(a, v, n) <= Ahead(a, u, n)
    ensures v != a && Gap(a, u, n) > Gap(a, s, n) ==> Gap(a, v, n) <= Gap(a, u, n)
    ensures v == a ==> Gap(a, u, n) <= Gap(a, s, n)
    ensures v != a ==> Gap(a, v, n) > Gap(a, s, n)
    ensures Ahead(s, v, n) < Ahead(s, u, n) ==> Ahead(v, u, n) < Ahead(s, u, n)
  {
  }

  lemma HopFacts(k: Kernel, s: nat)
    requires Walkable(k) && s < |k.slots| && Live(k.slots[s])
    ensures 0 <= Hop(k.slots, s) < |k.slots| && Live(k.slots[Hop(k.slots, s)])
    ensures forall u :: 0 <= u < |k.slots| && Live(k.slots[u]) ==>
              Ahead(s, Hop(k.slots, s), |k.slots|) <= Ahead(s, u, |k.slots|)
  {
    assert LinkOk(k.slots, s);
  }

  /** An iteration inside a lap: the task it stops at is the one to pick, and otherwise nothing was missed. */
  lemma AdvanceWithin(k: Kernel, w: Walk)
    requires Walkable(k) && Passed(k, w) && Hop(k.slots, w.slot) != k.current
    ensures Advance(k, w).At?
    ensures Leaves(k, Advance(k, w)) ==> Picked(k, Advance(k, w).slot, Advance(k, w).level)
    ensures !Leaves(k, Advance(k, w)) ==> Passed(k, Advance(k, w))
  {
    var n, s := |k.slots|, w.slot;
    HopFacts(k, s);
    var v := Hop(k.slots, s);
    if w.lptr == k.lstash - 1 {
      forall u | Rival(k, u) ensures Ahead(k.next, v, n) <= Ahead(k.next, u, n) {
        HopGap(k.next, s, v, u, n);
      }
      if Leaves(k, At(v, w.lptr, w.level)) {
        assert Rival(k, v);
      } else {
        forall u | Rival(k, u) ensures Ahead(k.next, u, n) > Gap(k.next, v, n) {
          assert u != v;
        }
      }
    } else {
      forall u | Ready(k, u, w.level) ensures Gap(k.current, v, n) <= Gap(k.current, u, n) {
        HopGap(k.current, s, v, u, n);
      }
    }
  }

  /** An iteration that comes round to the current task: the walk drops to the next listed level, or off the list. */
  lemma AdvanceRound(k: Kernel, w: Walk)
    requires Walkable(k) && Passed(k, w) && Hop(k.slots, w.slot) == k.current
    ensures (forall u :: !Rival(k, u)) && Live(k.slots[k.current])
    ensures w.lptr == 0 ==> Advance(k, w) == OutOfRange && !Selectable(k)
    ensures w.lptr > 0 ==> Advance(k, w).At? && Advance(k, w).lptr == w.lptr - 1
    ensures Leaves(k, Advance(k, w)) ==> Picked(k, Advance(k, w).slot, Advance(k, w).level)
    ensures Advance(k, w).At? && !Leaves(k, Advance(k, w)) ==> Passed(k, Advance(k, w))
  {
    var n, s, c := |k.slots|, w.slot, k.current;
    HopFacts(k, s);
    forall u ensures !Rival(k, u) {
      if Rival(k, u) {
        HopGap(c, s, c, u, n);
      }
    }
    if w.lptr < k.lstash - 1 {
      forall u ensures !Ready(k, u, w.level) {
        if Ready(k, u, w.level) {
          HopGap(c, s, c, u, n);
        }
      }
    }
    assert Below(k, w.lptr - 1) ==> NoneAbove(k, w.lptr - 1);
    if w.lptr == 0 {
      forall u, m | Below(k, m) ensures !Ready(k, u, k.stash[m]) {
      }
    }
  }

  /** While the loop goes on, what it has passed stays ruled out; when it ends it has the task to pick. */
  lemma {:induction false} IteratePassed(k: Kernel, m: nat)
    requires Walkable(k) && forall j :: 0 < j < m ==> !Leaves(k, Iterate(k, j))
    ensures m > 0 && Leaves(k, Iterate(k, m)) ==> Picked(k, Iterate(k, m).slot, Iterate(k, m).level)
    ensures m == 0 || !Leaves(k, Iterate(k, m)) ==>
              Passed(k, Iterate(k, m)) || (Iterate(k, m).OutOfRange? && !Selectable(k))
  {
    if m == 0 {
      StartPassed(k);
    } else {
      IteratePassed(k, m - 1);
      var w := Iterate(k, m - 1);
      assert m - 1 > 0 ==> !Leaves(k, w);
      if Passed(k, w) {
        if Hop(k.slots, w.slot) == k.current { AdvanceRound(k, w); } else { AdvanceWithin(k, w); }
      }
    }
  }

  lemma PickedIsSelectable(k: Kernel, t: int, level: nat)
    requires Walkable(k) && Picked(k, t, level)
    ensures Selectable(k)
  {
    if !exists u :: Rival(k, u) {
      var m :| Below(k, m) && k.stash[m] == level && NoneAbove(k, m);
      assert Ready(k, t, k.stash[m]);
    }
  }

  /** The measure under which the loop terminates: the listed level, then the ring distance left. */
  ghost function Left(k: Kernel, w: Walk, goal: int): int
    requires w.At? && k.current < |k.slots|
  {
    if Live(k.slots[k.current]) then |k.slots| - Gap(k.current, w.slot, |k.slots|)
    else Ahead(w.slot, goal, |k.slots|)
  }

  lemma AdvanceDecreases(k: Kernel, w: Walk, goal: int)
    requires Walkable(k) && Passed(k, w) && Advance(k, w).At? && !Leaves(k, Advance(k, w))
    requires !Live(k.slots[k.current]) ==> Rival(k, goal)
    ensures Advance(k, w).lptr <= w.lptr
    ensures Advance(k, w).lptr == w.lptr ==> 0 <= Left(k, Advance(k, w), goal) < Left(k, w, goal)
  {
    HopFacts(k, w.slot);
    if Live(k.slots[k.current]) {
      HopGap(k.current, w.slot, Hop(k.slots, w.slot), k.current, |k.slots|);
    } else {
      HopGap(k.next, w.slot, Hop(k.slots, w.slot), goal, |k.slots|);
      if w.lptr < k.lstash - 1 { assert false; }
    }
  }

  /** From any point the walk has reached, it goes on to an end if something can be selected. */
  lemma {:induction false} WalkEnds(k: Kernel, m: nat, goal: int) returns (r: nat)
    requires Walkable(k) && Selectable(k) && Passed(k, Iterate(k, m))
    requires forall j :: 0 < j < m ==> !Leaves(k, Iterate(k, j))
    requires m > 0 ==> !Leaves(k, Iterate(k, m))
    requires !Live(k.slots[k.current]) ==> Rival(k, goal)
    ensures EndsAt(k, r)
    decreases Iterate(k, m).lptr, Left(k, Iterate(k, m), goal)
  {
    var w := Iterate(k, m);
    if Hop(k.slots, w.slot) == k.current { AdvanceRound(k, w); } else { AdvanceWithin(k, w); }
    r := m + 1;
    if !Leaves(k, Iterate(k, r)) {
      AdvanceDecreases(k, w, goal);
      r := WalkEnds(k, r, goal);
    }
  }

  /** The loop has no bound of its own. It ends, without reading outside the stash, if and only if something can be
      selected, and then on the task described by `Picked`. */
  lemma SelectionEnds(k: Kernel)
    requires Walkable(k)
    ensures (exists m :: EndsAt(k, m)) <==> Selectable(k)
    ensures forall m :: EndsAt(k, m) ==> Picked(k, Iterate(k, m).slot, Iterate(k, m).level)
  {
    forall m | EndsAt(k, m)
      ensures Picked(k, Iterate(k, m).slot, Iterate(k, m).level) && Selectable(k)
    {
      IteratePassed(k, m);
      PickedIsSelectable(k, Iterate(k, m).slot, Iterate(k, m).level);
    }
    if Selectable(k) {
      StartPassed(k);
      var goal := if exists u :: Rival(k, u) then (var u :| Rival(k, u); u) else 0;
      var m := WalkEnds(k, 0, goal);
    }
  }

  /** A runnable base task below another listed level is enough, and so is a runnable task above the user range. */
  lemma BaseSuffices(k: Kernel)
    requires Walkable(k) && Live(k.slots[k.current])
    requires (k.lstash >= 2 && Ready(k, 0, 0)) || exists u :: Rival(k, u)
    ensures Selectable(k)
  {
    if !exists u :: Rival(k, u) {
      assert Below(k, 0) && Ready(k, 0, k.stash[0]);
    }
  }

  /** With the base task alone and running, the loop leaves the stash at its first iteration. */
  lemma BaseAloneFails(k: Kernel)
    requires Walkable(k) && k.lstash == 1 && k.current == 0 && k.next == 0
    requires forall u :: 0 < u < |k.slots| ==> !Live(k.slots[u])
    ensures Iterate(k, 1) == OutOfRange && !Selectable(k)
  {
    HopFacts(k, 0);
  }

  // ----- priority order

  /** Another runnable task is left waiting although its priority is strictly higher than the selected one's. */
  ghost predicate Inverted(k: Kernel, t: int) {
    0 <= t < |k.slots| && exists u :: u != k.current && 0 <= u < |k.slots| && k.slots[u].state == Sleep
                                      && k.slots[u].prio > k.slots[t].prio
  }

  /** The levels the walk can consider are the top level and every listed level but the last one. Live user levels are
      listed, and none is above the last; promoted tasks run above all of them. */
  ghost predicate LevelsCover(k: Kernel) {
    && k.lstash <= |k.stash|
    && (forall i :: 0 <= i < k.lstash ==> k.stash[i] <= 127)
    && forall u :: 0 <= u < |k.slots| && Live(k.slots[u]) ==>
      k.slots[u].prio <= k.maxLevel && (k.slots[u].prio > 127 || k.slots[u].prio in k.stash[..k.lstash])
  }

  /** A runnable task that no lap considers: below the top level, yet not below the last listed level. */
  ghost predicate Skipped(k: Kernel, u: int) {
    && u != k.current && 0 <= u < |k.slots| && k.slots[u].state == Sleep && k.slots[u].prio < k.maxLevel
    && (k.lstash < 2 || k.lstash > |k.stash| || k.slots[u].prio > k.stash[k.lstash - 2])
  }

  /** A runnable task at a level the laps consider is not above the level they settle on. */
  lemma ConsideredIsBelow(k: Kernel, m: int, u: int)
    requires Walkable(k) && LevelsCover(k) && Below(k, m) && NoneAbove(k, m)
    requires 0 <= u < |k.slots| && k.slots[u].state == Sleep && k.slots[u].prio <= k.stash[k.lstash - 2]
    ensures k.slots[u].prio <= k.stash[m]
  {
    var x :| 0 <= x < k.lstash && k.stash[..k.lstash][x] == k.slots[u].prio;
    assert Below(k, x) && Ready(k, u, k.stash[x]);
  }

  lemma SkippedOutranks(k: Kernel, t: int, level: nat, u: int)
    requires Walkable(k) && Picked(k, t, level) && Skipped(k, u) && !exists v :: Rival(k, v)
    ensures k.slots[u].prio > k.slots[t].prio
  {
    var m :| Below(k, m) && k.stash[m] == level && NoneAbove(k, m);
    assert m < k.lstash - 2 ==> k.stash[m] < k.stash[k.lstash - 2];
  }

  lemma OutrankedIsSkipped(k: Kernel, t: int, level: nat, u: int)
    requires Walkable(k) && Picked(k, t, level) && LevelsCover(k) && !exists v :: Rival(k, v)
    requires u != k.current && 0 <= u < |k.slots| && k.slots[u].state == Sleep && k.slots[u].prio > k.slots[t].prio
    ensures Skipped(k, u)
  {
    var m :| Below(k, m) && k.stash[m] == level && NoneAbove(k, m);
    assert !Rival(k, u);
    if k.slots[u].prio <= k.stash[k.lstash - 2] {
      ConsideredIsBelow(k, m, u);
    }
  }

  /** The selected task outranks every other runnable one, if and only if some other task is runnable at the top level
      or no runnable task falls between the top level and the last-but-one listed level. */
  lemma NoInversion(k: Kernel, t: int, level: nat)
    requires Walkable(k) && Picked(k, t, level) && LevelsCover(k)
    ensures !Inverted(k, t) <==> (exists u :: Rival(k, u)) || (forall u :: !Skipped(k, u))
  {
    if !exists u :: Rival(k, u) {
      if Inverted(k, t) {
        var u :| u != k.current && 0 <= u < |k.slots| && k.slots[u].state == Sleep && k.slots[u].prio > k.slots[t].prio;
        OutrankedIsSkipped(k, t, level, u);
      }
      if u :| Skipped(k, u) {
        SkippedOutranks(k, t, level, u);
      }
    }
  }
}
