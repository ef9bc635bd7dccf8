/** Hibernation from the service to the wake-up: which scheduling wakes a hibernating task, over one sweep, one step and
    whole runs. The condition is written out here, apart from the one the scheduler evaluates. */
module Wakeups {
  import opened Slots
  import opened Services
  import opened Scheduler
  import opened Invariant
  import opened Transitions
  import opened Runs
  import opened Held
  import opened Fields

  // ----- one sweep

  /** A task waits for the first operand to be at least the hibernation value above the second, or at most, counted
      upwards from the second operand in 32 bits. The sweep makes it runnable if and only if that is so, and changes
      nothing else of any slot. */
  lemma SweepWakesExactly(k: Kernel, mem: Memory, u: nat)
    requires u < |k.slots|
    ensures var s, r := k.slots[u], Swept(k, mem).slots[u];
            var x, y := mem(s.op1), mem(s.op2);
            var d := if x >= y then x - y else x + 0x1_0000_0000 - y;
            && r == s.(state := r.state)
            && (s.state == HibernateG ==> r.state == if d >= s.hib then Sleep else HibernateG)
            && (s.state == HibernateL ==> r.state == if d <= s.hib then Sleep else HibernateL)
            && (s.state != HibernateG && s.state != HibernateL ==> r == s)
  {
    assert Swept(k, mem).slots[u] == Wake(k.slots[u], mem);
  }

  // ----- one step

  /** What a hibernation waits for, given the two operands. */
  predicate Met(reverse: bool, x: nat, y: nat, value: nat) {
    var d := if x >= y then x - y else x + 0x1_0000_0000 - y;
    if reverse then d <= value else d >= value
  }

  predicate Waits(s: Slot, reverse: bool, op1: nat, op2: nat, value: nat) {
    s.state == (if reverse then HibernateL else HibernateG) && s.op1 == op1 && s.op2 == op2 && s.hib == value
  }

  predicate Awoken(s: Slot) {
    s.state == Sleep || s.state == Active
  }

  /** What ends the hibernation of slot u: a kill, or a scheduling that finds the condition met. */
  predicate Rouses(k: Kernel, e: Event, mem: Memory, u: nat, reverse: bool, op1: nat, op2: nat, value: nat)
    requires k.current < |k.slots|
  {
    e == Kill(u) || (Reschedules(k, e) && Met(reverse, mem(op1), mem(op2), value))
  }

  lemma ScheduledWaiter(m: Kernel, mem: Memory, r: Kernel, u: nat, reverse: bool, op1: nat, op2: nat, value: nat)
    requires m.current < |m.slots| && Scheduled(m, mem, r) && u < |m.slots|
    requires Waits(m.slots[u], reverse, op1, op2, value) && (u == m.current ==> !m.normal)
    ensures |r.slots| == |m.slots|
    ensures if Met(reverse, mem(op1), mem(op2), value) then Awoken(r.slots[u])
            else Waits(r.slots[u], reverse, op1, op2, value)
  {
    hide Picked, Swept;
    var q, p := Prepared(m), Awake(m, mem);
    assert q.slots[u] == m.slots[u];
    assert |p.slots| == |q.slots| by { SweptLength(q, mem); }
    SweepWakesExactly(q, mem, u);
    var t: nat, level: nat :| t < |p.slots| && Picked(p, t, level) && r == Resumed(p, t, level);
    PickSleeps(p, t, level);
  }

  lemma SweptLength(k: Kernel, mem: Memory)
    ensures |Swept(k, mem).slots| == |k.slots|
  {
  }

  /** A hibernation followed by its scheduling: the caller still waits, in the direction it asked for, with the operands
      and the value it gave, if and only if its condition does not hold already. */
  lemma HibernatesUnlessMet(k: Kernel, st: seq<nat>, e: Event, mem: Memory, r: Kernel)
    requires Inv(k, st) && e.Hibernate? && Step(k, e, mem, r)
    ensures |r.slots| == |k.slots|
    ensures if Met(e.reverse, mem(e.op1), mem(e.op2), e.value) then Awoken(r.slots[k.current])
            else Waits(r.slots[k.current], e.reverse, e.op1, e.op2, e.value)
  {
    hide Core, Scheduled;
    ScheduledWaiter(Effect(k, e), mem, r, k.current, e.reverse, e.op1, e.op2, e.value);
  }

  /** The value slot u waits for after the event, if it was `value` before. */
  function ValueAfter(k: Kernel, e: Event, u: nat, value: nat): nat {
    if AnswersTo(k, e, u) then e.error else value
  }

  /** No service but a kill of the task itself touches what another task waits for, except that the base task's release
      puts its error in place of the value of the slot whose id invoked it. */
  lemma EffectWaiter(k: Kernel, st: seq<nat>, e: Event, u: nat, reverse: bool, op1: nat, op2: nat, value: nat)
    requires Inv(k, st) && Settled(k) && Allowed(k, e) && u < |k.slots| && u != k.current
    requires Waits(k.slots[u], reverse, op1, op2, value) && e != Kill(u)
    ensures |Effect(k, e).slots| == |k.slots|
    ensures Waits(Effect(k, e).slots[u], reverse, op1, op2, ValueAfter(k, e, u, value))
  {
    hide Core, Created, Killed, CanKill, CanCreate, Stepped, Released, WithId;
    match e
    case Create(t) =>
      if Admission(k, t) == NoError { CreatedFields(k, st, t, u); }
    case Kill(i) => KilledFields(k, i, false, u);
    case End => EndedFields(k, u);
    case Demote => SteppedWaiter(k, u);
    case Release(v) =>
      ReleasedFields(k, v, u);
      SteppedWaiter(Released(k, v).0, u);
    case _ =>
  }

  lemma SteppedWaiter(k: Kernel, u: nat)
    requires k.current < |k.slots| && u < |k.slots| && u != k.current && k.slots[u].state != Hold
    ensures |Stepped(k).slots| == |k.slots| && Stepped(k).slots[u] == k.slots[u]
  {
  }

  /** One step of anybody else: a waiting task waits on if and only if it is neither killed nor found to have its
      condition met by the scheduling; if it is found so, it is runnable or running. */
  lemma WaitsUnlessRoused(k: Kernel, st: seq<nat>, e: Event, mem: Memory, r: Kernel, u: nat, reverse: bool, op1: nat,
      op2: nat, value: nat)
    requires Inv(k, st) && Step(k, e, mem, r) && u < |k.slots| && u != k.current
    requires Waits(k.slots[u], reverse, op1, op2, value)
    ensures |r.slots| == |k.slots|
    ensures var after := ValueAfter(k, e, u, value);
            if e == Kill(u) then r.slots[u].state == Idle
            else if Rouses(k, e, mem, u, reverse, op1, op2, after) then Awoken(r.slots[u])
            else Waits(r.slots[u], reverse, op1, op2, after)
  {
    hide Core, Effect, Scheduled, Allowed;
    if e == Kill(u) {
      KillRouses(k, st, u);
    } else {
      EffectWaiter(k, st, e, u, reverse, op1, op2, value);
      if Reschedules(k, e) {
        NormalRuns(k, e);
        ScheduledWaiter(Effect(k, e), mem, r, u, reverse, op1, op2, ValueAfter(k, e, u, value));
      }
    }
  }

  lemma KillRouses(k: Kernel, st: seq<nat>, u: nat)
    requires Inv(k, st) && Settled(k) && Allowed(k, Kill(u))
    ensures |Effect(k, Kill(u)).slots| == |k.slots| && Effect(k, Kill(u)).slots[u].state == Idle
  {
    hide Core, Killed;
    KilledSlots(k, u, false);
  }

  // ----- runs

  /** What slot u waits for after the events i to j - 1: the error of the last release that answered it, or else the
      given value. */
  function ValueAt(ks: seq<Kernel>, es: seq<Event>, u: nat, value: nat, i: nat, j: nat): nat
    requires i <= j <= |es| < |ks|
    decreases j
  {
    if i == j then value else ValueAfter(ks[j - 1], es[j - 1], u, ValueAt(ks, es, u, value, i, j - 1))
  }

  /** Slot u waits for what the hibernation at event i asked for. */
  ghost predicate StillWaits(ks: seq<Kernel>, es: seq<Event>, i: nat, y: nat)
    requires i <= y <= |es| < |ks| && i < |es| && es[i].Hibernate?
  {
    var e, u := es[i], ks[i].current;
    u < |ks[y].slots| && Waits(ks[y].slots[u], e.reverse, e.op1, e.op2, ValueAt(ks, es, u, e.value, i, y))
  }

  /** Event x ends the hibernation begun at event i. */
  ghost predicate RousedAt(ks: seq<Kernel>, es: seq<Event>, ms: seq<Memory>, i: nat, x: nat)
    requires i <= x < |es| == |ms| < |ks| && es[i].Hibernate? && ks[x].current < |ks[x].slots|
  {
    var e, u := es[i], ks[i].current;
    Rouses(ks[x], es[x], ms[x], u, e.reverse, e.op1, e.op2, ValueAt(ks, es, u, e.value, i, x + 1))
  }

  /** Over every run a task that hibernates at event i waits on exactly until the first event that kills it or whose
      scheduling finds its condition met, its own first scheduling included. */
  lemma {:induction false} WaitsUntilRoused(ks: seq<Kernel>, sts: seq<seq<nat>>, es: seq<Event>, ms: seq<Memory>,
      i: nat, j: nat)
    requires Run(ks, sts, es, ms) && Inv(ks[0], sts[0]) && i < j <= |es| && es[i].Hibernate?
    ensures forall x :: i <= x < j ==> ks[x].current < |ks[x].slots|
    ensures (forall y :: i < y <= j ==> StillWaits(ks, es, i, y)) <==>
            (forall x :: i <= x < j ==> !RousedAt(ks, es, ms, i, x))
    decreases j
  {
    hide Inv, Step, Waits;
    var x := j - 1;
    RunKeeps(ks, sts, es, ms, x);
    InTable(ks[x], sts[x]);
    if i == x {
      FirstWait(ks, sts, es, ms, i);
    } else {
      WaitsUntilRoused(ks, sts, es, ms, i, x);
      if forall y :: i < y <= x ==> StillWaits(ks, es, i, y) {
        assert StillWaits(ks, es, i, x);
        NextWait(ks, sts, es, ms, i, x);
      }
    }
  }

  lemma FirstWait(ks: seq<Kernel>, sts: seq<seq<nat>>, es: seq<Event>, ms: seq<Memory>, i: nat)
    requires Run(ks, sts, es, ms) && i < |es| && Inv(ks[i], sts[i]) && es[i].Hibernate?
    requires ks[i].current < |ks[i].slots|
    ensures StillWaits(ks, es, i, i + 1) <==> !RousedAt(ks, es, ms, i, i)
  {
    hide Inv, Step;
    assert Move(ks[i], sts[i], es[i], ms[i], ks[i + 1], sts[i + 1]);
    var e, u := es[i], ks[i].current;
    HibernatesUnlessMet(ks[i], sts[i], e, ms[i], ks[i + 1]);
    assert ValueAt(ks, es, u, e.value, i, i + 1) == ValueAt(ks, es, u, e.value, i, i) == e.value;
  }

  lemma NextWait(ks: seq<Kernel>, sts: seq<seq<nat>>, es: seq<Event>, ms: seq<Memory>, i: nat, x: nat)
    requires Run(ks, sts, es, ms) && i < x < |es| && Inv(ks[x], sts[x]) && es[i].Hibernate?
    requires StillWaits(ks, es, i, x) && ks[x].current < |ks[x].slots|
    ensures StillWaits(ks, es, i, x + 1) <==> !RousedAt(ks, es, ms, i, x)
  {
    hide Inv, Step;
    assert Move(ks[x], sts[x], es[x], ms[x], ks[x + 1], sts[x + 1]);
    var e, u := es[i], ks[i].current;
    var value := ValueAt(ks, es, u, e.value, i, x);
    NotRunning(ks[x], sts[x], u);
    WaitsUnlessRoused(ks[x], sts[x], es[x], ms[x], ks[x + 1], u, e.reverse, e.op1, e.op2, value);
    assert ValueAt(ks, es, u, e.value, i, x + 1) == ValueAfter(ks[x], es[x], u, value);
  }

  lemma InTable(k: Kernel, st: seq<nat>)
    requires Inv(k, st)
    ensures k.current < |k.slots|
  {
  }

  lemma NotRunning(k: Kernel, st: seq<nat>, u: nat)
    requires Inv(k, st) && u < |k.slots| && k.slots[u].state != Active
    ensures u != k.current
  {
  }
}
