/** `alc` and `hlc` taken apart: without kills and promotions they are exactly the tasks awake and hibernating at the
    top level, through creation, hibernation and the wake-up sweep. */
module Counters {
  import opened Slots
  import opened JumpList
  import opened LevelStash
  import opened Services
  import opened Scheduler
  import opened Invariant
  import opened Transitions
  import opened Runs
  import opened Boot

  predicate Dozing(s: Slot) {
    s.state == HibernateG || s.state == HibernateL
  }

  function DozingAt(level: nat): Slot -> bool {
    (s: Slot) => Dozing(s) && s.prio == level
  }

  function UpAt(level: nat): Slot -> bool {
    (s: Slot) => Live(s) && !Dozing(s) && s.prio == level
  }

  ghost predicate Tallied(k: Kernel) {
    && k.alc == Count(k.slots, UpAt(k.maxLevel)) && k.hlc == Count(k.slots, DozingAt(k.maxLevel))
    && |k.slots| <= 127
  }

  lemma {:induction false} UpAndDozing(t: seq<Slot>, level: nat)
    ensures Count(t, UpAt(level)) + Count(t, DozingAt(level)) <= |t|
  {
    if |t| > 0 {
      UpAndDozing(t[..|t| - 1], level);
    }
  }

  // ----- changes that move no task between the two counts

  /** Awake tasks stay awake, hibernating ones stay asleep, at the same priorities. */
  ghost predicate SameWaking(k: Kernel, r: Kernel) {
    && |r.slots| == |k.slots| && r.maxLevel == k.maxLevel && r.alc == k.alc && r.hlc == k.hlc
    && forall i :: 0 <= i < |k.slots| ==>
         && (Live(k.slots[i]) <==> Live(r.slots[i])) && (Dozing(k.slots[i]) <==> Dozing(r.slots[i]))
         && k.slots[i].prio == r.slots[i].prio
  }

  lemma SameTallied(k: Kernel, r: Kernel)
    requires Tallied(k) && SameWaking(k, r)
    ensures Tallied(r)
  {
    SameCount(k.slots, r.slots, UpAt(k.maxLevel));
    SameCount(k.slots, r.slots, DozingAt(k.maxLevel));
  }

  // ----- creation

  lemma CreatedCounters(k: Kernel, t: Task)
    requires CanCreate(k, t) && Ring(k.slots) && k.alc + k.hlc <= 127
    requires forall u :: 0 <= u < |k.slots| && Live(k.slots[u]) ==> k.slots[u].prio <= k.maxLevel
    ensures var r := Created(k, t);
            if t.prio > k.maxLevel then r.maxLevel == t.prio && r.alc == 1 && r.hlc == 0
            else r.maxLevel == k.maxLevel && r.alc == k.alc + Bit(t.prio == k.maxLevel) && r.hlc == k.hlc
  {
    hide Ring, Misplaced, Sorted;
    var i := FirstIdle(k.slots);
    CreatedTop(k, t, i);
    HibernateBitNeverSet(Created(k, t).slots[i].state);
  }

  lemma CreatedDozing(k: Kernel, t: Task, level: nat)
    requires CanCreate(k, t) && Ring(k.slots)
    ensures Count(Created(k, t).slots, UpAt(level)) == Count(k.slots, UpAt(level)) + Bit(t.prio == level)
    ensures Count(Created(k, t).slots, DozingAt(level)) == Count(k.slots, DozingAt(level))
  {
    hide Ring, Misplaced, Sorted;
    var i := FirstIdle(k.slots);
    CreatedSlots(k, t, i);
    LinkedCount(k.slots, i, NewSlot(k, i, t), UpAt(level));
    LinkedCount(k.slots, i, NewSlot(k, i, t), DozingAt(level));
  }

  lemma CreateTallied(k: Kernel, st: seq<nat>, t: Task)
    requires Core(k, st) && CanCreate(k, t) && Tallied(k)
    ensures Tallied(Created(k, t))
  {
    hide Counted, Named, Stacked, Misplaced, Created;
    LiveBelowTop(k, st);
    UpAndDozing(k.slots, k.maxLevel);
    CreatedCounters(k, t);
    CreatedSlots(k, t, FirstIdle(k.slots));
    CreatedDozing(k, t, Created(k, t).maxLevel);
    if t.prio > k.maxLevel {
      NobodyAbove(k, t.prio);
    }
  }

  lemma NobodyAbove(k: Kernel, level: nat)
    requires level > k.maxLevel && forall u :: 0 <= u < |k.slots| && Live(k.slots[u]) ==> k.slots[u].prio <= k.maxLevel
    ensures Count(k.slots, UpAt(level)) == 0 && Count(k.slots, DozingAt(level)) == 0
  {
    forall u | 0 <= u < |k.slots| ensures !UpAt(level)(k.slots[u]) && !DozingAt(level)(k.slots[u]) {
      assert Live(k.slots[u]) ==> k.slots[u].prio < level;
    }
    CountPositive(k.slots, UpAt(level));
    CountPositive(k.slots, DozingAt(level));
  }

  // ----- hibernation

  lemma HibernateTallied(k: Kernel, reverse: bool, op1: nat, op2: nat, value: nat)
    requires Tallied(k) && Running(k)
    ensures Tallied(Hibernated(k, reverse, op1, op2, value))
  {
    var r := Hibernated(k, reverse, op1, op2, value);
    var c := k.current;
    CountUpdate(k.slots, c, r.slots[c], UpAt(k.maxLevel));
    CountUpdate(k.slots, c, r.slots[c], DozingAt(k.maxLevel));
    UpAndDozing(k.slots, k.maxLevel);
  }

  // ----- the sweep

  lemma {:induction false} WakeCounts(t: seq<Slot>, level: nat, mem: Memory)
    ensures Count(WakeAll(t, mem), UpAt(level)) == Count(t, UpAt(level)) + Count(t, DueAt(level, mem))
    ensures Count(WakeAll(t, mem), DozingAt(level)) + Count(t, DueAt(level, mem)) == Count(t, DozingAt(level))
  {
    if |t| > 0 {
      var m := |t| - 1;
      assert WakeAll(t, mem)[..m] == WakeAll(t[..m], mem);
      WakeCounts(t[..m], level, mem);
    }
  }

  lemma SweepTallied(k: Kernel, mem: Memory)
    requires Tallied(k)
    ensures Tallied(Swept(k, mem))
  {
    WakeCounts(k.slots, k.maxLevel, mem);
    UpAndDozing(k.slots, k.maxLevel);
    UpAndDozing(WakeAll(k.slots, mem), k.maxLevel);
  }

  /** After the sweep no task still hibernates whose condition holds: the difference of its operands, counted upwards
      from the second in 32 bits, has not reached its value, or is still beyond it. Nobody else was touched. */
  lemma SweepLeavesNoneDue(k: Kernel, mem: Memory, u: nat)
    requires u < |k.slots|
    ensures var s, r := k.slots[u], Swept(k, mem).slots[u];
            var x, y := mem(r.op1), mem(r.op2);
            var d := if x >= y then x - y else x + 0x1_0000_0000 - y;
            && (r.state == HibernateG ==> d < r.hib) && (r.state == HibernateL ==> d > r.hib)
            && (r.state == s.state || (Dozing(s) && r.state == Sleep)) && r == s.(state := r.state)
  {
    assert Swept(k, mem).slots[u] == Wake(k.slots[u], mem);
  }

  lemma ScheduledTallied(k: Kernel, mem: Memory, r: Kernel)
    requires SmallFields(k) && Between(k) && Tallied(k) && Scheduled(k, mem, r)
    requires k.normal ==> k.slots[k.current].state == Active
    ensures Tallied(r)
  {
    hide Picked, Tallied, Swept, Byte, SmallFields;
    var q := Prepared(k);
    SameTallied(k, q);
    SweepTallied(q, mem);
    var p := Awake(k, mem);
    var t: nat, level: nat :| t < |p.slots| && Picked(p, t, level) && r == Resumed(p, t, level);
    PickSleeps(p, t, level);
    SameTallied(p, r);
  }

  /** Neither a kill nor a promotion nor a demotion. */
  ghost predicate Steady(k: Kernel, e: Event) {
    k.current < |k.slots| && !e.Kill? && !e.End? && !Pushes(k, e) && !Pops(k, e)
  }

  lemma HandOverTallied(k: Kernel)
    requires Tallied(k) && k.current < |k.slots| && Live(k.slots[k.current]) && !Dozing(k.slots[k.current])
    ensures Tallied(HandedOver(k))
  {
    hide Tallied;
    SameTallied(k, HandedOver(k));
  }

  /** Along all other events the two counters stay exact. */
  lemma StepTallied(k: Kernel, st: seq<nat>, e: Event, mem: Memory, r: Kernel)
    requires Inv(k, st) && !InPromotion(k) && Tallied(k) && Step(k, e, mem, r) && Steady(k, e)
    ensures Tallied(r)
  {
    hide Core, Tallied, Scheduled, Between, CanCreate, Created, WithId, Stacked;
    CoreFacts(k, st);
    if Reschedules(k, e) {
      EffectEnds(k, st, e);
      CoreFacts(Effect(k, e), StackAfter(k, st, e));
      if e.Hibernate? {
        HibernateTallied(k, e.reverse, e.op1, e.op2, e.value);
      } else if e.HandOver? {
        HandOverTallied(k);
      }
      ScheduledTallied(Effect(k, e), mem, r);
    } else if e.Create? {
      if Admission(k, e.task) == NoError {
        CreateTallied(k, st, e.task);
      }
    } else if e.Grant? {
      QuietGrant(k, e.id, e.permission);
      SameTallied(k, Granted(k, e.id, e.permission).0);
    } else if e.Disturb? {
      SameTallied(k, Disturbed(k, e.byte));
    }
  }

  /** On every run without kills, promotions and demotions that starts with exact counters and nothing promoted, they
      are exact in every state. */
  lemma {:induction false} RunTallied(ks: seq<Kernel>, sts: seq<seq<nat>>, es: seq<Event>, ms: seq<Memory>, i: nat)
    requires Run(ks, sts, es, ms) && Inv(ks[0], []) && sts[0] == [] && Tallied(ks[0]) && i <= |es|
    requires forall j :: 0 <= j < i ==> Steady(ks[j], es[j])
    ensures Tallied(ks[i]) && sts[i] == []
  {
    hide Inv, Tallied, Step, Pushes, Pops;
    if i > 0 {
      RunTallied(ks, sts, es, ms, i - 1);
      RunKeeps(ks, sts, es, ms, i - 1);
      NotPromoted(ks[i - 1]);
      assert Move(ks[i - 1], sts[i - 1], es[i - 1], ms[i - 1], ks[i], sts[i]);
      StepTallied(ks[i - 1], [], es[i - 1], ms[i - 1], ks[i]);
    }
  }

  lemma NotPromoted(k: Kernel)
    requires Inv(k, [])
    ensures !InPromotion(k)
  {
  }

  // ----- the start

  lemma BaseTallied(n: nat, addr: nat, byte: nat)
    requires 2 <= n <= 127
    ensures Tallied(BaseCreated(n, addr, byte))
  {
    hide BaseCreated;
    BaseSlots(n, addr, byte);
    var k := BaseCreated(n, addr, byte);
    OnlyBaseUp(k.slots);
    forall u | 0 <= u < |k.slots| ensures !DozingAt(0)(k.slots[u]) {
      assert u == 0 || k.slots[u].state == Idle;
    }
    CountPositive(k.slots, DozingAt(0));
  }

  lemma {:induction false} OnlyBaseUp(t: seq<Slot>)
    requires |t| > 0 && UpAt(0)(t[0]) && forall u :: 0 < u < |t| ==> !UpAt(0)(t[u])
    ensures Count(t, UpAt(0)) == 1
  {
    if |t| > 1 {
      OnlyBaseUp(t[..|t| - 1]);
    }
  }

  lemma CreateWaitsTallied(k: Kernel, t: Task)
    requires Waiting(k) && CanCreate(Primed(k), t) && Tallied(k)
    ensures Shaped(k) && Searchable(k) && Admission(k, t) == NoError && Tallied(Created(k, t))
  {
    hide Created, CanCreate, Tallied;
    PrimedCommutes(k, t);
    SameTallied(k, Primed(k));
    CreateTallied(Primed(k), [], t);
    SameTallied(Primed(Created(k, t)), Created(k, t));
  }

  lemma {:induction false} BootTallied(n: nat, addr: nat, byte: nat, ts: seq<Task>, boot: seq<Kernel>, i: nat)
    requires 2 <= n <= 127 && addr != 0 && BootChain(n, addr, byte, ts, boot) && i <= |ts|
    ensures Tallied(boot[i])
  {
    hide Waiting, CanCreate, Tallied, Created;
    if i == 0 {
      BaseTallied(n, addr, byte);
    } else {
      BootTallied(n, addr, byte, ts, boot, i - 1);
      AllWait(n, addr, byte, ts, boot, i - 1);
      assert CreatedNext(boot[i - 1], ts[i - 1], boot[i]);
      CreateWaitsTallied(boot[i - 1], ts[i - 1]);
      SameTallied(Created(boot[i - 1], ts[i - 1]), boot[i]);
    }
  }

  lemma StartTallied(k: Kernel, mem: Memory, r: Kernel)
    requires Waiting(k) && Tallied(k) && k.slots[0].state == Sleep && Scheduled(HandedOver(Started(k)), mem, r)
    ensures Tallied(r)
  {
    hide Core, Scheduled, SameTasks, Tallied;
    CoreFacts(Primed(k), []);
    CoreBase(Primed(k), []);
    StartBetween(k);
    SameTallied(k, Started(k));
    HandOverTallied(Started(k));
    ScheduledTallied(HandedOver(Started(k)), mem, r);
  }

  /** The base task sleeps until the start. */
  lemma {:induction false} BaseSleeps(n: nat, addr: nat, byte: nat, ts: seq<Task>, boot: seq<Kernel>, i: nat)
    requires 2 <= n <= 127 && addr != 0 && BootChain(n, addr, byte, ts, boot) && i <= |ts|
    ensures |boot[i].slots| > 0 && boot[i].slots[0].state == Sleep
  {
    hide Waiting, CanCreate, Created;
    if i == 0 {
      BaseSlots(n, addr, byte);
    } else {
      BaseSleeps(n, addr, byte, ts, boot, i - 1);
      AllWait(n, addr, byte, ts, boot, i - 1);
      assert CreatedNext(boot[i - 1], ts[i - 1], boot[i]);
      CreatedKeepsBase(boot[i - 1], ts[i - 1]);
    }
  }

  lemma CreatedKeepsBase(k: Kernel, t: Task)
    requires Waiting(k) && CanCreate(Primed(k), t)
    ensures Shaped(k) && Searchable(k) && Admission(k, t) == NoError
    ensures var r := Created(k, t); |r.slots| == |k.slots| > 0 && r.slots[0].state == k.slots[0].state
  {
    hide Created, Misplaced, Levelled, Counted, Named;
    PrimedCommutes(k, t);
    CreatedSlots(Primed(k), t, FirstIdle(k.slots));
    assert Unmoved(k.slots[0], Created(Primed(k), t).slots[0]);
  }

  /** Every run of the system without kills, promotions and demotions: from the start on, `alc` and `hlc` are exactly
      the awake and the hibernating tasks at the top level. */
  lemma SystemTallied(n: nat, addr: nat, byte: nat, ts: seq<Task>, boot: seq<Kernel>, mem: Memory,
                      ks: seq<Kernel>, sts: seq<seq<nat>>, es: seq<Event>, ms: seq<Memory>, i: nat)
    requires 2 <= n <= 127 && addr != 0 && BootChain(n, addr, byte, ts, boot)
    requires Run(ks, sts, es, ms) && sts[0] == [] && i <= |es|
    requires var w := boot[|ts|]; w.current < |w.slots| && Scheduled(HandedOver(Started(w)), mem, ks[0])
    requires forall j :: 0 <= j < i ==> Steady(ks[j], es[j])
    ensures ks[i].alc == Count(ks[i].slots, UpAt(ks[i].maxLevel))
    ensures ks[i].hlc == Count(ks[i].slots, DozingAt(ks[i].maxLevel))
  {
    hide Inv, Step, Waiting, Scheduled, Steady, Count;
    AllWait(n, addr, byte, ts, boot, |ts|);
    BootTallied(n, addr, byte, ts, boot, |ts|);
    BaseSleeps(n, addr, byte, ts, boot, |ts|);
    StartKeeps(boot[|ts|], mem, ks[0]);
    StartTallied(boot[|ts|], mem, ks[0]);
    RunTallied(ks, sts, es, ms, i);
  }

  // ----- the timer

  /** The running task is the only live one at the top level. */
  ghost predicate Alone(k: Kernel)
    requires k.current < |k.slots|
  {
    && k.slots[k.current].prio == k.maxLevel
    && forall u :: 0 <= u < |k.slots| && Live(k.slots[u]) && k.slots[u].prio == k.maxLevel ==> u == k.current
  }

  ghost predicate TimerExact(k: Kernel) {
    k.current < |k.slots| && (k.timer <==> !Alone(k))
  }

  /** With exact counters the running task is alone exactly if they say so. */
  lemma AloneCounted(k: Kernel)
    requires Tallied(k) && Running(k) && k.slots[k.current].prio == k.maxLevel
    ensures Alone(k) <==> k.alc == 1 && k.hlc == 0
  {
    var c, level := k.current, k.maxLevel;
    var up, dozing := UpAt(level), DozingAt(level);
    assert up(k.slots[c]);
    CountPositive(k.slots, dozing);
    if k.alc == 1 && k.hlc == 0 {
      forall u | 0 <= u < |k.slots| && Live(k.slots[u]) && k.slots[u].prio == level ensures u == c {
        assert !dozing(k.slots[u]);
        CountOne(k.slots, up, u, c);
      }
    }
    if Alone(k) {
      var rest := k.slots[c := k.slots[c].(state := Idle)];
      assert forall u :: 0 <= u < |rest| ==> !up(rest[u]);
      CountNone(rest, up);
      CountUpdate(k.slots, c, rest[c], up);
      assert forall u :: 0 <= u < |k.slots| ==> !dozing(k.slots[u]);
    }
  }

  lemma ScheduledTimer(k: Kernel, mem: Memory, r: Kernel)
    requires k.current < |k.slots| && Scheduled(k, mem, r) && Tallied(r) && Running(r)
    ensures TimerExact(r)
  {
    hide Picked, Tallied, Swept, Running;
    var p := Awake(k, mem);
    var t: nat, level: nat :| t < |p.slots| && Picked(p, t, level) && r == Resumed(p, t, level);
    PickAt(p, t, level);
    if level == p.maxLevel { AloneCounted(r); }
  }

  lemma PickAt(p: Kernel, t: nat, level: nat)
    requires t < |p.slots| && Picked(p, t, level)
    ensures p.slots[t].prio == level
  {
    assert (exists u :: Rival(p, u)) ==> Rival(p, t);
  }

  lemma CreateTimer(k: Kernel, st: seq<nat>, t: Task)
    requires Inv(k, st) && CanCreate(k, t) && Tallied(k) && TimerExact(k)
    ensures Shaped(k) && Searchable(k) && Admission(k, t) == NoError && TimerExact(Created(k, t))
  {
    hide Levelled, Counted, Named, Stacked, Misplaced, Created, Tallied;
    var r, i := Created(k, t), FirstIdle(k.slots);
    CreatedSlots(k, t, i);
    LiveBelowTop(k, st);
    UpBound(k);
    CreatedCounters(k, t);
    CreatedTimer(k, t);
    if k.slots[k.current].prio == k.maxLevel { AloneCounted(k); }
    forall u | 0 <= u < |k.slots| && u != i
      ensures r.slots[u].prio == k.slots[u].prio && (Live(r.slots[u]) <==> Live(k.slots[u]))
    {
      assert Unmoved(k.slots[u], r.slots[u]);
    }
    assert Unmoved(NewSlot(k, i, t), r.slots[i]);
    if !Alone(k) && k.slots[k.current].prio == k.maxLevel {
      var u :| 0 <= u < |k.slots| && Live(k.slots[u]) && k.slots[u].prio == k.maxLevel && u != k.current;
      assert r.slots[u].prio == k.maxLevel && Live(r.slots[u]);
    }
  }

  lemma UpBound(k: Kernel)
    requires Tallied(k)
    ensures k.alc + k.hlc <= 127
  {
    UpAndDozing(k.slots, k.maxLevel);
  }

  lemma CreatedTimer(k: Kernel, t: Task)
    requires Shaped(k) && Searchable(k) && Admission(k, t) == NoError
    ensures var r := Created(k, t);
            r.current == k.current
            && (r.timer <==> k.timer || (k.started && (r.maxLevel > k.maxLevel || r.alc + r.hlc == 2)))
  {
    hide Placed, Added, Search, TopLevel;
    SearchSafe(k.stash, k.lstash, t.prio);
  }

  lemma SameTimer(k: Kernel, r: Kernel)
    requires TimerExact(k) && SameWaking(k, r) && r.current == k.current && r.timer == k.timer
    ensures TimerExact(r)
  {
    forall u | 0 <= u < |k.slots|
      ensures r.slots[u].prio == k.slots[u].prio && (Live(r.slots[u]) <==> Live(k.slots[u])) {}
  }

  /** Along the same events the timer is off exactly while the running task has nobody at the top level to share
      with. */
  lemma StepTimer(k: Kernel, st: seq<nat>, e: Event, mem: Memory, r: Kernel)
    requires Inv(k, st) && !InPromotion(k) && Tallied(k) && TimerExact(k) && Step(k, e, mem, r) && Steady(k, e)
    ensures TimerExact(r)
  {
    StepTallied(k, st, e, mem, r);
    StepKeeps(k, st, e, mem, r);
    hide Core, Tallied, Scheduled, Between, CanCreate, Created, WithId, TimerExact, Effect;
    if Reschedules(k, e) {
      ScheduledTimer(Effect(k, e), mem, r);
    } else {
      EffectTimer(k, st, e);
    }
  }

  lemma EffectTimer(k: Kernel, st: seq<nat>, e: Event)
    requires Inv(k, st) && !InPromotion(k) && Tallied(k) && TimerExact(k) && Settled(k) && Allowed(k, e)
    requires Steady(k, e) && !Reschedules(k, e)
    ensures TimerExact(Effect(k, e))
  {
    hide Core, Tallied, CanCreate, Created, WithId, TimerExact;
    match e
    case Create(t) =>
      if Admission(k, t) == NoError { CreateTimer(k, st, t); }
    case Grant(id, p) => SameTimer(k, Effect(k, e));
    case Disturb(byte) => SameTimer(k, Effect(k, e));
    case _ =>
  }

  lemma {:induction false} RunTimer(ks: seq<Kernel>, sts: seq<seq<nat>>, es: seq<Event>, ms: seq<Memory>, i: nat)
    requires Run(ks, sts, es, ms) && Inv(ks[0], []) && sts[0] == [] && Tallied(ks[0]) && TimerExact(ks[0]) && i <= |es|
    requires forall j :: 0 <= j < i ==> Steady(ks[j], es[j])
    ensures TimerExact(ks[i])
  {
    hide Inv, Tallied, Step, Pushes, Pops, TimerExact;
    if i > 0 {
      RunTimer(ks, sts, es, ms, i - 1);
      RunKeeps(ks, sts, es, ms, i - 1);
      RunTallied(ks, sts, es, ms, i - 1);
      NotPromoted(ks[i - 1]);
      assert Move(ks[i - 1], sts[i - 1], es[i - 1], ms[i - 1], ks[i], sts[i]);
      StepTimer(ks[i - 1], [], es[i - 1], ms[i - 1], ks[i]);
    }
  }

  /** Every run of the system without kills, promotions and demotions: the timer is off exactly in the states in which
      the running task is the only live one at the top level. */
  lemma SystemTimer(n: nat, addr: nat, byte: nat, ts: seq<Task>, boot: seq<Kernel>, mem: Memory,
                    ks: seq<Kernel>, sts: seq<seq<nat>>, es: seq<Event>, ms: seq<Memory>, i: nat)
    requires 2 <= n <= 127 && addr != 0 && BootChain(n, addr, byte, ts, boot)
    requires Run(ks, sts, es, ms) && sts[0] == [] && i <= |es|
    requires var w := boot[|ts|]; w.current < |w.slots| && Scheduled(HandedOver(Started(w)), mem, ks[0])
    requires forall j :: 0 <= j < i ==> Steady(ks[j], es[j])
    ensures ks[i].current < |ks[i].slots| && (ks[i].timer <==> !Alone(ks[i]))
  {
    hide Inv, Step, Waiting, Scheduled, Steady, Tallied, Alone;
    AllWait(n, addr, byte, ts, boot, |ts|);
    BootTallied(n, addr, byte, ts, boot, |ts|);
    BaseSleeps(n, addr, byte, ts, boot, |ts|);
    StartKeeps(boot[|ts|], mem, ks[0]);
    StartTallied(boot[|ts|], mem, ks[0]);
    InvRunning(ks[0], []);
    ScheduledTimer(HandedOver(Started(boot[|ts|])), mem, ks[0]);
    RunTimer(ks, sts, es, ms, i);
  }

  lemma InvRunning(k: Kernel, st: seq<nat>)
    requires Inv(k, st)
    ensures Running(k)
  {
  }
}
