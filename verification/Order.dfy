/** What scheduling guarantees beyond the invariant: that it ends, the order of priorities, and the identity of
    tasks. */
module Order {
  import opened Slots
  import opened JumpList
  import opened LevelStash
  import opened Services
  import opened Scheduler
  import opened Invariant
  import opened Transitions
  import opened Runs
  import opened Boot

  // ----- progress

  /** A scheduling has a result exactly when something can be selected. */
  lemma ScheduleEnds(k: Kernel, mem: Memory, st: seq<nat>)
    requires Core(k, st) && Between(k)
    ensures (exists r :: Scheduled(k, mem, r)) <==> Selectable(Awake(k, mem))
  {
    hide Selectable, Picked, Core, Between, Walkable, Prepared, Swept, Resumed;
    CoreRing(k, st);
    AwakeWalkable(k, mem);
    var p := Awake(k, mem);
    SelectionEnds(p);
    WalkableFacts(p);
    if Selectable(p) {
      var m :| EndsAt(p, m);
      var t, level := Iterate(p, m).slot, Iterate(p, m).level;
      assert Leaves(p, Iterate(p, m));
      assert Scheduled(k, mem, Resumed(p, t, level));
    }
    if r :| Scheduled(k, mem, r) {
      var t: nat, level: nat :| t < |p.slots| && Picked(p, t, level) && r == Resumed(p, t, level);
      PickedIsSelectable(p, t, level);
    }
  }

  /** With an unpromoted base task that is running or runnable, and some other level listed, a tick or a hand-over
      always leads to a next state. */
  lemma YieldEndsSoon(k: Kernel, st: seq<nat>, e: Event, mem: Memory)
    requires Inv(k, st) && (e.Tick? || e.HandOver?) && k.lstash >= 2
    requires k.slots[0].prio == 0 && (k.current == 0 || k.slots[0].state == Sleep)
    ensures exists r :: Step(k, e, mem, r)
  {
    hide Core, Selectable, Scheduled;
    EffectEnds(k, st, e);
    CoreShaped(k, st);
    var m := Effect(k, e);
    CoreRing(m, StackAfter(k, st, e));
    AwakeWalkable(m, mem);
    BaseAwake(k, e, mem);
    BaseSuffices(Awake(m, mem));
    ScheduleEnds(m, mem, StackAfter(k, st, e));
    var r :| Scheduled(m, mem, r);
    assert Step(k, e, mem, r);
  }

  lemma WalkableFacts(k: Kernel)
    requires Walkable(k)
    ensures k.lstash > 0
  {
  }

  lemma CoreRing(k: Kernel, st: seq<nat>)
    requires Core(k, st)
    ensures SmallFields(k) && Ring(k.slots) && |k.stash| == |k.slots| + 1 && Sorted(k.stash, k.lstash)
  {
  }

  lemma CoreShaped(k: Kernel, st: seq<nat>)
    requires Core(k, st)
    ensures Shaped(k)
  {
  }

  lemma BaseAwake(k: Kernel, e: Event, mem: Memory)
    requires Shaped(k) && Running(k) && (e.Tick? || e.HandOver?) && k.lstash >= 2
    requires k.slots[0].prio == 0 && (k.current == 0 || k.slots[0].state == Sleep)
    ensures var p := Awake(Effect(k, e), mem);
            p.lstash >= 2 && Ready(p, 0, 0) && p.current < |p.slots| && Live(p.slots[p.current])
  {
    var q := Prepared(Effect(k, e));
    var p := Awake(Effect(k, e), mem);
    assert p.slots[0] == Wake(q.slots[0], mem) && p.slots[k.current] == Wake(q.slots[k.current], mem);
  }

  // ----- priority order

  /** Under the invariant every live level can be told from the stash. */
  lemma CoreCovers(k: Kernel, st: seq<nat>)
    requires Core(k, st)
    ensures LevelsCover(k)
  {
    hide Ring, Counted, Named;
    UserTopSmall(k);
    forall u | 0 <= u < |k.slots| && Live(k.slots[u])
      ensures k.slots[u].prio <= k.maxLevel && (k.slots[u].prio > 127 || k.slots[u].prio in k.stash[..k.lstash])
    {
      if k.slots[u].prio > 126 {
        assert u in st;
      } else {
        assert Level(k.slots[u]) == k.slots[u].prio <= UserTop(k);
      }
    }
  }

  /** Without promotion nothing falls between the top level and the last-but-one listed level. */
  lemma NothingSkipped(k: Kernel, st: seq<nat>, u: int)
    requires Levelled(k) && Stacked(k, st) && !InPromotion(k)
    ensures !Skipped(k, u)
  {
    if Skipped(k, u) {
      var v :| 0 <= v < |k.slots| && Live(k.slots[v]) && Level(k.slots[v]) == UserTop(k);
      assert u !in st && v !in st;
      assert Level(k.slots[u]) in k.stash[..k.lstash] && k.maxLevel in k.stash[..k.lstash];
      BelowLast(k.stash, k.lstash, k.slots[u].prio, k.maxLevel);
    }
  }

  lemma BelowLast(a: seq<nat>, n: nat, x: nat, y: nat)
    requires Sorted(a, n) && x in a[..n] && y in a[..n] && x < y
    ensures n >= 2 && x <= a[n - 2]
  {
    var i :| 0 <= i < n && a[..n][i] == x;
    var j :| 0 <= j < n && a[..n][j] == y;
    assert a[i] == x && a[j] == y;
  }

  /** Without promotion, no other runnable task has a strictly higher priority than the selected one. */
  lemma UnpromotedInOrder(k: Kernel, mem: Memory, st: seq<nat>, t: nat, level: nat)
    requires Core(k, st) && Between(k) && !InPromotion(k) && Picked(Awake(k, mem), t, level)
    ensures !Inverted(Awake(k, mem), t)
  {
    hide Picked, Inverted, Walkable, LevelsCover, Ring, Counted, Named;
    AwakeWalkable(k, mem);
    AwakeSame(k, mem);
    var p := Awake(k, mem);
    SameCore(k, p, st);
    CoreCovers(p, st);
    forall u ensures !Skipped(p, u) { NothingSkipped(p, st, u); }
    NoInversion(p, t, level);
  }

  /** During a promotion the order holds exactly when the promoted top is runnable and not current, or nothing runnable
      lies above the last-but-one listed level. */
  lemma PromotedOrder(k: Kernel, mem: Memory, st: seq<nat>, t: nat, level: nat)
    requires Core(k, st) && Between(k) && InPromotion(k) && Picked(Awake(k, mem), t, level)
    ensures var p := Awake(k, mem);
            var top := st[|st| - 1];
            !Inverted(p, t) <==> (top != p.current && p.slots[top].state == Sleep) || (forall u :: !Skipped(p, u))
  {
    hide Picked, Inverted, Walkable, LevelsCover, Ring, Counted, Named;
    AwakeWalkable(k, mem);
    AwakeSame(k, mem);
    var p := Awake(k, mem);
    SameCore(k, p, st);
    CoreCovers(p, st);
    NoInversion(p, t, level);
    RivalIsTop(p, st);
  }

  lemma RivalIsTop(k: Kernel, st: seq<nat>)
    requires Stacked(k, st) && InPromotion(k)
    ensures (exists u :: Rival(k, u)) <==> st[|st| - 1] != k.current && k.slots[st[|st| - 1]].state == Sleep
  {
    var top := st[|st| - 1];
    if u :| Rival(k, u) {
      OneStackedTask(k, st, u, top);
    }
    if top != k.current && k.slots[top].state == Sleep {
      assert Rival(k, top);
    }
  }

  // ----- fairness

  /** u is runnable at the top level. */
  predicate Waits(k: Kernel, u: nat) {
    u < |k.slots| && k.slots[u].state == Sleep && k.slots[u].prio == k.maxLevel
  }

  /** After a tick or a hand-over, a task that waits at the top level runs, or waits on and has come closer. */
  lemma ComesCloser(k: Kernel, st: seq<nat>, e: Event, mem: Memory, r: Kernel, u: nat)
    requires Inv(k, st) && Step(k, e, mem, r) && (e.Tick? || e.HandOver?) && Waits(k, u)
    ensures |r.slots| == |k.slots| && r.current < |k.slots|
    ensures r.current == u || (Waits(r, u) && Ahead(r.current, u, |k.slots|) < Ahead(k.current, u, |k.slots|))
  {
    hide Core, Picked, Byte, Count;
    CoreShaped(k, st);
    var m := Effect(k, e);
    WaitsAwake(k, e, mem, u);
    var p := Awake(m, mem);
    var t: nat, level: nat :| t < |p.slots| && Picked(p, t, level) && r == Resumed(p, t, level);
    FirstRival(p, t, level, u);
    if t != u { Closer(k.current, t, u, |k.slots|); }
  }

  lemma WaitsAwake(k: Kernel, e: Event, mem: Memory, u: nat)
    requires Shaped(k) && Running(k) && (e.Tick? || e.HandOver?) && Waits(k, u)
    ensures var p := Awake(Effect(k, e), mem);
            && |p.slots| == |k.slots| && p.slots[u] == k.slots[u] && p.maxLevel == k.maxLevel
            && p.current == k.current && p.next == k.current && u != k.current
  {
    hide Byte, Count;
    var q := Prepared(Effect(k, e));
    assert Awake(Effect(k, e), mem).slots[u] == Wake(q.slots[u], mem);
  }

  lemma FirstRival(p: Kernel, t: nat, level: nat, u: nat)
    requires t < |p.slots| && Picked(p, t, level) && Waits(p, u) && u != p.current
    ensures t != p.current && level == p.maxLevel && Ahead(p.next, t, |p.slots|) <= Ahead(p.next, u, |p.slots|)
  {
    assert Rival(p, u);
  }

  lemma Closer(c: nat, t: nat, u: nat, n: nat)
    requires c < n && t < n && u < n && t != u && c != t && Ahead(c, t, n) <= Ahead(c, u, n)
    ensures Ahead(t, u, n) < Ahead(c, u, n)
  {
  }

  /** Round robin: over every run of ticks and hand-overs, a task that is runnable at the top level runs after at most
      as many of them as it lies ahead of the current task, so within one lap. */
  lemma {:induction false} RunsWithinLap(ks: seq<Kernel>, sts: seq<seq<nat>>, es: seq<Event>, ms: seq<Memory>, i: nat,
      u: nat)
    returns (j: nat)
    requires Run(ks, sts, es, ms) && Inv(ks[0], sts[0]) && i <= |es| && Waits(ks[i], u)
    requires forall x :: i <= x < |es| ==> es[x].Tick? || es[x].HandOver?
    requires i + Ahead(ks[i].current, u, |ks[i].slots|) <= |es|
    ensures i < j <= i + Ahead(ks[i].current, u, |ks[i].slots|) && j <= |es| && ks[j].current == u
    decreases |es| - i
  {
    hide Inv, Step, Waits;
    RunKeeps(ks, sts, es, ms, i);
    InRange(ks[i], sts[i], u);
    assert Move(ks[i], sts[i], es[i], ms[i], ks[i + 1], sts[i + 1]);
    ComesCloser(ks[i], sts[i], es[i], ms[i], ks[i + 1], u);
    if ks[i + 1].current == u {
      j := i + 1;
    } else {
      j := RunsWithinLap(ks, sts, es, ms, i + 1, u);
    }
  }

  lemma InRange(k: Kernel, st: seq<nat>, u: nat)
    requires Inv(k, st) && Waits(k, u)
    ensures k.current < |k.slots| && 1 <= Ahead(k.current, u, |k.slots|) <= |k.slots|
  {
    hide Core;
    CoreShaped(k, st);
  }

  // ----- identity

  lemma EffectTotal(k: Kernel, e: Event)
    requires Settled(k) && Allowed(k, e)
    ensures k.totalCount <= Effect(k, e).totalCount
  {
    hide Ring, Sorted, Misplaced, Listed, Link, Unlink, TopLevel, Woken, WithId, Count, Shared, FirstIdle, Added,
        Placed, Removed;
  }

  lemma ScheduledTotal(k: Kernel, mem: Memory, r: Kernel)
    requires k.current < |k.slots| && Scheduled(k, mem, r)
    ensures r.totalCount == k.totalCount
  {
    hide Picked, WakeAll;
  }

  /** Creation numbers never go back. */
  lemma StepTotal(k: Kernel, e: Event, mem: Memory, r: Kernel)
    requires Step(k, e, mem, r)
    ensures k.totalCount <= r.totalCount
  {
    hide Effect, Scheduled, Allowed;
    EffectTotal(k, e);
    if Reschedules(k, e) {
      ScheduledTotal(Effect(k, e), mem, r);
    }
  }

  lemma {:induction false} RunTotal(ks: seq<Kernel>, sts: seq<seq<nat>>, es: seq<Event>, ms: seq<Memory>, i: nat,
      j: nat)
    requires Run(ks, sts, es, ms) && i <= j <= |es|
    ensures ks[i].totalCount <= ks[j].totalCount
  {
    hide Step;
    if i < j {
      RunTotal(ks, sts, es, ms, i, j - 1);
      assert Move(ks[j - 1], sts[j - 1], es[j - 1], ms[j - 1], ks[j], sts[j]);
      StepTotal(ks[j - 1], es[j - 1], ms[j - 1], ks[j]);
    }
  }

  /** An id handed out is never handed out again: the id a creation stores differs from every id live at any earlier
      time. */
  lemma NeverReissued(ks: seq<Kernel>, sts: seq<seq<nat>>, es: seq<Event>, ms: seq<Memory>, i: nat, j: nat, u: nat)
    requires Run(ks, sts, es, ms) && Inv(ks[0], sts[0]) && i <= j < |es| && u < |ks[i].slots| && Live(ks[i].slots[u])
    requires es[j].Create? && Admission(ks[j], es[j].task) == NoError && Count(ks[j].slots, Live) < |ks[j].slots|
    ensures var v := FirstIdle(ks[j].slots);
            v < |ks[j + 1].slots| && Live(ks[j + 1].slots[v]) && ks[j + 1].slots[v].id != ks[i].slots[u].id
  {
    hide Inv, Effect;
    RunKeeps(ks, sts, es, ms, i);
    RunKeeps(ks, sts, es, ms, j);
    RunTotal(ks, sts, es, ms, i, j);
    assert Move(ks[j], sts[j], es[j], ms[j], ks[j + 1], sts[j + 1]);
    InvNamed(ks[i], sts[i]);
    InvNamed(ks[j], sts[j]);
    FreshId(ks[j], sts[j], es[j], ms[j], ks[j + 1]);
  }

  lemma InvNamed(k: Kernel, st: seq<nat>)
    requires Inv(k, st)
    ensures forall u :: 0 <= u < |k.slots| && Live(k.slots[u]) ==> k.slots[u].id % 0x1_0000 <= k.totalCount
  {
  }

  lemma CreatedId(k: Kernel, t: Task)
    requires CanCreate(k, t) && Ring(k.slots)
    ensures var v, r := FirstIdle(k.slots), Created(k, t);
            v < |r.slots| && Live(r.slots[v]) && r.slots[v].id % 0x1_0000 == k.totalCount + 1
  {
    hide Ring, Sorted, Misplaced;
    var v := FirstIdle(k.slots);
    CreatedSlots(k, t, v);
    NewIdFacts(v, k.totalCount);
    assert Unmoved(NewSlot(k, v, t), Created(k, t).slots[v]);
  }

  lemma FreshId(k: Kernel, st: seq<nat>, e: Event, mem: Memory, r: Kernel)
    requires Inv(k, st) && Step(k, e, mem, r) && e.Create? && Admission(k, e.task) == NoError
    ensures var v := FirstIdle(k.slots);
            v < |r.slots| && Live(r.slots[v]) && r.slots[v].id % 0x1_0000 == k.totalCount + 1
  {
    hide Core, Created, CanCreate;
    CoreRing(k, st);
    CreatedId(k, e.task);
  }

  /** The slot a kill computes from the id of a live task is that task's slot, and no other live task has that id. */
  lemma KillFindsItsTask(k: Kernel, st: seq<nat>, u: nat, v: nat)
    requires Inv(k, st) && u < |k.slots| && v < |k.slots| && Live(k.slots[u]) && Live(k.slots[v])
    ensures (k.slots[u].id / 0x1_0000) % 256 == u
    ensures k.slots[u].id == k.slots[v].id ==> u == v
    ensures k.slots[u].obj == k.slots[v].obj ==> u == v
  {
    hide Ring, Counted, Levelled, Stacked;
  }
  // ----- the first scheduling

  /** With a runnable base task and some other level listed, starting the scheduler always leads to a first state, and
      that state satisfies the whole invariant. */
  lemma StartEnds(k: Kernel, mem: Memory) returns (r: Kernel)
    requires Waiting(k) && k.lstash >= 2 && k.slots[0].state == Sleep && k.slots[0].prio == 0
    ensures Scheduled(HandedOver(Started(k)), mem, r) && Inv(r, [])
  {
    hide Core, Selectable, Scheduled;
    CoreFacts(Primed(k), []);
    CoreRing(Primed(k), []);
    StartSame(k);
    StartBetween(k);
    var m := HandedOver(Started(k));
    SameCore(Primed(k), Started(k), []);
    SameCore(Started(k), m, []);
    CoreRing(m, []);
    AwakeWalkable(m, mem);
    StartedBase(k, mem);
    BaseSuffices(Awake(m, mem));
    ScheduleEnds(m, mem, []);
    r :| Scheduled(m, mem, r);
    StartKeeps(k, mem, r);
  }

  lemma StartedBase(k: Kernel, mem: Memory)
    requires |k.slots| > 0 && k.current == 0 && k.next == 0 && k.lstash >= 2 && k.alc < 256 && k.hlc < 256
    requires k.slots[0].state == Sleep && k.slots[0].prio == 0
    ensures var p := Awake(HandedOver(Started(k)), mem);
            p.lstash >= 2 && Ready(p, 0, 0) && p.current < |p.slots| && Live(p.slots[p.current])
  {
    var q := Prepared(HandedOver(Started(k)));
    assert Awake(HandedOver(Started(k)), mem).slots[0] == Wake(q.slots[0], mem);
  }

  /** The smallest system there is: a base task and one other, at any user level, starts and satisfies the invariant. */
  lemma TwoTasksStart(n: nat, addr: nat, byte: nat, t: Task, mem: Memory) returns (k: Kernel, r: Kernel)
    requires 2 <= n <= 127 && addr != 0 && t.addr != 0 && t.addr != addr && 1 <= t.prio <= 126 && !t.hibernate
    ensures BootChain(n, addr, byte, [t], [BaseCreated(n, addr, byte), k]) && k.current < |k.slots|
    ensures Scheduled(HandedOver(Started(k)), mem, r) && Inv(r, [])
  {
    hide Created, BaseCreated, Waiting, Inv, CanCreate, Primed, Scheduled, Started, HandedOver;
    FirstCanCreate(n, addr, byte, t);
    BaseWaits(n, addr, byte);
    k := Created(BaseCreated(n, addr, byte), t);
    CreateWaits(BaseCreated(n, addr, byte), t);
    FirstStash(n, addr, byte, t);
    WaitingCurrent(k);
    Undisturbed(k);
    r := StartEnds(k, mem);
  }

  /** The byte behind the stash may also stay as it is. */
  lemma Undisturbed(k: Kernel)
    ensures exists byte :: k == Disturbed(k, byte)
  {
    var byte := if k.stash == [] then 0 else k.stash[|k.stash| - 1];
    assert k == Disturbed(k, byte);
  }

  lemma WaitingCurrent(k: Kernel)
    requires Waiting(k)
    ensures k.current < |k.slots|
  {
  }

  lemma FirstCanCreate(n: nat, addr: nat, byte: nat, t: Task)
    requires 2 <= n <= 127 && addr != 0 && t.addr != 0 && t.addr != addr && 1 <= t.prio <= 126 && !t.hibernate
    ensures var b := BaseCreated(n, addr, byte);
            && b.maxpLevel < 256 && CanCreate(Primed(b), t) && Shaped(b) && Searchable(b) && Admission(b, t) == NoError
            && b.stash == seq(n, _ => 0) + [byte] && b.lstash == 1
  {
    hide BaseCreated, Created, Ring, Levelled, Counted, Stacked, Named, CountsTop;
    BaseSlots(n, addr, byte);
    BaseWaits(n, addr, byte);
    var p := Primed(BaseCreated(n, addr, byte));
    assert Rank(p.stash, 1, t.prio) == 1;
    assert CanCreate(p, t);
    PrimedCommutes(BaseCreated(n, addr, byte), t);
  }

  lemma FirstStash(n: nat, addr: nat, byte: nat, t: Task)
    requires 2 <= n <= 127 && addr != 0 && t.addr != 0 && t.addr != addr && 1 <= t.prio <= 126 && !t.hibernate
    requires var b := BaseCreated(n, addr, byte); Shaped(b) && Searchable(b) && Admission(b, t) == NoError
    ensures var k := Created(BaseCreated(n, addr, byte), t);
            k.lstash >= 2 && |k.slots| > 0 && k.slots[0].state == Sleep && k.slots[0].prio == 0
  {
    hide BaseCreated, Created, Levelled, Counted, Stacked, Named, CountsTop, Misplaced;
    BaseSlots(n, addr, byte);
    BaseWaits(n, addr, byte);
    FirstCanCreate(n, addr, byte, t);
    var b := BaseCreated(n, addr, byte);
    var p, r := Primed(b), Created(Primed(b), t);
    PrimedCommutes(b, t);
    CreatedSlots(p, t, FirstIdle(p.slots));
    CreatedStash(p, t);
    assert p.stash[..1][0] == 0;
    assert 0 in r.stash[..r.lstash] && t.prio in r.stash[..r.lstash];
  }
}
