/** Runs that lead into the states where promotions and base invocations go wrong. */
module ReachedLocks {
  import opened Slots
  import opened JumpList
  import opened LevelStash
  import opened Services
  import opened Scheduler
  import opened Invariant
  import opened Transitions
  import opened Runs
  import opened Order
  import opened Findings
  import opened SpinLock
  import opened Reached
  import Mutex

  // ----- steps that show what they do

  lemma TickStep(k: Kernel, mem: Memory, rows: seq<Row>, levels: seq<nat>, top: nat, total: nat,
      u: nat) returns (r: Kernel)
    requires Reachable(k, []) && Shows(k, rows, levels, top, total) && Still(rows) && k.current < |rows|
    requires Nearest(rows[k.current := rows[k.current].(state := Sleep)], top, k.current, k.current, u)
    ensures Reachable(r, []) && Leads(k, [], r, []) && r.current == u
    ensures var slept := rows[k.current := rows[k.current].(state := Sleep)];
            Shows(r, slept[u := slept[u].(state := Active)], levels, top, total)
  {
    hide Reachable, Leads, Inv, Shows, Step, Nearest;
    ReachableInv(k, []);
    r := ShowTick(k, mem, rows, levels, top, total, u);
    SlotsOf(k, rows, levels, top, total);
    ReachStep(k, [], Tick, mem, r);
  }

  lemma SlotsOf(k: Kernel, rows: seq<Row>, levels: seq<nat>, top: nat, total: nat)
    requires Shows(k, rows, levels, top, total)
    ensures |k.slots| == |rows|
  {
  }

  /** The current task ends; slot j shares its level, and slot u is the only runnable
      one there. */
  lemma EndStep(k: Kernel, mem: Memory, rows: seq<Row>, levels: seq<nat>, top: nat, total: nat, j: nat, u: nat)
    returns (r: Kernel)
    requires Reachable(k, []) && Shows(k, rows, levels, top, total) && Still(rows)
    requires 0 < k.current < |rows| && j < |rows| && j != k.current && rows[j].prio == rows[k.current].prio
    requires u < |rows| && u != k.current && rows[u].state == Sleep && rows[u].prio == top
    requires forall v :: 0 <= v < |rows| && v != k.current && rows[v].state == Sleep && rows[v].prio == top ==> v == u
    ensures Reachable(r, []) && Leads(k, [], r, []) && r.current == u
    ensures Shows(r, rows[k.current := Row(Idle, rows[k.current].prio, 0)][u := rows[u].(state := Active)], levels,
        top, total)
  {
    hide Reachable, Leads, Core, Scheduled;
    var c := k.current;
    ReachableInv(k, []);
    EndShown(k, rows, levels, top, total, j, u);
    var ended := rows[c := Row(Idle, rows[c].prio, 0)];
    var m := HandedOver(Killed(k, c, true));
    EndKeeps(k, []);
    r := ShowSchedule(m, mem, ended, levels, top, total, u);
    assert Step(k, End, mem, r);
    ReachStep(k, [], End, mem, r);
  }

  lemma EndShown(k: Kernel, rows: seq<Row>, levels: seq<nat>, top: nat, total: nat, j: nat, u: nat)
    requires Inv(k, []) && Settled(k) && Shows(k, rows, levels, top, total) && Still(rows)
    requires 0 < k.current < |rows| && j < |rows| && j != k.current && rows[j].prio == rows[k.current].prio
    requires u < |rows| && u != k.current && rows[u].state == Sleep && rows[u].prio == top
    requires forall v :: 0 <= v < |rows| && v != k.current && rows[v].state == Sleep && rows[v].prio == top ==> v == u
    ensures CanKill(k, k.current) && Shaped(k) && Killed(k, k.current, true).current == k.current
    ensures |Killed(k, k.current, true).slots| == |rows|
    ensures var m, ended := HandedOver(Killed(k, k.current, true)),
        rows[k.current := Row(Idle, rows[k.current].prio, 0)];
            && m.current == k.current && m.current < |m.slots| && Shows(Prepared(m), ended, levels, top, total) &&
                Still(ended)
            && Nearest(ended, top, m.current, m.next, u)
  {
    hide Counted, Named, Stacked, Killed, TopLevel;
    var c := k.current;
    assert Row(k.slots[c].state, k.slots[c].prio, k.slots[c].obj) == rows[c];
    assert Row(k.slots[j].state, k.slots[j].prio, k.slots[j].obj) == rows[j];
    assert Row(k.slots[u].state, k.slots[u].prio, k.slots[u].obj) == rows[u];
    assert Killable(k, c) && Shared(k.slots, c);
    KilledSlots(k, c, true);
    KilledRest(k, c, true);
    KilledNext(k, c, true);
    var r := Killed(k, c, true);
    KeptTop(k, r, c, u, top);
    EndedRows(k, r, rows, c);
    hide Inv, Killable, Ring, Shared, Unmoved;
    NearestEnded(rows, c, top, r.next, u);
  }

  lemma NearestEnded(rows: seq<Row>, c: nat, top: nat, next: nat, u: nat)
    requires 0 < c < |rows| && u < |rows| && u != c && rows[u].state == Sleep && rows[u].prio == top && next < |rows|
    requires forall v :: 0 <= v < |rows| && v != c && rows[v].state == Sleep && rows[v].prio == top ==> v == u
    ensures Nearest(rows[c := Row(Idle, rows[c].prio, 0)], top, c, next, u)
  {
  }

  lemma EndedRows(k: Kernel, r: Kernel, rows: seq<Row>, c: nat)
    requires |k.slots| == |rows| == |r.slots| && c < |rows| && Unmoved(Buried(k.slots[c]), r.slots[c])
    requires forall u :: 0 <= u < |rows| && u != c ==> Unmoved(k.slots[u], r.slots[u])
    requires forall u :: 0 <= u < |rows| ==> Row(k.slots[u].state, k.slots[u].prio, k.slots[u].obj) == rows[u]
    ensures var ended := rows[c := Row(Idle, rows[c].prio, 0)];
            forall u :: 0 <= u < |rows| ==> Row(r.slots[u].state, r.slots[u].prio, r.slots[u].obj) == ended[u]
  {
    var ended := rows[c := Row(Idle, rows[c].prio, 0)];
    forall u | 0 <= u < |rows| ensures Row(r.slots[u].state, r.slots[u].prio, r.slots[u].obj) == ended[u] {
      assert Row(k.slots[u].state, k.slots[u].prio, k.slots[u].obj) == rows[u];
      if u != c { assert Unmoved(k.slots[u], r.slots[u]); }
    }
  }

  // ----- reached: the word names nobody who holds the lock

  /** On a fresh lock a refused caller reads the word 0, which names the base task. It is promoted, and the caller held
      on a mutex that nobody holds. */
  lemma FreshLockPromotes(addr: nat, t: Task, byte: nat, mutex: nat, mem: Memory) returns (k: Kernel, r: Kernel)
    requires addr != 0 && t.addr != 0 && t.addr != addr && t.prio == 1 && !t.hibernate && mutex != 0
    ensures k.current == 1 && |k.slots| == 2 && Attempt(k, 0) == Asks(0)
    ensures Mutex.RefusedFree([k.slots[0].id, k.slots[1].id], 1, 0)
    ensures |r.slots| == 2 && r.current == 0 && r.slots[1].state == Hold
    ensures Reachable(k, []) && Reachable(r, [0]) && Leads(k, [], r, [0])
  {
    hide Reachable, Leads, Inv, Shows, Mutex.RefusedFree;
    k := FirstState(2, addr, byte, t, mem);
    RowsOf(k, Opening(2, addr, t), [0, 1], 1, 2);
    TopIs(k, Opening(2, addr, t), [0, 1], 1, 2);
    AsksForBase(k);
    Mutex.FreshRefused([k.slots[0].id, k.slots[1].id], 1);
    r := PromoteStep(k, [], mutex, 0, mem);
    assert [] + [0] == [0];
  }

  lemma TopIs(k: Kernel, rows: seq<Row>, levels: seq<nat>, top: nat, total: nat)
    requires Shows(k, rows, levels, top, total)
    ensures k.maxLevel == top && !InPromotion(k) && k.invoked == 0
  {
  }

  lemma AsksForBase(k: Kernel)
    requires k.current == 1 < |k.slots| && k.maxLevel == 1 && k.slots[1].prio == 1 && k.slots[0].prio == 0
    ensures Attempt(k, 0) == Asks(0)
  {
  }

  /** A task takes a lock, gives it back and ends. Its word still names its slot: a task at a higher level that is
      refused the free lock has that idle slot promoted, and no stack of promotions fits any more. */
  lemma StaleHolderReached(addr: nat, one: nat, two: nat, three: nat, byte: nat, mutex: nat, mem: Memory)
    returns (a: Kernel, k: Kernel)
    requires addr != 0 && one != 0 && two != 0 && three != 0 && mutex != 0
    requires addr != one && addr != two && addr != three && one != two && one != three && two != three
    ensures a.current == 1 < |a.slots| && k.current == 3 < |k.slots| && !Live(k.slots[1])
    ensures var id := a.slots[1].id;
            && Mutex.RefusedFree([id, k.slots[3].id], 1, Mutex.Unlocked(id))
            && OwnerOf(Mutex.Unlocked(id)) == 1 && Attempt(k, Mutex.Unlocked(id)) == Asks(1)
    ensures !Allowed(k, Promote(mutex, 1)) && forall s :: !Core(Promoted(k, mutex, 1), s)
    ensures Reachable(a, []) && Reachable(k, []) && Leads(a, [], k, [])
  {
    hide Reachable, Leads, Inv, Shows, Mutex.RefusedFree, Mutex.Unlocked, Core, Attempt, Promoted, Allowed;
    a, k := EndedHolder(addr, one, two, three, byte, mem);
    ReachableInv(a, []);
    FirstId(a);
    var id := a.slots[1].id;
    Mutex.StaleRefused([id, k.slots[3].id], 0, 1);
    AsksForIdle(k, Mutex.Unlocked(id), mutex);
    ReachableInv(k, []);
    PromoteKeepsExactly(k, [], mutex, 1);
  }

  lemma AsksForIdle(k: Kernel, word: nat, mutex: nat)
    requires |k.slots| == 4 && k.current == 3 && k.maxLevel == 2 && k.slots[3].prio == 2 && k.slots[1].prio == 1
    requires !Live(k.slots[1]) && word / 0x1_0000 == 1
    ensures OwnerOf(word) == 1 && Attempt(k, word) == Asks(1) && !Allowed(k, Promote(mutex, 1))
  {
  }

  lemma FirstId(k: Kernel)
    requires Inv(k, []) && k.current == 1
    ensures k.current < |k.slots| && k.slots[1].id / 0x1_0000 == 1
  {
    hide Ring, Levelled, Counted, Stacked;
  }

  lemma EndedHolder(addr: nat, one: nat, two: nat, three: nat, byte: nat, mem: Memory) returns (a: Kernel, k: Kernel)
    requires addr != 0 && one != 0 && two != 0 && three != 0
    requires addr != one && addr != two && addr != three && one != two && one != three && two != three
    ensures Reachable(a, []) && a.current == 1 < |a.slots| && Reachable(k, []) && Leads(a, [], k, [])
    ensures |k.slots| == 4 && k.current == 3 && k.maxLevel == 2 && k.slots[3].prio == 2
    ensures k.slots[1].prio == 1 && !Live(k.slots[1])
  {
    hide Step, Reachable, Leads, Shows;
    var t1, t2, t3 := Task(one, 1, false), Task(two, 1, false), Task(three, 2, false);
    a := FirstState(4, addr, byte, t1, mem);
    var r0 := [Row(Sleep, 0, addr), Row(Active, 1, one), IDLE, IDLE];
    assert Opening(4, addr, t1) == r0;
    SlotsOf(a, r0, [0, 1], 1, 2);
    var k1 := CreateStep(a, r0, [0, 1], 1, 2, t2, 2, mem);
    var r1 := [Row(Sleep, 0, addr), Row(Active, 1, one), Row(Sleep, 1, two), IDLE];
    assert r0[2 := Row(Sleep, 1, two)] == r1;
    var k2 := CreateStep(k1, r1, [0, 1], 1, 3, t3, 3, mem);
    var r2 := [Row(Sleep, 0, addr), Row(Active, 1, one), Row(Sleep, 1, two), Row(Sleep, 2, three)];
    assert r1[3 := Row(Sleep, 2, three)] == r2;
    assert 2 !in [0, 1] && [0, 1] + [2] == [0, 1, 2];
    k := EndStep(k2, mem, r2, [0, 1, 2], 2, 4, 2, 3);
    LeadsOn(a, [], k1, [], k2, []);
    LeadsOn(a, [], k2, [], k, []);
    var r3 := r2[1 := Row(Idle, 1, 0)][3 := Row(Active, 2, three)];
    RowsOf(k, r3, [0, 1, 2], 2, 4);
    TopIs(k, r3, [0, 1, 2], 2, 4);
  }

  // ----- reached: an attempt that is repeated for ever

  /** Two tasks at level 1 run in turn, each long enough to take a lock; then a task at level 2 runs. It waits for the
      lock of the first and has it promoted, and the first waits for the lock of the second and has it promoted. The
      second now waits for the lock of the first: it tries again and again, and no attempt is counted. */
  lemma SpinReached(addr: nat, one: nat, two: nat, three: nat, byte: nat, m1: nat, m2: nat, mem: Memory)
    returns (a: Kernel, b: Kernel, c: Kernel, d: Kernel, k: Kernel)
    requires addr != 0 && one != 0 && two != 0 && three != 0 && m1 != 0 && m2 != 0
    requires addr != one && addr != two && addr != three && one != two && one != three && two != three
    ensures a.current == 1 && b.current == 2 && c.current == 3 && d.current == 1
    ensures k.current == 2 < |k.slots| && OwnerOf(0x1_0001) == 1 && Attempt(k, 0x1_0001).Again?
    ensures Reachable(a, []) && Leads(a, [], b, []) && Leads(b, [], c, []) && Leads(c, [], d, [1]) &&
        Leads(d, [1], k, [1, 2])
  {
    hide Reachable, Leads, Shows, Inv, Step, Attempt;
    a, b, c := TakeTurns(addr, one, two, three, byte, mem);
    d := PromoteStep(c, [], m1, 1, mem);
    assert [] + [1] == [1];
    assert d.slots[2].state == Sleep && d.slots[2].prio == 1;
    k := PromoteStep(d, [1], m2, 2, mem);
    assert [1] + [2] == [1, 2];
    ReachableInv(k, [1, 2]);
    StackFits(k, [1, 2]);
    AgainExactly(k, [1, 2], 0x1_0001);
  }

  lemma StackFits(k: Kernel, st: seq<nat>)
    requires Inv(k, st)
    ensures forall m :: 0 <= m < |st| ==> st[m] < |k.slots|
  {
  }

  lemma TakeTurns(addr: nat, one: nat, two: nat, three: nat, byte: nat, mem: Memory)
    returns (a: Kernel, b: Kernel, c: Kernel)
    requires addr != 0 && one != 0 && two != 0 && three != 0
    requires addr != one && addr != two && addr != three && one != two && one != three && two != three
    ensures Reachable(a, []) && Leads(a, [], b, []) && Leads(b, [], c, []) && Reachable(c, [])
    ensures a.current == 1 && b.current == 2 && c.current == 3 && |c.slots| == 4
    ensures c.slots[1].state == Sleep && c.slots[1].prio == 1 && c.slots[2].state == Sleep && c.slots[2].prio == 1
    ensures c.slots[0].state == Sleep && c.slots[0].prio == 0 && c.lstash == 3 <= |c.stash| && c.stash[..3] == [0, 1, 2]
  {
    hide Step, Reachable, Leads, Shows;
    var t1, t2, t3 := Task(one, 1, false), Task(two, 1, false), Task(three, 2, false);
    a := FirstState(4, addr, byte, t1, mem);
    var r0 := [Row(Sleep, 0, addr), Row(Active, 1, one), IDLE, IDLE];
    assert Opening(4, addr, t1) == r0;
    var k1 := CreateStep(a, r0, [0, 1], 1, 2, t2, 2, mem);
    var r1 := [Row(Sleep, 0, addr), Row(Active, 1, one), Row(Sleep, 1, two), IDLE];
    assert r0[2 := Row(Sleep, 1, two)] == r1;
    assert Nearest(r1[1 := Row(Sleep, 1, one)], 1, 1, 1, 2);
    b := TickStep(k1, mem, r1, [0, 1], 1, 3, 2);
    LeadsOn(a, [], k1, [], b, []);
    var r2 := [Row(Sleep, 0, addr), Row(Sleep, 1, one), Row(Active, 1, two), IDLE];
    assert r1[1 := Row(Sleep, 1, one)][2 := Row(Active, 1, two)] == r2;
    var k2 := CreateStep(b, r2, [0, 1], 1, 3, t3, 3, mem);
    var r3 := [Row(Sleep, 0, addr), Row(Sleep, 1, one), Row(Active, 1, two), Row(Sleep, 2, three)];
    assert r2[3 := Row(Sleep, 2, three)] == r3;
    assert 2 !in [0, 1] && [0, 1] + [2] == [0, 1, 2];
    assert Nearest(r3[2 := Row(Sleep, 1, two)], 2, 2, 2, 3);
    c := TickStep(k2, mem, r3, [0, 1, 2], 2, 4, 3);
    LeadsOn(b, [], k2, [], c, []);
    RowsOf(c, r3[2 := Row(Sleep, 1, two)][3 := Row(Active, 2, three)], [0, 1, 2], 2, 4);
  }

  // ----- reached: the sentinel

  /** The kernel admits a task at level 127. A promotion is then not recognised as one by the next. */
  lemma SentinelReached(addr: nat, t: Task, top: Task, byte: nat, mem: Memory) returns (k: Kernel)
    requires addr != 0 && t.addr != 0 && t.addr != addr && t.prio == 1 && !t.hibernate
    requires top.prio == 127 && !top.hibernate
    ensures Reachable(k, []) && Shaped(k) && Searchable(k) && Admission(k, top) == NoError && |k.slots| == 3
    ensures var r := Created(k, top);
            && r.maxLevel == 127 && !InPromotion(r) && r.current < |r.slots|
            && forall mutex: nat, owner: nat :: owner < |r.slots| ==> !InPromotion(Promoted(r, mutex, owner))
  {
    hide Reachable, Shows, Inv, Created, Promoted;
    k := FirstState(3, addr, byte, t, mem);
    RowsOf(k, Opening(3, addr, t), [0, 1], 1, 2);
    TopIs(k, Opening(3, addr, t), [0, 1], 1, 2);
    ReachableInv(k, []);
    AdmitsTop(k, top);
    var r := Created(k, top);
    forall mutex: nat, owner: nat | owner < |r.slots| ensures !InPromotion(Promoted(r, mutex, owner)) {
      SentinelWorks(r, mutex, owner);
    }
  }

  lemma AdmitsTop(k: Kernel, top: Task)
    requires Inv(k, []) && |k.slots| == 3 && k.slots[2].state == Idle && !InPromotion(k)
    requires top.prio == 127 && !top.hibernate
    requires k.slots[0].state != Idle && k.slots[1].state != Idle
    ensures Shaped(k) && Searchable(k) && Admission(k, top) == NoError
    ensures var r := Created(k, top); r.maxLevel == 127 && !InPromotion(r) && r.current < |r.slots|
  {
    hide Counted, Named, Ring, Search, Added, Tally;
    CountAll(k.slots, Live);
    CountBound(k.slots, Live);
    LiveBelowTop(k, []);
    var i := FirstIdle(k.slots);
    var r := Created(k, top);
    assert Live(k.slots[0]) && Live(k.slots[1]) && !Live(k.slots[2]);
    assert i == 2;
    assert r.slots == Placed(k, 2, top);
  }

  // ----- reached: invocations without their guards

  lemma InvokeStep(k: Kernel, mem: Memory) returns (r: Kernel)
    requires Reachable(k, []) && 0 < k.current < |k.slots| && CanPromote(k, BASE_MUTEX, 0) && k.slots[0].state == Sleep
    ensures Reachable(r, [0]) && r.current == 0 && |r.slots| == |k.slots| && r.stash == k.stash && r.lstash == k.lstash
    ensures forall u :: 0 < u < |k.slots| && u != k.current && k.slots[u].state == Sleep ==>
              r.slots[u].state == Sleep && r.slots[u].prio == k.slots[u].prio
  {
    hide Reachable, Leads, Core, Promoted, Scheduled;
    ReachableInv(k, []);
    CoreFacts(k, []);
    QuietInvoke(k);
    var q := Invoked(k).0;
    QuietKeeps(k, q, []);
    InvSettled(q, []);
    OwnerRunsNext(q, [], BASE_MUTEX, 0, mem);
    r :| Step(q, Promote(BASE_MUTEX, 0), mem, r);
    OthersAsleep(q, BASE_MUTEX, 0, mem, r);
    assert Step(k, Invoke, mem, r);
    assert StackAfter(k, [], Invoke) == [0];
    ReachStep(k, [], Invoke, mem, r);
  }

  /** A tick interrupts the base task while it serves, and another task invokes it: its own priority is lost. */
  lemma SecondInvocationReached(addr: nat, one: nat, two: nat, three: nat, byte: nat, mem: Memory) returns (k: Kernel)
    requires addr != 0 && one != 0 && two != 0 && three != 0
    requires addr != one && addr != two && addr != three && one != two && one != three && two != three
    ensures 0 < k.current < |k.slots| && k.slots[0].prio > 126
    ensures forall s :: !Core(Promoted(Invoked(k).0, BASE_MUTEX, 0), s)
    ensures Reachable(k, [0])
  {
    hide Reachable, Leads, Shows, Inv, Step, Promoted;
    var a, b, c := TakeTurns(addr, one, two, three, byte, mem);
    var d := InvokeStep(c, mem);
    ReachableInv(d, [0]);
    k := PassesBase(d, mem);
    ReachStep(d, [0], Tick, mem, k);
    ReachableInv(k, [0]);
    BaseOnTop(k);
    InvokedTwice(k, [0]);
  }

  lemma BaseOnTop(k: Kernel)
    requires Inv(k, [0])
    ensures |k.slots| > 0 && k.slots[0].prio == 128 == k.maxLevel && Live(k.slots[0])
  {
    hide Ring, Levelled, Counted, Named;
    var st: seq<nat> := [0];
    assert st[0] == 0 && k.slots[st[0]].prio == 128;
  }

  lemma PassesBase(k: Kernel, mem: Memory) returns (r: Kernel)
    requires Inv(k, [0]) && Settled(k) && |k.slots| == 4 && k.current == 0
    requires k.lstash == 3 <= |k.stash| && k.stash[..3] == [0, 1, 2] && k.slots[1].state == Sleep &&
        k.slots[1].prio == 1
    ensures Step(k, Tick, mem, r) && StackAfter(k, [0], Tick) == [0] && 0 < r.current < |r.slots|
  {
    hide Core, Selectable, Scheduled;
    BaseOnTop(k);
    TickBetween(k, [0]);
    OneIsReady(k, mem);
    ScheduleEnds(k, mem, [0]);
    r :| Scheduled(k, mem, r);
    NotTheBase(k, mem, r);
  }

  lemma OneIsReady(k: Kernel, mem: Memory)
    requires Running(k) && |k.slots| == 4 && k.current == 0 && k.lstash == 3 <= |k.stash| && k.stash[..3] == [0, 1, 2]
    requires k.slots[1].state == Sleep && k.slots[1].prio == 1
    ensures Selectable(Awake(k, mem))
  {
    var q, p := Prepared(k), Awake(k, mem);
    assert p.slots[1] == Wake(q.slots[1], mem) && p.slots[0] == Wake(q.slots[0], mem);
    assert p.stash[1] == k.stash[..3][1] == 1;
    assert Below(p, 1) && Ready(p, 1, p.stash[1]);
  }

  lemma NotTheBase(k: Kernel, mem: Memory, r: Kernel)
    requires Running(k) && |k.slots| == 4 && k.current == 0 && k.lstash == 3 <= |k.stash| && k.stash[..3] == [0, 1, 2]
    requires k.slots[0].prio == 128 && Scheduled(k, mem, r)
    ensures 0 < r.current < |r.slots|
  {
    hide Byte, Count, NoneAbove;
    var q, p := Prepared(k), Awake(k, mem);
    assert forall u :: 0 <= u < 4 ==> p.slots[u] == Wake(q.slots[u], mem);
    var t: nat, level: nat :| t < |p.slots| && Picked(p, t, level) && r == Resumed(p, t, level);
    assert !Rival(p, 0);
    assert forall m :: Below(p, m) ==> p.stash[m] == k.stash[..3][m] <= 2;
  }

  /** With a free slot, a base task that runs without an invocation and releases matches that slot. */
  lemma StrayReleaseReached(addr: nat, t: Task, byte: nat, error: nat, mem: Memory) returns (k: Kernel)
    requires addr != 0 && t.addr != 0 && t.addr != addr && t.prio == 1 && !t.hibernate
    ensures k.current == 0 < |k.slots| && k.slots[0].mutex == 0 && Released(k, error).1 == NoError
    ensures !exists s :: Core(AfterRelease(k, error), s) && Between(AfterRelease(k, error))
    ensures Reachable(k, [])
  {
    hide Reachable, Shows, Inv, AfterRelease, Between;
    k := BaseRuns(addr, t, byte, mem);
    var rows := [Row(Active, 0, addr), Row(Sleep, 1, t.addr), IDLE];
    RowsOf(k, rows, [0, 1], 1, 2);
    TopIs(k, rows, [0, 1], 1, 2);
    ReachableInv(k, []);
    IdleMatches(k, error);
    ReleaseKeepsExactly(k, [], error);
  }

  /** The first tick gives the processor to the base task. */
  lemma BaseRuns(addr: nat, t: Task, byte: nat, mem: Memory) returns (k: Kernel)
    requires addr != 0 && t.addr != 0 && t.addr != addr && t.prio == 1 && !t.hibernate
    ensures Reachable(k, []) && k.current == 0
    ensures Shows(k, [Row(Active, 0, addr), Row(Sleep, 1, t.addr), IDLE], [0, 1], 1, 2)
  {
    hide Reachable, Leads, Shows, Inv, Step;
    var a := FirstState(3, addr, byte, t, mem);
    assert Opening(3, addr, t) == [Row(Sleep, 0, addr), Row(Active, 1, t.addr), IDLE];
    RowsOf(a, Opening(3, addr, t), [0, 1], 1, 2);
    TopIs(a, Opening(3, addr, t), [0, 1], 1, 2);
    ReachableInv(a, []);
    YieldEndsSoon(a, [], Tick, mem);
    k :| Step(a, Tick, mem, k);
    ToTheBase(a, addr, t.addr, mem, k);
    ReachStep(a, [], Tick, mem, k);
  }

  lemma ToTheBase(k: Kernel, addr: nat, one: nat, mem: Memory, r: Kernel)
    requires Inv(k, []) && Shows(k, [Row(Sleep, 0, addr), Row(Active, 1, one), IDLE], [0, 1], 1, 2) && k.current == 1
    requires Step(k, Tick, mem, r)
    ensures r.current == 0 && Shows(r, [Row(Active, 0, addr), Row(Sleep, 1, one), IDLE], [0, 1], 1, 2)
  {
    hide Core, Picked, Awake;
    var rows := [Row(Sleep, 0, addr), Row(Sleep, 1, one), IDLE];
    var p := Awake(k, mem);
    assert Shows(Prepared(k), rows, [0, 1], 1, 2) by { SleepShown(k, addr, one); }
    ShowAwake(k, mem, rows, [0, 1], 1, 2);
    AwakePlace(k, mem);
    RowsOf(p, rows, [0, 1], 1, 2);
    var t: nat, level: nat :| t < |p.slots| && Picked(p, t, level) && r == Resumed(p, t, level);
    OnlyLevelZero(p, t, level);
    BaseShownActive(p, addr, one, level);
  }

  lemma SleepShown(k: Kernel, addr: nat, one: nat)
    requires Shows(k, [Row(Sleep, 0, addr), Row(Active, 1, one), IDLE], [0, 1], 1, 2) && k.current == 1 && k.normal
    ensures Shows(Prepared(k), [Row(Sleep, 0, addr), Row(Sleep, 1, one), IDLE], [0, 1], 1, 2)
  {
    forall u | 0 <= u < 3 ensures Row(Prepared(k).slots[u].state, Prepared(k).slots[u].prio,
        Prepared(k).slots[u].obj) == [Row(Sleep, 0, addr), Row(Sleep, 1, one), IDLE][u] {
      assert Row(k.slots[u].state, k.slots[u].prio, k.slots[u].obj) ==
             [Row(Sleep, 0, addr), Row(Active, 1, one), IDLE][u];
    }
  }

  lemma BaseShownActive(p: Kernel, addr: nat, one: nat, level: nat)
    requires Shows(p, [Row(Sleep, 0, addr), Row(Sleep, 1, one), IDLE], [0, 1], 1, 2)
    ensures Shows(Resumed(p, 0, level), [Row(Active, 0, addr), Row(Sleep, 1, one), IDLE], [0, 1], 1, 2)
  {
    var r := Resumed(p, 0, level);
    forall u | 0 <= u < 3 ensures Row(r.slots[u].state, r.slots[u].prio, r.slots[u].obj) ==
        [Row(Active, 0, addr), Row(Sleep, 1, one), IDLE][u] {
      assert Row(p.slots[u].state, p.slots[u].prio, p.slots[u].obj) ==
             [Row(Sleep, 0, addr), Row(Sleep, 1, one), IDLE][u];
    }
  }

  lemma OnlyLevelZero(p: Kernel, t: nat, level: nat)
    requires |p.slots| == 3 && p.current == 1 && p.maxLevel == 1 && p.lstash == 2 <= |p.stash| && p.stash[..2] == [0, 1]
    requires p.slots[0].prio == 0 && p.slots[1].prio == 1 && p.slots[2].state == Idle && t < 3 && Picked(p, t, level)
    ensures t == 0
  {
    hide NoneAbove;
    assert forall u :: !Rival(p, u);
    var m :| Below(p, m) && p.stash[m] == level && NoneAbove(p, m);
    assert p.stash[m] == p.stash[..2][m];
  }

  lemma IdleMatches(k: Kernel, error: nat)
    requires Inv(k, []) && k.current == 0 && |k.slots| == 3 && k.slots[2].state == Idle && k.invoked == 0
    ensures k.slots[0].mutex == 0 && k.slots[2].id == k.invoked && Released(k, error).1 == NoError
  {
    hide Ring, Levelled, Counted;
    assert WithId(k.slots, 0, 0) <= 2;
  }
}
