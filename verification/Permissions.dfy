/** Who has which permission: only the start and the grants of the base task decide it. */
module Permissions {
  import opened Slots
  import opened JumpList
  import opened Services
  import opened Scheduler
  import opened Invariant
  import opened Runs
  import opened Boot
  import opened Brackets
  import opened Fields
  import opened Reached
  import opened ReachedLocks

  // ----- the service

  /** A grant is refused exactly if the caller is not the base task, or no slot has the id. It gives a live task whose
      id is named the lower 16 bits of the permission, and changes nothing else. */
  lemma GrantsExactly(k: Kernel, st: seq<nat>, id: nat, permission: nat, u: nat)
    requires Core(k, st) && u < |k.slots| && Live(k.slots[u])
    ensures var (r, error) := Granted(k, id, permission);
            && (error == InsufficientPermission <==> k.current != 0)
            && (error == UnknownProcessId <==> k.current == 0 && forall x :: 0 <= x < |k.slots| ==> k.slots[x].id != id)
            && (error == NoError || (error in {InsufficientPermission, UnknownProcessId} && r == k))
            && (k.current == 0 && k.slots[u].id == id ==>
                  && error == NoError && r == k.(slots := r.slots) && |r.slots| == |k.slots|
                  && r.slots[u] == k.slots[u].(perm := permission % 0x1_0000)
                  && forall x :: 0 <= x < |k.slots| && x != u ==> r.slots[x] == k.slots[x])
  {
    hide Ring, Levelled, Stacked, Counted;
    var i := WithId(k.slots, id, 0);
    if k.slots[u].id == id { assert i <= u && Live(k.slots[i]); }
  }

  /** Idle slots have the id 0, so a grant to nobody is not refused while a slot is free: the first free slot gets the
      permission. */
  lemma GrantsToNobody(k: Kernel, st: seq<nat>, permission: nat, u: nat)
    requires Core(k, st) && k.current == 0 && u < |k.slots|
    requires !Live(k.slots[u]) && forall x :: 0 <= x < u ==> Live(k.slots[x])
    ensures var (r, error) := Granted(k, 0, permission);
            error == NoError && r == k.(slots := k.slots[u := k.slots[u].(perm := permission % 0x1_0000)])
  {
    hide Ring, Levelled, Stacked, Counted;
    assert forall x :: 0 <= x < u ==> Live(k.slots[x]) && k.slots[x].id != 0;
    assert WithId(k.slots, 0, 0) == u;
  }

  /** The start gives the base task every permission and the other slots none, and touches nothing else of the slots. */
  lemma StartGrants(k: Kernel, u: nat)
    requires u < |k.slots|
    ensures var r := Started(k);
            && |r.slots| == |k.slots| && r.slots[u] == k.slots[u].(perm := r.slots[u].perm)
            && r.slots[u].perm == (if u == 0 then 0xFFFF else 0)
            && r == k.(slots := r.slots, maxpLevel := 127, started := true, selfKill := false)
  {
  }

  // ----- one step

  /** Nothing but a grant that finds the slot changes its permission, not even the end of its task and the creation of
      another one. */
  lemma StepPermissions(k: Kernel, st: seq<nat>, e: Event, mem: Memory, r: Kernel, u: nat)
    requires Inv(k, st) && Step(k, e, mem, r) && u < |k.slots|
    ensures |r.slots| == |k.slots|
    ensures r.slots[u].perm == if GrantsTo(k, e, u) then e.permission % 0x1_0000 else k.slots[u].perm
  {
    hide Inv, Step;
    StepFields(k, st, e, mem, r, u);
  }

  // ----- runs

  /** Over every run, as long as no grant finds a slot its permission stays, whoever lives in the slot. */
  lemma {:induction false} PermissionStays(ks: seq<Kernel>, sts: seq<seq<nat>>, es: seq<Event>, ms: seq<Memory>, i: nat,
      j: nat, u: nat)
    requires Run(ks, sts, es, ms) && Inv(ks[0], sts[0]) && i <= j <= |es| && u < |ks[i].slots|
    requires forall x :: i <= x < j ==> !GrantsTo(ks[x], es[x], u)
    ensures u < |ks[j].slots| && ks[j].slots[u].perm == ks[i].slots[u].perm
    decreases j
  {
    hide Inv, Step;
    if i < j {
      PermissionStays(ks, sts, es, ms, i, j - 1, u);
      RunKeeps(ks, sts, es, ms, j - 1);
      assert Move(ks[j - 1], sts[j - 1], es[j - 1], ms[j - 1], ks[j], sts[j]);
      StepPermissions(ks[j - 1], sts[j - 1], es[j - 1], ms[j - 1], ks[j], u);
    }
  }

  /** Over every run a slot has the permission last granted to a task in it, cut to 16 bits. */
  lemma PermissionIsLastGrant(ks: seq<Kernel>, sts: seq<seq<nat>>, es: seq<Event>, ms: seq<Memory>, i: nat, j: nat,
      u: nat)
    requires Run(ks, sts, es, ms) && Inv(ks[0], sts[0]) && i < j <= |es| && GrantsTo(ks[i], es[i], u)
    requires forall x :: i < x < j ==> !GrantsTo(ks[x], es[x], u)
    ensures u < |ks[j].slots| && ks[j].slots[u].perm == es[i].permission % 0x1_0000
  {
    hide Inv, Step;
    RunKeeps(ks, sts, es, ms, i);
    assert Move(ks[i], sts[i], es[i], ms[i], ks[i + 1], sts[i + 1]);
    StepPermissions(ks[i], sts[i], es[i], ms[i], ks[i + 1], u);
    PermissionStays(ks, sts, es, ms, i + 1, j, u);
  }

  /** From the start of the system on: every permission for the base task and none for the others, until a grant. */
  lemma SystemPermissions(n: nat, addr: nat, byte: nat, ts: seq<Task>, boot: seq<Kernel>, mem: Memory,
                          ks: seq<Kernel>, sts: seq<seq<nat>>, es: seq<Event>, ms: seq<Memory>, j: nat, u: nat)
    requires 2 <= n <= 127 && addr != 0 && BootChain(n, addr, byte, ts, boot)
    requires Run(ks, sts, es, ms) && sts[0] == [] && j <= |es| && u < |ks[0].slots|
    requires var w := boot[|ts|]; w.current < |w.slots| && Scheduled(HandedOver(Started(w)), mem, ks[0])
    requires forall x :: 0 <= x < j ==> !GrantsTo(ks[x], es[x], u)
    ensures u < |ks[j].slots| && ks[j].slots[u].perm == (if u == 0 then 0xFFFF else 0)
  {
    hide Inv, Step, Waiting, Scheduled, Started, HandedOver;
    AllWait(n, addr, byte, ts, boot, |ts|);
    StartKeeps(boot[|ts|], mem, ks[0]);
    FirstPermissions(boot[|ts|], mem, ks[0], u);
    PermissionStays(ks, sts, es, ms, 0, j, u);
  }

  lemma FirstPermissions(w: Kernel, mem: Memory, k: Kernel, u: nat)
    requires w.current < |w.slots| && Scheduled(HandedOver(Started(w)), mem, k) && u < |k.slots|
    ensures k.slots[u].perm == if u == 0 then 0xFFFF else 0
  {
    hide Scheduled;
    ScheduledStates(HandedOver(Started(w)), mem, k);
    StartGrants(w, u);
  }

  // ----- a new task in the slot of a dead one

  /** The last grant before event j that finds slot u, or -1. */
  lemma {:induction false} LastGrant(ks: seq<Kernel>, es: seq<Event>, j: nat, u: nat) returns (x: int)
    requires j <= |es| <= |ks|
    ensures -1 <= x < j && (x >= 0 ==> GrantsTo(ks[x], es[x], u))
    ensures forall y :: x < y < j ==> !GrantsTo(ks[y], es[y], u)
    decreases j
  {
    if j == 0 {
      x := -1;
    } else if GrantsTo(ks[j - 1], es[j - 1], u) {
      x := j - 1;
    } else {
      x := LastGrant(ks, es, j - 1, u);
    }
  }

  /** Tasks other than the base task are meant to have no permission by default. In every run of the system a task that
      is created in slot u has none if and only if no grant has found the slot before, or the last one granted none. */
  lemma NewTaskInherits(n: nat, addr: nat, byte: nat, ts: seq<Task>, boot: seq<Kernel>, mem: Memory,
                        ks: seq<Kernel>, sts: seq<seq<nat>>, es: seq<Event>, ms: seq<Memory>, j: nat, u: nat)
    requires 2 <= n <= 127 && addr != 0 && BootChain(n, addr, byte, ts, boot)
    requires Run(ks, sts, es, ms) && sts[0] == []
    requires var w := boot[|ts|]; w.current < |w.slots| && Scheduled(HandedOver(Started(w)), mem, ks[0])
    requires j < |es| && es[j].Create? && 0 < u < |ks[0].slots| == |ks[j].slots|
    requires u < |ks[j + 1].slots| && !Live(ks[j].slots[u]) && Live(ks[j + 1].slots[u])
    ensures ks[j + 1].slots[u].perm == 0 <==>
            forall x :: 0 <= x < j && GrantsTo(ks[x], es[x], u) ==>
              (forall y :: x < y < j ==> !GrantsTo(ks[y], es[y], u)) ==> es[x].permission % 0x1_0000 == 0
  {
    hide Inv, Step, Waiting, Scheduled, Started, HandedOver, GrantsTo;
    AllWait(n, addr, byte, ts, boot, |ts|);
    StartKeeps(boot[|ts|], mem, ks[0]);
    var x := LastGrant(ks, es, j, u);
    OthersGrantNothing(ks[j], es[j], u);
    if x >= 0 {
      PermissionIsLastGrant(ks, sts, es, ms, x, j + 1, u);
    } else {
      SystemPermissions(n, addr, byte, ts, boot, mem, ks, sts, es, ms, j + 1, u);
    }
  }

  lemma OthersGrantNothing(k: Kernel, e: Event, u: nat)
    requires !e.Grant?
    ensures !GrantsTo(k, e, u)
  {
  }

  lemma ObjectAt(k: Kernel, rows: seq<Row>, levels: seq<nat>, top: nat, total: nat, u: nat)
    requires Shows(k, rows, levels, top, total) && u < |rows|
    ensures u < |k.slots| == |rows| && k.slots[u].obj == rows[u].obj && k.slots[u].state == rows[u].state
  {
    assert Row(k.slots[u].state, k.slots[u].prio, k.slots[u].obj) == rows[u];
  }

  lemma GrantStep(k: Kernel, rows: seq<Row>, levels: seq<nat>, top: nat, total: nat, u: nat, permission: nat,
      mem: Memory) returns (r: Kernel)
    requires Reachable(k, []) && Shows(k, rows, levels, top, total) && k.current == 0
    requires u < |rows| == |k.slots| && rows[u].state != Idle
    ensures Step(k, Grant(k.slots[u].id, permission), mem, r) && Reachable(r, []) && r.current == 0
    ensures Shows(r, rows, levels, top, total) && r.slots[u].perm == permission % 0x1_0000
  {
    hide Reachable, Leads, Inv, Granted, Core;
    ReachableInv(k, []);
    ObjectAt(k, rows, levels, top, total, u);
    InvCore(k, []);
    GrantsExactly(k, [], k.slots[u].id, permission, u);
    r := Granted(k, k.slots[u].id, permission).0;
    assert Step(k, Grant(k.slots[u].id, permission), mem, r);
    ReachStep(k, [], Grant(k.slots[u].id, permission), mem, r);
  }

  /** The base task creates a task, grants it a permission and kills it: the next task has the permission. */
  lemma InheritedReached(addr: nat, one: nat, two: nat, three: nat, byte: nat, permission: nat, mem: Memory)
    returns (a: Kernel, b: Kernel, c: Kernel, k: Kernel)
    requires addr != 0 && one != 0 && two != 0 && three != 0
    requires addr != one && addr != two && addr != three && one != two && one != three && two != three
    ensures Reachable(a, []) && |a.slots| == |k.slots| == 3 && a.slots[2].obj == two && k.slots[2].obj == three
    ensures Step(a, Grant(a.slots[2].id, permission), mem, b) && Step(b, Kill(2), mem, c)
    ensures Step(c, Create(Task(three, 1, false)), mem, k) && k.slots[2].perm == permission % 0x1_0000
  {
    hide Reachable, Leads, Inv, Step, Shows, Created, Killed, GrantsTo;
    var r0 := [Row(Active, 0, addr), Row(Sleep, 1, one), IDLE];
    var k0 := BaseRuns(addr, Task(one, 1, false), byte, mem);
    a := CreateStep(k0, r0, [0, 1], 1, 2, Task(two, 1, false), 2, mem);
    var r1 := [Row(Active, 0, addr), Row(Sleep, 1, one), Row(Sleep, 1, two)];
    assert r0[2 := Row(Sleep, 1, two)] == r1;
    SlotsOf(a, r1, [0, 1], 1, 3);
    b := GrantStep(a, r1, [0, 1], 1, 3, 2, permission, mem);
    c := KillStep(b, r1, [0, 1], 1, 3, 2, 1, mem);
    var r2 := r1[2 := Row(Idle, 1, 0)];
    k := CreateStep(c, r2, [0, 1], 1, 3, Task(three, 1, false), 2, mem);
    ReachableInv(b, []);
    ReachableInv(c, []);
    SlotsOf(b, r1, [0, 1], 1, 3);
    StepPermissions(b, [], Kill(2), mem, c, 2);
    StepPermissions(c, [], Create(Task(three, 1, false)), mem, k, 2);
    OthersGrantNothing(b, Kill(2), 2);
    OthersGrantNothing(c, Create(Task(three, 1, false)), 2);
    ObjectAt(a, r1, [0, 1], 1, 3, 2);
    ObjectAt(k, r2[2 := Row(Sleep, 1, three)], [0, 1], 1, 4, 2);
  }
}
