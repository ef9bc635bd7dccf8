/** What every service and every scheduling keeps. The promoted tasks are carried as a stack, lowest first. */
module Invariant {
  import opened Slots
  import opened JumpList
  import opened LevelStash
  import opened Services
  import opened Scheduler

  predicate InPromotion(k: Kernel) { k.maxpLevel != NO_PROMOTION }

  /** The highest user level of a live task, and how many tasks were counted there, promotion or not. */
  function UserTop(k: Kernel): nat {
    if InPromotion(k) then k.maxpLevel else k.maxLevel
  }

  function UserSum(k: Kernel): nat {
    if InPromotion(k) then Byte(k.alcp + k.hlcp) else Byte(k.alc + k.hlc)
  }

  /** The m-th promoted task runs at 128 + m and the top level is that of the last one; nobody else runs above 126. */
  ghost predicate Stacked(k: Kernel, st: seq<nat>) {
    && (InPromotion(k) <==> st != [])
    && (InPromotion(k) ==> k.maxLevel == 127 + |st|)
    && (forall m :: 0 <= m < |st| ==>
          st[m] < |k.slots| && Live(k.slots[st[m]]) && k.slots[st[m]].prio == 128 + m && k.slots[st[m]].saved <= 126)
    && (forall u :: 0 <= u < |k.slots| && k.slots[u].prio > 126 ==> u in st)
    && (forall u :: 0 <= u < |k.slots| ==> (k.slots[u].mutex != 0 <==> u in st))
  }

  /** The base task is at level 0; live user levels are listed, at most 126, and reach exactly up to the user top. */
  ghost predicate Levelled(k: Kernel) {
    && |k.stash| == |k.slots| + 1 && Sorted(k.stash, k.lstash) && |k.slots| > 0 && Level(k.slots[0]) == 0
    && (forall i :: 0 <= i < k.lstash ==> k.stash[i] <= 126)
    && (forall u :: 0 <= u < |k.slots| && Live(k.slots[u]) ==>
          Level(k.slots[u]) in k.stash[..k.lstash] && Level(k.slots[u]) <= UserTop(k))
    && (exists u :: 0 <= u < |k.slots| && Live(k.slots[u]) && Level(k.slots[u]) == UserTop(k))
  }

  /** The two 8-bit counters together never undercount the live tasks at the top level. */
  ghost predicate Counted(k: Kernel) {
    Count(k.slots, LiveLevel(UserTop(k))) <= UserSum(k) <= |k.slots| + k.taskCount
  }

  /** During a promotion they count the one task at the top. */
  ghost predicate CountsTop(k: Kernel) {
    InPromotion(k) ==> Byte(k.alc + k.hlc) == 1
  }

  /** Ids name their slot in the upper half and carry distinct creation numbers in the lower half; no task object sits
      in two slots; idle slots are blank. */
  ghost predicate Named(k: Kernel) {
    && (forall i :: 0 <= i < |k.slots| ==>
          if Live(k.slots[i]) then
            k.slots[i].id / 0x1_0000 == i && 0 < k.slots[i].id % 0x1_0000 <= k.totalCount && k.slots[i].obj != 0
          else k.slots[i].id == 0 && k.slots[i].obj == 0)
    && (forall i, j :: 0 <= i < j < |k.slots| && Live(k.slots[i]) && Live(k.slots[j]) ==>
          k.slots[i].id % 0x1_0000 != k.slots[j].id % 0x1_0000 && k.slots[i].obj != k.slots[j].obj)
  }

  ghost predicate Core(k: Kernel, st: seq<nat>) {
    Shaped(k) && Ring(k.slots) && Levelled(k) && Stacked(k, st) && Counted(k) && CountsTop(k) && Named(k)
  }

  /** A slot is ACTIVE if and only if it is the current task. */
  ghost predicate Running(k: Kernel) {
    && k.started && k.normal && !k.selfKill && k.next == k.current < |k.slots|
    && forall i :: 0 <= i < |k.slots| ==> (k.slots[i].state == Active <==> i == k.current)
  }

  /** Only the top of the stack or an unpromoted task runs. */
  ghost predicate TopRuns(k: Kernel, st: seq<nat>) {
    k.current in st ==> k.current == st[|st| - 1]
  }

  /** The timer is off only while the counters name the running task as the sole one at the top level. */
  ghost predicate Timed(k: Kernel) {
    !k.timer ==> k.alc == 1 && k.hlc == 0 && k.current < |k.slots| && k.slots[k.current].prio == k.maxLevel
  }

  ghost predicate Inv(k: Kernel, st: seq<nat>) {
    Core(k, st) && Running(k) && TopRuns(k, st) && Timed(k)
  }

  /** Between a service and the scheduling that follows it. */
  ghost predicate Between(k: Kernel) {
    && k.started && !k.selfKill && k.next < |k.slots| && k.current < |k.slots|
    && Live(k.slots[k.next]) && (Live(k.slots[k.current]) ==> k.next == k.current)
    && (k.normal ==> Live(k.slots[k.current]))
    && forall i :: 0 <= i < |k.slots| && k.slots[i].state == Active ==> i == k.current && k.normal
  }

  // ----- what the invariant says about the timer

  lemma OneCountedTask(k: Kernel, u: nat, v: nat)
    requires Counted(k) && !InPromotion(k) && k.alc == 1 && k.hlc == 0 && u < |k.slots| && v < |k.slots|
    requires Live(k.slots[u]) && Live(k.slots[v]) && Level(k.slots[u]) == Level(k.slots[v]) == k.maxLevel
    ensures u == v
  {
    assert UserSum(k) == 1;
    CountOne(k.slots, LiveLevel(k.maxLevel), u, v);
  }

  lemma OneStackedTask(k: Kernel, st: seq<nat>, u: nat, v: nat)
    requires Stacked(k, st) && u < |k.slots| && v < |k.slots| && k.slots[u].prio == k.slots[v].prio > 126
    ensures u == v
  {
    assert u in st && v in st;
  }

  /** With the timer off, the running task is the only live one at the top level. */
  lemma TimerOffMeansAlone(k: Kernel, st: seq<nat>, u: nat)
    requires Inv(k, st) && !k.timer && u < |k.slots| && Live(k.slots[u]) && k.slots[u].prio == k.maxLevel
    ensures u == k.current
  {
    var c := k.current;
    assert k.slots[c].state == Active;
    if k.maxLevel > 126 {
      OneStackedTask(k, st, u, c);
    } else {
      OneCountedTask(k, u, c);
    }
  }

  // ----- updates that leave every task in place

  /** Same task, same link, same priorities; the state may change but not to or from IDLE. */
  predicate SameTask(s: Slot, r: Slot) {
    && (Live(s) <==> Live(r)) && s.jmp == r.jmp && s.prio == r.prio && s.saved == r.saved
    && s.mutex == r.mutex && s.id == r.id && s.obj == r.obj
  }

  ghost predicate SameTasks(k: Kernel, r: Kernel) {
    && |r.slots| == |k.slots| && (forall i :: 0 <= i < |k.slots| ==> SameTask(k.slots[i], r.slots[i]))
    && r.stash == k.stash && r.lstash == k.lstash
    && r.maxLevel == k.maxLevel && r.maxpLevel == k.maxpLevel
    && r.alc < 256 && r.hlc < 256 && Byte(r.alc + r.hlc) == Byte(k.alc + k.hlc)
    && r.alcp == k.alcp && r.hlcp == k.hlcp
    && r.taskCount == k.taskCount && r.totalCount == k.totalCount
    && r.current < |k.slots| && r.next < |k.slots|
  }

  lemma SameCount(t: seq<Slot>, u: seq<Slot>, p: Slot -> bool)
    requires |t| == |u| && forall i :: 0 <= i < |t| ==> (p(t[i]) <==> p(u[i]))
    ensures Count(t, p) == Count(u, p)
  {
    CountMono(t, p, u, p);
    CountMono(u, p, t, p);
  }

  /** Same tasks at the same user levels, whatever is promoted. */
  ghost predicate SameLevels(k: Kernel, r: Kernel) {
    && |r.slots| == |k.slots|
    && (forall i :: 0 <= i < |k.slots| ==>
          && (Live(k.slots[i]) <==> Live(r.slots[i])) && k.slots[i].jmp == r.slots[i].jmp
          && Level(k.slots[i]) == Level(r.slots[i]) && k.slots[i].id == r.slots[i].id &&
              k.slots[i].obj == r.slots[i].obj)
    && r.stash == k.stash && r.lstash == k.lstash
    && UserTop(r) == UserTop(k) && UserSum(r) == UserSum(k)
    && r.taskCount == k.taskCount && r.totalCount == k.totalCount
  }

  lemma SameLevelled(k: Kernel, r: Kernel)
    requires Levelled(k) && SameLevels(k, r)
    ensures Levelled(r)
  {
    var u :| 0 <= u < |k.slots| && Live(k.slots[u]) && Level(k.slots[u]) == UserTop(k);
    assert Live(r.slots[u]) && Level(r.slots[u]) == UserTop(r);
  }

  lemma SameNamed(k: Kernel, r: Kernel)
    requires Named(k) && SameLevels(k, r)
    ensures Named(r)
  {
  }

  lemma SameCounted(k: Kernel, r: Kernel)
    requires Counted(k) && SameLevels(k, r)
    ensures Counted(r)
  {
    SameCount(k.slots, r.slots, LiveLevel(UserTop(k)));
  }

  ghost predicate SmallFields(k: Kernel) {
    && k.current < |k.slots| && k.next < |k.slots|
    && k.alc < 256 && k.hlc < 256 && k.alcp < 256 && k.hlcp < 256 && k.maxLevel < 256 && k.maxpLevel < 256
  }

  /** Everything but the stack carries over. */
  lemma SameLevelsCore(k: Kernel, st: seq<nat>, r: Kernel, st': seq<nat>)
    requires Core(k, st) && SameLevels(k, r) && SmallFields(r) && Stacked(r, st') && CountsTop(r)
    ensures Core(r, st')
  {
    SameCount(k.slots, r.slots, Live);
    UpdateKeepsRing(k.slots, r.slots);
    SameLevelled(k, r);
    SameCounted(k, r);
    SameNamed(k, r);
  }

  lemma SameStacked(k: Kernel, r: Kernel, st: seq<nat>)
    requires Stacked(k, st) && SameTasks(k, r)
    ensures Stacked(r, st)
  {
    forall m | 0 <= m < |st|
      ensures st[m] < |r.slots| && Live(r.slots[st[m]]) && r.slots[st[m]].prio == 128 + m && r.slots[st[m]].saved <= 126
    {
      assert SameTask(k.slots[st[m]], r.slots[st[m]]);
    }
    forall u | 0 <= u < |r.slots|
      ensures (r.slots[u].prio > 126 ==> u in st) && (r.slots[u].mutex != 0 <==> u in st)
    {
      assert SameTask(k.slots[u], r.slots[u]);
    }
  }

  lemma SameTasksLevels(k: Kernel, r: Kernel)
    requires SameTasks(k, r)
    ensures SameLevels(k, r)
  {
    forall i | 0 <= i < |k.slots|
      ensures && (Live(k.slots[i]) <==> Live(r.slots[i])) && k.slots[i].jmp == r.slots[i].jmp
              && Level(k.slots[i]) == Level(r.slots[i]) && k.slots[i].id == r.slots[i].id &&
                  k.slots[i].obj == r.slots[i].obj
    {
      assert SameTask(k.slots[i], r.slots[i]);
    }
  }

  lemma SameCore(k: Kernel, r: Kernel, st: seq<nat>)
    requires Core(k, st) && SameTasks(k, r)
    ensures Core(r, st)
  {
    SameTasksLevels(k, r);
    SameStacked(k, r, st);
    SameLevelsCore(k, st, r, st);
  }

  // ----- scheduling

  /** The selected task becomes current; the timer stays off only for a sole task at the top level. */
  function Resumed(k: Kernel, t: nat, level: nat): Kernel
    requires t < |k.slots|
  {
    SetState(k, t, Active).(next := t, current := t, timer := !(k.alc == 1 && k.hlc == 0) || level != k.maxLevel)
  }

  /** One run of the scheduler followed by the context switch. */
  ghost predicate Scheduled(k: Kernel, mem: Memory, r: Kernel)
    requires k.current < |k.slots|
  {
    var p := Awake(k, mem);
    exists t: nat, level: nat :: t < |p.slots| && Picked(p, t, level) && r == Resumed(p, t, level)
  }

  lemma PreparedSame(k: Kernel)
    requires k.current < |k.slots| && k.next < |k.slots| && k.alc < 256 && k.hlc < 256 && Between(k)
    ensures SameTasks(k, Prepared(k))
    ensures forall i :: 0 <= i < |k.slots| ==> Prepared(k).slots[i].state != Active
  {
  }

  lemma SweptSame(k: Kernel, mem: Memory)
    requires k.current < |k.slots| && k.next < |k.slots|
    requires forall i :: 0 <= i < |k.slots| ==> k.slots[i].state != Active
    ensures SameTasks(k, Swept(k, mem))
    ensures forall i :: 0 <= i < |k.slots| ==> Swept(k, mem).slots[i].state != Active
  {
    var r := Swept(k, mem);
    forall i | 0 <= i < |k.slots| ensures SameTask(k.slots[i], r.slots[i]) && r.slots[i].state != Active {
      assert r.slots[i] == Wake(k.slots[i], mem);
    }
    SumKept(k.alc, k.hlc, Count(k.slots, DueAt(k.maxLevel, mem)));
  }

  /** Moving w tasks from one 8-bit counter to the other keeps their sum. */
  lemma SumKept(alc: nat, hlc: nat, w: int)
    ensures Byte(Byte(alc + w) + Byte(hlc - w)) == Byte(alc + hlc)
  {
    ByteShift(alc + hlc, -((alc + w) / 256) - (hlc - w) / 256);
  }

  lemma ByteShift(x: int, q: int)
    ensures Byte(x + 256 * q) == Byte(x)
  {
  }

  lemma SameTasksTrans(k: Kernel, p: Kernel, r: Kernel)
    requires SameTasks(k, p) && SameTasks(p, r)
    ensures SameTasks(k, r)
  {
    forall i | 0 <= i < |k.slots| ensures SameTask(k.slots[i], r.slots[i]) {
      assert SameTask(k.slots[i], p.slots[i]) && SameTask(p.slots[i], r.slots[i]);
    }
  }

  /** The state the selection loop works on. */
  function Awake(k: Kernel, mem: Memory): Kernel
    requires k.current < |k.slots|
  {
    Swept(Prepared(k), mem)
  }

  lemma AwakeSame(k: Kernel, mem: Memory)
    requires k.current < |k.slots| && k.next < |k.slots| && k.alc < 256 && k.hlc < 256 && Between(k)
    ensures SameTasks(k, Awake(k, mem)) && Awake(k, mem).current == k.current && Awake(k, mem).next == k.next
    ensures forall i :: 0 <= i < |k.slots| ==> Awake(k, mem).slots[i].state != Active
    ensures !Awake(k, mem).selfKill && Awake(k, mem).normal && Awake(k, mem).started
  {
    PreparedSame(k);
    SweptSame(Prepared(k), mem);
    SameTasksTrans(k, Prepared(k), Awake(k, mem));
  }

  lemma AwakeWalkable(k: Kernel, mem: Memory)
    requires Ring(k.slots) && |k.stash| == |k.slots| + 1 && Sorted(k.stash, k.lstash)
    requires k.current < |k.slots| && k.next < |k.slots| && k.alc < 256 && k.hlc < 256 && Between(k)
    ensures Walkable(Awake(k, mem))
  {
    AwakeSame(k, mem);
    var p := Awake(k, mem);
    assert forall i :: 0 <= i < |k.slots| ==> SameTask(k.slots[i], p.slots[i]);
    UpdateKeepsRing(k.slots, p.slots);
  }

  /** A selected task is runnable at its level, and never a promoted task below the top of the stack. */
  lemma PickRuns(k: Kernel, st: seq<nat>, t: nat, level: nat)
    requires Stacked(k, st) && t < |k.slots| && Picked(k, t, level)
    requires k.lstash <= |k.stash| && forall i :: 0 <= i < k.lstash ==> k.stash[i] <= 126
    ensures k.slots[t].state == Sleep && k.slots[t].prio == level
    ensures t in st ==> t == st[|st| - 1]
  {
    if exists u :: Rival(k, u) {
      assert Rival(k, t);
    } else {
      var m :| Below(k, m) && k.stash[m] == level && NoneAbove(k, m);
    }
  }

  lemma ResumedSame(k: Kernel, t: nat, level: nat)
    requires t < |k.slots| && Live(k.slots[t]) && k.alc < 256 && k.hlc < 256
    requires forall i :: 0 <= i < |k.slots| ==> k.slots[i].state != Active
    requires !k.selfKill && k.normal && k.started && level == k.slots[t].prio
    ensures SameTasks(k, Resumed(k, t, level)) && Running(Resumed(k, t, level)) && Timed(Resumed(k, t, level))
    ensures Resumed(k, t, level).current == t
  {
  }

  lemma CoreFacts(k: Kernel, st: seq<nat>)
    requires Core(k, st)
    ensures SmallFields(k) && Stacked(k, st) && k.lstash <= |k.stash| && forall i :: 0 <= i < k.lstash ==>
        k.stash[i] <= 126
  {
  }

  /** Every scheduling from a settled service ends in a state satisfying the whole invariant. */
  lemma ScheduleKeeps(k: Kernel, mem: Memory, r: Kernel, st: seq<nat>)
    requires Core(k, st) && Between(k) && Scheduled(k, mem, r)
    ensures Inv(r, st)
  {
    hide Core, Picked, Stacked, SameTasks, Resumed;
    CoreFacts(k, st);
    AwakeSame(k, mem);
    var p := Awake(k, mem);
    SameCore(k, p, st);
    CoreFacts(p, st);
    var t: nat, level: nat :| t < |p.slots| && Picked(p, t, level) && r == Resumed(p, t, level);
    PickRuns(p, st, t, level);
    ResumedSame(p, t, level);
    SameCore(p, r, st);
  }
}
