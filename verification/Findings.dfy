/** Where single services depart from what they are evidently meant to do, and the exact condition under which they keep
    the kernel's invariant. */
module Findings {
  import opened Slots
  import opened JumpList
  import opened LevelStash
  import opened Services
  import opened Scheduler
  import opened Invariant
  import opened Transitions
  import opened Runs
  import opened Order

  // ----- the byte behind the stash

  /** A kill keeps the invariant if and only if another slot carries the level, the stash is not full, or the byte
      behind it happens to be 0. */
  lemma KillKeepsExactly(k: Kernel, st: seq<nat>, i: nat, self: bool)
    requires Core(k, st) && Killable(k, i) && !InPromotion(k) && (k.selfKill || self ==> i == k.next)
    ensures (exists s :: Core(Killed(k, i, self), s)) <==>
            Shared(k.slots, i) || !Full(k.stash, k.lstash) || k.stash[k.lstash] == 0
  {
    hide Killed, Stacked, Counted, Named, CountsTop, Shaped, Ring;
    LiveBelowTop(k, st);
    CoreBaseLive(k, st);
    assert k.slots[0].prio == 0 && Level(k.slots[i]) in k.stash[..k.lstash];
    KilledStash(k, i, self);
    if Clean(k, i) {
      KillKeepsCore(k, st, i, self);
    }
  }

  /** With nothing promoted, a creation that the kernel admits keeps the invariant if and only if its priority is at
      most 126, its hibernate bit is clear, its object is not null and in no slot, its id has not wrapped, and its level
      is listed or has room and is put in the right place. */
  lemma CreateKeepsExactly(k: Kernel, st: seq<nat>, t: Task)
    requires Core(k, st) && Admission(k, t) == NoError && !InPromotion(k)
    ensures Shaped(k) && Searchable(k)
    ensures (exists s :: Core(Created(k, t), s)) <==> CanCreate(k, t)
  {
    CoreSearchable(k, st);
    hide Core, CanCreate, Created, Shaped, Searchable;
    if CanCreate(k, t) {
      CreateKeepsCore(k, st, t);
    } else {
      forall s ensures !Core(Created(k, t), s) { CreateBreaks(k, st, t, s); }
    }
  }

  lemma CoreSearchable(k: Kernel, st: seq<nat>)
    requires Core(k, st)
    ensures Shaped(k) && Searchable(k) && Ring(k.slots)
  {
  }

  lemma CreateBreaks(k: Kernel, st: seq<nat>, t: Task, s: seq<nat>)
    requires Core(k, st) && Admission(k, t) == NoError && !InPromotion(k) && Shaped(k) && Searchable(k) &&
        !CanCreate(k, t)
    ensures !Core(Created(k, t), s)
  {
    hide Core, CanCreate, Welcome, Created;
    if Core(Created(k, t), s) {
      NewTaskFacts(k, st, t, s);
      if Welcome(k, t) { CreateNeedsPlace(k, st, t, s); }
    }
  }

  lemma NewTaskFacts(k: Kernel, st: seq<nat>, t: Task, s: seq<nat>)
    requires Core(k, st) && Admission(k, t) == NoError && !InPromotion(k) && Shaped(k) && Searchable(k)
    requires Core(Created(k, t), s)
    ensures Welcome(k, t)
  {
    hide Core, Created, Count;
    CoreSearchable(k, st);
    var i := FirstIdle(k.slots);
    assert Live(k.slots[0]);
    var r := Created(k, t);
    assert r.slots == Link(k.slots, i, NewSlot(k, i, t)) && r.totalCount == (k.totalCount + 1) % 0x1_0000 by {
      CreatedIs(k, t);
    }
    LinkedSlots(k.slots, i, NewSlot(k, i, t));
    NewIsLive(k, st, t, r, s, i);
    LevelSmall(r, s, i);
    NewIdNeeds(i, k.totalCount);
    NameNeeds(r, s, i);
    NobodyNamed(k, st, r, i);
  }

  lemma CreatedIs(k: Kernel, t: Task)
    requires Shaped(k) && Searchable(k) && Admission(k, t) == NoError
    ensures var r := Created(k, t);
            && r.slots == Placed(k, FirstIdle(k.slots), t) && r.totalCount == (k.totalCount + 1) % 0x1_0000
            && r.maxpLevel == k.maxpLevel
  {
    hide Search, Added, TopLevel, Tally, Placed;
  }

  /** A task with the hibernate bit set is linked into the ring as an idle slot. */
  lemma NewIsLive(k: Kernel, st: seq<nat>, t: Task, r: Kernel, s: seq<nat>, i: nat)
    requires Core(k, st) && 0 < i < |k.slots| && !Live(k.slots[i]) && Live(k.slots[i - 1])
    requires r.slots == Link(k.slots, i, NewSlot(k, i, t)) && Core(r, s)
    ensures !t.hibernate && Live(r.slots[i])
  {
    hide Levelled, Stacked, Counted, Named;
    assert LinkOk(r.slots, i - 1);
  }

  lemma LevelSmall(r: Kernel, s: seq<nat>, i: nat)
    requires Core(r, s) && i < |r.slots| && Live(r.slots[i])
    ensures Level(r.slots[i]) <= 126
  {
    hide Ring, Stacked, Counted, Named;
    var x :| 0 <= x < r.lstash && r.stash[..r.lstash][x] == Level(r.slots[i]);
    assert r.stash[x] <= 126;
  }

  lemma NewIdNeeds(i: nat, total: nat)
    requires total < 0x1_0000
    ensures MakeId(i, total) % 0x1_0000 > 0 ==> total < 65535
  {
    if total == 65535 {
      NoLowHalf(i);
      NoLowHalf(i + 1);
    }
  }

  lemma NoLowHalf(i: nat)
    ensures (i * 0x1_0000) % 0x1_0000 == 0
  {
  }

  lemma NameNeeds(r: Kernel, s: seq<nat>, i: nat)
    requires Core(r, s) && i < |r.slots| && Live(r.slots[i])
    ensures r.slots[i].id % 0x1_0000 > 0 && r.slots[i].obj != 0
    ensures forall j :: 0 <= j < |r.slots| && j != i && Live(r.slots[j]) ==> r.slots[j].obj != r.slots[i].obj
  {
    hide Ring, Levelled, Stacked, Counted;
  }

  lemma NobodyNamed(k: Kernel, st: seq<nat>, r: Kernel, i: nat)
    requires Core(k, st) && i < |k.slots| == |r.slots| && r.slots[i].obj != 0 && !Live(k.slots[i])
    requires forall j :: 0 <= j < |k.slots| && j != i ==> Unmoved(k.slots[j], r.slots[j])
    requires forall j :: 0 <= j < |r.slots| && j != i && Live(r.slots[j]) ==> r.slots[j].obj != r.slots[i].obj
    ensures forall j :: 0 <= j < |k.slots| ==> k.slots[j].obj != r.slots[i].obj
  {
    hide Ring, Levelled, Stacked, Counted;
    forall j | 0 <= j < |k.slots| ensures k.slots[j].obj != r.slots[i].obj {
      if j != i { assert Unmoved(k.slots[j], r.slots[j]); }
    }
  }

  lemma CreateNeedsPlace(k: Kernel, st: seq<nat>, t: Task, s: seq<nat>)
    requires Core(k, st) && Welcome(k, t) && Core(Created(k, t), s)
    ensures CanCreate(k, t)
  {
    hide Stacked, Counted, Named, CountsTop, Ring, Search, Misplaced;
    var i := FirstIdle(k.slots);
    var r := Created(k, t);
    assert Ring(k.slots);
    CreatedSlots(k, t, i);
    assert Live(r.slots[i]) && Level(r.slots[i]) == t.prio;
    AddKeepsSorted(k.stash, k.lstash, t.prio);
  }

  // ----- the sentinel of promotion

  /** A first promotion is recognised as one by the next if and only if the top level was not 127. */
  lemma SentinelWorks(k: Kernel, mutex: nat, owner: nat)
    requires k.current < |k.slots| && owner < |k.slots| && !InPromotion(k)
    ensures InPromotion(Promoted(k, mutex, owner)) <==> k.maxLevel != 127
  {
  }

  /** From a top level of 127, two promotions in a row put both owners at 128, and the top level with them. */
  lemma SentinelCollides(k: Kernel, m1: nat, o1: nat, m2: nat, o2: nat, c: nat)
    requires k.current < |k.slots| && o1 < |k.slots| && o2 < |k.slots| && c < |k.slots| && o1 != o2
    requires k.maxpLevel == 127 && k.maxLevel == 127
    ensures var r := Promoted(Promoted(k, m1, o1).(current := c), m2, o2);
            r.slots[o1].prio == r.slots[o2].prio == r.maxLevel == 128
  {
  }

  /** Promoting another unpromoted slot keeps the invariant if and only if the slot is live. */
  lemma PromoteKeepsExactly(k: Kernel, st: seq<nat>, mutex: nat, owner: nat)
    requires Inv(k, st) && mutex != 0 && owner < |k.slots| && owner != k.current && k.slots[owner].prio <= 126
    ensures (exists s :: Core(Promoted(k, mutex, owner), s)) <==> Live(k.slots[owner])
  {
    hide Core, Promoted;
    if Live(k.slots[owner]) {
      PromoteKeeps(k, st, mutex, owner);
    } else {
      forall s ensures !Core(Promoted(k, mutex, owner), s) { PromotedIdle(k, st, mutex, owner, s); }
    }
  }

  lemma PromotedIdle(k: Kernel, st: seq<nat>, mutex: nat, owner: nat, s: seq<nat>)
    requires Inv(k, st) && owner < |k.slots| && owner != k.current && !Live(k.slots[owner])
    ensures !Core(Promoted(k, mutex, owner), s)
  {
    hide Ring, Levelled, Counted, Named;
    UserTopBelow(k, st);
    DepthAtMost(k, st);
    var r := Promoted(k, mutex, owner);
    assert r.slots[owner].prio > 126 && !Live(r.slots[owner]);
    if Core(r, s) { StackIsLive(r, s, owner); }
  }

  lemma UserTopBelow(k: Kernel, st: seq<nat>)
    requires Core(k, st)
    ensures |k.slots| <= 127 && Stacked(k, st) && (!InPromotion(k) ==> k.maxLevel <= 126)
  {
    UserTopSmall(k);
  }

  lemma StackIsLive(r: Kernel, s: seq<nat>, u: nat)
    requires Core(r, s) && u < |r.slots| && r.slots[u].prio > 126
    ensures Live(r.slots[u])
  {
    hide Ring, Levelled, Counted, Named;
    assert u in s;
  }

  // ----- base invocation without its guard

  /** Invoking the base task keeps the invariant if and only if it is not promoted already. */
  lemma InvokeKeepsExactly(k: Kernel, st: seq<nat>)
    requires Inv(k, st) && k.current != 0
    ensures (exists s :: Core(Promoted(Invoked(k).0, BASE_MUTEX, 0), s)) <==> k.slots[0].prio <= 126
  {
    hide Core, Promoted;
    CoreBaseLive(k, st);
    if k.slots[0].prio <= 126 {
      InvokeKeeps(k, st);
    } else {
      InvokedTwice(k, st);
    }
  }

  lemma CoreBaseLive(k: Kernel, st: seq<nat>)
    requires Core(k, st)
    ensures |k.slots| > 0 && Live(k.slots[0]) && (k.slots[0].prio > 126 ==> k.slots[0].prio > 127)
  {
  }

  /** Invoking it again stashes the promoted level: the base task's own priority is gone. */
  lemma InvokedTwice(k: Kernel, st: seq<nat>)
    requires Inv(k, st) && k.current != 0 && k.slots[0].prio > 126
    ensures var r := Promoted(Invoked(k).0, BASE_MUTEX, 0);
            r.slots[0].saved == k.slots[0].prio && forall s :: !Core(r, s)
  {
    hide Ring, Counted, Named;
    assert 0 in st;
    var r := Promoted(Invoked(k).0, BASE_MUTEX, 0);
    assert r.slots[0].saved > 127;
    assert Level(r.slots[0]) != 0 by { PromotedAbove(k, st); }
  }

  lemma PromotedAbove(k: Kernel, st: seq<nat>)
    requires Core(k, st) && InPromotion(k) && k.current < |k.slots| && 0 < |k.slots| && k.slots[0].prio > 126 &&
        k.current != 0
    ensures Level(Promoted(Invoked(k).0, BASE_MUTEX, 0).slots[0]) > 0
  {
    hide Ring, Counted, Named;
    DepthAtMost(k, st);
  }

  lemma DepthAtMost(k: Kernel, st: seq<nat>)
    requires Stacked(k, st)
    ensures |st| <= |k.slots|
  {
    forall i, j | 0 <= i < j < |st| ensures st[i] != st[j] {
      assert k.slots[st[i]].prio != k.slots[st[j]].prio;
    }
    Pigeonhole(st, |k.slots|);
  }

  /** What the release service leaves behind. */
  function AfterRelease(k: Kernel, error: nat): Kernel
    requires k.current < |k.slots|
  {
    if Released(k, error).1 == NoError then Stepped(Released(k, error).0) else k
  }

  /** A release keeps the invariant if and only if it is refused, or the base task is promoted. Without an invocation it
      is not refused as long as some slot is idle: the id of an idle slot is 0, and so is that of no invocation. */
  lemma ReleaseKeepsExactly(k: Kernel, st: seq<nat>, error: nat)
    requires Inv(k, st)
    ensures (exists s :: Core(AfterRelease(k, error), s) && Between(AfterRelease(k, error))) <==>
            k.current != 0 || k.slots[0].mutex != 0 || forall i :: 0 <= i < |k.slots| ==> k.slots[i].id != k.invoked
  {
    hide Core, Between, Stepped;
    FoundExactly(k, error);
    if Released(k, error).1 != NoError {
      TickBetween(k, st);
      assert Core(AfterRelease(k, error), st);
    } else if k.slots[0].mutex != 0 {
      ReleaseKeeps(k, st, error);
      assert Core(AfterRelease(k, error), st[..|st| - 1]);
    } else {
      forall s ensures !Core(AfterRelease(k, error), s) { ReleaseBreaks(k, st, error, s); }
    }
  }

  lemma FoundExactly(k: Kernel, error: nat)
    ensures Released(k, error).1 == NoError <==>
            k.current == 0 && exists i :: 0 <= i < |k.slots| && k.slots[i].id == k.invoked
  {
  }

  lemma ReleaseBreaks(k: Kernel, st: seq<nat>, error: nat, s: seq<nat>)
    requires Inv(k, st) && Released(k, error).1 == NoError && k.slots[0].mutex == 0
    ensures !Core(AfterRelease(k, error), s)
  {
    hide Core, Stepped;
    CoreFacts(k, st);
    QuietRelease(k, error);
    var q := Released(k, error).0;
    QuietKeeps(k, q, st);
    assert SameTask(k.slots[0], q.slots[0]);
    DemotedUnpromoted(q, st, s);
  }

  /** A demotion of a base task that is not promoted lowers a level it did not raise. */
  lemma DemotedUnpromoted(k: Kernel, st: seq<nat>, s: seq<nat>)
    requires Inv(k, st) && k.current == 0 && k.slots[0].mutex == 0
    ensures !Core(Stepped(k), s)
  {
    hide Demoted, Ring, Counted, Named, Byte;
    DemotedSlots(k);
    LoweredTop(k, st);
    var r := Stepped(k);
    SteppedSlots(k);
    if InPromotion(k) {
      var top := st[|st| - 1];
      assert k.slots[top].prio == k.maxLevel && top != 0;
      assert SameTask(k.slots[top], r.slots[top]);
      if Core(r, s) { PromotedTooHigh(r, s, top); }
    } else {
      var u :| 0 <= u < |k.slots| && Live(k.slots[u]) && Level(k.slots[u]) == k.maxLevel;
      if u != 0 { assert SameTask(k.slots[u], r.slots[u]); }
      if Core(r, s) { TopIsLevel(r, s); }
    }
  }

  lemma SteppedSlots(k: Kernel)
    requires k.current < |k.slots| && |Demoted(k).slots| == |k.slots| && Demoted(k).current == k.current
    requires forall i :: 0 <= i < |k.slots| && i != k.current ==> SameTask(k.slots[i], Demoted(k).slots[i])
    ensures var r := Stepped(k);
            && |r.slots| == |k.slots| && r.maxLevel == Demoted(k).maxLevel && r.maxpLevel == Demoted(k).maxpLevel
            && forall i :: 0 <= i < |k.slots| && i != k.current ==> SameTask(k.slots[i], r.slots[i])
  {
    hide Demoted;
  }

  lemma LoweredTop(k: Kernel, st: seq<nat>)
    requires Core(k, st) && k.current < |k.slots|
    ensures var r := Demoted(k);
            && r.current == k.current
            && (InPromotion(k) ==> r.maxLevel < k.maxLevel && (InPromotion(r) ==> r.maxLevel > 127))
            && (!InPromotion(k) ==> !InPromotion(r) && k.maxLevel <= 126)
            && (!InPromotion(k) && k.maxLevel > 0 ==> r.maxLevel == k.maxLevel - 1)
            && (!InPromotion(k) && k.maxLevel == 0 ==> r.maxLevel == 255)
  {
    hide Woken, Ring, Counted, Named;
    UserTopSmall(k);
  }

  lemma PromotedTooHigh(r: Kernel, s: seq<nat>, u: nat)
    requires Core(r, s) && u < |r.slots| && r.slots[u].prio > 127
    ensures InPromotion(r) && r.slots[u].prio <= r.maxLevel
  {
    hide Ring, Counted, Named, Levelled;
    assert u in s;
  }

  lemma TopIsLevel(r: Kernel, s: seq<nat>)
    requires Core(r, s) && !InPromotion(r)
    ensures r.maxLevel <= 126 && forall u :: 0 <= u < |r.slots| && Live(r.slots[u]) ==> Level(r.slots[u]) <= r.maxLevel
  {
    hide Ring, Counted, Named;
    UserTopSmall(r);
  }

  // ----- kill

  /** A task that kills itself by `task_kill` instead of returning is put to sleep by the next tick in a slot that is
      off the ring: the list is no longer one cycle through the live slots. */
  lemma DirectSelfKill(k: Kernel, st: seq<nat>)
    requires Inv(k, st) && CanKill(k, k.current)
    ensures var r := Prepared(Killed(k, k.current, false));
            Live(r.slots[k.current]) && !Ring(r.slots)
  {
    hide Counted, Named, Levelled, Stacked;
    var i := k.current;
    KilledSlots(k, i, false);
    var r := Prepared(Killed(k, i, false));
    assert r.slots[i].state == Sleep;
    assert r.slots[i].jmp == 0;
    assert Live(r.slots[0]) by { assert Unmoved(k.slots[0], Killed(k, i, false).slots[0]); }
    assert Ahead(i, 0, |r.slots|) < Ahead(i, i, |r.slots|);
    assert !LinkOk(r.slots, i);
  }

  /** The base task is the only live one but for slot i. */
  ghost predicate LastBut(k: Kernel, i: nat) {
    forall u :: 0 < u < |k.slots| && u != i ==> !Live(k.slots[u])
  }

  /** A kill that leaves the base task alone counts every slot that carries priority 0, idle ones too: it ends with one
      task counted if and only if no slot but the first carries priority 0. */
  lemma LastKillCounts(k: Kernel, st: seq<nat>, i: nat, self: bool)
    requires Core(k, st) && Killable(k, i) && !InPromotion(k) && (k.selfKill || self ==> i == k.next) && LastBut(k, i)
    ensures var r := Killed(k, i, self);
            && r.maxLevel == 0 && r.hlc == 0
            && (r.alc == 1 <==> forall j :: 0 < j < |k.slots| ==> k.slots[j].prio != 0)
  {
    hide Core, Killed, Count, AwakeAt, AsleepAt, Byte;
    LastKillTop(k, st, i, self);
    var r := Killed(k, i, self);
    KilledSlots(k, i, self);
    NobodyAsleep(r.slots, 0);
    CountBound(r.slots, AwakeAt(0));
    CountsZeros(k.slots, r.slots, i);
    RecountIs(k, i, self);
    assert Byte(0) == 0 && Byte(Count(r.slots, AwakeAt(0))) == Count(r.slots, AwakeAt(0)) by {
      SmallByte(Count(r.slots, AwakeAt(0)));
    }
  }

  lemma SmallByte(x: nat)
    requires x < 256
    ensures Byte(0) == 0 && Byte(x) == x
  {
  }

  lemma RecountIs(k: Kernel, i: nat, self: bool)
    requires Shaped(k) && Endable(k, i)
    ensures var r := Killed(k, i, self);
            && r.maxLevel == TopLevel(r.slots, 0)
            && r.alc == Byte(Count(r.slots, AwakeAt(r.maxLevel))) && r.hlc == Byte(Count(r.slots, AsleepAt(r.maxLevel)))
  {
    hide TopLevel, Count, Byte, Unlink, Removed, Shared, Word;
  }

  lemma LastKillTop(k: Kernel, st: seq<nat>, i: nat, self: bool)
    requires Core(k, st) && Killable(k, i) && !InPromotion(k) && (k.selfKill || self ==> i == k.next) && LastBut(k, i)
    ensures Shaped(k) && k.slots[0].prio == 0 && |k.slots| <= 127 && Killed(k, i, self).maxLevel == 0
  {
    hide Core, Killed, Ring;
    CoreBaseZero(k, st);
    KilledSlots(k, i, self);
    RecountIs(k, i, self);
    var r := Killed(k, i, self);
    assert Unmoved(k.slots[0], r.slots[0]);
    assert forall u :: 0 < u < |r.slots| ==> !Live(r.slots[u]);
  }

  lemma CoreBaseZero(k: Kernel, st: seq<nat>)
    requires Core(k, st) && !InPromotion(k)
    ensures Shaped(k) && Live(k.slots[0]) && k.slots[0].prio == 0
  {
    hide Counted, Named;
    LiveBelowTop(k, st);
  }

  lemma NobodyAsleep(t: seq<Slot>, level: nat)
    ensures Count(t, AsleepAt(level)) == 0
  {
    forall u | 0 <= u < |t| ensures !AsleepAt(level)(t[u]) { HibernateBitNeverSet(t[u].state); }
    CountPositive(t, AsleepAt(level));
  }

  lemma CountsZeros(t: seq<Slot>, r: seq<Slot>, i: nat)
    requires 0 < i < |t| == |r| && t[0].prio == 0 && Unmoved(Buried(t[i]), r[i])
    requires forall j :: 0 <= j < |t| && j != i ==> Unmoved(t[j], r[j])
    ensures Count(r, AwakeAt(0)) == 1 <==> forall j :: 0 < j < |t| ==> t[j].prio != 0
  {
    forall u | 0 <= u < |r| ensures AwakeAt(0)(r[u]) <==> t[u].prio == 0 {
      HibernateBitNeverSet(r[u].state);
      assert u != i ==> Unmoved(t[u], r[u]);
    }
    if j :| 0 < j < |t| && t[j].prio == 0 {
      if Count(r, AwakeAt(0)) == 1 { CountOne(r, AwakeAt(0), 0, j); }
    } else {
      CountPositive(r, AwakeAt(0));
      OnlyFirst(r, AwakeAt(0));
    }
  }

  lemma {:induction false} OnlyFirst(t: seq<Slot>, p: Slot -> bool)
    requires |t| > 0 && p(t[0]) && forall u :: 0 < u < |t| ==> !p(t[u])
    ensures Count(t, p) == 1
  {
    if |t| > 1 {
      OnlyFirst(t[..|t| - 1], p);
    }
  }

  /** The end of the last user task leaves the timer on if and only if some slot but the first carries priority 0. */
  lemma LastEndTimer(k: Kernel, st: seq<nat>, mem: Memory, r: Kernel)
    requires Inv(k, st) && LastBut(k, k.current) && k.slots[0].state == Sleep && Step(k, End, mem, r)
    ensures r.current == 0 && LastBut(r, 0)
    ensures r.timer <==> exists j :: 0 < j < |k.slots| && k.slots[j].prio == 0
  {
    hide Core, Killed, Scheduled, Picked;
    var i := k.current;
    LastKillCounts(k, st, i, true);
    var m := Effect(k, End);
    EndLeavesBase(k, st);
    BaseAloneNext(m, mem, r);
  }

  lemma EndLeavesBase(k: Kernel, st: seq<nat>)
    requires Inv(k, st) && LastBut(k, k.current) && k.slots[0].state == Sleep && Allowed(k, End)
    ensures var r, m := Killed(k, k.current, true), HandedOver(Killed(k, k.current, true));
            && |m.slots| == |k.slots| && LastBut(m, 0) && m.slots[0].state == Sleep && m.slots[0].prio == 0
            && m.current < |m.slots| && m.current != 0 && !m.normal && m.maxLevel == r.maxLevel
            && m.alc == r.alc < 256 && m.hlc == r.hlc < 256
  {
    hide Counted, Named, Removed, Shared, Word, Unlink, TopLevel, Count, Byte;
    LiveBelowTop(k, st);
    KilledSlots(k, k.current, true);
    var r := Killed(k, k.current, true);
    assert Unmoved(k.slots[0], r.slots[0]) && Level(k.slots[0]) == 0;
    assert forall j :: 0 <= j < |k.slots| && j != k.current ==> r.slots[j].state == k.slots[j].state;
  }

  /** With the base task asleep and alone, scheduling can only resume it. */
  lemma BaseAloneNext(m: Kernel, mem: Memory, r: Kernel)
    requires 0 < m.current < |m.slots| && LastBut(m, 0) && m.slots[0].state == Sleep &&
        m.slots[0].prio == 0 == m.maxLevel
    requires !m.normal && m.alc < 256 && m.hlc < 256 && Scheduled(m, mem, r)
    ensures r.current == 0 && LastBut(r, 0) && (r.timer <==> !(m.alc == 1 && m.hlc == 0))
  {
    hide Picked;
    var p := Awake(m, mem);
    NobodyDueAlone(m, mem);
    assert p.slots == m.slots && p.alc == m.alc && p.hlc == m.hlc;
    var t: nat, level: nat :| t < |p.slots| && Picked(p, t, level) && r == Resumed(p, t, level);
    PickedIsAsleep(p, t, level);
  }

  lemma PickedIsAsleep(p: Kernel, t: nat, level: nat)
    requires t < |p.slots| && Picked(p, t, level)
    ensures p.slots[t].state == Sleep && p.slots[t].prio == level
  {
    assert (exists u :: Rival(p, u)) ==> Rival(p, t);
  }

  lemma NobodyDueAlone(m: Kernel, mem: Memory)
    requires m.current < |m.slots| && LastBut(m, 0) && m.slots[0].state == Sleep && !m.normal && m.alc < 256 &&
        m.hlc < 256
    ensures Awake(m, mem).slots == m.slots && Awake(m, mem).alc == m.alc && Awake(m, mem).hlc == m.hlc
  {
    var q := Prepared(m);
    forall u | 0 <= u < |q.slots| ensures !Due(q.slots[u], mem) {
      assert u == 0 || !Live(q.slots[u]);
    }
    CountPositive(q.slots, DueAt(q.maxLevel, mem));
  }

  /** The tick that such a timer delivers to the base task alone has a next state if and only if a dead level is listed
      beside level 0: otherwise the scheduler's level pointer runs below the stash. */
  lemma TickAlone(k: Kernel, st: seq<nat>, mem: Memory)
    requires Inv(k, st) && k.current == 0 && LastBut(k, 0) && k.slots[0].prio <= 126
    ensures (exists r :: Step(k, Tick, mem, r)) <==> k.lstash >= 2
  {
    hide Core, Selectable, Scheduled, Picked;
    CoreShaped(k, st);
    TickBetween(k, st);
    ScheduleEnds(k, mem, st);
    AloneSelectable(k, st, mem);
    assert (exists r :: Step(k, Tick, mem, r)) <==> (exists r :: Scheduled(k, mem, r)) by {
      if r :| Scheduled(k, mem, r) { assert Step(k, Tick, mem, r); }
      if r :| Step(k, Tick, mem, r) { assert Scheduled(k, mem, r); }
    }
  }

  lemma AloneSelectable(k: Kernel, st: seq<nat>, mem: Memory)
    requires Inv(k, st) && k.current == 0 && LastBut(k, 0) && k.slots[0].prio <= 126
    ensures Selectable(Awake(k, mem)) <==> k.lstash >= 2
  {
    hide Counted, Named, Stacked;
    var q, p := Prepared(k), Awake(k, mem);
    assert forall u :: 0 <= u < |k.slots| ==> p.slots[u] == Wake(q.slots[u], mem);
    assert p.slots[0].state == Sleep && p.slots[0].prio == 0;
    assert forall u :: 0 < u < |p.slots| ==> !Live(p.slots[u]);
    assert forall u :: !Rival(p, u);
    if k.lstash >= 2 {
      assert Below(p, 0) && Ready(p, 0, p.stash[0]);
    }
  }
}
