/** Does the stash list exactly the levels of live tasks? It does at the start, and as long as no kill leaves a dead
    level behind; and then it always has room for a creation. */
module DeadLevels {
  import opened Slots
  import opened JumpList
  import opened LevelStash
  import opened Services
  import opened Scheduler
  import opened Invariant
  import opened Transitions
  import opened Runs
  import opened Boot

  ghost predicate HasLevel(t: seq<Slot>, x: nat) {
    exists u :: 0 <= u < |t| && Live(t[u]) && Level(t[u]) == x
  }

  /** The stash lists exactly the user levels of live tasks. */
  ghost predicate Exact(k: Kernel) {
    k.lstash <= |k.stash| && forall x :: x in k.stash[..k.lstash] <==> HasLevel(k.slots, x)
  }

  // ----- creation

  lemma LevelsAfterCreate(t: seq<Slot>, r: seq<Slot>, i: nat, x: nat)
    requires i < |t| == |r| && !Live(t[i]) && Live(r[i])
    requires forall j :: 0 <= j < |t| && j != i ==> Unmoved(t[j], r[j])
    ensures HasLevel(r, x) <==> HasLevel(t, x) || x == Level(r[i])
  {
    if u :| 0 <= u < |r| && Live(r[u]) && Level(r[u]) == x {
      assert u != i ==> Unmoved(t[u], r[u]);
    }
    if u :| 0 <= u < |t| && Live(t[u]) && Level(t[u]) == x {
      assert Unmoved(t[u], r[u]);
    }
  }

  /** Creation keeps an exact stash exact. */
  lemma CreateKeepsExact(k: Kernel, st: seq<nat>, t: Task)
    requires Core(k, st) && CanCreate(k, t) && Exact(k)
    ensures Exact(Created(k, t))
  {
    hide Counted, Named, Ring, HasLevel, Stacked, Misplaced, Created;
    var i := FirstIdle(k.slots);
    CreatedSlots(k, t, i);
    CreatedStash(k, t);
    var r := Created(k, t);
    assert Live(r.slots[i]) && Level(r.slots[i]) == t.prio;
    forall x ensures HasLevel(r.slots, x) <==> HasLevel(k.slots, x) || x == t.prio {
      LevelsAfterCreate(k.slots, r.slots, i, x);
    }
  }

  // ----- kill

  /** Nobody else alive is at the level of slot i, yet an idle slot still carries it. */
  ghost predicate Stale(t: seq<Slot>, i: nat)
    requires i < |t|
  {
    && (exists j :: 0 <= j < |t| && j != i && !Live(t[j]) && t[j].prio == t[i].prio)
    && (forall j :: 0 <= j < |t| && j != i && Live(t[j]) ==> t[j].prio != t[i].prio)
  }

  ghost predicate OtherAt(t: seq<Slot>, i: nat)
    requires i < |t|
  {
    exists j :: 0 <= j < |t| && j != i && Live(t[j]) && t[j].prio == t[i].prio
  }

  lemma StaleMeans(t: seq<Slot>, i: nat)
    requires i < |t| && Live(t[i]) && t[i].prio <= 126
    ensures Stale(t, i) <==> Shared(t, i) && !OtherAt(t, i)
    ensures OtherAt(t, i) ==> Shared(t, i)
    ensures HasLevel(t, t[i].prio)
  {
    assert Level(t[i]) == t[i].prio;
  }

  lemma LevelsAfterKill(t: seq<Slot>, r: seq<Slot>, i: nat, x: nat)
    requires i < |t| == |r| && Live(t[i]) && !Live(r[i]) && forall u :: 0 <= u < |t| ==> t[u].prio <= 126
    requires forall j :: 0 <= j < |t| && j != i ==> Unmoved(t[j], r[j])
    ensures HasLevel(r, x) <==> HasLevel(t, x) && (x != t[i].prio || OtherAt(t, i))
  {
    if u :| 0 <= u < |r| && Live(r[u]) && Level(r[u]) == x {
      assert Unmoved(t[u], r[u]);
    }
    if u :| 0 <= u < |t| && u != i && Live(t[u]) && Level(t[u]) == x {
      assert Unmoved(t[u], r[u]);
    }
    if OtherAt(t, i) {
      var j :| 0 <= j < |t| && j != i && Live(t[j]) && t[j].prio == t[i].prio;
      assert Unmoved(t[j], r[j]);
      assert Live(r[j]) && Level(r[j]) == t[i].prio;
    }
  }

  lemma ExactAfterKill(k: Kernel, r: Kernel, i: nat)
    requires Exact(k) && i < |k.slots| == |r.slots| && Live(k.slots[i]) && !Live(r.slots[i]) && r.lstash <= |r.stash|
    requires forall u :: 0 <= u < |k.slots| ==> k.slots[u].prio <= 126
    requires forall j :: 0 <= j < |k.slots| && j != i ==> Unmoved(k.slots[j], r.slots[j])
    requires forall x :: x in r.stash[..r.lstash] <==>
                         x in k.stash[..k.lstash] && (Shared(k.slots, i) || x != k.slots[i].prio)
    ensures Exact(r) <==> !Stale(k.slots, i)
  {
    hide HasLevel, OtherAt, Stale, Shared;
    var p := k.slots[i].prio;
    StaleMeans(k.slots, i);
    forall x ensures HasLevel(r.slots, x) <==> HasLevel(k.slots, x) && (x != p || OtherAt(k.slots, i)) {
      LevelsAfterKill(k.slots, r.slots, i, x);
    }
    assert p in r.stash[..r.lstash] <==> Shared(k.slots, i);
    assert HasLevel(r.slots, p) <==> OtherAt(k.slots, i);
  }

  /** A kill keeps the stash exact if and only if no idle slot carries the stale priority of a level that dies with
      it. */
  lemma KillKeepsExact(k: Kernel, st: seq<nat>, i: nat, self: bool)
    requires Core(k, st) && CanKill(k, i) && (k.selfKill || self ==> i == k.next) && Exact(k)
    ensures Exact(Killed(k, i, self)) <==> !Stale(k.slots, i)
  {
    hide Counted, Named, Ring, HasLevel, OtherAt, Stale, Killed;
    LiveBelowTop(k, st);
    assert k.slots[0].prio == 0 && Level(k.slots[i]) in k.stash[..k.lstash];
    KilledSlots(k, i, self);
    KilledStash(k, i, self);
    ExactAfterKill(k, Killed(k, i, self), i);
  }

  // ----- everything else leaves the levels alone

  lemma SameExact(k: Kernel, r: Kernel)
    requires SameLevels(k, r)
    ensures Exact(k) <==> Exact(r)
  {
    forall x ensures HasLevel(k.slots, x) <==> HasLevel(r.slots, x) {
      if u :| 0 <= u < |k.slots| && Live(k.slots[u]) && Level(k.slots[u]) == x {
        assert Live(r.slots[u]) && Level(r.slots[u]) == x;
      }
      if u :| 0 <= u < |r.slots| && Live(r.slots[u]) && Level(r.slots[u]) == x {
        assert Live(k.slots[u]) && Level(k.slots[u]) == x;
      }
    }
  }

  lemma SameLevelsTrans(k: Kernel, p: Kernel, r: Kernel)
    requires SameLevels(k, p) && SameLevels(p, r)
    ensures SameLevels(k, r)
  {
  }

  lemma PopLevels(k: Kernel, st: seq<nat>)
    requires Inv(k, st) && k.slots[k.current].mutex != 0
    ensures SameLevels(k, Stepped(k))
  {
    hide Demoted, Ring, Counted, Named;
    UserTopSmall(k);
    DemoteLevels(k, st);
    var r := Demoted(k);
    DemoteRunning(k);
    HandOverSame(r);
    SameTasksLevels(r, HandedOver(r));
    SameLevelsTrans(k, r, HandedOver(r));
  }

  lemma ReleaseLevels(k: Kernel, st: seq<nat>, error: nat)
    requires Inv(k, st) && k.slots[k.current].mutex != 0
    ensures SameLevels(k, Stepped(Released(k, error).0))
  {
    hide Core, Stepped;
    CoreFacts(k, st);
    QuietRelease(k, error);
    var q := Released(k, error).0;
    QuietKeeps(k, q, st);
    assert SameTask(k.slots[k.current], q.slots[k.current]);
    PopLevels(q, st);
    SameTasksLevels(k, q);
    SameLevelsTrans(k, q, Stepped(q));
  }

  lemma PushLevels(k: Kernel, st: seq<nat>, mutex: nat, owner: nat)
    requires Inv(k, st) && CanPromote(k, mutex, owner)
    ensures SameLevels(k, Promoted(k, mutex, owner))
  {
    hide Ring, Counted, Named, Promoted;
    UserTopSmall(k);
    PromoteLevels(k, st, mutex, owner);
  }

  lemma InvokeLevels(k: Kernel, st: seq<nat>)
    requires Inv(k, st) && k.current != 0 && CanPromote(k, BASE_MUTEX, 0)
    ensures SameLevels(k, Promoted(Invoked(k).0, BASE_MUTEX, 0))
  {
    hide Core, Promoted;
    CoreFacts(k, st);
    QuietInvoke(k);
    var q := Invoked(k).0;
    QuietKeeps(k, q, st);
    PushLevels(q, st, BASE_MUTEX, 0);
    SameTasksLevels(k, q);
    SameLevelsTrans(k, q, Promoted(q, BASE_MUTEX, 0));
  }

  predicate Settling(e: Event) {
    !e.Create? && !e.Kill? && !e.End? && !e.Disturb?
  }

  /** Events other than creation and kill keep every task at its user level. */
  lemma EffectLevels(k: Kernel, st: seq<nat>, e: Event)
    requires Inv(k, st) && Allowed(k, e) && Settling(e)
    ensures SameLevels(k, Effect(k, e))
  {
    hide Core, Promoted, Stepped, SameLevels, Hibernated, HandedOver, Released, Granted, CanPromote;
    CoreFacts(k, st);
    match e
    case Hibernate(rev, x, y, v) => HibernateSame(k, rev, x, y, v); SameTasksLevels(k, Hibernated(k, rev, x, y, v));
    case Promote(m, o) => PushLevels(k, st, m, o);
    case Demote => PopLevels(k, st);
    case HandOver => HandOverSame(k); SameTasksLevels(k, HandedOver(k));
    case Tick => NoChange(k);
    case Invoke => if k.current != 0 { InvokeLevels(k, st); } else { NoChange(k); }
    case Release(v) =>
      if Released(k, v).1 == NoError {
        ReleasedByBase(k, v);
        ReleaseLevels(k, st, v);
      } else {
        NoChange(k);
      }
    case Grant(id, p) => QuietGrant(k, id, p); SameTasksLevels(k, Granted(k, id, p).0);
  }

  lemma NoChange(k: Kernel)
    ensures SameLevels(k, k)
  {
  }

  lemma ReleasedByBase(k: Kernel, error: nat)
    requires Released(k, error).1 == NoError
    ensures k.current == 0
  {
  }

  lemma ScheduledLevels(k: Kernel, st: seq<nat>, mem: Memory, r: Kernel)
    requires Core(k, st) && Between(k) && Scheduled(k, mem, r)
    ensures SameLevels(k, r)
  {
    hide Core, Picked, Stacked, SameTasks, Resumed, SameLevels;
    CoreFacts(k, st);
    AwakeSame(k, mem);
    var p := Awake(k, mem);
    SameCore(k, p, st);
    CoreFacts(p, st);
    var t: nat, level: nat :| t < |p.slots| && Picked(p, t, level) && r == Resumed(p, t, level);
    PickRuns(p, st, t, level);
    ResumedSame(p, t, level);
    SameTasksLevels(k, p);
    SameTasksLevels(p, r);
    SameLevelsTrans(k, p, r);
  }

  lemma DisturbedExact(k: Kernel, byte: nat)
    requires k.lstash < |k.stash|
    ensures Exact(k) <==> Exact(Disturbed(k, byte))
  {
    assert Disturbed(k, byte).stash[..k.lstash] == k.stash[..k.lstash];
  }

  // ----- steps and runs

  /** The event kills the last task of a level whose priority an idle slot still carries. */
  ghost predicate LeavesDeadLevel(k: Kernel, e: Event) {
    || (e.Kill? && e.slot < |k.slots| && Stale(k.slots, e.slot))
    || (e.End? && k.current < |k.slots| && Stale(k.slots, k.current))
  }

  lemma EffectExact(k: Kernel, st: seq<nat>, e: Event)
    requires Inv(k, st) && Settled(k) && Allowed(k, e) && Exact(k)
    ensures Exact(Effect(k, e)) <==> !LeavesDeadLevel(k, e)
  {
    hide Core, Exact, Stale, Created, Killed, CanKill, CanCreate, HandedOver, Stepped, Promoted;
    match e
    case Create(t) => if Admission(k, t) == NoError { CreateKeepsExact(k, st, t); }
    case Kill(i) =>
      KillNeeds(k, i);
      KillKeepsExact(k, st, i, false);
    case End =>
      KillNeeds(k, k.current);
      KillKeepsExact(k, st, k.current, true);
      EndExact(k);
    case Disturb(byte) => CoreRoom(k, st); DisturbedExact(k, byte);
    case _ => EffectLevels(k, st, e); SameExact(k, Effect(k, e));
  }

  lemma EndExact(k: Kernel)
    requires Shaped(k) && Killable(k, k.current) && Running(k)
    ensures var r := Killed(k, k.current, true);
            r.current < |r.slots| && (Exact(HandedOver(r)) <==> Exact(r))
  {
    hide Sorted, Removed, Shared, TopLevel, Count, Byte, Word, Unlink, Exact;
    EndBetween(k);
    var r := Killed(k, k.current, true);
    SameTasksLevels(r, HandedOver(r));
    SameExact(r, HandedOver(r));
  }

  lemma KillNeeds(k: Kernel, i: nat)
    requires CanKill(k, i)
    ensures Killable(k, i)
  {
  }

  lemma CoreRoom(k: Kernel, st: seq<nat>)
    requires Core(k, st)
    ensures k.lstash < |k.stash| == |k.slots| + 1
  {
  }

  lemma StepExact(k: Kernel, st: seq<nat>, e: Event, mem: Memory, r: Kernel)
    requires Inv(k, st) && Step(k, e, mem, r) && Exact(k)
    ensures Exact(r) <==> !LeavesDeadLevel(k, e)
  {
    hide Inv, Exact, Effect, Allowed, LeavesDeadLevel, Core, Between, Scheduled;
    EffectExact(k, st, e);
    if Reschedules(k, e) {
      EffectEnds(k, st, e);
      ScheduledLevels(Effect(k, e), StackAfter(k, st, e), mem, r);
      SameExact(Effect(k, e), r);
    }
  }

  /** Over every run that starts with an exact stash, the stash is exact in every state if and only if no event leaves a
      dead level. */
  lemma RunExact(ks: seq<Kernel>, sts: seq<seq<nat>>, es: seq<Event>, ms: seq<Memory>)
    requires Run(ks, sts, es, ms) && Inv(ks[0], sts[0]) && Exact(ks[0])
    ensures (forall i :: 0 <= i <= |es| ==> Exact(ks[i])) <==>
            (forall i :: 0 <= i < |es| ==> !LeavesDeadLevel(ks[i], es[i]))
  {
    hide Inv, Exact, Step, LeavesDeadLevel;
    if forall i :: 0 <= i < |es| ==> !LeavesDeadLevel(ks[i], es[i]) {
      forall i | 0 <= i <= |es| ensures Exact(ks[i]) { StaysExact(ks, sts, es, ms, i); }
    }
    if forall i :: 0 <= i <= |es| ==> Exact(ks[i]) {
      forall i | 0 <= i < |es| ensures !LeavesDeadLevel(ks[i], es[i]) {
        RunKeeps(ks, sts, es, ms, i);
        assert Move(ks[i], sts[i], es[i], ms[i], ks[i + 1], sts[i + 1]);
        StepExact(ks[i], sts[i], es[i], ms[i], ks[i + 1]);
      }
    }
  }

  lemma {:induction false} StaysExact(ks: seq<Kernel>, sts: seq<seq<nat>>, es: seq<Event>, ms: seq<Memory>, i: nat)
    requires Run(ks, sts, es, ms) && Inv(ks[0], sts[0]) && Exact(ks[0]) && i <= |es|
    requires forall j :: 0 <= j < i ==> !LeavesDeadLevel(ks[j], es[j])
    ensures Exact(ks[i])
  {
    hide Inv, Exact, Step, LeavesDeadLevel;
    if i > 0 {
      StaysExact(ks, sts, es, ms, i - 1);
      RunKeeps(ks, sts, es, ms, i - 1);
      assert Move(ks[i - 1], sts[i - 1], es[i - 1], ms[i - 1], ks[i], sts[i]);
      StepExact(ks[i - 1], sts[i - 1], es[i - 1], ms[i - 1], ks[i]);
    }
  }

  // ----- the start

  lemma BaseExact(n: nat, addr: nat, byte: nat)
    requires 2 <= n <= 127
    ensures Exact(BaseCreated(n, addr, byte))
  {
    hide BaseCreated;
    BaseSlots(n, addr, byte);
    var k := BaseCreated(n, addr, byte);
    assert k.stash[..k.lstash] == [0];
    assert Live(k.slots[0]) && Level(k.slots[0]) == 0;
  }

  lemma PrimedExact(k: Kernel)
    ensures Exact(Primed(k)) <==> Exact(k)
  {
  }

  lemma CreateWaitsExact(k: Kernel, t: Task)
    requires Waiting(k) && CanCreate(Primed(k), t) && Exact(k)
    ensures Shaped(k) && Searchable(k) && Admission(k, t) == NoError && Exact(Created(k, t))
  {
    hide Created, CanCreate, Exact;
    PrimedCommutes(k, t);
    PrimedExact(k);
    CreateKeepsExact(Primed(k), [], t);
    PrimedExact(Created(k, t));
  }

  lemma {:induction false} BootExact(n: nat, addr: nat, byte: nat, ts: seq<Task>, boot: seq<Kernel>, i: nat)
    requires 2 <= n <= 127 && addr != 0 && BootChain(n, addr, byte, ts, boot) && i <= |ts|
    ensures Exact(boot[i])
  {
    hide Waiting, CanCreate, Exact, Created;
    if i == 0 {
      BaseExact(n, addr, byte);
    } else {
      BootExact(n, addr, byte, ts, boot, i - 1);
      AllWait(n, addr, byte, ts, boot, i - 1);
      assert CreatedNext(boot[i - 1], ts[i - 1], boot[i]);
      CreateWaitsExact(boot[i - 1], ts[i - 1]);
      CreateWaits(boot[i - 1], ts[i - 1]);
      var k := Created(boot[i - 1], ts[i - 1]);
      var b :| boot[i] == Disturbed(k, b);
      WaitingRoom(k);
      DisturbedExact(k, b);
    }
  }

  lemma WaitingRoom(k: Kernel)
    requires Waiting(k)
    ensures k.lstash < |k.stash|
  {
  }

  lemma StartExact(k: Kernel, mem: Memory, r: Kernel)
    requires Waiting(k) && Exact(k) && Scheduled(HandedOver(Started(k)), mem, r)
    ensures Exact(r)
  {
    hide Core, Scheduled, Between, SameTasks, Exact;
    CoreFacts(Primed(k), []);
    CoreBase(Primed(k), []);
    StartSame(k);
    StartBetween(k);
    SameCore(Primed(k), Started(k), []);
    SameCore(Started(k), HandedOver(Started(k)), []);
    PrimedExact(k);
    SameTasksLevels(Primed(k), Started(k));
    SameExact(Primed(k), Started(k));
    SameTasksLevels(Started(k), HandedOver(Started(k)));
    SameExact(Started(k), HandedOver(Started(k)));
    ScheduledLevels(HandedOver(Started(k)), [], mem, r);
    SameExact(HandedOver(Started(k)), r);
  }

  /** Every run of the system: the stash lists exactly the live levels in every state, if and only if no event leaves a
      dead level. */
  lemma SystemExact(n: nat, addr: nat, byte: nat, ts: seq<Task>, boot: seq<Kernel>, mem: Memory,
                    ks: seq<Kernel>, sts: seq<seq<nat>>, es: seq<Event>, ms: seq<Memory>)
    requires 2 <= n <= 127 && addr != 0 && BootChain(n, addr, byte, ts, boot)
    requires Run(ks, sts, es, ms) && sts[0] == []
    requires var w := boot[|ts|]; w.current < |w.slots| && Scheduled(HandedOver(Started(w)), mem, ks[0])
    ensures (forall i :: 0 <= i <= |es| ==> Exact(ks[i])) <==>
            (forall i :: 0 <= i < |es| ==> !LeavesDeadLevel(ks[i], es[i]))
  {
    hide Inv, Step, Waiting, Scheduled, Exact, LeavesDeadLevel;
    AllWait(n, addr, byte, ts, boot, |ts|);
    BootExact(n, addr, byte, ts, boot, |ts|);
    StartKeeps(boot[|ts|], mem, ks[0]);
    StartExact(boot[|ts|], mem, ks[0]);
    RunExact(ks, sts, es, ms);
  }

  // ----- room for a creation

  /** Slots whose level is among the first m listed ones. */
  function Among(a: seq<nat>, m: nat): Slot -> bool
    requires m <= |a|
  {
    (s: Slot) => Live(s) && Level(s) in a[..m]
  }

  lemma {:induction false} LevelsNeedTasks(t: seq<Slot>, a: seq<nat>, n: nat, m: nat)
    requires Sorted(a, n) && m <= n && forall x :: 0 <= x < n ==> HasLevel(t, a[x])
    ensures m <= Count(t, Among(a, m))
  {
    if m > 0 {
      LevelsNeedTasks(t, a, n, m - 1);
      assert HasLevel(t, a[m - 1]);
      var u :| 0 <= u < |t| && Live(t[u]) && Level(t[u]) == a[m - 1];
      assert a[..m] == a[..m - 1] + [a[m - 1]];
      assert a[m - 1] !in a[..m - 1];
      CountStrict(t, Among(a, m - 1), Among(a, m), u);
    }
  }

  lemma {:induction false} CountStrict(t: seq<Slot>, p: Slot -> bool, q: Slot -> bool, u: nat)
    requires u < |t| && !p(t[u]) && q(t[u]) && forall s :: p(s) ==> q(s)
    ensures Count(t, p) < Count(t, q)
  {
    var m := |t| - 1;
    if u == m {
      CountMono(t[..m], p, t[..m], q);
    } else {
      assert t[..m][u] == t[u];
      CountStrict(t[..m], p, q, u);
    }
  }

  /** An exact stash never outgrows the tasks: while a slot is free the stash is not full. */
  lemma ExactFits(k: Kernel, st: seq<nat>)
    requires Core(k, st) && Exact(k)
    ensures k.lstash <= k.taskCount
    ensures k.taskCount < |k.slots| ==> !Full(k.stash, k.lstash)
  {
    hide Counted, Named, Ring;
    forall x | 0 <= x < k.lstash ensures HasLevel(k.slots, k.stash[x]) {
      assert k.stash[x] in k.stash[..k.lstash];
    }
    LevelsNeedTasks(k.slots, k.stash, k.lstash, k.lstash);
    CountMono(k.slots, Among(k.stash, k.lstash), k.slots, Live);
  }

  /** So, over every run of which no event leaves a dead level, a creation that the kernel admits never trespasses on
      the byte behind the stash. */
  lemma RunHasRoom(ks: seq<Kernel>, sts: seq<seq<nat>>, es: seq<Event>, ms: seq<Memory>, i: nat, t: Task)
    requires Run(ks, sts, es, ms) && Inv(ks[0], sts[0]) && Exact(ks[0]) && i <= |es|
    requires forall j :: 0 <= j < i ==> !LeavesDeadLevel(ks[j], es[j])
    requires Admission(ks[i], t) == NoError
    ensures ks[i].lstash < |ks[i].stash| && !Trespasses(ks[i].stash, ks[i].lstash, t.prio)
  {
    hide Exact, LeavesDeadLevel, Ring, Counted, Named, Stacked, Trespasses;
    RunKeeps(ks, sts, es, ms, i);
    StaysExact(ks, sts, es, ms, i);
    ExactFits(ks[i], sts[i]);
    StaysInside(ks[i].stash, ks[i].lstash, t.prio);
  }
}
