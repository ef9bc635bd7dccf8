/** Whole runs: any sequence of services and timer ticks, each followed by the scheduling it asks for. */
module Runs {
  import opened Slots
  import opened JumpList
  import opened Services
  import opened Scheduler
  import opened Invariant
  import opened Transitions

  datatype Event =
    | Create(task: Task)
    | Kill(slot: nat)                 // another task
    | End                             // the current task returns
    | Hibernate(reverse: bool, op1: nat, op2: nat, value: nat)
    | Promote(mutex: nat, owner: nat) // requested by spin_lock
    | Demote                          // requested by mutex_unlock
    | HandOver
    | Tick
    | Invoke                          // the current task invokes the base task
    | Release(error: nat)             // the base task releases its invoker
    | Grant(id: nat, permission: nat)
    | Disturb(byte: nat)              // something else changes the byte behind the stash

  ghost predicate Allowed(k: Kernel, e: Event)
    requires k.current < |k.slots|
  {
    match e
    case Create(t) => Admission(k, t) == NoError ==> CanCreate(k, t)
    case Kill(i) => i != k.current && CanKill(k, i)
    case End => CanKill(k, k.current)
    case Promote(m, o) => CanPromote(k, m, o)
    case Demote => k.slots[k.current].mutex != 0
    case Invoke => k.current != 0 ==> CanPromote(k, BASE_MUTEX, 0)
    case Release(v) => Released(k, v).1 == NoError ==> k.slots[0].mutex != 0
    case _ => true
  }

  /** Does the service end in a promotion, a demotion, or neither? */
  predicate Pushes(k: Kernel, e: Event) {
    e.Promote? || (e.Invoke? && k.current != 0)
  }

  predicate Pops(k: Kernel, e: Event)
    requires k.current < |k.slots|
  {
    e.Demote? || (e.Release? && Released(k, e.error).1 == NoError)
  }

  predicate Reschedules(k: Kernel, e: Event)
    requires k.current < |k.slots|
  {
    Pushes(k, e) || Pops(k, e) || e.End? || e.Hibernate? || e.HandOver? || e.Tick?
  }

  ghost predicate Settled(k: Kernel) {
    Shaped(k) && k.next == k.current && !k.selfKill
  }

  /** The kernel after the service, with every rewriting of the service code followed through. */
  ghost function Effect(k: Kernel, e: Event): Kernel
    requires Settled(k) && Allowed(k, e)
  {
    match e
    case Create(t) => if Admission(k, t) == NoError then Created(k, t) else k
    case Kill(i) => Killed(k, i, false)
    case End => HandedOver(Killed(k, k.current, true))
    case Hibernate(rev, a, b, v) => Hibernated(k, rev, a, b, v)
    case Promote(m, o) => Promoted(k, m, o)
    case Demote => Stepped(k)
    case HandOver => HandedOver(k)
    case Tick => k
    case Invoke => if k.current == 0 then k else Promoted(Invoked(k).0, BASE_MUTEX, 0)
    case Release(v) => if Released(k, v).1 == NoError then Stepped(Released(k, v).0) else k
    case Grant(id, p) => Granted(k, id, p).0
    case Disturb(byte) => Disturbed(k, byte)
  }

  ghost predicate Step(k: Kernel, e: Event, mem: Memory, r: Kernel) {
    && Settled(k) && Allowed(k, e)
    && var m := Effect(k, e);
       if Reschedules(k, e) then m.current < |m.slots| && Scheduled(m, mem, r) else r == m
  }

  ghost function StackAfter(k: Kernel, st: seq<nat>, e: Event): seq<nat>
    requires k.current < |k.slots|
  {
    if Pushes(k, e) then st + [if e.Promote? then e.owner else 0]
    else if Pops(k, e) && st != [] then st[..|st| - 1]
    else st
  }

  // ----- one step

  /** Nothing but invocation data, permissions and returned errors changes. */
  ghost predicate Quiet(k: Kernel, r: Kernel) {
    && SameTasks(k, r) && (forall i :: 0 <= i < |k.slots| ==> r.slots[i].state == k.slots[i].state)
    && r.current == k.current && r.next == k.next && r.started == k.started && r.normal == k.normal
    && r.selfKill == k.selfKill && r.timer == k.timer && r.alc == k.alc && r.hlc == k.hlc
  }

  lemma QuietRunning(k: Kernel, r: Kernel, st: seq<nat>)
    requires Running(k) && TopRuns(k, st) && Timed(k) && Quiet(k, r)
    ensures Running(r) && TopRuns(r, st) && Timed(r)
  {
    assert SameTask(k.slots[k.current], r.slots[k.current]);
  }

  lemma QuietKeeps(k: Kernel, r: Kernel, st: seq<nat>)
    requires Inv(k, st) && Quiet(k, r)
    ensures Inv(r, st)
  {
    SameCore(k, r, st);
    QuietRunning(k, r, st);
  }

  lemma QuietInvoke(k: Kernel)
    requires SmallFields(k)
    ensures Quiet(k, Invoked(k).0)
  {
  }

  lemma QuietRelease(k: Kernel, error: nat)
    requires SmallFields(k)
    ensures Quiet(k, Released(k, error).0)
  {
  }

  lemma QuietGrant(k: Kernel, id: nat, permission: nat)
    requires SmallFields(k)
    ensures Quiet(k, Granted(k, id, permission).0)
  {
    hide WithId;
  }

  lemma InvokeKeeps(k: Kernel, st: seq<nat>)
    requires Inv(k, st) && k.current != 0 && CanPromote(k, BASE_MUTEX, 0)
    ensures var r := Promoted(Invoked(k).0, BASE_MUTEX, 0);
            Core(r, st + [0]) && Between(r)
  {
    QuietInvoke(k);
    var q := Invoked(k).0;
    QuietKeeps(k, q, st);
    PromoteKeeps(q, st, BASE_MUTEX, 0);
  }

  lemma ReleaseKeeps(k: Kernel, st: seq<nat>, error: nat)
    requires Inv(k, st) && k.slots[k.current].mutex != 0
    ensures st != [] && k.current == st[|st| - 1]
    ensures var r := Stepped(Released(k, error).0);
            Core(r, st[..|st| - 1]) && Between(r)
  {
    QuietRelease(k, error);
    var q := Released(k, error).0;
    QuietKeeps(k, q, st);
    assert SameTask(k.slots[k.current], q.slots[k.current]);
    DemoteKeeps(q, st);
  }

  lemma GrantKeeps(k: Kernel, st: seq<nat>, id: nat, permission: nat)
    requires Inv(k, st)
    ensures Inv(Granted(k, id, permission).0, st)
  {
    QuietGrant(k, id, permission);
    QuietKeeps(k, Granted(k, id, permission).0, st);
  }

  /** The byte behind the stash is nobody's business. */
  lemma DisturbedCore(k: Kernel, st: seq<nat>, byte: nat)
    requires Core(k, st)
    ensures Core(Disturbed(k, byte), st)
  {
    hide Ring, Named, Stacked;
    var r := Disturbed(k, byte);
    assert r.stash[..r.lstash] == k.stash[..k.lstash];
    DisturbedLevelled(k, r);
    assert Counted(r) && CountsTop(r);
    assert Named(r) && Stacked(r, st) by { DisturbedRest(k, st, byte); }
  }

  lemma DisturbedLevelled(k: Kernel, r: Kernel)
    requires Levelled(k) && r.slots == k.slots && |r.stash| == |k.stash| && r.lstash == k.lstash &&
        UserTop(r) == UserTop(k)
    requires forall i :: 0 <= i < |k.stash| - 1 ==> r.stash[i] == k.stash[i]
    ensures Levelled(r)
  {
    assert r.stash[..r.lstash] == k.stash[..k.lstash];
  }

  lemma DisturbedRest(k: Kernel, st: seq<nat>, byte: nat)
    requires Named(k) && Stacked(k, st)
    ensures Named(Disturbed(k, byte)) && Stacked(Disturbed(k, byte), st)
  {
  }

  lemma DisturbKeeps(k: Kernel, st: seq<nat>, byte: nat)
    requires Inv(k, st)
    ensures Inv(Disturbed(k, byte), st)
  {
    hide Core;
    DisturbedCore(k, st, byte);
  }

  lemma TickBetween(k: Kernel, st: seq<nat>)
    requires Inv(k, st)
    ensures Core(k, st) && Between(k)
  {
  }

  /** Events that reschedule leave a settled service behind. */
  ghost predicate Ends(k: Kernel, st: seq<nat>, e: Event)
    requires Settled(k) && Allowed(k, e)
  {
    Core(Effect(k, e), StackAfter(k, st, e)) && Between(Effect(k, e))
  }

  lemma PushEnds(k: Kernel, st: seq<nat>, e: Event)
    requires Inv(k, st) && Allowed(k, e) && Pushes(k, e)
    ensures Ends(k, st, e)
  {
    hide Core, Between;
    if e.Promote? { PromoteKeeps(k, st, e.mutex, e.owner); } else { InvokeKeeps(k, st); }
  }

  lemma PopEnds(k: Kernel, st: seq<nat>, e: Event)
    requires Inv(k, st) && Allowed(k, e) && Pops(k, e)
    ensures Ends(k, st, e)
  {
    hide Core, Between;
    if e.Demote? { DemoteKeeps(k, st); } else { ReleaseKeeps(k, st, e.error); }
  }

  lemma EndEnds(k: Kernel, st: seq<nat>)
    requires Inv(k, st) && Allowed(k, End)
    ensures Ends(k, st, End)
  {
    hide Core, Between;
    EndKeeps(k, st);
  }

  lemma HibernateEnds(k: Kernel, st: seq<nat>, e: Event)
    requires Inv(k, st) && e.Hibernate?
    ensures Ends(k, st, e)
  {
    hide Core, Between;
    HibernateKeeps(k, st, e.reverse, e.op1, e.op2, e.value);
  }

  lemma HandOverEnds(k: Kernel, st: seq<nat>)
    requires Inv(k, st)
    ensures Ends(k, st, HandOver)
  {
    hide Core, Between;
    HandOverKeeps(k, st);
  }

  lemma TickEnds(k: Kernel, st: seq<nat>)
    requires Inv(k, st)
    ensures Ends(k, st, Tick)
  {
    TickBetween(k, st);
  }

  lemma EffectEnds(k: Kernel, st: seq<nat>, e: Event)
    requires Inv(k, st) && Allowed(k, e) && Reschedules(k, e)
    ensures Ends(k, st, e)
  {
    if Pushes(k, e) { PushEnds(k, st, e); }
    else if Pops(k, e) { PopEnds(k, st, e); }
    else if e.End? { EndEnds(k, st); }
    else if e.Hibernate? { HibernateEnds(k, st, e); }
    else if e.HandOver? { HandOverEnds(k, st); }
    else { TickEnds(k, st); }
  }

  /** Every step keeps the invariant, the stack moving as the service says. */
  lemma StepKeeps(k: Kernel, st: seq<nat>, e: Event, mem: Memory, r: Kernel)
    requires Inv(k, st) && Step(k, e, mem, r)
    ensures Inv(r, StackAfter(k, st, e))
  {
    hide Core, Between, Running, Timed, TopRuns;
    if Reschedules(k, e) {
      EffectEnds(k, st, e);
      ScheduleKeeps(Effect(k, e), mem, r, StackAfter(k, st, e));
    } else {
      match e
      case Create(t) => if Admission(k, t) == NoError { CreateKeeps(k, st, t); }
      case Kill(i) => KillKeeps(k, st, i);
      case Grant(id, p) => GrantKeeps(k, st, id, p);
      case Disturb(byte) => DisturbKeeps(k, st, byte);
      case _ =>
    }
  }

  // ----- runs

  /** A run lists the kernel before and after each event, with the stack of promoted tasks. */
  ghost predicate Run(ks: seq<Kernel>, sts: seq<seq<nat>>, es: seq<Event>, ms: seq<Memory>) {
    && |ks| == |sts| == |es| + 1 && |ms| == |es|
    && forall i :: 0 <= i < |es| ==> Move(ks[i], sts[i], es[i], ms[i], ks[i + 1], sts[i + 1])
  }

  ghost predicate Move(k: Kernel, st: seq<nat>, e: Event, mem: Memory, r: Kernel, st': seq<nat>) {
    Step(k, e, mem, r) && st' == StackAfter(k, st, e)
  }

  /** The invariant holds all along every run. */
  lemma {:induction false} RunKeeps(ks: seq<Kernel>, sts: seq<seq<nat>>, es: seq<Event>, ms: seq<Memory>, i: nat)
    requires Run(ks, sts, es, ms) && Inv(ks[0], sts[0]) && i <= |es|
    ensures Inv(ks[i], sts[i])
  {
    hide Inv, Step;
    if i > 0 {
      RunKeeps(ks, sts, es, ms, i - 1);
      assert Move(ks[i - 1], sts[i - 1], es[i - 1], ms[i - 1], ks[i], sts[i]);
      StepKeeps(ks[i - 1], sts[i - 1], es[i - 1], ms[i - 1], ks[i]);
    }
  }

  /** What the invariant says of one slot: ACTIVE means current, the timer is off only for a sole task at the top level,
      and the current task is the top of the promotion stack or not promoted at all. */
  ghost predicate Safe(k: Kernel, u: nat) {
    && u < |k.slots| && k.current < |k.slots|
    && (k.slots[u].state == Active <==> u == k.current)
    && (!k.timer && Live(k.slots[u]) && k.slots[u].prio == k.maxLevel ==> u == k.current)
    && (k.slots[k.current].prio > 126 ==> k.slots[k.current].prio == k.maxLevel)
  }

  lemma InvIsSafe(k: Kernel, st: seq<nat>, u: nat)
    requires Inv(k, st) && u < |k.slots|
    ensures Safe(k, u)
  {
    RunningTask(k, st);
    if !k.timer && Live(k.slots[u]) && k.slots[u].prio == k.maxLevel {
      TimerOffMeansAlone(k, st, u);
    }
  }

  lemma RunningTask(k: Kernel, st: seq<nat>)
    requires Stacked(k, st) && TopRuns(k, st) && k.current < |k.slots|
    ensures k.slots[k.current].prio > 126 ==> k.slots[k.current].prio == k.maxLevel
  {
  }

  lemma RunIsSafe(ks: seq<Kernel>, sts: seq<seq<nat>>, es: seq<Event>, ms: seq<Memory>, i: nat, u: nat)
    requires Run(ks, sts, es, ms) && Inv(ks[0], sts[0]) && i <= |es| && u < |ks[i].slots|
    ensures Safe(ks[i], u)
  {
    RunKeeps(ks, sts, es, ms, i);
    InvIsSafe(ks[i], sts[i], u);
  }

  /** One event pushes, pops or leaves the stack. */
  ghost predicate Shift(st: seq<nat>, st': seq<nat>) {
    st' == st || (|st'| == |st| + 1 && st == st'[..|st|]) || (st != [] && st' == st[..|st| - 1])
  }

  lemma MoveShifts(k: Kernel, st: seq<nat>, e: Event, mem: Memory, r: Kernel, st': seq<nat>)
    requires Move(k, st, e, mem, r, st')
    ensures Shift(st, st')
    ensures Pushes(k, e) ==> st' == st + [if e.Promote? then e.owner else 0]
    ensures k.current < |k.slots| && (Pops(k, e) && st != [] ==> st' == st[..|st| - 1])
  {
  }

  lemma {:induction false} StackGrowsFrom(sts: seq<seq<nat>>, i: nat, j: nat)
    requires i <= j < |sts| && forall x :: i <= x < j ==> Shift(sts[x], sts[x + 1])
    requires forall x :: i <= x <= j ==> |sts[x]| >= |sts[i]|
    ensures sts[i] == sts[j][..|sts[i]|]
  {
    if i < j {
      StackGrowsFrom(sts, i, j - 1);
      assert Shift(sts[j - 1], sts[j]);
    }
  }

  lemma PopsTop(k: Kernel, st: seq<nat>, e: Event)
    requires Inv(k, st) && Allowed(k, e) && Pops(k, e)
    ensures st != [] && k.current == st[|st| - 1]
  {
    assert k.slots[k.current].mutex != 0;
  }

  /** The stack is back where it was once what was pushed at step i is popped at step j. */
  lemma BackAgain(sts: seq<seq<nat>>, i: nat, j: nat, o: nat)
    requires i < j && j + 1 < |sts| && forall x :: i <= x <= j ==> Shift(sts[x], sts[x + 1])
    requires sts[i + 1] == sts[i] + [o] && sts[j] != [] && sts[j + 1] == sts[j][..|sts[j]| - 1]
    requires forall x :: i < x <= j ==> |sts[x]| > |sts[i]|
    requires |sts[j + 1]| == |sts[i]|
    ensures sts[j + 1] == sts[i] && sts[j][|sts[j]| - 1] == o
  {
    StackGrowsFrom(sts, i + 1, j);
    assert sts[j] == sts[i + 1];
  }

  /** Demotions are last in, first out. If a promotion of o at step i is undone by the demotion at step j, the stack
      having stayed higher in between, then the demoted task is o and the stack is as it was before step i. */
  lemma LastInFirstOut(ks: seq<Kernel>, sts: seq<seq<nat>>, es: seq<Event>, ms: seq<Memory>, i: nat, j: nat)
    requires Run(ks, sts, es, ms) && Inv(ks[0], sts[0]) && i < j < |es| && Pushes(ks[i], es[i])
    requires ks[j].current < |ks[j].slots| && Pops(ks[j], es[j])
    requires forall x :: i < x <= j ==> |sts[x]| > |sts[i]|
    requires |sts[j + 1]| == |sts[i]|
    ensures ks[j].current == if es[i].Promote? then es[i].owner else 0
    ensures sts[j + 1] == sts[i]
  {
    forall x | i <= x <= j ensures Shift(sts[x], sts[x + 1]) {
      MoveShifts(ks[x], sts[x], es[x], ms[x], ks[x + 1], sts[x + 1]);
    }
    MoveShifts(ks[i], sts[i], es[i], ms[i], ks[i + 1], sts[i + 1]);
    MoveShifts(ks[j], sts[j], es[j], ms[j], ks[j + 1], sts[j + 1]);
    PopsTopInRun(ks, sts, es, ms, j);
    BackAgain(sts, i, j, if es[i].Promote? then es[i].owner else 0);
  }

  lemma PopsTopInRun(ks: seq<Kernel>, sts: seq<seq<nat>>, es: seq<Event>, ms: seq<Memory>, j: nat)
    requires Run(ks, sts, es, ms) && Inv(ks[0], sts[0]) && j < |es|
    requires ks[j].current < |ks[j].slots| && Pops(ks[j], es[j])
    ensures sts[j] != [] && ks[j].current == sts[j][|sts[j]| - 1]
  {
    RunKeeps(ks, sts, es, ms, j);
    assert Move(ks[j], sts[j], es[j], ms[j], ks[j + 1], sts[j + 1]);
    PopsTop(ks[j], sts[j], es[j]);
  }
}
