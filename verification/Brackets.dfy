/** From a push to the pop that matches it, at any depth and over any run in between: everything the push changed is put
    back. For a base invocation the pop is the release, which wakes the invoker with the error and nobody else. */
module Brackets {
  import opened Slots
  import opened JumpList
  import opened LevelStash
  import opened Services
  import opened Scheduler
  import opened Invariant
  import opened Transitions
  import opened Runs
  import opened Promotion
  import opened BaseInvocation
  import opened DeadLevels
  import opened Held
  import opened Fields

  // ----- levels and priorities

  /** The same live tasks with the same links, ids and objects at the same user levels, the same levels listed, and the
      same count at the user top. */
  ghost predicate SameUsers(k: Kernel, r: Kernel) {
    && |r.slots| == |k.slots| && UserTop(r) == UserTop(k) && UserSum(r) == UserSum(k)
    && r.lstash == k.lstash && |r.stash| == |k.stash|
    && (forall x :: 0 <= x < |k.stash| - 1 ==> r.stash[x] == k.stash[x])
    && forall u :: 0 <= u < |k.slots| ==>
         && (Live(k.slots[u]) <==> Live(r.slots[u])) && Level(r.slots[u]) == Level(k.slots[u])
         && r.slots[u].jmp == k.slots[u].jmp && r.slots[u].id == k.slots[u].id && r.slots[u].obj == k.slots[u].obj
  }

  lemma UsersOfLevels(k: Kernel, r: Kernel)
    requires SameLevels(k, r)
    ensures SameUsers(k, r)
  {
  }

  lemma SameUsersTrans(k: Kernel, p: Kernel, r: Kernel)
    requires SameUsers(k, p) && SameUsers(p, r)
    ensures SameUsers(k, r)
  {
  }

  lemma EffectUsers(k: Kernel, st: seq<nat>, e: Event)
    requires Inv(k, st) && Settled(k) && Allowed(k, e) && (InPromotion(k) || Pushes(k, e))
    ensures SameUsers(k, Effect(k, e))
  {
    hide Core, SameLevels, SameUsers, Created, Killed, Killable, Welcome;
    if Settling(e) {
      EffectLevels(k, st, e);
      UsersOfLevels(k, Effect(k, e));
    } else if e.Disturb? {
      UsersDisturbed(k, e.byte);
    } else {
      RefusedWhilePromoted(k, e);
      UsersOfLevels(k, k) by { NoChange(k); }
    }
  }

  lemma RefusedWhilePromoted(k: Kernel, e: Event)
    requires Settled(k) && Allowed(k, e) && InPromotion(k) && (e.Create? || e.Kill? || e.End?)
    ensures Effect(k, e) == k
  {
  }

  lemma UsersDisturbed(k: Kernel, byte: nat)
    ensures SameUsers(k, Disturbed(k, byte))
  {
  }

  /** Every event that promotes, or comes while something is promoted, keeps every task at its user level. */
  lemma StepUsers(k: Kernel, st: seq<nat>, e: Event, mem: Memory, r: Kernel)
    requires Inv(k, st) && Step(k, e, mem, r) && (InPromotion(k) || Pushes(k, e))
    ensures SameUsers(k, r)
  {
    hide Inv, SameUsers, Effect, Allowed, Core, Between, Scheduled;
    EffectUsers(k, st, e);
    if Reschedules(k, e) {
      EffectEnds(k, st, e);
      ScheduledLevels(Effect(k, e), StackAfter(k, st, e), mem, r);
      UsersOfLevels(Effect(k, e), r);
      SameUsersTrans(k, Effect(k, e), r);
    }
  }

  lemma {:induction false} RunUsers(ks: seq<Kernel>, sts: seq<seq<nat>>, es: seq<Event>, ms: seq<Memory>, i: nat,
      j: nat)
    requires Run(ks, sts, es, ms) && Inv(ks[0], sts[0]) && i <= j <= |es|
    requires forall x :: i <= x < j ==> InPromotion(ks[x]) || Pushes(ks[x], es[x])
    ensures SameUsers(ks[i], ks[j])
    decreases j
  {
    hide Inv, Step, SameUsers, InPromotion, Pushes;
    if i == j {
      UsersOfLevels(ks[i], ks[i]) by { NoChange(ks[i]); }
    } else {
      RunUsers(ks, sts, es, ms, i, j - 1);
      RunKeeps(ks, sts, es, ms, j - 1);
      assert Move(ks[j - 1], sts[j - 1], es[j - 1], ms[j - 1], ks[j], sts[j]);
      StepUsers(ks[j - 1], sts[j - 1], es[j - 1], ms[j - 1], ks[j]);
      SameUsersTrans(ks[i], ks[j - 1], ks[j]);
    }
  }

  /** Every priority, the top level and the sentinel. */
  ghost predicate SamePriorities(k: Kernel, r: Kernel) {
    && |r.slots| == |k.slots| && r.maxLevel == k.maxLevel && r.maxpLevel == k.maxpLevel
    && forall u :: 0 <= u < |k.slots| ==> r.slots[u].prio == k.slots[u].prio
  }

  /** User levels and the stack of promotions determine the priorities. */
  lemma StackDecides(k: Kernel, r: Kernel, st: seq<nat>)
    requires Core(k, st) && Core(r, st) && SameUsers(k, r)
    ensures SamePriorities(k, r)
  {
    hide Ring, Levelled, Counted, Named;
    forall u | 0 <= u < |k.slots| ensures r.slots[u].prio == k.slots[u].prio {
      if u in st {
        var m :| 0 <= m < |st| && st[m] == u;
        assert k.slots[st[m]].prio == 128 + m && r.slots[st[m]].prio == 128 + m;
      }
    }
  }

  /** A pop at step j that matches the push at step i: the stack was higher in between, and is as high again. */
  ghost predicate Matches(ks: seq<Kernel>, sts: seq<seq<nat>>, es: seq<Event>, ms: seq<Memory>, i: nat, j: nat) {
    && Run(ks, sts, es, ms) && Inv(ks[0], sts[0]) && i < j < |es| && Pushes(ks[i], es[i])
    && ks[j].current < |ks[j].slots| && Pops(ks[j], es[j])
    && (forall x :: i < x <= j ==> |sts[x]| > |sts[i]|) && |sts[j + 1]| == |sts[i]|
  }

  /** Matched push and pop, at any depth: whatever ran in between, the stack, every priority, the top level, the
      sentinel and the sum of the counters at the user top are as before the push. */
  lemma MatchedBracket(ks: seq<Kernel>, sts: seq<seq<nat>>, es: seq<Event>, ms: seq<Memory>, i: nat, j: nat)
    requires Matches(ks, sts, es, ms, i, j)
    ensures sts[j + 1] == sts[i] && SamePriorities(ks[i], ks[j + 1]) && SameUsers(ks[i], ks[j + 1])
  {
    hide Inv, Step, SameUsers, SamePriorities, Pops;
    LastInFirstOut(ks, sts, es, ms, i, j);
    forall x | i <= x < j + 1 ensures InPromotion(ks[x]) || Pushes(ks[x], es[x]) {
      if x > i {
        RunKeeps(ks, sts, es, ms, x);
        StackedMeans(ks[x], sts[x]);
      }
    }
    RunUsers(ks, sts, es, ms, i, j + 1);
    RunKeeps(ks, sts, es, ms, i);
    RunKeeps(ks, sts, es, ms, j + 1);
    InvCore(ks[i], sts[i]);
    InvCore(ks[j + 1], sts[j + 1]);
    StackDecides(ks[i], ks[j + 1], sts[i]);
  }

  lemma StackedMeans(k: Kernel, st: seq<nat>)
    requires Inv(k, st)
    ensures st != [] ==> InPromotion(k)
  {
  }

  lemma InvCore(k: Kernel, st: seq<nat>)
    requires Inv(k, st)
    ensures Core(k, st)
  {
  }

  // ----- the base task's mutex

  /** Nobody but the base task is promoted for the base task's mutex. */
  ghost predicate Apart(k: Kernel) {
    forall u :: 0 < u < |k.slots| ==> k.slots[u].mutex != BASE_MUTEX
  }

  lemma UnpromotedApart(k: Kernel)
    requires Stacked(k, [])
    ensures Apart(k)
  {
  }

  /** Mutexes stay where they are or are cleared, except those of promotions. */
  lemma StepApart(k: Kernel, st: seq<nat>, e: Event, mem: Memory, r: Kernel)
    requires Inv(k, st) && Step(k, e, mem, r) && Apart(k) && (e.Promote? ==> e.mutex != BASE_MUTEX)
    ensures Apart(r)
  {
    hide Core, Effect, Allowed, Scheduled, Running;
    EffectApart(k, st, e);
    if Reschedules(k, e) {
      NormalRuns(k, e);
      ScheduledHolds(Effect(k, e), mem, r);
      assert forall u :: 0 <= u < |r.slots| ==> SameHold(Effect(k, e).slots[u], r.slots[u]);
    }
  }

  lemma EffectApart(k: Kernel, st: seq<nat>, e: Event)
    requires Inv(k, st) && Settled(k) && Allowed(k, e) && Apart(k) && (e.Promote? ==> e.mutex != BASE_MUTEX)
    ensures Apart(Effect(k, e))
  {
    hide Core, CanKill, Killed, Created, CanCreate, Stepped, Released, WithId;
    match e
    case Create(t) =>
      if Admission(k, t) == NoError { CreatedApart(k, st, t); }
    case Kill(i) => KilledApart(k, st, i, false);
    case End => EndedApart(k, st);
    case Demote => SteppedApart(k);
    case Release(v) =>
      ReleasedSlots(k, v);
      SteppedApart(Released(k, v).0);
    case Grant(id, p) => GrantedSlots(k, id, p);
    case _ =>
  }

  lemma CreatedApart(k: Kernel, st: seq<nat>, t: Task)
    requires Core(k, st) && CanCreate(k, t) && Apart(k)
    ensures Shaped(k) && Searchable(k) && Admission(k, t) == NoError && Apart(Created(k, t))
  {
    hide Core, Created;
    CreatedHolds(k, st, t);
    assert forall u :: 0 <= u < |k.slots| ==> SameHold(k.slots[u], Created(k, t).slots[u]);
  }

  lemma KilledApart(k: Kernel, st: seq<nat>, i: nat, self: bool)
    requires Core(k, st) && CanKill(k, i) && Apart(k) && (k.selfKill || self ==> i == k.next)
    ensures Shaped(k) && Killable(k, i) && Apart(Killed(k, i, self))
  {
    hide Levelled, Stacked, Counted, Named, Killed, Ring;
    KilledSlots(k, i, self);
    var r := Killed(k, i, self);
    forall u | 0 < u < |r.slots| ensures r.slots[u].mutex != BASE_MUTEX {
      assert u != i ==> Unmoved(k.slots[u], r.slots[u]);
    }
  }

  lemma EndedApart(k: Kernel, st: seq<nat>)
    requires Inv(k, st) && CanKill(k, k.current) && Apart(k)
    ensures Shaped(k) && Killable(k, k.current)
    ensures var r := Killed(k, k.current, true); r.current < |r.slots| && Apart(HandedOver(r))
  {
    hide Core, Unlink, Removed, Shared, TopLevel, Count, Byte, Word, Stride;
    KilledApart(k, st, k.current, true);
    KilledFits(k);
  }

  lemma KilledFits(k: Kernel)
    requires Shaped(k) && Killable(k, k.current)
    ensures Killed(k, k.current, true).current == k.current && |Killed(k, k.current, true).slots| == |k.slots|
  {
    hide Unlink, Removed, Shared, TopLevel, Count, Byte, Word, Stride;
  }

  lemma SteppedApart(k: Kernel)
    requires k.current < |k.slots| && Apart(k)
    ensures Apart(Stepped(k))
  {
    hide Demoted;
    DemotedSlots(k);
    assert forall u :: 0 <= u < |k.slots| && u != k.current ==> SameTask(k.slots[u], Demoted(k).slots[u]);
    DemotedCurrent(k);
  }

  lemma DemotedCurrent(k: Kernel)
    requires k.current < |k.slots|
    ensures Demoted(k).current == k.current
  {
  }

  lemma ReleasedSlots(k: Kernel, error: nat)
    ensures var r := Released(k, error).0;
            && |r.slots| == |k.slots| && r.current == k.current
            && forall u :: 0 <= u < |k.slots| ==> r.slots[u] == k.slots[u].(hib := r.slots[u].hib)
  {
  }

  lemma GrantedSlots(k: Kernel, id: nat, permission: nat)
    ensures var r := Granted(k, id, permission).0;
            |r.slots| == |k.slots| && forall u :: 0 <= u < |k.slots| ==> r.slots[u].mutex == k.slots[u].mutex
  {
  }

  // ----- while the base task serves

  /** The base task is promoted on behalf of x, the only task held on its mutex, whose id it has been given. */
  ghost predicate OnBehalf(k: Kernel, x: nat, id: nat) {
    && 0 < x < |k.slots| && k.invoked == id && k.slots[x].id == id
    && k.slots[x].state == Hold && k.slots[x].op1 == BASE_MUTEX && k.slots[0].mutex == BASE_MUTEX && Apart(k)
    && forall u :: 0 <= u < |k.slots| && u != x && k.slots[u].state == Hold ==> k.slots[u].op1 != BASE_MUTEX
  }

  lemma HoldsKeep(k: Kernel, r: Kernel, x: nat, id: nat)
    requires OnBehalf(k, x, id) && SameHolds(k.slots, r.slots) && r.invoked == k.invoked
    requires forall u :: 0 <= u < |k.slots| ==> r.slots[u].id == k.slots[u].id
    ensures OnBehalf(r, x, id)
  {
    assert forall u :: 0 <= u < |k.slots| ==> SameHold(k.slots[u], r.slots[u]);
  }

  /** An invocation of a base task that is not promoted starts this. */
  lemma InvokedOnBehalf(k: Kernel, st: seq<nat>)
    requires Inv(k, st) && Balanced(k) && Apart(k) && k.current != 0 && CanPromote(k, BASE_MUTEX, 0)
    ensures OnBehalf(Promoted(Invoked(k).0, BASE_MUTEX, 0), k.current, k.slots[k.current].id)
  {
    hide Ring, Levelled, Counted, Named, Balanced, Byte;
    assert k.slots[0].mutex == 0;
    NoneRaised(k);
    NoneHeld(k);
  }

  lemma NoneRaised(k: Kernel)
    requires |k.slots| > 0 && Apart(k) && k.slots[0].mutex != BASE_MUTEX
    ensures Count(k.slots, RaisedBy(BASE_MUTEX)) == 0
  {
    CountPositive(k.slots, RaisedBy(BASE_MUTEX));
  }

  lemma NoneHeld(k: Kernel)
    requires Balanced(k) && Count(k.slots, RaisedBy(BASE_MUTEX)) == 0
    ensures forall u :: 0 <= u < |k.slots| && k.slots[u].state == Hold ==> k.slots[u].op1 != BASE_MUTEX
  {
    CountPositive(k.slots, HeldOn(BASE_MUTEX));
    assert forall u :: 0 <= u < |k.slots| ==> !HeldOn(BASE_MUTEX)(k.slots[u]);
  }

  lemma ServingPromoted(k: Kernel, st: seq<nat>)
    requires Core(k, st) && |k.slots| > 0 && k.slots[0].mutex == BASE_MUTEX
    ensures InPromotion(k) && k.slots[0].prio > 126
  {
    hide Ring, Levelled, Counted, Named;
    assert 0 in st;
  }

  lemma PromotedOnBehalf(k: Kernel, st: seq<nat>, x: nat, id: nat, mutex: nat, owner: nat)
    requires Inv(k, st) && OnBehalf(k, x, id) && CanPromote(k, mutex, owner) && mutex != BASE_MUTEX
    ensures OnBehalf(Promoted(k, mutex, owner), x, id)
  {
    ServingPromoted(k, st);
    hide Core, Byte;
  }

  lemma DemotedOnBehalf(k: Kernel, st: seq<nat>, x: nat, id: nat)
    requires Inv(k, st) && OnBehalf(k, x, id) && Balanced(k) && k.current != 0 && k.slots[k.current].mutex != 0
    ensures OnBehalf(Stepped(k), x, id)
  {
    hide Core, Balanced, Demoted;
    DemotedSlots(k);
    var r := Demoted(k);
    var i := WakesExactlyOne(k, st);
    DemotedOperands(k);
    assert forall u :: 0 <= u < |k.slots| && u != k.current ==> SameTask(k.slots[u], r.slots[u]);
  }

  lemma DemotedOperands(k: Kernel)
    requires k.current < |k.slots|
    ensures var r := Demoted(k);
            && r.current == k.current && r.invoked == k.invoked && r.selfKill == k.selfKill && |r.slots| == |k.slots|
            && forall u :: 0 <= u < |k.slots| ==> r.slots[u].op1 == k.slots[u].op1 && r.slots[u].id == k.slots[u].id
  {
  }

  /** Nothing but a pop by the base task ends it, as long as nobody else is promoted for its mutex. */
  lemma EffectOnBehalf(k: Kernel, st: seq<nat>, e: Event, x: nat, id: nat)
    requires Inv(k, st) && Settled(k) && Allowed(k, e) && OnBehalf(k, x, id) && Balanced(k)
    requires (e.Promote? ==> e.mutex != BASE_MUTEX) && !(Pops(k, e) && k.current == 0)
    ensures OnBehalf(Effect(k, e), x, id)
  {
    BehalfPromoted(k, st, x, id);
    hide Inv, Balanced, OnBehalf, Created, Killed, Promoted, Stepped, WithId, Released, CanKill, CanCreate, CanPromote,
        Granted;
    match e
    case Create(t) => RefusedWhilePromoted(k, e);
    case Kill(i) => RefusedWhilePromoted(k, e);
    case End => RefusedWhilePromoted(k, e);
    case Promote(m, o) => PromotedOnBehalf(k, st, x, id, m, o);
    case Demote => DemotedOnBehalf(k, st, x, id);
    case Hibernate(rev, a, b, v) => HibernatedOnBehalf(k, st, x, id, rev, a, b, v);
    case HandOver => HandedOnBehalf(k, st, x, id);
    case Tick =>
    case Invoke => NotInvoked(k);
    case Grant(i, p) => GrantedOnBehalf(k, x, id, i, p);
    case Disturb(byte) => DisturbedOnBehalf(k, x, id, byte);
    case Release(v) => OnlyBaseReleases(k, v);
  }

  lemma BehalfPromoted(k: Kernel, st: seq<nat>, x: nat, id: nat)
    requires Inv(k, st) && OnBehalf(k, x, id)
    ensures InPromotion(k) && |k.slots| > 0 && k.slots[0].prio > 126
  {
    hide Core;
    ServingPromoted(k, st);
  }

  lemma NotInvoked(k: Kernel)
    requires k.current < |k.slots| && Allowed(k, Invoke) && k.slots[0].prio > 126
    ensures k.current == 0
  {
  }

  lemma HibernatedOnBehalf(k: Kernel, st: seq<nat>, x: nat, id: nat, reverse: bool, op1: nat, op2: nat, value: nat)
    requires Inv(k, st) && OnBehalf(k, x, id)
    ensures OnBehalf(Hibernated(k, reverse, op1, op2, value), x, id)
  {
    hide Core, OnBehalf, Byte;
    HoldsKeep(k, Hibernated(k, reverse, op1, op2, value), x, id);
  }

  lemma HandedOnBehalf(k: Kernel, st: seq<nat>, x: nat, id: nat)
    requires Inv(k, st) && OnBehalf(k, x, id)
    ensures OnBehalf(HandedOver(k), x, id)
  {
    hide Core, OnBehalf;
    HoldsKeep(k, HandedOver(k), x, id);
  }

  lemma GrantedOnBehalf(k: Kernel, x: nat, id: nat, i: nat, permission: nat)
    requires OnBehalf(k, x, id)
    ensures OnBehalf(Granted(k, i, permission).0, x, id)
  {
    hide OnBehalf;
    HoldsKeep(k, Granted(k, i, permission).0, x, id);
  }

  lemma DisturbedOnBehalf(k: Kernel, x: nat, id: nat, byte: nat)
    requires OnBehalf(k, x, id)
    ensures OnBehalf(Disturbed(k, byte), x, id)
  {
    hide OnBehalf;
    HoldsKeep(k, Disturbed(k, byte), x, id);
  }

  lemma OnlyBaseReleases(k: Kernel, error: nat)
    ensures Released(k, error).1 == NoError ==> k.current == 0
  {
  }

  lemma StepOnBehalf(k: Kernel, st: seq<nat>, e: Event, mem: Memory, r: Kernel, x: nat, id: nat)
    requires Inv(k, st) && Step(k, e, mem, r) && OnBehalf(k, x, id) && Balanced(k)
    requires (e.Promote? ==> e.mutex != BASE_MUTEX) && !(Pops(k, e) && k.current == 0)
    ensures OnBehalf(r, x, id)
  {
    hide Core, Balanced, OnBehalf, Effect, Allowed, Scheduled, Running, Pops;
    EffectOnBehalf(k, st, e, x, id);
    if Reschedules(k, e) {
      NormalRuns(k, e);
      ScheduledHolds(Effect(k, e), mem, r);
      ScheduledStates(Effect(k, e), mem, r);
      HoldsKeep(Effect(k, e), r, x, id);
    }
  }

  /** What `BaseFree` asks about the base task's mutex follows from the balance. */
  lemma FreeByBalance(k: Kernel, st: seq<nat>)
    requires Inv(k, st) && Balanced(k) && Apart(k)
    requires k.current != 0 && k.slots[0].state == Sleep && k.slots[0].prio <= 126
    ensures BaseFree(k)
  {
    hide Ring, Levelled, Counted, Named, Balanced;
    assert k.slots[0].mutex == 0;
    NoneRaised(k);
    NoneHeld(k);
  }

  // ----- the whole invocation

  /** The release finds the invoker, gives it the error, and wakes it and nobody else. */
  ghost predicate Answered(k: Kernel, d: Kernel, x: nat, error: nat) {
    && |d.slots| == |k.slots| && x < |k.slots| && d.invoked == 0 && d.slots[x].state == Sleep && d.slots[x].hib == error
    && forall u :: 0 <= u < |k.slots| && u != x ==>
         (d.slots[u].state == Hold <==> k.slots[u].state == Hold) && d.slots[u].hib == k.slots[u].hib
  }

  lemma AnswersInvoker(k: Kernel, x: nat, id: nat, error: nat)
    requires Named(k) && OnBehalf(k, x, id) && k.current == 0 && k.slots[0].state == Active
    ensures Pops(k, Release(error)) && Answered(k, Popped(k, Release(error)), x, error)
  {
    hide Named, Byte;
    InvokerFound(k, x, id);
    var q := Released(k, error).0;
    var low := q.slots[0 := q.slots[0].(prio := q.slots[0].saved, saved := 0)];
    HolderIs(low, BASE_MUTEX, x);
    DemotedIs(q, low, x);
    DemotedRest(q);
  }

  lemma DemotedRest(q: Kernel)
    requires q.current < |q.slots|
    ensures Demoted(q).invoked == q.invoked
  {
  }

  lemma InvokerFound(k: Kernel, x: nat, id: nat)
    requires Named(k) && OnBehalf(k, x, id)
    ensures WithId(k.slots, k.invoked, 0) == x
  {
    assert Live(k.slots[x]) && k.slots[x].id % 0x1_0000 > 0;
    var i := WithId(k.slots, k.invoked, 0);
    assert i <= x;
    assert Live(k.slots[i]);
  }

  lemma DistinctStack(k: Kernel, st: seq<nat>, a: nat, b: nat)
    requires Inv(k, st) && a < |st| && b < |st| && st[a] == st[b]
    ensures a == b
  {
    hide Ring, Levelled, Counted, Named;
    assert k.slots[st[a]].prio == 128 + a && k.slots[st[b]].prio == 128 + b;
  }

  /** In between nobody pops the base task: were it the top, the stack would be as low as before. */
  lemma BaseNotPopped(ks: seq<Kernel>, sts: seq<seq<nat>>, es: seq<Event>, ms: seq<Memory>, i: nat, j: nat, y: nat)
    requires Matches(ks, sts, es, ms, i, j) && es[i].Invoke? && i < y < j
    requires ks[y].current < |ks[y].slots| && Pops(ks[y], es[y])
    ensures ks[y].current != 0
  {
    hide Inv, Step, Shift, Pops;
    forall x | i <= x <= y ensures Shift(sts[x], sts[x + 1]) {
      MoveShifts(ks[x], sts[x], es[x], ms[x], ks[x + 1], sts[x + 1]);
    }
    MoveShifts(ks[i], sts[i], es[i], ms[i], ks[i + 1], sts[i + 1]);
    MoveShifts(ks[y], sts[y], es[y], ms[y], ks[y + 1], sts[y + 1]);
    StackGrowsFrom(sts, i + 1, y);
    RunKeeps(ks, sts, es, ms, y);
    PopsTopInRun(ks, sts, es, ms, y);
    var n := |sts[i]|;
    assert sts[y][n] == sts[y][..n + 1][n] == 0;
    if ks[y].current == 0 { DistinctStack(ks[y], sts[y], n, |sts[y]| - 1); }
  }

  ghost predicate NoBaseMutex(es: seq<Event>) {
    forall x :: 0 <= x < |es| && es[x].Promote? ==> es[x].mutex != BASE_MUTEX
  }

  lemma {:induction false} RunApart(ks: seq<Kernel>, sts: seq<seq<nat>>, es: seq<Event>, ms: seq<Memory>, i: nat)
    requires Run(ks, sts, es, ms) && Inv(ks[0], sts[0]) && Apart(ks[0]) && NoBaseMutex(es) && i <= |es|
    ensures Apart(ks[i])
  {
    hide Inv, Step, Apart;
    if i > 0 {
      RunApart(ks, sts, es, ms, i - 1);
      RunKeeps(ks, sts, es, ms, i - 1);
      assert Move(ks[i - 1], sts[i - 1], es[i - 1], ms[i - 1], ks[i], sts[i]);
      StepApart(ks[i - 1], sts[i - 1], es[i - 1], ms[i - 1], ks[i]);
    }
  }

  lemma InvokeStep(k: Kernel, st: seq<nat>, mem: Memory, r: Kernel)
    requires Inv(k, st) && Balanced(k) && Apart(k) && k.current != 0 && Step(k, Invoke, mem, r)
    ensures OnBehalf(r, k.current, k.slots[k.current].id)
  {
    hide Core, Balanced, Apart, OnBehalf, Scheduled, Running;
    InvokedOnBehalf(k, st);
    var m := Effect(k, Invoke);
    NormalRuns(k, Invoke);
    ScheduledHolds(m, mem, r);
    ScheduledStates(m, mem, r);
    HoldsKeep(m, r, k.current, k.slots[k.current].id);
  }

  /** From the invocation to its release the base task serves the invoker. */
  lemma {:induction false} ServesThroughout(ks: seq<Kernel>, sts: seq<seq<nat>>, es: seq<Event>, ms: seq<Memory>,
      i: nat, j: nat, y: nat)
    requires Matches(ks, sts, es, ms, i, j) && es[i].Invoke? && i < y <= j
    requires Balanced(ks[0]) && Apart(ks[0]) && NoBaseMutex(es)
    ensures ks[i].current < |ks[i].slots| && OnBehalf(ks[y], ks[i].current, ks[i].slots[ks[i].current].id)
    decreases y
  {
    hide Inv, Step, Balanced, Apart, OnBehalf, Pops;
    RunKeeps(ks, sts, es, ms, i);
    InvInRange(ks[i], sts[i]);
    RunKeeps(ks, sts, es, ms, y - 1);
    InvInRange(ks[y - 1], sts[y - 1]);
    RunBalanced(ks, sts, es, ms, y - 1);
    assert Move(ks[y - 1], sts[y - 1], es[y - 1], ms[y - 1], ks[y], sts[y]);
    if y == i + 1 {
      RunApart(ks, sts, es, ms, i);
      InvokeStep(ks[i], sts[i], ms[i], ks[y]);
    } else {
      ServesThroughout(ks, sts, es, ms, i, j, y - 1);
      if Pops(ks[y - 1], es[y - 1]) { BaseNotPopped(ks, sts, es, ms, i, j, y - 1); }
      StepOnBehalf(ks[y - 1], sts[y - 1], es[y - 1], ms[y - 1], ks[y], ks[i].current, ks[i].slots[ks[i].current].id);
    }
  }

  lemma InvInRange(k: Kernel, st: seq<nat>)
    requires Inv(k, st)
    ensures k.current < |k.slots| && Named(k) && k.slots[k.current].state == Active
  {
  }

  /** A base invocation is a round trip, whatever runs between it and its release: the release gives the error to the
      invoker, wakes it and nobody else, and the stack of promotions, every priority, the links, the listed levels and
      the top level are as before the invocation. */
  lemma InvocationBracket(ks: seq<Kernel>, sts: seq<seq<nat>>, es: seq<Event>, ms: seq<Memory>, i: nat, j: nat)
    requires Matches(ks, sts, es, ms, i, j) && es[i].Invoke? && es[j].Release?
    requires Balanced(ks[0]) && Apart(ks[0]) && NoBaseMutex(es)
    ensures Answered(ks[j], Popped(ks[j], es[j]), ks[i].current, es[j].error)
    ensures sts[j + 1] == sts[i] && SamePriorities(ks[i], ks[j + 1]) && SameUsers(ks[i], ks[j + 1])
  {
    ReleasedAtBase(ks[j], es[j].error);
    hide Inv, Step, Balanced, Apart, OnBehalf, Answered, Popped, SamePriorities, SameUsers, NoBaseMutex;
    MatchedBracket(ks, sts, es, ms, i, j);
    ServesThroughout(ks, sts, es, ms, i, j, j);
    RunKeeps(ks, sts, es, ms, j);
    InvInRange(ks[j], sts[j]);
    AnswersInvoker(ks[j], ks[i].current, ks[i].slots[ks[i].current].id, es[j].error);
    assert es[j] == Release(es[j].error);
  }

  lemma ReleasedAtBase(k: Kernel, error: nat)
    requires k.current < |k.slots| && Pops(k, Release(error))
    ensures k.current == 0
  {
  }
}
