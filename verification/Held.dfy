/** Tasks held on a mutex and tasks promoted for it: there are as many of the one as of the other. So every demotion
    wakes exactly one task, and with nothing promoted nobody is held. */
module Held {
  import opened Slots
  import opened JumpList
  import opened LevelStash
  import opened Services
  import opened Scheduler
  import opened Invariant
  import opened Transitions
  import opened Runs
  import opened Boot

  function HeldOn(m: nat): Slot -> bool {
    (s: Slot) => s.state == Hold && s.op1 == m
  }

  function RaisedBy(m: nat): Slot -> bool {
    (s: Slot) => s.mutex == m
  }

  /** For every mutex as many tasks are held on it as are promoted for it; nobody is held on the null address. */
  ghost predicate Balanced(k: Kernel) {
    && (forall m: nat :: m != 0 ==> Count(k.slots, HeldOn(m)) == Count(k.slots, RaisedBy(m)))
    && forall u :: 0 <= u < |k.slots| && k.slots[u].state == Hold ==> k.slots[u].op1 != 0
  }

  // ----- changes that touch neither

  predicate SameHold(s: Slot, r: Slot) {
    (s.state == Hold <==> r.state == Hold) && (s.state == Hold ==> s.op1 == r.op1) && s.mutex == r.mutex
  }

  ghost predicate SameHolds(t: seq<Slot>, r: seq<Slot>) {
    |r| == |t| && forall i :: 0 <= i < |t| ==> SameHold(t[i], r[i])
  }

  lemma SameBalanced(k: Kernel, r: Kernel)
    requires SameHolds(k.slots, r.slots)
    ensures Balanced(k) <==> Balanced(r)
  {
    forall m: nat
      ensures Count(k.slots, HeldOn(m)) == Count(r.slots, HeldOn(m))
      ensures Count(k.slots, RaisedBy(m)) == Count(r.slots, RaisedBy(m))
    {
      HoldCounts(k.slots, r.slots, m);
    }
    assert forall u :: 0 <= u < |k.slots| ==> SameHold(k.slots[u], r.slots[u]);
  }

  lemma HoldCounts(t: seq<Slot>, r: seq<Slot>, m: nat)
    requires SameHolds(t, r)
    ensures Count(t, HeldOn(m)) == Count(r, HeldOn(m)) && Count(t, RaisedBy(m)) == Count(r, RaisedBy(m))
  {
    forall i | 0 <= i < |t| ensures (HeldOn(m)(t[i]) <==> HeldOn(m)(r[i])) &&
        (RaisedBy(m)(t[i]) <==> RaisedBy(m)(r[i])) {
      assert SameHold(t[i], r[i]);
    }
    SameCount(t, r, HeldOn(m));
    SameCount(t, r, RaisedBy(m));
  }

  // ----- promotion and demotion

  lemma PromotedBalanced(k: Kernel, st: seq<nat>, mutex: nat, owner: nat)
    requires Inv(k, st) && CanPromote(k, mutex, owner) && Balanced(k)
    ensures Balanced(Promoted(k, mutex, owner))
  {
    hide Ring, Levelled, Counted, Named, Balanced;
    var c, r := k.current, Promoted(k, mutex, owner);
    assert k.slots[owner].mutex == 0 && k.slots[c].state == Active;
    var mid := k.slots[owner := r.slots[owner]];
    assert r.slots == mid[c := r.slots[c]] && mid[c] == k.slots[c];
    PromotedCounts(k.slots, mid, r.slots, owner, c, mutex);
    BalancedBy(k, r, c, mutex);
  }

  /** One more task is promoted for the mutex, and one more is held on it. */
  lemma PromotedCounts(t: seq<Slot>, mid: seq<Slot>, r: seq<Slot>, owner: nat, c: nat, mutex: nat)
    requires owner < |t| && c < |t| && owner != c && mutex != 0 && |mid| == |t| == |r|
    requires mid == t[owner := r[owner]] && r == mid[c := r[c]]
    requires t[owner].mutex == 0 && r[owner].mutex == mutex && r[owner].state == t[owner].state &&
        r[owner].op1 == t[owner].op1
    requires t[c].state == Active && r[c].state == Hold && r[c].op1 == mutex && r[c].mutex == t[c].mutex
    ensures forall m: nat :: m != 0 ==> Count(r, HeldOn(m)) == Count(t, HeldOn(m)) + Bit(m == mutex)
    ensures forall m: nat :: m != 0 ==> Count(r, RaisedBy(m)) == Count(t, RaisedBy(m)) + Bit(m == mutex)
  {
    forall m: nat | m != 0
      ensures Count(r, HeldOn(m)) == Count(t, HeldOn(m)) + Bit(m == mutex)
      ensures Count(r, RaisedBy(m)) == Count(t, RaisedBy(m)) + Bit(m == mutex)
    {
      CountUpdate(t, owner, r[owner], HeldOn(m));
      CountUpdate(mid, c, r[c], HeldOn(m));
      CountUpdate(t, owner, r[owner], RaisedBy(m));
      CountUpdate(mid, c, r[c], RaisedBy(m));
    }
  }

  lemma BalancedBy(k: Kernel, r: Kernel, c: nat, mutex: nat)
    requires Balanced(k) && |r.slots| == |k.slots| && c < |k.slots| && mutex != 0
    requires forall m: nat :: m != 0 ==> Count(r.slots, HeldOn(m)) == Count(k.slots, HeldOn(m)) + Bit(m == mutex)
    requires forall m: nat :: m != 0 ==> Count(r.slots, RaisedBy(m)) == Count(k.slots, RaisedBy(m)) + Bit(m == mutex)
    requires r.slots[c].op1 == mutex
    requires forall u :: 0 <= u < |k.slots| && u != c ==>
               r.slots[u].state == k.slots[u].state && r.slots[u].op1 == k.slots[u].op1
    ensures Balanced(r)
  {
  }

  /** A demotion finds somebody to wake, wakes that task, and nobody else. */
  lemma WakesExactlyOne(k: Kernel, st: seq<nat>) returns (i: nat)
    requires Inv(k, st) && Balanced(k) && k.slots[k.current].mutex != 0
    ensures i < |k.slots| && k.slots[i].state == Hold && k.slots[i].op1 == k.slots[k.current].mutex
    ensures var r := Demoted(k);
            && |r.slots| == |k.slots| && r.slots[i].state == Sleep
            && forall u :: 0 <= u < |k.slots| && u != i ==> r.slots[u].state == k.slots[u].state
    ensures Balanced(Demoted(k))
  {
    hide Ring, Levelled, Stacked, Counted, Named, Balanced;
    var c := k.current;
    var m := k.slots[c].mutex;
    var low := k.slots[c := k.slots[c].(prio := k.slots[c].saved, saved := 0)];
    assert SameHolds(k.slots, low);
    HolderExists(k, m, c);
    HoldCounts(k.slots, low, m);
    CountPositive(low, HeldOn(m));
    i := Holder(low, m, 0);
    var r := Demoted(k);
    assert low[c].state == Active && i != c;
    DemotedIs(k, low, i);
    DemotedCounts(k.slots, low, low[i := low[i].(state := Sleep)], r.slots, c, i, m);
    BalancedWithout(k, r, i, m);
  }

  lemma HolderExists(k: Kernel, m: nat, c: nat)
    requires Balanced(k) && m != 0 && c < |k.slots| && k.slots[c].mutex == m
    ensures Count(k.slots, HeldOn(m)) > 0
  {
    assert RaisedBy(m)(k.slots[c]);
    CountPositive(k.slots, RaisedBy(m));
  }

  lemma DemotedIs(k: Kernel, low: seq<Slot>, i: nat)
    requires k.current < |k.slots|
    requires low == k.slots[k.current := k.slots[k.current].(prio := k.slots[k.current].saved, saved := 0)]
    requires i == Holder(low, k.slots[k.current].mutex, 0) < |low| && i != k.current
    ensures Demoted(k).slots == low[i := low[i].(state := Sleep)][k.current := low[k.current].(mutex := 0)]
  {
  }

  lemma DemotedCounts(t: seq<Slot>, low: seq<Slot>, mid: seq<Slot>, r: seq<Slot>, c: nat, i: nat, mutex: nat)
    requires SameHolds(t, low) && c < |t| && i < |t| && c != i && mutex != 0 && low[c].state == Active
    requires mid == low[i := low[i].(state := Sleep)] && r == mid[c := low[c].(mutex := 0)]
    requires low[i].state == Hold && low[i].op1 == mutex && low[c].mutex == mutex
    ensures forall m: nat :: m != 0 ==> Count(r, HeldOn(m)) + Bit(m == mutex) == Count(t, HeldOn(m))
    ensures forall m: nat :: m != 0 ==> Count(r, RaisedBy(m)) + Bit(m == mutex) == Count(t, RaisedBy(m))
  {
    forall m: nat | m != 0
      ensures Count(r, HeldOn(m)) + Bit(m == mutex) == Count(t, HeldOn(m))
      ensures Count(r, RaisedBy(m)) + Bit(m == mutex) == Count(t, RaisedBy(m))
    {
      HoldCounts(t, low, m);
      CountUpdate(low, i, mid[i], HeldOn(m));
      CountUpdate(mid, c, r[c], HeldOn(m));
      CountUpdate(low, i, mid[i], RaisedBy(m));
      CountUpdate(mid, c, r[c], RaisedBy(m));
    }
  }

  lemma BalancedWithout(k: Kernel, r: Kernel, i: nat, mutex: nat)
    requires Balanced(k) && |r.slots| == |k.slots| && i < |k.slots| && r.slots[i].state == Sleep
    requires forall m: nat :: m != 0 ==> Count(r.slots, HeldOn(m)) + Bit(m == mutex) == Count(k.slots, HeldOn(m))
    requires forall m: nat :: m != 0 ==> Count(r.slots, RaisedBy(m)) + Bit(m == mutex) == Count(k.slots, RaisedBy(m))
    requires forall u :: 0 <= u < |k.slots| && u != i ==>
               r.slots[u].state == k.slots[u].state && r.slots[u].op1 == k.slots[u].op1
    ensures Balanced(r)
  {
  }

  /** With nothing promoted nobody is held. */
  lemma NobodyHeld(k: Kernel, u: nat)
    requires Stacked(k, []) && Balanced(k) && u < |k.slots|
    ensures k.slots[u].state != Hold
  {
    if k.slots[u].state == Hold {
      var m := k.slots[u].op1;
      assert HeldOn(m)(k.slots[u]);
      CountPositive(k.slots, HeldOn(m));
      CountPositive(k.slots, RaisedBy(m));
    }
  }

  // ----- services and scheduling

  lemma CreatedHolds(k: Kernel, st: seq<nat>, t: Task)
    requires Core(k, st) && CanCreate(k, t)
    ensures SameHolds(k.slots, Created(k, t).slots)
  {
    hide Levelled, Stacked, Counted, Named, Created, Misplaced;
    var i := FirstIdle(k.slots);
    CreatedSlots(k, t, i);
    var r := Created(k, t).slots;
    forall u | 0 <= u < |r| ensures SameHold(k.slots[u], r[u]) {
      if u != i { assert Unmoved(k.slots[u], r[u]); } else { assert Unmoved(NewSlot(k, i, t), r[i]); }
    }
  }

  lemma KilledHolds(k: Kernel, st: seq<nat>, i: nat, self: bool)
    requires Core(k, st) && CanKill(k, i) && Balanced(k) && (k.selfKill || self ==> i == k.next)
    ensures SameHolds(k.slots, Killed(k, i, self).slots)
  {
    hide Levelled, Counted, Named, Killed, Balanced;
    NobodyHeld(k, i);
    KilledSlots(k, i, self);
    var r := Killed(k, i, self).slots;
    forall u | 0 <= u < |r| ensures SameHold(k.slots[u], r[u]) {
      assert u != i ==> Unmoved(k.slots[u], r[u]);
    }
  }

  lemma CreatedBalanced(k: Kernel, st: seq<nat>, t: Task)
    requires Core(k, st) && CanCreate(k, t) && Balanced(k)
    ensures Balanced(Created(k, t))
  {
    hide Core, Created, Balanced;
    CreatedHolds(k, st, t);
    SameBalanced(k, Created(k, t));
  }

  lemma KilledBalanced(k: Kernel, st: seq<nat>, i: nat)
    requires Core(k, st) && CanKill(k, i) && Balanced(k) && !k.selfKill
    ensures Shaped(k) && Balanced(Killed(k, i, false))
  {
    hide Ring, Levelled, Counted, Named, Stacked, Killed, Balanced;
    KilledHolds(k, st, i, false);
    SameBalanced(k, Killed(k, i, false));
  }

  lemma EndedHolds(k: Kernel, st: seq<nat>)
    requires Inv(k, st) && CanKill(k, k.current) && Balanced(k)
    ensures SameHolds(k.slots, HandedOver(Killed(k, k.current, true)).slots)
  {
    hide Core, Balanced, Unlink, Removed, Shared, TopLevel, Count, Byte, Word, Stride, SameHolds;
    KilledHolds(k, st, k.current, true);
  }

  lemma PushedBalanced(k: Kernel, st: seq<nat>)
    requires Inv(k, st) && k.current != 0 && CanPromote(k, BASE_MUTEX, 0) && Balanced(k)
    ensures Balanced(Promoted(Invoked(k).0, BASE_MUTEX, 0))
  {
    hide Core, Promoted, Balanced;
    CoreFacts(k, st);
    QuietInvoke(k);
    QuietKeeps(k, Invoked(k).0, st);
    SameBalanced(k, Invoked(k).0);
    PromotedBalanced(Invoked(k).0, st, BASE_MUTEX, 0);
  }

  lemma PoppedBalanced(k: Kernel, st: seq<nat>)
    requires Inv(k, st) && k.slots[k.current].mutex != 0 && Balanced(k)
    ensures Balanced(Stepped(k))
  {
    hide Core, Demoted, Balanced;
    var i := WakesExactlyOne(k, st);
    DemoteRunning(k);
    SameBalanced(Demoted(k), Stepped(k));
  }

  lemma ReleasedBalanced(k: Kernel, st: seq<nat>, error: nat)
    requires Inv(k, st) && k.slots[k.current].mutex != 0 && Balanced(k)
    ensures Balanced(Stepped(Released(k, error).0))
  {
    hide Core, Stepped, Balanced;
    CoreFacts(k, st);
    QuietRelease(k, error);
    var q := Released(k, error).0;
    QuietKeeps(k, q, st);
    assert SameTask(k.slots[k.current], q.slots[k.current]);
    SameBalanced(k, q);
    PoppedBalanced(q, st);
  }

  lemma EffectBalanced(k: Kernel, st: seq<nat>, e: Event)
    requires Inv(k, st) && Settled(k) && Allowed(k, e) && Balanced(k)
    ensures Balanced(Effect(k, e))
  {
    hide Core, Balanced, Created, Killed, CanKill, CanCreate, Stepped, Promoted, CanPromote;
    match e
    case Create(t) =>
      if Admission(k, t) == NoError { CreatedBalanced(k, st, t); }
    case Kill(i) => KilledBalanced(k, st, i);
    case End => EndedHolds(k, st); SameBalanced(k, Effect(k, e));
    case Hibernate(_, _, _, _) => SameBalanced(k, Effect(k, e));
    case Promote(m, o) => PromotedBalanced(k, st, m, o);
    case Demote => PoppedBalanced(k, st);
    case HandOver => SameBalanced(k, Effect(k, e));
    case Tick =>
    case Invoke => if k.current != 0 { PushedBalanced(k, st); }
    case Release(v) => if Released(k, v).1 == NoError { ReleasedBalanced(k, st, v); }
    case Grant(_, _) => SameBalanced(k, Effect(k, e));
    case Disturb(_) => SameBalanced(k, Effect(k, e));
  }

  lemma ScheduledHolds(k: Kernel, mem: Memory, r: Kernel)
    requires k.current < |k.slots| && Scheduled(k, mem, r) && (k.normal ==> k.slots[k.current].state == Active)
    ensures SameHolds(k.slots, r.slots)
  {
    hide Picked, Byte, Count;
    var q, p := Prepared(k), Awake(k, mem);
    var t: nat, level: nat :| t < |p.slots| && Picked(p, t, level) && r == Resumed(p, t, level);
    PickSleeps(p, t, level);
    forall u | 0 <= u < |k.slots| ensures SameHold(k.slots[u], r.slots[u]) {
      assert p.slots[u] == Wake(q.slots[u], mem);
    }
  }

  /** A service that reschedules leaves the interrupted task running only on a tick. */
  lemma NormalRuns(k: Kernel, e: Event)
    requires Settled(k) && Running(k) && Allowed(k, e) && Reschedules(k, e)
    ensures var m := Effect(k, e);
            m.current < |m.slots| ==> (m.normal ==> m.slots[m.current].state == Active)
  {
    hide Killed, Demoted, CanKill, CanPromote, WithId, Byte;
  }

  /** Every step keeps the balance. */
  lemma StepBalanced(k: Kernel, st: seq<nat>, e: Event, mem: Memory, r: Kernel)
    requires Inv(k, st) && Step(k, e, mem, r) && Balanced(k)
    ensures Balanced(r)
  {
    hide Core, Balanced, Effect, Allowed, Scheduled, Running;
    EffectBalanced(k, st, e);
    if Reschedules(k, e) {
      NormalRuns(k, e);
      ScheduledHolds(Effect(k, e), mem, r);
      SameBalanced(Effect(k, e), r);
    }
  }

  /** So does every run. */
  lemma {:induction false} RunBalanced(ks: seq<Kernel>, sts: seq<seq<nat>>, es: seq<Event>, ms: seq<Memory>, i: nat)
    requires Run(ks, sts, es, ms) && Inv(ks[0], sts[0]) && Balanced(ks[0]) && i <= |es|
    ensures Balanced(ks[i])
  {
    hide Inv, Step, Balanced;
    if i > 0 {
      RunBalanced(ks, sts, es, ms, i - 1);
      RunKeeps(ks, sts, es, ms, i - 1);
      assert Move(ks[i - 1], sts[i - 1], es[i - 1], ms[i - 1], ks[i], sts[i]);
      StepBalanced(ks[i - 1], sts[i - 1], es[i - 1], ms[i - 1], ks[i]);
    }
  }

  /** A task held on a mutex stays held until a task promoted for that mutex gives its promotion back. */
  lemma EffectHeld(k: Kernel, st: seq<nat>, e: Event, x: nat, mutex: nat)
    requires Inv(k, st) && Settled(k) && Allowed(k, e) && Balanced(k)
    requires x < |k.slots| && k.slots[x].state == Hold && k.slots[x].op1 == mutex
    requires !(Pops(k, e) && k.slots[k.current].mutex == mutex)
    ensures var r := Effect(k, e); x < |r.slots| && r.slots[x].state == Hold && r.slots[x].op1 == mutex
  {
    hide Core, Balanced, Created, Killed, CanKill, CanCreate, Stepped, Promoted, Byte;
    match e
    case Create(t) => if Admission(k, t) == NoError { CreatedHolds(k, st, t); HoldAt(k.slots, Effect(k, e).slots, x); }
    case Kill(i) => KilledHolds(k, st, i, false); HoldAt(k.slots, Effect(k, e).slots, x);
    case Promote(m, o) => PromotedHeld(k, m, o, x);
    case Invoke => if k.current != 0 { InvokedHeld(k, x); }
    case End => EndedHolds(k, st); HoldAt(k.slots, Effect(k, e).slots, x);
    case Demote => PoppedHeld(k, st, x, mutex);
    case Release(v) => if Released(k, v).1 == NoError { ReleasedHeld(k, st, v, x, mutex); }
    case Grant(i, p) => GrantedHolds(k, i, p); HoldAt(k.slots, Effect(k, e).slots, x);
    case _ =>
  }

  lemma PromotedHeld(k: Kernel, mutex: nat, owner: nat, x: nat)
    requires Running(k) && CanPromote(k, mutex, owner) && x < |k.slots| && k.slots[x].state == Hold
    ensures var r := Promoted(k, mutex, owner);
            |r.slots| == |k.slots| && r.slots[x].state == Hold && r.slots[x].op1 == k.slots[x].op1
  {
    hide Byte;
  }

  lemma InvokedHeld(k: Kernel, x: nat)
    requires Running(k) && k.current != 0 && CanPromote(k, BASE_MUTEX, 0) && x < |k.slots| && k.slots[x].state == Hold
    ensures var r := Promoted(Invoked(k).0, BASE_MUTEX, 0);
            |r.slots| == |k.slots| && r.slots[x].state == Hold && r.slots[x].op1 == k.slots[x].op1
  {
    hide Byte;
  }

  lemma GrantedHolds(k: Kernel, id: nat, permission: nat)
    ensures SameHolds(k.slots, Granted(k, id, permission).0.slots)
  {
    hide WithId;
  }

  lemma HoldAt(t: seq<Slot>, r: seq<Slot>, x: nat)
    requires SameHolds(t, r) && x < |t| && t[x].state == Hold
    ensures r[x].state == Hold && r[x].op1 == t[x].op1
  {
    assert SameHold(t[x], r[x]);
  }

  lemma PoppedHeld(k: Kernel, st: seq<nat>, x: nat, mutex: nat)
    requires Inv(k, st) && Balanced(k) && k.slots[k.current].mutex != 0 && k.slots[k.current].mutex != mutex
    requires x < |k.slots| && k.slots[x].state == Hold && k.slots[x].op1 == mutex
    ensures var r := Stepped(k); x < |r.slots| && r.slots[x].state == Hold && r.slots[x].op1 == mutex
  {
    hide Core, Balanced, Demoted;
    var i := WakesExactlyOne(k, st);
    DemotedFields(k);
  }

  lemma DemotedFields(k: Kernel)
    requires k.current < |k.slots|
    ensures var r := Demoted(k);
            && r.current == k.current && |r.slots| == |k.slots|
            && forall u :: 0 <= u < |k.slots| ==> r.slots[u].op1 == k.slots[u].op1
  {
  }

  lemma ReleasedHeld(k: Kernel, st: seq<nat>, error: nat, x: nat, mutex: nat)
    requires Inv(k, st) && Balanced(k) && k.slots[k.current].mutex != 0 && k.slots[k.current].mutex != mutex
    requires x < |k.slots| && k.slots[x].state == Hold && k.slots[x].op1 == mutex
    ensures var r := Stepped(Released(k, error).0); x < |r.slots| && r.slots[x].state == Hold && r.slots[x].op1 == mutex
  {
    hide Core, Stepped, Balanced;
    CoreFacts(k, st);
    QuietRelease(k, error);
    var q := Released(k, error).0;
    QuietKeeps(k, q, st);
    assert SameTask(k.slots[k.current], q.slots[k.current]);
    SameBalanced(k, q);
    PoppedHeld(q, st, x, mutex);
  }

  lemma StepHeld(k: Kernel, st: seq<nat>, e: Event, mem: Memory, r: Kernel, x: nat, mutex: nat)
    requires Inv(k, st) && Step(k, e, mem, r) && Balanced(k)
    requires x < |k.slots| && k.slots[x].state == Hold && k.slots[x].op1 == mutex
    requires !(Pops(k, e) && k.slots[k.current].mutex == mutex)
    ensures x < |r.slots| && r.slots[x].state == Hold && r.slots[x].op1 == mutex
  {
    hide Core, Balanced, Effect, Allowed, Scheduled, Running, Pops;
    EffectHeld(k, st, e, x, mutex);
    if Reschedules(k, e) {
      NormalRuns(k, e);
      ScheduledHolds(Effect(k, e), mem, r);
      HoldAt(Effect(k, e).slots, r.slots, x);
    }
  }

  /** A task that is held on a mutex at step i and not at step j was woken: in between a task promoted for that mutex
      gave its promotion back. */
  lemma {:induction false} HeldUntilPop(ks: seq<Kernel>, sts: seq<seq<nat>>, es: seq<Event>, ms: seq<Memory>, i: nat,
      j: nat, x: nat)
    requires Run(ks, sts, es, ms) && Inv(ks[0], sts[0]) && Balanced(ks[0]) && i <= j <= |es|
    requires x < |ks[i].slots| && ks[i].slots[x].state == Hold
    requires forall y :: i <= y < j && ks[y].current < |ks[y].slots| && Pops(ks[y], es[y]) ==>
               ks[y].slots[ks[y].current].mutex != ks[i].slots[x].op1
    ensures x < |ks[j].slots| && ks[j].slots[x].state == Hold && ks[j].slots[x].op1 == ks[i].slots[x].op1
    decreases j
  {
    hide Inv, Step, Balanced, Pops;
    if i < j {
      HeldUntilPop(ks, sts, es, ms, i, j - 1, x);
      RunKeeps(ks, sts, es, ms, j - 1);
      RunBalanced(ks, sts, es, ms, j - 1);
      InvRunning(ks[j - 1], sts[j - 1]);
      assert Move(ks[j - 1], sts[j - 1], es[j - 1], ms[j - 1], ks[j], sts[j]);
      StepHeld(ks[j - 1], sts[j - 1], es[j - 1], ms[j - 1], ks[j], x, ks[i].slots[x].op1);
    }
  }

  lemma InvRunning(k: Kernel, st: seq<nat>)
    requires Inv(k, st)
    ensures k.current < |k.slots|
  {
  }

  // ----- the start

  lemma BaseBalanced(n: nat, addr: nat, byte: nat)
    requires 2 <= n <= 127
    ensures Balanced(BaseCreated(n, addr, byte))
  {
    hide BaseCreated;
    BaseSlots(n, addr, byte);
    var k := BaseCreated(n, addr, byte);
    forall m: nat | m != 0 ensures Count(k.slots, HeldOn(m)) == 0 && Count(k.slots, RaisedBy(m)) == 0 {
      forall u | 0 <= u < |k.slots| ensures !HeldOn(m)(k.slots[u]) && !RaisedBy(m)(k.slots[u]) {
        assert u == 0 || k.slots[u] == Slot(Idle, 0, 0, 0, 0, 0, 0, 0, 0, 0, 0);
      }
      CountPositive(k.slots, HeldOn(m));
      CountPositive(k.slots, RaisedBy(m));
    }
  }

  lemma CreateWaitsBalanced(k: Kernel, t: Task)
    requires Waiting(k) && CanCreate(Primed(k), t) && Balanced(k)
    ensures Shaped(k) && Searchable(k) && Admission(k, t) == NoError && Balanced(Created(k, t))
  {
    hide Core, Created, CanCreate, Balanced;
    PrimedCommutes(k, t);
    CreatedHolds(Primed(k), [], t);
    SameBalanced(k, Created(k, t));
  }

  lemma {:induction false} BootBalanced(n: nat, addr: nat, byte: nat, ts: seq<Task>, boot: seq<Kernel>, i: nat)
    requires 2 <= n <= 127 && addr != 0 && BootChain(n, addr, byte, ts, boot) && i <= |ts|
    ensures Balanced(boot[i])
  {
    hide Waiting, CanCreate, Balanced, Created;
    if i == 0 {
      BaseBalanced(n, addr, byte);
    } else {
      BootBalanced(n, addr, byte, ts, boot, i - 1);
      AllWait(n, addr, byte, ts, boot, i - 1);
      assert CreatedNext(boot[i - 1], ts[i - 1], boot[i]);
      CreateWaitsBalanced(boot[i - 1], ts[i - 1]);
      SameBalanced(Created(boot[i - 1], ts[i - 1]), boot[i]);
    }
  }

  lemma StartBalanced(k: Kernel, mem: Memory, r: Kernel)
    requires Waiting(k) && Balanced(k) && Scheduled(HandedOver(Started(k)), mem, r) && k.slots[0].state != Hold
    ensures Balanced(r)
  {
    hide Core, Scheduled, Balanced;
    CoreFacts(Primed(k), []);
    CoreBase(Primed(k), []);
    SameBalanced(k, HandedOver(Started(k)));
    ScheduledHolds(HandedOver(Started(k)), mem, r);
    SameBalanced(HandedOver(Started(k)), r);
  }

  /** Every run of the system: for every mutex as many tasks are held on it as are promoted for it. */
  lemma SystemBalanced(n: nat, addr: nat, byte: nat, ts: seq<Task>, boot: seq<Kernel>, mem: Memory,
                       ks: seq<Kernel>, sts: seq<seq<nat>>, es: seq<Event>, ms: seq<Memory>, i: nat)
    requires 2 <= n <= 127 && addr != 0 && BootChain(n, addr, byte, ts, boot)
    requires Run(ks, sts, es, ms) && sts[0] == [] && i <= |es|
    requires var w := boot[|ts|]; w.current < |w.slots| && Scheduled(HandedOver(Started(w)), mem, ks[0])
    ensures Balanced(ks[i])
  {
    hide Inv, Step, Core, Scheduled, Balanced;
    AllWait(n, addr, byte, ts, boot, |ts|);
    BootBalanced(n, addr, byte, ts, boot, |ts|);
    WaitingUnheld(boot[|ts|]);
    StartKeeps(boot[|ts|], mem, ks[0]);
    StartBalanced(boot[|ts|], mem, ks[0]);
    RunBalanced(ks, sts, es, ms, i);
  }

  lemma WaitingUnheld(k: Kernel)
    requires Waiting(k) && Balanced(k)
    ensures |k.slots| > 0 && k.slots[0].state != Hold
  {
    hide Ring, Levelled, Counted, Named, Balanced;
    SameBalanced(k, Primed(k));
    NobodyHeld(Primed(k), 0);
  }
}
