/** What a promotion gives back: the bracket from the first promotion to the demotion that empties the stack, and the
    round trip of a base invocation. */
module Promotion {
  import opened Slots
  import opened JumpList
  import opened Services
  import opened Scheduler
  import opened Invariant
  import opened Transitions
  import opened Runs

  /** While promotions are in force, k remembers the unpromoted kernel b: its top level, both its counters, and the
      priority of every slot. */
  ghost predicate Remembers(k: Kernel, b: Kernel) {
    && InPromotion(k) && k.maxpLevel == b.maxLevel && k.alcp == b.alc && k.hlcp == b.hlc
    && |k.slots| == |b.slots| && forall u :: 0 <= u < |b.slots| ==> Level(k.slots[u]) == b.slots[u].prio
  }

  /** k has b's top level, counters and priorities again. */
  ghost predicate Restored(k: Kernel, b: Kernel) {
    && !InPromotion(k) && k.maxLevel == b.maxLevel && k.alc == b.alc && k.hlc == b.hlc
    && |k.slots| == |b.slots| && forall u :: 0 <= u < |b.slots| ==> k.slots[u].prio == b.slots[u].prio
  }

  lemma SameRemembers(k: Kernel, r: Kernel, b: Kernel)
    requires Remembers(k, b) && SameTasks(k, r)
    ensures Remembers(r, b)
  {
    forall u | 0 <= u < |b.slots| ensures Level(r.slots[u]) == b.slots[u].prio {
      assert SameTask(k.slots[u], r.slots[u]);
    }
  }

  /** The first promotion stores the unpromoted kernel. */
  lemma FirstRemembers(k: Kernel, st: seq<nat>, mutex: nat, owner: nat)
    requires Inv(k, st) && !InPromotion(k) && CanPromote(k, mutex, owner)
    ensures Remembers(Promoted(k, mutex, owner), k)
  {
    hide Ring, Counted, Named;
    UserTopSmall(k);
    PromoteLevels(k, st, mutex, owner);
    var r := Promoted(k, mutex, owner);
    forall u | 0 <= u < |k.slots| ensures Level(r.slots[u]) == k.slots[u].prio {
      assert u !in st;
      assert Level(k.slots[u]) == Level(r.slots[u]);
    }
  }

  lemma PromoteRemembers(k: Kernel, st: seq<nat>, b: Kernel, mutex: nat, owner: nat)
    requires Inv(k, st) && Remembers(k, b) && CanPromote(k, mutex, owner)
    ensures Remembers(Promoted(k, mutex, owner), b)
  {
    hide Ring, Counted, Named;
    UserTopSmall(k);
    PromoteLevels(k, st, mutex, owner);
    var r := Promoted(k, mutex, owner);
    forall u | 0 <= u < |k.slots| ensures Level(r.slots[u]) == b.slots[u].prio {
      assert Level(k.slots[u]) == Level(r.slots[u]);
    }
  }

  /** A demotion keeps what is remembered, or is the last one and gives it back. */
  lemma DemoteRemembers(k: Kernel, st: seq<nat>, b: Kernel)
    requires Inv(k, st) && Remembers(k, b) && k.slots[k.current].mutex != 0
    ensures |st| > 1 ==> Remembers(Demoted(k), b)
    ensures |st| == 1 ==> Restored(Demoted(k), b)
  {
    hide Ring, Counted, Named;
    UserTopSmall(k);
    DemoteStacked(k, st);
    DemoteLevels(k, st);
    var r := Demoted(k);
    forall u | 0 <= u < |k.slots| ensures Level(r.slots[u]) == b.slots[u].prio {
      assert Level(k.slots[u]) == Level(r.slots[u]);
    }
    if |st| == 1 {
      forall u | 0 <= u < |k.slots| ensures r.slots[u].prio == b.slots[u].prio {
        assert r.slots[u].prio <= 126;
      }
    }
  }

  /** The kernel right after the demotion service, before its hand-over. */
  ghost function Popped(k: Kernel, e: Event): Kernel
    requires k.current < |k.slots| && Pops(k, e)
  {
    Demoted(if e.Demote? then k else Released(k, e.error).0)
  }

  lemma PopRemembers(k: Kernel, st: seq<nat>, b: Kernel, e: Event)
    requires Inv(k, st) && Remembers(k, b) && Allowed(k, e) && Pops(k, e)
    ensures |st| > 1 ==> Remembers(Popped(k, e), b)
    ensures |st| == 1 ==> Restored(Popped(k, e), b)
    ensures Running(Popped(k, e)) && Effect(k, e) == HandedOver(Popped(k, e)) && SmallFields(Popped(k, e))
  {
    hide Core, Remembers, Restored;
    CoreFacts(k, st);
    var q := if e.Demote? then k else Released(k, e.error).0;
    if e.Release? {
      QuietRelease(k, e.error);
      QuietKeeps(k, q, st);
      SameRemembers(k, q, b);
      assert SameTask(k.slots[k.current], q.slots[k.current]);
    }
    DemoteRemembers(q, st, b);
    DemoteRunning(q);
    DemoteSmall(q, st);
  }

  lemma DemoteSmall(k: Kernel, st: seq<nat>)
    requires Inv(k, st) && k.slots[k.current].mutex != 0
    ensures SmallFields(Demoted(k))
  {
    hide Ring, Counted, Named;
    UserTopSmall(k);
    DemoteLevels(k, st);
  }

  lemma ScheduledRemembers(k: Kernel, mem: Memory, r: Kernel, b: Kernel)
    requires SmallFields(k) && Between(k) && Remembers(k, b) && Scheduled(k, mem, r)
    ensures Remembers(r, b)
  {
    hide Picked;
    AwakeSame(k, mem);
    var p := Awake(k, mem);
    SameRemembers(k, p, b);
    var t: nat, level: nat :| t < |p.slots| && Picked(p, t, level) && r == Resumed(p, t, level);
    forall u | 0 <= u < |b.slots| ensures Level(r.slots[u]) == b.slots[u].prio {
      assert Level(r.slots[u]) == Level(p.slots[u]);
    }
  }

  /** An event during promotions, other than the demotion that ends them, keeps what is remembered. */
  lemma EffectRemembers(k: Kernel, st: seq<nat>, b: Kernel, e: Event)
    requires Inv(k, st) && Remembers(k, b) && Allowed(k, e) && (Pops(k, e) ==> |st| > 1)
    ensures Remembers(Effect(k, e), b)
  {
    hide Core, Remembers;
    CoreFacts(k, st);
    assert InPromotion(k) by { InPromotionOf(k, b); }
    match e
    case Create(t) =>
    case Kill(i) =>
    case End =>
    case Hibernate(rev, x, y, v) => HibernateSame(k, rev, x, y, v); SameRemembers(k, Hibernated(k, rev, x, y, v), b);
    case Promote(m, o) => PromoteRemembers(k, st, b, m, o);
    case Demote =>
      PopRemembers(k, st, b, e);
      HandOverSame(Popped(k, e));
      SameRemembers(Popped(k, e), HandedOver(Popped(k, e)), b);
    case HandOver => HandOverSame(k); SameRemembers(k, HandedOver(k), b);
    case Tick =>
    case Invoke =>
      if k.current != 0 {
        QuietInvoke(k);
        QuietKeeps(k, Invoked(k).0, st);
        SameRemembers(k, Invoked(k).0, b);
        PromoteRemembers(Invoked(k).0, st, b, BASE_MUTEX, 0);
      }
    case Release(v) =>
      if Pops(k, e) {
        PopRemembers(k, st, b, e);
        HandOverSame(Popped(k, e));
        SameRemembers(Popped(k, e), HandedOver(Popped(k, e)), b);
      }
    case Grant(id, p) => QuietGrant(k, id, p); SameRemembers(k, Granted(k, id, p).0, b);
    case Disturb(byte) => DisturbRemembers(k, b, byte);
  }

  lemma DisturbRemembers(k: Kernel, b: Kernel, byte: nat)
    requires Remembers(k, b)
    ensures Remembers(Disturbed(k, byte), b)
  {
  }

  lemma InPromotionOf(k: Kernel, b: Kernel)
    requires Remembers(k, b)
    ensures InPromotion(k)
  {
  }

  lemma StepRemembers(k: Kernel, st: seq<nat>, b: Kernel, e: Event, mem: Memory, r: Kernel)
    requires Inv(k, st) && Remembers(k, b) && Step(k, e, mem, r) && (Pops(k, e) ==> |st| > 1)
    ensures Remembers(r, b)
  {
    hide Inv, Remembers, Scheduled, Between;
    EffectRemembers(k, st, b, e);
    if Reschedules(k, e) {
      EffectEnds(k, st, e);
      CoreFacts(Effect(k, e), StackAfter(k, st, e));
      ScheduledRemembers(Effect(k, e), mem, r, b);
    }
  }

  lemma FirstStepRemembers(k: Kernel, st: seq<nat>, e: Event, mem: Memory, r: Kernel)
    requires Inv(k, st) && !InPromotion(k) && Step(k, e, mem, r) && Pushes(k, e)
    ensures Remembers(r, k)
  {
    hide Core, Remembers, Scheduled, Between;
    CoreFacts(k, st);
    if e.Promote? {
      FirstRemembers(k, st, e.mutex, e.owner);
    } else {
      QuietInvoke(k);
      QuietKeeps(k, Invoked(k).0, st);
      FirstRemembers(Invoked(k).0, st, BASE_MUTEX, 0);
      RemembersQuiet(Promoted(Invoked(k).0, BASE_MUTEX, 0), Invoked(k).0, k);
    }
    EffectEnds(k, st, e);
    CoreFacts(Effect(k, e), StackAfter(k, st, e));
    ScheduledRemembers(Effect(k, e), mem, r, k);
  }

  lemma RemembersQuiet(k: Kernel, q: Kernel, b: Kernel)
    requires Remembers(k, q) && Quiet(b, q)
    ensures Remembers(k, b)
  {
    forall u | 0 <= u < |b.slots| ensures Level(k.slots[u]) == b.slots[u].prio {
      assert SameTask(b.slots[u], q.slots[u]);
    }
  }

  lemma {:induction false} BracketRemembers(ks: seq<Kernel>, sts: seq<seq<nat>>, es: seq<Event>, ms: seq<Memory>,
      i: nat, j: nat)
    requires Run(ks, sts, es, ms) && Inv(ks[0], sts[0]) && i < j <= |es|
    requires !InPromotion(ks[i]) && Pushes(ks[i], es[i]) && forall x :: i < x <= j ==> sts[x] != []
    ensures Remembers(ks[j], ks[i])
  {
    hide Inv, Step, Remembers;
    RunKeeps(ks, sts, es, ms, j - 1);
    assert Move(ks[j - 1], sts[j - 1], es[j - 1], ms[j - 1], ks[j], sts[j]);
    if j == i + 1 {
      FirstStepRemembers(ks[i], sts[i], es[i], ms[i], ks[j]);
    } else {
      BracketRemembers(ks, sts, es, ms, i, j - 1);
      MoveShifts(ks[j - 1], sts[j - 1], es[j - 1], ms[j - 1], ks[j], sts[j]);
      StepRemembers(ks[j - 1], sts[j - 1], ks[i], es[j - 1], ms[j - 1], ks[j]);
    }
  }

  /** Over every run, the demotion that empties the stack restores the top level, both counters and every priority
      exactly as they were before the promotion that made it non-empty, whatever happened in between. */
  lemma BracketRestores(ks: seq<Kernel>, sts: seq<seq<nat>>, es: seq<Event>, ms: seq<Memory>, i: nat, j: nat)
    requires Run(ks, sts, es, ms) && Inv(ks[0], sts[0]) && i < j < |es|
    requires !InPromotion(ks[i]) && Pushes(ks[i], es[i]) && forall x :: i < x <= j ==> sts[x] != []
    requires ks[j].current < |ks[j].slots| && Pops(ks[j], es[j]) && sts[j + 1] == []
    ensures Restored(Popped(ks[j], es[j]), ks[i])
  {
    hide Inv, Remembers, Restored, Effect;
    BracketRemembers(ks, sts, es, ms, i, j);
    RunKeeps(ks, sts, es, ms, j);
    assert Move(ks[j], sts[j], es[j], ms[j], ks[j + 1], sts[j + 1]);
    MoveShifts(ks[j], sts[j], es[j], ms[j], ks[j + 1], sts[j + 1]);
    PopRemembers(ks[j], sts[j], ks[i], es[j]);
  }
}
