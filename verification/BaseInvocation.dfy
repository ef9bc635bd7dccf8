/** A base invocation is a round trip: the invoker is held while the promoted base task serves it, and the release puts
    everything back. */
module BaseInvocation {
  import opened Slots
  import opened JumpList
  import opened Services
  import opened Scheduler
  import opened Invariant
  import opened Transitions
  import opened Runs
  import opened Promotion

  /** The base task is free to serve: runnable, not promoted, and nobody is held on its mutex. */
  ghost predicate BaseFree(k: Kernel) {
    && |k.slots| > 0 && k.current < |k.slots| && k.current != 0 && k.slots[0].state == Sleep && k.slots[0].prio <= 126
    && forall u :: 0 <= u < |k.slots| && k.slots[u].state == Hold ==> k.slots[u].op1 != BASE_MUTEX
  }

  /** The base task runs above everybody on behalf of x, the only task held on its mutex. */
  ghost predicate Serving(s: Kernel, k: Kernel, x: nat) {
    && |s.slots| == |k.slots| && 0 < x < |k.slots| && s.current == 0 && s.invoked == k.slots[x].id
    && s.stash == k.stash && s.lstash == k.lstash
    && (forall u :: 0 <= u < |k.slots| ==> s.slots[u].jmp == k.slots[u].jmp && s.slots[u].id == k.slots[u].id)
    && (forall u :: 0 < u < |k.slots| ==> s.slots[u].prio == k.slots[u].prio)
    && s.slots[0].saved == k.slots[0].prio && s.slots[0].mutex == BASE_MUTEX && s.slots[0].state == Active
    && s.slots[x].state == Hold && s.slots[x].op1 == BASE_MUTEX
    && (forall u :: 0 <= u < |k.slots| && u != x && s.slots[u].state == Hold ==> s.slots[u].op1 != BASE_MUTEX)
    && (forall u :: 0 < u < |k.slots| && u != x ==> (s.slots[u].state == Hold <==> k.slots[u].state == Hold))
    && Layered(s, k)
  }

  /** One promotion more than k, with k's own numbers kept underneath. */
  ghost predicate Layered(s: Kernel, k: Kernel) {
    if InPromotion(k) then
      && s.maxpLevel == k.maxpLevel && s.maxLevel == k.maxLevel + 1 && 127 < k.maxLevel < 255
      && s.alc == k.alc && s.hlc == k.hlc
    else
      s.maxpLevel == k.maxLevel && s.maxLevel == 128 && s.alcp == k.alc && s.hlcp == k.hlc
  }

  /** The invoker held, the base task raised to the top; not scheduled yet. */
  lemma InvokedLayers(k: Kernel, st: seq<nat>)
    requires Inv(k, st) && BaseFree(k)
    ensures var m := Promoted(Invoked(k).0, BASE_MUTEX, 0);
            && Layered(m, k) && m.maxLevel < 256 && m.slots[0].prio == m.maxLevel && m.maxLevel > 126
  {
    hide Ring, Counted, Named;
    UserTopSmall(k);
    assert k.slots[0].prio <= 126;
    ZeroNotStacked(k, st);
    DepthBound(k, st, 0);
  }

  lemma ZeroNotStacked(k: Kernel, st: seq<nat>)
    requires Stacked(k, st) && |k.slots| > 0 && k.slots[0].prio <= 126
    ensures 0 !in st
  {
  }

  /** No hibernating task sits at the level of the promoted base task, so the sweep leaves the counters alone. */
  lemma NobodyDue(k: Kernel, st: seq<nat>, mem: Memory)
    requires Stacked(k, st) && |k.slots| > 0 && k.slots[0].state == Sleep && k.slots[0].prio == k.maxLevel > 126
    ensures Count(k.slots, DueAt(k.maxLevel, mem)) == 0
  {
    forall u | 0 <= u < |k.slots| ensures !DueAt(k.maxLevel, mem)(k.slots[u]) {
      if k.slots[u].prio == k.maxLevel {
        OneStackedTask(k, st, u, 0);
      }
    }
    CountPositive(k.slots, DueAt(k.maxLevel, mem));
  }

  /** The only runnable task at the top is the base task, so it is the one selected. */
  lemma BasePicked(p: Kernel, st: seq<nat>, t: nat, level: nat)
    requires Stacked(p, st) && t < |p.slots| && p.current != 0 && Picked(p, t, level)
    requires p.slots[0].state == Sleep && p.slots[0].prio == p.maxLevel > 126
    ensures t == 0
  {
    assert Rival(p, 0);
    assert Rival(p, t);
    OneStackedTask(p, st, t, 0);
  }

  lemma InvokeServes(k: Kernel, st: seq<nat>, mem: Memory, r: Kernel)
    requires Inv(k, st) && BaseFree(k) && Step(k, Invoke, mem, r)
    ensures Serving(r, k, k.current)
  {
    hide Core, Between;
    CoreFacts(k, st);
    InvokedLayers(k, st);
    var m := Promoted(Invoked(k).0, BASE_MUTEX, 0);
    InvokeKeeps(k, st);
    CoreFacts(m, st + [0]);
    ServesAfter(k, st, m, mem, r);
  }

  lemma ServesAfter(k: Kernel, st: seq<nat>, m: Kernel, mem: Memory, r: Kernel)
    requires BaseFree(k) && SmallFields(k) && m == Promoted(Invoked(k).0, BASE_MUTEX, 0)
    requires SmallFields(m) && Between(m) && Stacked(m, st + [0])
    requires Layered(m, k) && m.slots[0].prio == m.maxLevel > 126 && Scheduled(m, mem, r)
    ensures Serving(r, k, k.current)
  {
    hide Stacked, Between, Picked;
    AwakeSame(m, mem);
    SameStacked(m, Awake(m, mem), st + [0]);
    var q := Prepared(m);
    PreparedAfterService(m);
    assert q.slots[0].state == Sleep && q.slots[0].prio == q.maxLevel;
    PreparedSame(m);
    SameStacked(m, q, st + [0]);
    NobodyDue(q, st + [0], mem);
    var p := Awake(m, mem);
    assert p.slots[0] == Wake(q.slots[0], mem);
    var t: nat, level: nat :| t < |p.slots| && Picked(p, t, level) && r == Resumed(p, t, level);
    BasePicked(p, st + [0], t, level);
    ServesSlots(k, m, q, p, r, level, mem);
  }

  lemma PreparedAfterService(m: Kernel)
    requires m.current < |m.slots| && !m.normal
    ensures Prepared(m).slots == m.slots
  {
  }

  /** Slot by slot, the way from the invocation to the running base task. */
  lemma ServesSlots(k: Kernel, m: Kernel, q: Kernel, p: Kernel, r: Kernel, level: nat, mem: Memory)
    requires BaseFree(k) && SmallFields(k) && m == Promoted(Invoked(k).0, BASE_MUTEX, 0) && Layered(m, k)
    requires q == Prepared(m) && p == Swept(q, mem) && r == Resumed(p, 0, level)
    requires SmallFields(m) && Count(q.slots, DueAt(q.maxLevel, mem)) == 0
    ensures Serving(r, k, k.current)
  {
    assert p.alc == q.alc && p.hlc == q.hlc;
    forall u | 0 <= u < |k.slots|
      ensures r.slots[u].jmp == k.slots[u].jmp && r.slots[u].id == k.slots[u].id
      ensures u != 0 ==> r.slots[u].prio == k.slots[u].prio
      ensures u != k.current && r.slots[u].state == Hold ==> r.slots[u].op1 != BASE_MUTEX
      ensures u != 0 && u != k.current ==> (r.slots[u].state == Hold <==> k.slots[u].state == Hold)
    {
      assert p.slots[u] == Wake(q.slots[u], mem);
    }
    assert p.slots[0] == Wake(q.slots[0], mem) && p.slots[k.current] == Wake(q.slots[k.current], mem);
  }

  /** Granting a permission meanwhile changes none of this. */
  lemma GrantServes(s: Kernel, k: Kernel, x: nat, id: nat, permission: nat)
    requires Serving(s, k, x)
    ensures Serving(Granted(s, id, permission).0, k, x)
  {
  }

  /** The id of the invoker leads back to its slot, and the mutex to the same slot. */
  lemma ServedFound(s: Kernel, k: Kernel, st: seq<nat>, x: nat)
    requires Named(s) && Serving(s, k, x)
    ensures WithId(s.slots, s.invoked, 0) == x
  {
    assert Live(s.slots[x]) && s.slots[x].id % 0x1_0000 > 0;
    var i := WithId(s.slots, s.invoked, 0);
    assert i <= x;
    var y := s.slots[i];
    assert Live(y) || y.id == 0;
  }

  lemma HolderIs(t: seq<Slot>, mutex: nat, x: nat)
    requires x < |t| && t[x].state == Hold && t[x].op1 == mutex
    requires forall u :: 0 <= u < |t| && u != x && t[u].state == Hold ==> t[u].op1 != mutex
    ensures Holder(t, mutex, 0) == x
  {
  }

  /** Back where it started: top level, counters, priorities, links and stash are k's, the invoker is runnable and
      carries the error it was given, and no other held task was woken. */
  ghost predicate Back(d: Kernel, k: Kernel, x: nat, error: nat) {
    && |d.slots| == |k.slots| && x < |k.slots|
    && d.maxLevel == k.maxLevel && d.maxpLevel == k.maxpLevel && d.alc == k.alc && d.hlc == k.hlc
    && d.stash == k.stash && d.lstash == k.lstash && d.invoked == 0
    && (forall u :: 0 <= u < |k.slots| ==> d.slots[u].prio == k.slots[u].prio && d.slots[u].jmp == k.slots[u].jmp)
    && d.slots[x].state == Sleep && d.slots[x].hib == error
    && (forall u :: 0 < u < |k.slots| && u != x ==> (d.slots[u].state == Hold <==> k.slots[u].state == Hold))
  }

  lemma ReleaseBack(s: Kernel, k: Kernel, st: seq<nat>, x: nat, error: nat)
    requires Named(s) && Serving(s, k, x) && (k.maxpLevel <= 127) && SmallFields(s)
    ensures Pops(s, Release(error)) && Back(Popped(s, Release(error)), k, x, error)
  {
    hide Named;
    ServedFound(s, k, st, x);
    var q := Released(s, error).0;
    var c := q.slots[0];
    var low := q.slots[0 := c.(prio := c.saved, saved := 0)];
    assert low[x].state == Hold && low[x].op1 == BASE_MUTEX == c.mutex;
    HolderIs(low, BASE_MUTEX, x);
    var d := Demoted(q);
    assert d.slots == low[x := low[x].(state := Sleep)][0 := low[0].(mutex := 0)];
    LayersBack(s, k, d);
  }

  lemma LayersBack(s: Kernel, k: Kernel, d: Kernel)
    requires Layered(s, k) && SmallFields(s) && s.maxLevel > 0
    requires d.maxLevel == (if s.maxLevel - 1 == 127 then s.maxpLevel else s.maxLevel - 1)
    requires d.maxpLevel == (if s.maxLevel - 1 == 127 then 127 else s.maxpLevel)
    requires d.alc == (if s.maxLevel - 1 == 127 then s.alcp else s.alc) &&
        d.hlc == (if s.maxLevel - 1 == 127 then s.hlcp else s.hlc)
    ensures d.maxLevel == k.maxLevel && d.maxpLevel == k.maxpLevel && d.alc == k.alc && d.hlc == k.hlc
  {
  }

  /** The release serves its purpose: it ends in a demotion that puts everything back. */
  ghost predicate ReleasedBack(g: Kernel, k: Kernel, x: nat, error: nat) {
    g.current < |g.slots| && Pops(g, Release(error)) && Back(Popped(g, Release(error)), k, x, error)
  }

  /** Invoke, let the base task grant a permission, release: the service state after the release is back to the state of
      the invocation, and scheduling it keeps the invariant. */
  lemma BaseRoundTrip(k: Kernel, st: seq<nat>, mem: Memory, s: Kernel, id: nat, permission: nat, g: Kernel,
                      mem': Memory, r: Kernel, error: nat)
    requires Inv(k, st) && BaseFree(k) && Step(k, Invoke, mem, s)
    requires g == Granted(s, id, permission).0 && Step(g, Release(error), mem', r)
    ensures Serving(s, k, k.current) && ReleasedBack(g, k, k.current, error) && Inv(r, st)
  {
    hide Inv, Step, Serving, Back, BaseFree, Popped;
    InvokeServes(k, st, mem, s);
    InvokePushes(k, st);
    StepKeeps(k, st, Invoke, mem, s);
    GrantServes(s, k, k.current, id, permission);
    GrantKeeps(s, st + [0], id, permission);
    InvNamed(g, st + [0]);
    KeptSentinel(k, st);
    ReleaseBack(g, k, st, k.current, error);
    StepKeeps(g, st + [0], Release(error), mem', r);
    assert StackAfter(g, st + [0], Release(error)) == st;
  }

  lemma InvokePushes(k: Kernel, st: seq<nat>)
    requires Inv(k, st) && BaseFree(k)
    ensures StackAfter(k, st, Invoke) == st + [0]
  {
  }

  lemma InvNamed(k: Kernel, st: seq<nat>)
    requires Inv(k, st)
    ensures Named(k) && SmallFields(k)
  {
  }

  lemma KeptSentinel(k: Kernel, st: seq<nat>)
    requires Inv(k, st)
    ensures k.maxpLevel <= 127
  {
    UserTopSmall(k);
  }
}
