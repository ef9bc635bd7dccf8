/** Runs of the system that lead into the states where the code departs from its intent. */
module Reached {
  import opened Slots
  import opened JumpList
  import opened LevelStash
  import opened Services
  import opened Scheduler
  import opened Invariant
  import opened Transitions
  import opened Runs
  import opened Boot
  import opened Order
  import opened DeadLevels
  import opened Findings
  import opened SpinLock

  // ----- reachable states

  /** k is the state after the first scheduling of a system. */
  ghost predicate Booted(k: Kernel) {
    exists n: nat, addr: nat, byte: nat, ts: seq<Task>, boot: seq<Kernel>, mem: Memory ::
      && 2 <= n <= 127 && addr != 0 && BootChain(n, addr, byte, ts, boot)
      && boot[|ts|].current < |boot[|ts|].slots| && Scheduled(HandedOver(Started(boot[|ts|])), mem, k)
  }

  /** Some run leads from k to r, with the given stacks of promotions. */
  ghost predicate Leads(k: Kernel, st: seq<nat>, r: Kernel, st': seq<nat>) {
    exists ks: seq<Kernel>, sts: seq<seq<nat>>, es: seq<Event>, ms: seq<Memory> ::
      Run(ks, sts, es, ms) && ks[0] == k && sts[0] == st && ks[|es|] == r && sts[|es|] == st'
  }

  /** Some run of a system leads to k. */
  ghost predicate Reachable(k: Kernel, st: seq<nat>) {
    exists b: Kernel :: Booted(b) && Leads(b, [], k, st)
  }

  lemma BootedInv(k: Kernel)
    requires Booted(k)
    ensures Inv(k, [])
  {
    hide Inv, Waiting, Scheduled;
    var n: nat, addr: nat, byte: nat, ts: seq<Task>, boot: seq<Kernel>, mem: Memory :|
      && 2 <= n <= 127 && addr != 0 && BootChain(n, addr, byte, ts, boot)
      && boot[|ts|].current < |boot[|ts|].slots| && Scheduled(HandedOver(Started(boot[|ts|])), mem, k);
    AllWait(n, addr, byte, ts, boot, |ts|);
    StartKeeps(boot[|ts|], mem, k);
  }

  /** The invariant holds wherever a run leads. */
  lemma LeadsInv(k: Kernel, st: seq<nat>, r: Kernel, st': seq<nat>)
    requires Inv(k, st) && Leads(k, st, r, st')
    ensures Inv(r, st') && Settled(r)
  {
    hide Inv, Move;
    var ks, sts, es, ms :| Run(ks, sts, es, ms) && ks[0] == k && sts[0] == st && ks[|es|] == r && sts[|es|] == st';
    RunLength(ks, sts, es, ms);
    RunKeeps(ks, sts, es, ms, |es|);
    InvSettled(r, st');
  }

  /** Reachable states satisfy the invariant. */
  lemma ReachableInv(k: Kernel, st: seq<nat>)
    requires Reachable(k, st)
    ensures Inv(k, st) && Settled(k)
  {
    hide Inv, Booted, Leads;
    var b :| Booted(b) && Leads(b, [], k, st);
    BootedInv(b);
    LeadsInv(b, [], k, st);
  }

  lemma RunLength(ks: seq<Kernel>, sts: seq<seq<nat>>, es: seq<Event>, ms: seq<Memory>)
    requires Run(ks, sts, es, ms)
    ensures |ks| == |sts| == |es| + 1 && |ms| == |es|
  {
  }

  lemma InvSettled(k: Kernel, st: seq<nat>)
    requires Inv(k, st)
    ensures Settled(k)
  {
  }

  lemma LeadsNowhere(k: Kernel, st: seq<nat>)
    ensures Leads(k, st, k, st)
  {
    var ks, sts: seq<seq<nat>>, es: seq<Event>, ms: seq<Memory> := [k], [st], [], [];
    assert Run(ks, sts, es, ms);
  }

  lemma LeadsStep(b: Kernel, st0: seq<nat>, k: Kernel, st: seq<nat>, e: Event, mem: Memory, r: Kernel)
    requires k.current < |k.slots| && Leads(b, st0, k, st) && Step(k, e, mem, r)
    ensures Leads(b, st0, r, StackAfter(k, st, e))
  {
    hide Inv, Step;
    var ks, sts, es, ms :| Run(ks, sts, es, ms) && ks[0] == b && sts[0] == st0 && ks[|es|] == k && sts[|es|] == st;
    var ks', sts', es', ms' := ks + [r], sts + [StackAfter(k, st, e)], es + [e], ms + [mem];
    forall i | 0 <= i < |es'| ensures Move(ks'[i], sts'[i], es'[i], ms'[i], ks'[i + 1], sts'[i + 1]) {
      if i < |es| { assert Move(ks[i], sts[i], es[i], ms[i], ks[i + 1], sts[i + 1]); }
    }
    assert Run(ks', sts', es', ms');
  }

  lemma LeadsOn(k: Kernel, st: seq<nat>, p: Kernel, st': seq<nat>, r: Kernel, st'': seq<nat>)
    requires Leads(k, st, p, st') && Leads(p, st', r, st'')
    ensures Leads(k, st, r, st'')
  {
    hide Move;
    var ks, sts, es, ms :| Run(ks, sts, es, ms) && ks[0] == k && sts[0] == st && ks[|es|] == p && sts[|es|] == st';
    var ks', sts', es', ms' :|
      Run(ks', sts', es', ms') && ks'[0] == p && sts'[0] == st' && ks'[|es'|] == r && sts'[|es'|] == st'';
    var n := |es|;
    var xs, xsts, xes, xms := ks + ks'[1..], sts + sts'[1..], es + es', ms + ms';
    forall i | 0 <= i < |xes| ensures Move(xs[i], xsts[i], xes[i], xms[i], xs[i + 1], xsts[i + 1]) {
      if i < n {
        assert Move(ks[i], sts[i], es[i], ms[i], ks[i + 1], sts[i + 1]);
      } else {
        assert Move(ks'[i - n], sts'[i - n], es'[i - n], ms'[i - n], ks'[i - n + 1], sts'[i - n + 1]);
      }
    }
    assert Run(xs, xsts, xes, xms);
  }

  lemma ReachOn(k: Kernel, st: seq<nat>, r: Kernel, st': seq<nat>)
    requires Reachable(k, st) && Leads(k, st, r, st')
    ensures Reachable(r, st')
  {
    hide Booted, Leads;
    var b :| Booted(b) && Leads(b, [], k, st);
    LeadsOn(b, [], k, st, r, st');
  }

  lemma ReachStart(k: Kernel)
    requires Booted(k)
    ensures Reachable(k, [])
  {
    hide Booted, Leads;
    LeadsNowhere(k, []);
  }

  lemma ReachStep(k: Kernel, st: seq<nat>, e: Event, mem: Memory, r: Kernel)
    requires k.current < |k.slots| && Reachable(k, st) && Step(k, e, mem, r)
    ensures Reachable(r, StackAfter(k, st, e)) && Leads(k, st, r, StackAfter(k, st, e))
  {
    hide Booted, Leads, Step;
    LeadsNowhere(k, st);
    LeadsStep(k, st, k, st, e, mem, r);
    ReachOn(k, st, r, StackAfter(k, st, e));
  }

  // ----- what a state shows

  datatype Row = Row(state: TaskState, prio: nat, obj: nat)

  /** State, priority and object of every slot, the listed levels, the top level and the number of creations, with
      nothing promoted and no invocation. */
  ghost predicate Shows(k: Kernel, rows: seq<Row>, levels: seq<nat>, top: nat, total: nat) {
    && |k.slots| == |rows|
    && (forall u :: 0 <= u < |rows| ==> Row(k.slots[u].state, k.slots[u].prio, k.slots[u].obj) == rows[u])
    && k.lstash == |levels| <= |k.stash| && k.stash[..k.lstash] == levels && k.maxLevel == top && k.totalCount == total
    && !InPromotion(k) && k.invoked == 0
  }

  const IDLE := Row(Idle, 0, 0)

  /** A level above all others goes to the end of the stash. */
  lemma AddedOnTop(a: seq<nat>, n: nat, p: nat)
    requires Sorted(a, n) && !Full(a, n) && a[n - 1] < p
    ensures !Misplaced(a, n, p) && Search(a, p, 0, n, 0) == Missing(n) && Added(a, n, p) == (a[n := p], n + 1)
    ensures a[n := p][..n + 1] == a[..n] + [p]
  {
    assert Rank(a, n, p) == n;
    assert !Listed(a, n, p) by {
      if x :| 0 <= x < n && a[..n][x] == p { assert a[x] <= a[n - 1]; }
    }
    SearchResult(a, n, p);
    assert Insert(a, n, n, p) == a[n := p];
  }

  lemma AddedListed(a: seq<nat>, n: nat, p: nat)
    requires Sorted(a, n) && Listed(a, n, p)
    ensures Search(a, p, 0, n, 0) == Found && Added(a, n, p) == (a, n)
  {
    SearchResult(a, n, p);
  }

  /** What may be created next: in slot i, at a listed level or above all listed ones. */
  ghost predicate Fits(rows: seq<Row>, levels: seq<nat>, total: nat, t: Task, i: nat) {
    && i < |rows| && rows[i].state == Idle && (forall j :: 0 <= j < i ==> rows[j].state != Idle)
    && 0 < t.prio <= 126 && !t.hibernate && t.addr != 0 && total < 65535
    && (forall j :: 0 <= j < |rows| ==> rows[j].obj != t.addr)
    && levels != [] && (t.prio in levels || (levels[|levels| - 1] < t.prio && |levels| < |rows|))
  }

  lemma CanShowCreate(k: Kernel, rows: seq<Row>, levels: seq<nat>, top: nat, total: nat, t: Task, i: nat)
    requires Core(k, []) && Shows(k, rows, levels, top, total) && Fits(rows, levels, total, t, i)
    ensures CanCreate(k, t)
  {
    hide Ring, Counted, Named, Stacked, Misplaced;
    CountAll(k.slots, Live);
    CountBound(k.slots, Live);
    assert !Live(k.slots[i]);
    if t.prio !in levels {
      assert k.stash[..k.lstash][k.lstash - 1] == levels[|levels| - 1];
      AddedOnTop(k.stash, k.lstash, t.prio);
    }
  }

  lemma ShowCreate(k: Kernel, rows: seq<Row>, levels: seq<nat>, top: nat, total: nat, t: Task, i: nat)
    requires Core(k, []) && Shows(k, rows, levels, top, total) && Fits(rows, levels, total, t, i)
    ensures CanCreate(k, t) && Created(k, t).current == k.current
    ensures Shows(Created(k, t), rows[i := Row(Sleep, t.prio, t.addr)],
        if t.prio in levels then levels else levels + [t.prio],
                  if t.prio > top then t.prio else top, total + 1)
  {
    hide Ring, Counted, Named, Stacked, Misplaced, Search, Added;
    CanShowCreate(k, rows, levels, top, total, t, i);
    assert i == FirstIdle(k.slots);
    assert Ring(k.slots);
    CreatedSlots(k, t, i);
    LiveBelowTop(k, []);
    CreatedTop(k, t, i);
    CreatedShown(k, rows, t, i);
    CreatedLevels(k, levels, t);
  }

  lemma CreatedShown(k: Kernel, rows: seq<Row>, t: Task, i: nat)
    requires CanCreate(k, t) && i == FirstIdle(k.slots) && |rows| == |k.slots| && 0 < i && Ring(k.slots)
    requires forall u :: 0 <= u < |rows| ==> Row(k.slots[u].state, k.slots[u].prio, k.slots[u].obj) == rows[u]
    ensures var r, shown := Created(k, t).slots, rows[i := Row(Sleep, t.prio, t.addr)];
            |r| == |rows| && forall u :: 0 <= u < |rows| ==> Row(r[u].state, r[u].prio, r[u].obj) == shown[u]
  {
    hide Ring, Misplaced, Search, Added, Created;
    CreatedSlots(k, t, i);
    var r := Created(k, t).slots;
    forall u | 0 <= u < |rows| ensures Row(r[u].state, r[u].prio,
        r[u].obj) == rows[i := Row(Sleep, t.prio, t.addr)][u] {
      if u != i { assert Unmoved(k.slots[u], r[u]); } else { assert Unmoved(NewSlot(k, i, t), r[i]); }
    }
  }

  lemma CreatedLevels(k: Kernel, levels: seq<nat>, t: Task)
    requires CanCreate(k, t) && k.lstash == |levels| && k.stash[..k.lstash] == levels
    requires t.prio in levels || levels[|levels| - 1] < t.prio
    ensures var r := Created(k, t);
            var shown := if t.prio in levels then levels else levels + [t.prio];
            && r.lstash == |shown| <= |r.stash| && r.stash[..r.lstash] == shown && r.totalCount == k.totalCount + 1
            && !InPromotion(r) && r.current == k.current && r.invoked == k.invoked
  {
    hide Misplaced, Search, Added, Placed;
    SearchSafe(k.stash, k.lstash, t.prio);
    if t.prio in levels {
      AddedListed(k.stash, k.lstash, t.prio);
    } else {
      assert k.stash[..k.lstash][k.lstash - 1] == levels[|levels| - 1];
      AddedOnTop(k.stash, k.lstash, t.prio);
    }
  }

  /** Killing slot i, whose priority slot j carries too. */
  lemma ShowKill(k: Kernel, rows: seq<Row>, levels: seq<nat>, top: nat, total: nat, i: nat, j: nat)
    requires Inv(k, []) && Settled(k) && Shows(k, rows, levels, top, total)
    requires 0 < i < |rows| && i != k.current && rows[i].state != Idle
    requires j < |rows| && j != i && rows[j].prio == rows[i].prio == top
    ensures Allowed(k, Kill(i))
    ensures var low := if rows[j].state == Idle then Killed(k, i, false).maxLevel else top;
            && Shows(Killed(k, i, false), rows[i := Row(Idle, top, 0)], levels, low, total)
            && Killed(k, i, false).current == k.current
  {
    hide Counted, Named, Stacked, Killed, TopLevel;
    assert Row(k.slots[i].state, k.slots[i].prio, k.slots[i].obj) == rows[i];
    assert Row(k.slots[j].state, k.slots[j].prio, k.slots[j].obj) == rows[j];
    assert k.slots[j].prio == k.slots[i].prio;
    assert Killable(k, i) && Shared(k.slots, i);
    KilledSlots(k, i, false);
    KilledRest(k, i, false);
    var r := Killed(k, i, false);
    forall u | 0 <= u < |rows| ensures Row(r.slots[u].state, r.slots[u].prio,
        r.slots[u].obj) == rows[i := Row(Idle, top, 0)][u] {
      if u != i { assert Unmoved(k.slots[u], r.slots[u]); }
    }
    if rows[j].state != Idle {
      KeptTop(k, r, i, j, top);
    }
  }

  lemma KeptTop(k: Kernel, r: Kernel, i: nat, j: nat, top: nat)
    requires Inv(k, []) && !InPromotion(k) && k.maxLevel == top && i < |k.slots| == |r.slots| && j < |k.slots| && j != i
    requires forall u :: 0 <= u < |k.slots| && u != i ==> Unmoved(k.slots[u], r.slots[u])
    requires !Live(r.slots[i]) && Live(k.slots[j]) && k.slots[j].prio == top && r.maxLevel == TopLevel(r.slots, 0)
    ensures r.maxLevel == top
  {
    hide Counted, Named, Ring;
    LiveBelowTop(k, []);
    assert Unmoved(k.slots[j], r.slots[j]);
    if r.maxLevel != 0 {
      var u :| 0 <= u < |r.slots| && Live(r.slots[u]) && r.slots[u].prio == r.maxLevel;
      assert Unmoved(k.slots[u], r.slots[u]);
    }
  }

  lemma KilledRest(k: Kernel, i: nat, self: bool)
    requires Shaped(k) && Endable(k, i) && Shared(k.slots, i) && !k.selfKill
    ensures var r := Killed(k, i, self);
            && r.stash == k.stash && r.lstash == k.lstash && r.totalCount == k.totalCount && r.maxpLevel == k.maxpLevel
            && r.current == k.current && (!self ==> r.next == k.next) && r.maxLevel == TopLevel(r.slots, 0)
            && r.invoked == k.invoked && r.selfKill == self
  {
    hide TopLevel, Count, Byte, Unlink, Removed, Word, Stride;
  }

  // ----- scheduling

  predicate Still(rows: seq<Row>) {
    forall u :: 0 <= u < |rows| ==> rows[u].state != HibernateG && rows[u].state != HibernateL
  }

  /** Nobody hibernates, so the sweep changes nothing that is shown. */
  lemma ShowAwake(m: Kernel, mem: Memory, rows: seq<Row>, levels: seq<nat>, top: nat, total: nat)
    requires m.current < |m.slots| && Shows(Prepared(m), rows, levels, top, total) && Still(rows)
    ensures Shows(Awake(m, mem), rows, levels, top, total)
  {
    var q, p := Prepared(m), Awake(m, mem);
    forall u | 0 <= u < |rows| ensures p.slots[u] == q.slots[u] {
      assert Row(q.slots[u].state, q.slots[u].prio, q.slots[u].obj) == rows[u];
    }
  }

  /** Slot u is the first runnable one at the top level after `next`. */
  ghost predicate Nearest(rows: seq<Row>, top: nat, current: nat, next: nat, u: nat) {
    && u < |rows| && u != current && rows[u].state == Sleep && rows[u].prio == top && next < |rows|
    && forall v :: 0 <= v < |rows| && v != current && rows[v].state == Sleep && rows[v].prio == top ==>
         Ahead(next, u, |rows|) <= Ahead(next, v, |rows|)
  }

  lemma ShowSchedule(m: Kernel, mem: Memory, rows: seq<Row>, levels: seq<nat>, top: nat, total: nat,
      u: nat) returns (r: Kernel)
    requires Core(m, []) && Between(m) && Shows(Prepared(m), rows, levels, top, total) && Still(rows)
    requires Nearest(rows, top, m.current, m.next, u)
    ensures Scheduled(m, mem, r) && r.current == u && Shows(r, rows[u := rows[u].(state := Active)], levels, top, total)
  {
    hide Core, Scheduled, Selectable, Picked;
    ShowAwake(m, mem, rows, levels, top, total);
    var p := Awake(m, mem);
    assert Row(p.slots[u].state, p.slots[u].prio, p.slots[u].obj) == rows[u];
    assert Rival(p, u);
    RivalSelects(p, u);
    ScheduleEnds(m, mem, []);
    r :| Scheduled(m, mem, r);
    ScheduledNearest(m, mem, rows, levels, top, total, u, r);
  }

  lemma ScheduledNearest(m: Kernel, mem: Memory, rows: seq<Row>, levels: seq<nat>, top: nat, total: nat, u: nat,
      r: Kernel)
    requires m.current < |m.slots| && Shows(Awake(m, mem), rows, levels, top, total) && Scheduled(m, mem, r)
    requires Nearest(rows, top, m.current, m.next, u)
    ensures r.current == u && Shows(r, rows[u := rows[u].(state := Active)], levels, top, total)
  {
    hide Awake;
    var p := Awake(m, mem);
    AwakePlace(m, mem);
    assert Row(p.slots[u].state, p.slots[u].prio, p.slots[u].obj) == rows[u];
    assert Rival(p, u);
    var t: nat, level: nat :| t < |p.slots| && Picked(p, t, level) && r == Resumed(p, t, level);
    assert Rival(p, t) && Ahead(p.next, t, |p.slots|) <= Ahead(p.next, u, |p.slots|);
    assert Row(p.slots[t].state, p.slots[t].prio, p.slots[t].obj) == rows[t];
    assert t == u;
  }

  lemma AwakePlace(m: Kernel, mem: Memory)
    requires m.current < |m.slots|
    ensures Awake(m, mem).current == m.current && Awake(m, mem).next == m.next
  {
  }

  lemma ShowTick(k: Kernel, mem: Memory, rows: seq<Row>, levels: seq<nat>, top: nat, total: nat,
      u: nat) returns (r: Kernel)
    requires Inv(k, []) && Settled(k) && Shows(k, rows, levels, top, total) && Still(rows) && k.current < |rows|
    requires Nearest(rows[k.current := rows[k.current].(state := Sleep)], top, k.current, k.current, u)
    ensures Step(k, Tick, mem, r) && r.current == u
    ensures var slept := rows[k.current := rows[k.current].(state := Sleep)];
            Shows(r, slept[u := slept[u].(state := Active)], levels, top, total)
  {
    hide Core, Scheduled;
    TickBetween(k, []);
    r := ShowSchedule(k, mem, rows[k.current := rows[k.current].(state := Sleep)], levels, top, total, u);
  }

  // ----- the opening: a base task and one task at level 1, which runs

  function Opening(n: nat, addr: nat, t: Task): seq<Row>
    requires n >= 2
  {
    [Row(Sleep, 0, addr), Row(Active, 1, t.addr)] + seq(n - 2, _ => IDLE)
  }

  lemma BaseShown(n: nat, addr: nat, byte: nat)
    requires 2 <= n <= 127 && addr != 0
    ensures var p := Primed(BaseCreated(n, addr, byte));
            && Core(p, []) && p.current == 0 && Shows(p, [Row(Sleep, 0, addr)] + seq(n - 1, _ => IDLE), [0], 0, 1)
  {
    hide BaseCreated, Core;
    BaseSlots(n, addr, byte);
    BaseWaits(n, addr, byte);
    var p := Primed(BaseCreated(n, addr, byte));
    assert p.stash[..1] == [0];
  }

  lemma OpeningShown(n: nat, addr: nat, byte: nat, t: Task)
    requires 2 <= n <= 127 && addr != 0 && t.addr != 0 && t.addr != addr && t.prio == 1 && !t.hibernate
    ensures var b := BaseCreated(n, addr, byte);
            && b.maxpLevel < 256 && CanCreate(Primed(b), t) && Shaped(b) && Searchable(b) && Admission(b, t) == NoError
            && Shows(Primed(Created(b, t)), [Row(Sleep, 0, addr), Row(Sleep, 1, t.addr)] + seq(n - 2, _ => IDLE),
                [0, 1], 1, 2)
  {
    hide BaseCreated, Created, Core, CanCreate;
    BaseShown(n, addr, byte);
    FirstCanCreate(n, addr, byte, t);
    var rows := [Row(Sleep, 0, addr)] + seq(n - 1, _ => IDLE);
    var b := BaseCreated(n, addr, byte);
    ShowCreate(Primed(b), rows, [0], 0, 1, t, 1);
    PrimedCommutes(b, t);
    assert rows[1 := Row(Sleep, 1, t.addr)] == [Row(Sleep, 0, addr), Row(Sleep, 1, t.addr)] + seq(n - 2, _ => IDLE);
  }

  /** The state the system starts in: the task at level 1 runs. */
  lemma FirstState(n: nat, addr: nat, byte: nat, t: Task, mem: Memory) returns (k: Kernel)
    requires 2 <= n <= 127 && addr != 0 && t.addr != 0 && t.addr != addr && t.prio == 1 && !t.hibernate
    ensures Reachable(k, []) && k.current == 1 && Shows(k, Opening(n, addr, t), [0, 1], 1, 2)
  {
    hide BaseCreated, Created, Core, CanCreate, Inv, Scheduled, Waiting, Reachable, Started, HandedOver;
    OpeningShown(n, addr, byte, t);
    BaseWaits(n, addr, byte);
    var b := BaseCreated(n, addr, byte);
    CreateWaits(b, t);
    var w := Created(b, t);
    k := StartShown(w, [Row(Sleep, 0, addr), Row(Sleep, 1, t.addr)] + seq(n - 2, _ => IDLE), mem);
    assert ([Row(Sleep, 0, addr), Row(Sleep, 1, t.addr)] + seq(n - 2, _ => IDLE))[1 := Row(Active, 1,
        t.addr)] == Opening(n, addr, t);
    Undisturbed(w);
    WaitingCurrent(w);
    assert CreatedNext(b, t, w);
    IsBooted(n, addr, byte, t, w, mem, k);
    ReachStart(k);
  }

  lemma IsBooted(n: nat, addr: nat, byte: nat, t: Task, w: Kernel, mem: Memory, k: Kernel)
    requires 2 <= n <= 127 && addr != 0 && BaseCreated(n, addr, byte).maxpLevel < 256
    requires CanCreate(Primed(BaseCreated(n, addr, byte)), t) && CreatedNext(BaseCreated(n, addr, byte), t, w)
    requires w.current < |w.slots| && Scheduled(HandedOver(Started(w)), mem, k)
    ensures Booted(k)
  {
    hide BaseCreated, CanCreate, CreatedNext, Scheduled, Started, HandedOver;
    var ts, boot := [t], [BaseCreated(n, addr, byte), w];
    assert BootChain(n, addr, byte, ts, boot);
    assert boot[|ts|] == w;
  }

  lemma StartShown(w: Kernel, rows: seq<Row>, mem: Memory) returns (k: Kernel)
    requires Waiting(w) && Shows(Primed(w), rows, [0, 1], 1, 2) && |rows| >= 2 && rows[0].state == Sleep &&
        rows[0].prio == 0
    requires rows[1].state == Sleep && rows[1].prio == 1 && forall u :: 2 <= u < |rows| ==> rows[u] == IDLE
    ensures w.current < |w.slots| && Scheduled(HandedOver(Started(w)), mem, k)
    ensures k.current == 1 && Shows(k, rows[1 := rows[1].(state := Active)], [0, 1], 1, 2)
  {
    hide Core, Scheduled, Between, SameTasks;
    CoreFacts(Primed(w), []);
    CoreBase(Primed(w), []);
    StartSame(w);
    StartBetween(w);
    SameCore(Primed(w), Started(w), []);
    var m := HandedOver(Started(w));
    SameCore(Started(w), m, []);
    assert Row(w.slots[0].state, w.slots[0].prio, w.slots[0].obj) == rows[0];
    assert Shows(Prepared(m), rows, [0, 1], 1, 2) by {
      forall u | 0 <= u < |rows| ensures Row(Prepared(m).slots[u].state, Prepared(m).slots[u].prio,
          Prepared(m).slots[u].obj) == rows[u] {
        assert Row(w.slots[u].state, w.slots[u].prio, w.slots[u].obj) == rows[u];
      }
    }
    k := ShowSchedule(m, mem, rows, [0, 1], 1, 2, 1);
  }

  // ----- reached: a full stash, and a byte behind it

  /** With two slots the opening fills the stash. Whatever the byte behind it is, there is a state in which the task may
      end there; unless that byte is 0, its end breaks the invariant for good. */
  lemma FullKillReached(addr: nat, t: Task, byte: nat, mem: Memory) returns (k: Kernel)
    requires addr != 0 && t.addr != 0 && t.addr != addr && t.prio == 1 && !t.hibernate
    ensures Reachable(k, []) && Settled(k) && k.current == 1 && Killable(k, 1) && Full(k.stash, k.lstash) &&
        k.stash == [0, 1, byte]
    ensures Killed(k, 1, true).stash == [0, byte, byte] && Killed(k, 1, true).lstash == 1
    ensures (exists s :: Core(Killed(k, 1, true), s)) <==> byte == 0
  {
    hide Reachable, Inv, Killed, Shows, Step, Core;
    var k0 := FirstState(2, addr, 0, t, mem);
    ReachableInv(k0, []);
    k := Disturbed(k0, byte);
    DisturbStep(k0, byte, mem);
    ReachStep(k0, [], Disturb(byte), mem, k);
    ReachableInv(k, []);
    DisturbShown(k0, Opening(2, addr, t), byte);
    FullKill(k, Opening(2, addr, t), byte);
  }

  lemma DisturbShown(k: Kernel, rows: seq<Row>, byte: nat)
    requires Inv(k, []) && Shows(k, rows, [0, 1], 1, 2)
    ensures var r := Disturbed(k, byte);
            Shows(r, rows, [0, 1], 1, 2) && r.current == k.current && r.stash != [] && r.stash[|r.stash| - 1] == byte
  {
    hide Ring, Counted, Named, Stacked;
    assert Disturbed(k, byte).stash[..k.lstash] == k.stash[..k.lstash];
  }

  lemma DisturbStep(k: Kernel, byte: nat, mem: Memory)
    requires Settled(k)
    ensures Step(k, Disturb(byte), mem, Disturbed(k, byte)) && StackAfter(k, [], Disturb(byte)) == []
  {
  }

  lemma FullKill(k: Kernel, rows: seq<Row>, byte: nat)
    requires Inv(k, []) && Settled(k) && |rows| == 2 && rows[1].state == Active && rows[1].prio == 1 &&
        rows[0].prio == 0
    requires k.current == 1 && k.stash != [] && k.stash[|k.stash| - 1] == byte && Shows(k, rows, [0, 1], 1, 2)
    ensures Killable(k, 1) && Full(k.stash, k.lstash) && k.stash == [0, 1, byte]
    ensures Killed(k, 1, true).stash == [0, byte, byte] && Killed(k, 1, true).lstash == 1
    ensures (exists s :: Core(Killed(k, 1, true), s)) <==> byte == 0
  {
    hide Counted, Named, Stacked, TopLevel, Count, Byte, Unlink, Word;
    assert Row(k.slots[0].state, k.slots[0].prio, k.slots[0].obj) == rows[0];
    assert Row(k.slots[1].state, k.slots[1].prio, k.slots[1].obj) == rows[1];
    assert k.stash[..2][0] == 0 && k.stash[..2][1] == 1;
    assert k.stash == [0, 1, byte];
    assert !Shared(k.slots, 1);
    assert IndexOf(k.stash, 2, 1) == 1;
    KillKeepsExactly(k, [], 1, true);
  }

  // ----- reached: a dead level, and a creation out of bounds

  /** Two tasks are created at level 2 and killed again. The second kill leaves level 2 listed although nobody is at
      it. */
  lemma DeadLevelReached(addr: nat, one: nat, two: nat, three: nat, byte: nat, mem: Memory) returns (k: Kernel,
      low: nat)
    requires addr != 0 && one != 0 && two != 0 && three != 0
    requires addr != one && addr != two && addr != three && one != two && one != three && two != three
    ensures Reachable(k, []) && k.current == 1 && k.lstash <= |k.stash|
    ensures 2 in k.stash[..k.lstash] && !HasLevel(k.slots, 2) && !Exact(k)
    ensures Shows(k, [Row(Sleep, 0, addr), Row(Active, 1, one), Row(Idle, 2, 0), Row(Idle, 2, 0)], [0, 1, 2], low, 4)
  {
    hide Step, Reachable, Shows;
    var k2 := TwoMore(addr, one, two, three, byte, mem);
    var r2 := [Row(Sleep, 0, addr), Row(Active, 1, one), Row(Sleep, 2, two), Row(Sleep, 2, three)];
    var k3 := KillStep(k2, r2, [0, 1, 2], 2, 4, 2, 3, mem);
    var r3 := r2[2 := Row(Idle, 2, 0)];
    k := KillStep(k3, r3, [0, 1, 2], 2, 4, 3, 2, mem);
    low := k.maxLevel;
    var r4 := [Row(Sleep, 0, addr), Row(Active, 1, one), Row(Idle, 2, 0), Row(Idle, 2, 0)];
    assert r3[3 := Row(Idle, 2, 0)] == r4;
    NobodyAt(k, r4, [0, 1, 2], low, 4);
  }

  lemma TwoMore(addr: nat, one: nat, two: nat, three: nat, byte: nat, mem: Memory) returns (k: Kernel)
    requires addr != 0 && one != 0 && two != 0 && three != 0
    requires addr != one && addr != two && addr != three && one != two && one != three && two != three
    ensures Reachable(k, []) && k.current == 1
    ensures Shows(k, [Row(Sleep, 0, addr), Row(Active, 1, one), Row(Sleep, 2, two), Row(Sleep, 2, three)], [0, 1, 2],
        2, 4)
  {
    hide Step, Reachable, Shows;
    var t1, t2, t3 := Task(one, 1, false), Task(two, 2, false), Task(three, 2, false);
    var k0 := FirstState(4, addr, byte, t1, mem);
    var r0 := [Row(Sleep, 0, addr), Row(Active, 1, one), IDLE, IDLE];
    assert Opening(4, addr, t1) == r0;
    var k1 := CreateStep(k0, r0, [0, 1], 1, 2, t2, 2, mem);
    var r1 := [Row(Sleep, 0, addr), Row(Active, 1, one), Row(Sleep, 2, two), IDLE];
    assert r0[2 := Row(Sleep, 2, two)] == r1;
    assert 2 !in [0, 1] && [0, 1] + [2] == [0, 1, 2];
    k := CreateStep(k1, r1, [0, 1, 2], 2, 3, t3, 3, mem);
    assert r1[3 := Row(Sleep, 2, three)] == [Row(Sleep, 0, addr), Row(Active, 1, one), Row(Sleep, 2, two),
        Row(Sleep, 2, three)];
  }

  lemma NobodyAt(k: Kernel, rows: seq<Row>, levels: seq<nat>, top: nat, total: nat)
    requires Shows(k, rows, levels, top, total) && 2 in levels
    requires forall u :: 0 <= u < |rows| && rows[u].state != Idle ==> rows[u].prio < 2
    ensures k.lstash <= |k.stash| && 2 in k.stash[..k.lstash] && !HasLevel(k.slots, 2) && !Exact(k)
  {
    forall u | 0 <= u < |k.slots| && Live(k.slots[u]) ensures Level(k.slots[u]) != 2 {
      assert Row(k.slots[u].state, k.slots[u].prio, k.slots[u].obj) == rows[u];
    }
  }

  lemma CreateStep(k: Kernel, rows: seq<Row>, levels: seq<nat>, top: nat, total: nat, t: Task, i: nat, mem: Memory)
    returns (r: Kernel)
    requires Reachable(k, []) && Shows(k, rows, levels, top, total) && Fits(rows, levels, total, t, i)
    ensures Reachable(r, []) && Leads(k, [], r, []) && r.current == k.current && Step(k, Create(t), mem, r)
    ensures Shows(r, rows[i := Row(Sleep, t.prio, t.addr)], if t.prio in levels then levels else levels + [t.prio],
                  if t.prio > top then t.prio else top, total + 1)
  {
    hide Reachable, Leads, Created, CanCreate, Core;
    ReachableInv(k, []);
    ShowCreate(k, rows, levels, top, total, t, i);
    Admitted(k, t);
    r := Created(k, t);
    assert Step(k, Create(t), mem, r);
    ReachStep(k, [], Create(t), mem, r);
  }

  lemma Admitted(k: Kernel, t: Task)
    requires CanCreate(k, t)
    ensures Shaped(k) && Searchable(k) && Admission(k, t) == NoError
  {
  }

  lemma KillStep(k: Kernel, rows: seq<Row>, levels: seq<nat>, top: nat, total: nat, i: nat, j: nat, mem: Memory)
    returns (r: Kernel)
    requires Reachable(k, []) && Shows(k, rows, levels, top, total)
    requires 0 < i < |rows| && i != k.current && rows[i].state != Idle
    requires j < |rows| && j != i && rows[j].prio == rows[i].prio == top
    ensures Reachable(r, []) && Leads(k, [], r, []) && r.current == k.current && Step(k, Kill(i), mem, r)
    ensures Shows(r, rows[i := Row(Idle, top, 0)], levels, if rows[j].state == Idle then r.maxLevel else top, total)
  {
    hide Reachable, Leads, Killed, Core;
    ReachableInv(k, []);
    ShowKill(k, rows, levels, top, total, i, j);
    r := Killed(k, i, false);
    assert Step(k, Kill(i), mem, r);
    ReachStep(k, [], Kill(i), mem, r);
  }

  /** One more creation at level 3 fills the stash while a slot is free. The kernel then admits a task at level 4, and
      its creation reads or writes the byte behind the stash. */
  lemma TrespassReached(addr: nat, one: nat, two: nat, three: nat, byte: nat, mem: Memory) returns (k: Kernel)
    requires addr != 0 && one != 0 && two != 0 && three != 0
    requires addr != one && addr != two && addr != three && one != two && one != three && two != three
    ensures Reachable(k, []) && Full(k.stash, k.lstash) && k.lstash < |k.stash|
    ensures forall t: Task :: t.prio == 4 ==> Admission(k, t) == NoError && Trespasses(k.stash, k.lstash, t.prio)
  {
    hide Step, Reachable, Core, Trespasses;
    var k0, low := DeadLevelReached(addr, one, two, three, byte, mem);
    var rows := [Row(Sleep, 0, addr), Row(Active, 1, one), Row(Idle, 2, 0), Row(Idle, 2, 0)];
    k := CreateStep(k0, rows, [0, 1, 2], low, 4, Task(two, 3, false), 2, mem);
    ReachableInv(k, []);
    FullTrespass(k, rows[2 := Row(Sleep, 3, two)], if 3 > low then 3 else low);
  }

  lemma FullTrespass(k: Kernel, rows: seq<Row>, top: nat)
    requires Inv(k, []) && Shows(k, rows, [0, 1, 2, 3], top, 5) && |rows| == 4 && rows[3].state == Idle
    ensures Full(k.stash, k.lstash) && k.lstash < |k.stash|
    ensures forall t: Task :: t.prio == 4 ==> Admission(k, t) == NoError && Trespasses(k.stash, k.lstash, t.prio)
  {
    hide Counted, Named, Stacked, Ring, Trespasses;
    assert Row(k.slots[3].state, k.slots[3].prio, k.slots[3].obj) == rows[3];
    CountAll(k.slots, Live);
    CountBound(k.slots, Live);
    assert !Live(k.slots[3]);
    assert !Listed(k.stash, k.lstash, 4);
    StaysInside(k.stash, k.lstash, 4);
  }

  // ----- reached: promotions

  /** After a promotion the owner runs, the promoter is held, and everybody else who was runnable still is. */
  lemma PromoteStep(k: Kernel, st: seq<nat>, mutex: nat, owner: nat, mem: Memory) returns (r: Kernel)
    requires Reachable(k, st) && k.current < |k.slots| && CanPromote(k, mutex, owner) && k.slots[owner].state == Sleep
    ensures Reachable(r, st + [owner]) && Leads(k, st, r, st + [owner]) && r.current == owner && |r.slots| == |k.slots|
    ensures r.stash == k.stash && r.lstash == k.lstash && r.slots[k.current].state == Hold
    ensures forall u :: 0 <= u < |k.slots| && u != owner && u != k.current && k.slots[u].state == Sleep ==>
              r.slots[u].state == Sleep && r.slots[u].prio == k.slots[u].prio
  {
    hide Reachable, Leads, Inv, CanPromote, Step;
    ReachableInv(k, st);
    OwnerRunsNext(k, st, mutex, owner, mem);
    r :| Step(k, Promote(mutex, owner), mem, r);
    ReachStep(k, st, Promote(mutex, owner), mem, r);
    OthersAsleep(k, mutex, owner, mem, r);
  }

  lemma OthersAsleep(k: Kernel, mutex: nat, owner: nat, mem: Memory, r: Kernel)
    requires Step(k, Promote(mutex, owner), mem, r) && r.current == owner && k.current < |k.slots|
    ensures |r.slots| == |k.slots| && r.stash == k.stash && r.lstash == k.lstash && r.slots[k.current].state == Hold
    ensures forall u :: 0 <= u < |k.slots| && u != owner && u != k.current && k.slots[u].state == Sleep ==>
              r.slots[u].state == Sleep && r.slots[u].prio == k.slots[u].prio
  {
    hide Picked, Byte, Count;
    var m := Promoted(k, mutex, owner);
    var p := Awake(m, mem);
    assert forall u :: 0 <= u < |k.slots| ==> p.slots[u] == Wake(m.slots[u], mem);
    var t: nat, level: nat :| t < |p.slots| && Picked(p, t, level) && r == Resumed(p, t, level);
    assert t == owner;
  }

  /** Two tasks at level 2; one of them has the task at level 1 promoted. The tick that interrupts the promoted task
      gives the processor to the base task, although the other task at level 2 is runnable. */
  lemma SkippedLevelReached(addr: nat, one: nat, two: nat, three: nat, byte: nat, mutex: nat,
      mem: Memory) returns (k: Kernel)
    requires addr != 0 && one != 0 && two != 0 && three != 0 && mutex != 0
    requires addr != one && addr != two && addr != three && one != two && one != three && two != three
    ensures Reachable(k, [1]) && |k.slots| == 4 && k.current == 0
    ensures k.slots[3].state == Sleep && k.slots[3].prio == 2 && k.slots[0].prio == 0
  {
    hide Reachable, Shows, Inv, Step;
    var k0 := TwoMore(addr, one, two, three, byte, mem);
    var r0 := [Row(Sleep, 0, addr), Row(Active, 1, one), Row(Sleep, 2, two), Row(Sleep, 2, three)];
    ReachableInv(k0, []);
    var slept := r0[1 := Row(Sleep, 1, one)];
    assert Nearest(slept, 2, 1, 1, 2);
    var k1 := ShowTick(k0, mem, r0, [0, 1, 2], 2, 4, 2);
    ReachStep(k0, [], Tick, mem, k1);
    RowsOf(k1, slept[2 := Row(Active, 2, two)], [0, 1, 2], 2, 4);
    var k2 := PromoteStep(k1, [], mutex, 1, mem);
    assert [] + [1] == [1];
    ReachableInv(k2, [1]);
    k := TickSkips(k2, mem);
    ReachStep(k2, [1], Tick, mem, k);
  }

  lemma RowsOf(k: Kernel, rows: seq<Row>, levels: seq<nat>, top: nat, total: nat)
    requires Shows(k, rows, levels, top, total)
    ensures |k.slots| == |rows| && k.lstash == |levels| <= |k.stash| && k.stash[..k.lstash] == levels
    ensures forall u :: 0 <= u < |rows| ==> k.slots[u].state == rows[u].state && k.slots[u].prio == rows[u].prio
  {
    forall u | 0 <= u < |rows| ensures k.slots[u].state == rows[u].state && k.slots[u].prio == rows[u].prio {
      assert Row(k.slots[u].state, k.slots[u].prio, k.slots[u].obj) == rows[u];
    }
  }

  lemma TickSkips(k: Kernel, mem: Memory) returns (r: Kernel)
    requires Inv(k, [1]) && Settled(k) && |k.slots| == 4 && k.current == 1 && k.lstash == 3 && k.stash[..3] == [0, 1, 2]
    requires k.slots[0].state == Sleep && k.slots[0].prio == 0 && k.slots[2].state == Hold
    requires k.slots[3].state == Sleep && k.slots[3].prio == 2
    ensures Step(k, Tick, mem, r) && |r.slots| == 4 && r.current == 0
    ensures r.slots[3].state == Sleep && r.slots[3].prio == 2 && r.slots[0].prio == 0
  {
    hide Core, Selectable, Scheduled, Picked;
    YieldEndsSoon(k, [1], Tick, mem);
    r :| Step(k, Tick, mem, r);
    TopPromoted(k, [1]);
    SkipsToBase(k, mem, r);
  }

  lemma TopPromoted(k: Kernel, st: seq<nat>)
    requires Core(k, st) && st == [1]
    ensures k.maxLevel == 128 && |k.slots| > 1 && k.slots[1].prio == 128
  {
    assert st[0] < |k.slots|;
  }

  lemma SkipsToBase(k: Kernel, mem: Memory, r: Kernel)
    requires |k.slots| == 4 && k.current == 1 && k.next == 1 && k.normal && k.lstash == 3 <= |k.stash| &&
        k.stash[..3] == [0, 1, 2]
    requires k.maxLevel == 128 && k.slots[1].prio == 128
    requires k.slots[0].state == Sleep && k.slots[0].prio == 0 && k.slots[2].state == Hold
    requires k.slots[3].state == Sleep && k.slots[3].prio == 2 && Scheduled(k, mem, r)
    ensures |r.slots| == 4 && r.current == 0
    ensures r.slots[3].state == Sleep && r.slots[3].prio == 2 && r.slots[0].prio == 0
  {
    hide Picked, Awake;
    var p := Awake(k, mem);
    AwakeFour(k, mem);
    var t: nat, level: nat :| t < |p.slots| && Picked(p, t, level) && r == Resumed(p, t, level);
    LowPick(p, t, level);
  }

  lemma AwakeFour(k: Kernel, mem: Memory)
    requires |k.slots| == 4 && k.current == 1 && k.normal && k.slots[2].state == Hold
    requires k.slots[0].state == Sleep && k.slots[3].state == Sleep
    ensures var p := Awake(k, mem);
            && |p.slots| == 4 && p.slots[0] == k.slots[0] && p.slots[2] == k.slots[2] && p.slots[3] == k.slots[3]
            && p.slots[1].prio == k.slots[1].prio && p.current == 1 && p.maxLevel == k.maxLevel
            && p.stash == k.stash && p.lstash == k.lstash
  {
    hide Byte, Count;
    var q := Prepared(k);
    assert forall u :: 0 <= u < 4 ==> Awake(k, mem).slots[u] == Wake(q.slots[u], mem);
  }

  lemma LowPick(p: Kernel, t: nat, level: nat)
    requires |p.slots| == 4 && p.current == 1 && p.maxLevel == 128 && p.lstash == 3 <= |p.stash| &&
        p.stash[..3] == [0, 1, 2]
    requires p.slots[0].prio == 0 && p.slots[1].prio == 128 && p.slots[2].state == Hold && p.slots[3].prio == 2
    requires t < 4 && Picked(p, t, level)
    ensures t == 0
  {
    hide NoneAbove;
    assert forall u :: !Rival(p, u);
    var m :| Below(p, m) && p.stash[m] == level && NoneAbove(p, m);
    assert p.stash[m] == p.stash[..3][m];
  }
}
