/** One step of a run, field by field: the value every variable of every slot has after any service and the scheduling
    it asks for. */
module Fields {
  import opened Slots
  import opened JumpList
  import opened LevelStash
  import opened Services
  import opened Scheduler
  import opened Invariant
  import opened Transitions
  import opened Runs

  /** u is the first slot with the id. */
  predicate Bears(t: seq<Slot>, id: nat, u: nat) {
    u < |t| && t[u].id == id && forall x :: 0 <= x < u ==> t[x].id != id
  }

  /** A release by the base task that gives its error to slot u. */
  predicate AnswersTo(k: Kernel, e: Event, u: nat) {
    e.Release? && k.current == 0 && Bears(k.slots, k.invoked, u)
  }

  /** A grant by the base task that finds slot u. */
  predicate GrantsTo(k: Kernel, e: Event, u: nat) {
    e.Grant? && k.current == 0 && Bears(k.slots, e.id, u)
  }

  /** A promotion of slot u. */
  predicate Raises(k: Kernel, e: Event, u: nat) {
    (e.Promote? && u == e.owner) || (e.Invoke? && k.current != 0 && u == 0)
  }

  /** A demotion of slot u. */
  predicate Lowers(k: Kernel, e: Event, u: nat) {
    && u == k.current
    && (e.Demote? || (e.Release? && u == 0 && exists x :: 0 <= x < |k.slots| && k.slots[x].id == k.invoked))
  }

  /** The end of the task in slot u. */
  predicate Ends(k: Kernel, e: Event, u: nat) {
    e == Kill(u) || (e.End? && u == k.current)
  }

  /** A creation that is not refused puts its task in slot u. */
  predicate Fills(k: Kernel, e: Event, u: nat) {
    && e.Create? && e.task.prio <= 127 && (k.started ==> e.task.prio > 0) && u < |k.slots| && k.slots[u].state == Idle
    && forall x :: 0 <= x < u ==> k.slots[x].state != Idle
  }

  /** The mutex of a promotion. */
  function MutexOf(e: Event): nat {
    if e.Promote? then e.mutex else BASE_MUTEX
  }

  // ----- the scheduler

  /** Scheduling changes states only, and none to or from IDLE. */
  lemma ScheduledStates(m: Kernel, mem: Memory, r: Kernel)
    requires m.current < |m.slots| && Scheduled(m, mem, r)
    ensures |r.slots| == |m.slots| && r.maxLevel == m.maxLevel && r.invoked == m.invoked
    ensures forall u :: 0 <= u < |m.slots| ==> r.slots[u] == m.slots[u].(state := r.slots[u].state)
    ensures (m.normal ==> Live(m.slots[m.current])) ==>
              forall u :: 0 <= u < |m.slots| ==> (Live(r.slots[u]) <==> Live(m.slots[u]))
  {
    hide Picked, Byte, Count;
    var q, p := Prepared(m), Awake(m, mem);
    var t: nat, level: nat :| t < |p.slots| && Picked(p, t, level) && r == Resumed(p, t, level);
    PickSleeps(p, t, level);
    assert forall u :: 0 <= u < |m.slots| ==> p.slots[u] == Wake(q.slots[u], mem);
  }

  // ----- the services

  lemma CreatedFields(k: Kernel, st: seq<nat>, t: Task, u: nat)
    requires Core(k, st) && CanCreate(k, t) && u < |k.slots|
    ensures Shaped(k) && Searchable(k) && Admission(k, t) == NoError && |Created(k, t).slots| == |k.slots|
    ensures var s, r := k.slots[u], Created(k, t).slots[u];
            if Fills(k, Create(t), u) then
              r == s.(state := Sleep, jmp := r.jmp, prio := t.prio, obj := t.addr,
                      id := u * 0x1_0000 + k.totalCount + 1)
            else r == s.(jmp := r.jmp)
  {
    hide Levelled, Stacked, Counted, Named, Created, Misplaced;
    var i := FirstIdle(k.slots);
    CreatedSlots(k, t, i);
    var r := Created(k, t).slots;
    if u != i { assert Unmoved(k.slots[u], r[u]); } else { assert Unmoved(NewSlot(k, i, t), r[i]); }
  }

  lemma KilledFields(k: Kernel, i: nat, self: bool, u: nat)
    requires Shaped(k) && CanKill(k, i) && u < |k.slots| && (k.selfKill || self ==> i == k.next)
    ensures |Killed(k, i, self).slots| == |k.slots|
    ensures var s, r := k.slots[u], Killed(k, i, self).slots[u];
            if u == i then r == s.(state := Idle, jmp := r.jmp, id := 0, obj := 0) else r == s.(jmp := r.jmp)
  {
    hide Killed;
    KilledSlots(k, i, self);
    assert u != i ==> Unmoved(k.slots[u], Killed(k, i, self).slots[u]);
  }

  lemma EndedFields(k: Kernel, u: nat)
    requires Settled(k) && CanKill(k, k.current) && u < |k.slots|
    ensures var m := Killed(k, k.current, true);
            && m.current < |m.slots| == |HandedOver(m).slots| == |k.slots|
            && var s, r := k.slots[u], HandedOver(m).slots[u];
            if u == k.current then r == s.(state := Idle, jmp := r.jmp, id := 0, obj := 0) else r == s.(jmp := r.jmp)
  {
    hide Unlink, Removed, Shared, TopLevel, Count, Byte, Word, Stride;
    KilledFields(k, k.current, true, u);
  }

  lemma PromotedFields(k: Kernel, st: seq<nat>, mutex: nat, owner: nat, u: nat)
    requires Stacked(k, st) && CanPromote(k, mutex, owner) && k.current < |k.slots| <= 127 && u < |k.slots|
    ensures |Promoted(k, mutex, owner).slots| == |k.slots| && owner != k.current
    ensures var s, r := k.slots[u], Promoted(k, mutex, owner).slots[u];
            if u == owner then r == s.(mutex := mutex, saved := s.prio, prio := 128 + |st|)
            else if u == k.current then r == s.(state := Hold, op1 := mutex)
            else r == s
  {
    forall m | 0 <= m < |st| ensures st[m] != owner { assert k.slots[st[m]].prio == 128 + m; }
    DepthBound(k, st, owner);
  }

  lemma InvokedFields(k: Kernel, st: seq<nat>, u: nat)
    requires Inv(k, st) && k.current != 0 && CanPromote(k, BASE_MUTEX, 0) && u < |k.slots|
    ensures var m := Promoted(Invoked(k).0, BASE_MUTEX, 0);
            && |m.slots| == |k.slots|
            && var s, r := k.slots[u], m.slots[u];
            if u == 0 then r == s.(mutex := BASE_MUTEX, saved := s.prio, prio := 128 + |st|)
            else if u == k.current then r == s.(state := Hold, op1 := BASE_MUTEX)
            else r == s
  {
    hide Ring, Levelled, Counted, Named, Promoted;
    PromotedFields(Invoked(k).0, st, BASE_MUTEX, 0, u);
  }

  lemma SteppedFields(k: Kernel, u: nat)
    requires k.current < |k.slots| && u < |k.slots| && Live(k.slots[k.current])
    ensures |Stepped(k).slots| == |k.slots|
    ensures var s, r := k.slots[u], Stepped(k).slots[u];
            && (Live(r) <==> Live(s))
            && r == if u == k.current then s.(state := r.state, prio := s.saved, saved := 0, mutex := 0)
                    else s.(state := r.state)
  {
  }

  lemma ReleasedFields(k: Kernel, error: nat, u: nat)
    requires u < |k.slots|
    ensures var r := Released(k, error).0;
            && |r.slots| == |k.slots| && r.current == k.current
            && r.slots[u] == if AnswersTo(k, Release(error), u) then k.slots[u].(hib := error) else k.slots[u]
    ensures Released(k, error).1 == NoError <==>
            k.current == 0 && exists x :: 0 <= x < |k.slots| && k.slots[x].id == k.invoked
  {
    var i := WithId(k.slots, k.invoked, 0);
  }

  lemma GrantedFields(k: Kernel, id: nat, permission: nat, u: nat)
    requires u < |k.slots|
    ensures var r := Granted(k, id, permission).0;
            && |r.slots| == |k.slots|
            && r.slots[u] == if GrantsTo(k, Grant(id, permission), u) then k.slots[u].(perm := permission % 0x1_0000)
                             else k.slots[u]
  {
    var i := WithId(k.slots, id, 0);
  }

  /** A creation in a full table, at a wrong level or behind a promotion is refused or not allowed. */
  lemma Refused(k: Kernel, e: Event, u: nat)
    requires Settled(k) && Allowed(k, e) && e.Create? && Admission(k, e.task) != NoError
    ensures !Fills(k, e, u)
  {
    hide CanCreate;
    CountAll(k.slots, Live);
    CountBound(k.slots, Live);
  }

  /** The fields of a slot after an event, the scheduling apart. */
  ghost predicate After(k: Kernel, st: seq<nat>, e: Event, u: nat, r: Slot)
    requires u < |k.slots|
  {
    var s, mine := k.slots[u], u == k.current;
    && r.op1 == (if e.Hibernate? && mine then e.op1 else if Pushes(k, e) && mine then MutexOf(e) else s.op1)
    && r.op2 == (if e.Hibernate? && mine then e.op2 else s.op2)
    && r.hib == (if e.Hibernate? && mine then e.value else if AnswersTo(k, e, u) then e.error else s.hib)
    && r.saved == (if Raises(k, e, u) then s.prio else if Lowers(k, e, u) then 0 else s.saved)
    && r.mutex == (if Raises(k, e, u) then MutexOf(e) else if Lowers(k, e, u) then 0 else s.mutex)
    && r.prio == (if Raises(k, e, u) then 128 + |st| else if Lowers(k, e, u) then s.saved
                  else if Fills(k, e, u) then e.task.prio else s.prio)
    && r.id == (if Fills(k, e, u) then u * 0x1_0000 + k.totalCount + 1 else if Ends(k, e, u) then 0 else s.id)
    && r.obj == (if Fills(k, e, u) then e.task.addr else if Ends(k, e, u) then 0 else s.obj)
    && r.perm == (if GrantsTo(k, e, u) then e.permission % 0x1_0000 else s.perm)
    && (r.state == Idle <==> (s.state == Idle && !Fills(k, e, u)) || Ends(k, e, u))
  }

  lemma TaskFields(k: Kernel, st: seq<nat>, e: Event, u: nat)
    requires Inv(k, st) && Settled(k) && Allowed(k, e) && u < |k.slots| && (e.Create? || e.Kill? || e.End?)
    ensures |Effect(k, e).slots| == |k.slots| && After(k, st, e, u, Effect(k, e).slots[u])
  {
    hide Core, Created, Killed, CanKill, CanCreate;
    match e
    case Create(t) =>
      if Admission(k, t) == NoError { CreatedFields(k, st, t, u); } else { Refused(k, e, u); }
    case Kill(i) => KilledFields(k, i, false, u);
    case End => EndedFields(k, u);
  }

  lemma PushFields(k: Kernel, st: seq<nat>, e: Event, u: nat)
    requires Inv(k, st) && Settled(k) && Allowed(k, e) && u < |k.slots| && (e.Promote? || e.Invoke?)
    ensures |Effect(k, e).slots| == |k.slots| && After(k, st, e, u, Effect(k, e).slots[u])
  {
    hide Ring, Levelled, Counted, Named, Stacked, CanPromote, Promoted;
    if e.Promote? {
      PromotedFields(k, st, e.mutex, e.owner, u);
    } else if k.current != 0 {
      InvokedFields(k, st, u);
    }
  }

  lemma PopFields(k: Kernel, st: seq<nat>, e: Event, u: nat)
    requires Inv(k, st) && Settled(k) && Allowed(k, e) && u < |k.slots| && (e.Demote? || e.Release?)
    ensures |Effect(k, e).slots| == |k.slots| && After(k, st, e, u, Effect(k, e).slots[u])
  {
    hide Core, Stepped, Released;
    if e.Demote? {
      SteppedFields(k, u);
    } else {
      ReleasedFields(k, e.error, u);
      ReleasedFields(k, e.error, k.current);
      SteppedFields(Released(k, e.error).0, u);
    }
  }

  lemma OtherFields(k: Kernel, st: seq<nat>, e: Event, u: nat)
    requires Inv(k, st) && Settled(k) && Allowed(k, e) && u < |k.slots|
    requires e.Hibernate? || e.HandOver? || e.Tick? || e.Grant? || e.Disturb?
    ensures |Effect(k, e).slots| == |k.slots| && After(k, st, e, u, Effect(k, e).slots[u])
  {
    hide Core, Granted, Byte;
    if e.Grant? { GrantedFields(k, e.id, e.permission, u); }
  }

  lemma EffectFields(k: Kernel, st: seq<nat>, e: Event, u: nat)
    requires Inv(k, st) && Settled(k) && Allowed(k, e) && u < |k.slots|
    ensures |Effect(k, e).slots| == |k.slots| && After(k, st, e, u, Effect(k, e).slots[u])
  {
    hide Inv, Effect, Allowed, After;
    if e.Create? || e.Kill? || e.End? {
      TaskFields(k, st, e, u);
    } else if e.Promote? || e.Invoke? {
      PushFields(k, st, e, u);
    } else if e.Demote? || e.Release? {
      PopFields(k, st, e, u);
    } else {
      OtherFields(k, st, e, u);
    }
  }

  /** Every step, for every slot: the values an event gives to the fields it names, and nothing else but the state is
      touched by the scheduling. */
  lemma StepFields(k: Kernel, st: seq<nat>, e: Event, mem: Memory, r: Kernel, u: nat)
    requires Inv(k, st) && Step(k, e, mem, r) && u < |k.slots|
    ensures |r.slots| == |k.slots| && After(k, st, e, u, r.slots[u])
  {
    hide Core, Effect, Scheduled, Allowed, Pushes, Raises, Lowers, Fills, AnswersTo, GrantsTo;
    EffectFields(k, st, e, u);
    if Reschedules(k, e) {
      EffectEnds(k, st, e);
      ScheduledStates(Effect(k, e), mem, r);
    }
  }
}
