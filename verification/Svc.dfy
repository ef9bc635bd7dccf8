/** The service handler: look the service up, call it, and call again as long as it rewrites the service code. */
module Svc {
  import opened Slots
  import opened JumpList
  import opened LevelStash
  import opened Services
  import opened Runs
  import opened KernelVars

  const CREATE_TASK := 10
  const HAND_OVER := 11
  const KILL_TASK := 12
  const HIBERNATE := 13
  const PRIORITY_PROMOTE := 16
  const PRIORITY_DEMOTE := 17
  const INVOKE_BASE := 18
  const RELEASE_BASE := 19
  const START_SCHEDULER := 20
  const DEVICE_RESET := 40
  const GRANT_PERMISSION := 44

  /** The codes of the service table in order. Those not named above are services for devices and interrupts, which
      touch none of the kernel's variables; the last row has code 0 and no service. */
  const TABLE: seq<nat> := [11, 13, 16, 17, 45, 46, 10, 12, 18, 19, 44, 21, 22, 24, 23, 43, 20, 40, 0]

  /** What the registers of a call hold or point to. */
  datatype Arguments = Arguments(
    task: Task,                                        // creation
    pid: nat, self: bool,                              // kill
    reverse: bool, op1: nat, op2: nat, value: nat,     // hibernation
    mutex: nat, word: nat,                             // promotion: address and contents of a lock word
    error: nat,                                        // release
    id: nat, permission: nat)                          // grant

  /** Each service rewrites its code, if at all, to one of lower rank. */
  function Rank(code: nat): nat {
    if code == RELEASE_BASE then 2
    else if code == INVOKE_BASE || code == PRIORITY_DEMOTE || code == KILL_TASK || code == START_SCHEDULER then 1
    else 0
  }

  /** What the service of a code needs to come back without reaching outside the kernel's arrays. A call through the row
      without a service goes nowhere, and a reset does not come back. */
  ghost predicate Callable(k: Kernel, code: nat, a: Arguments) {
    && code != 0 && code != DEVICE_RESET
    && (code == CREATE_TASK ==> Shaped(k) && (Admission(k, a.task) == NoError ==> Searchable(k)))
    && (code == KILL_TASK ==> Shaped(k) && Endable(k, (a.pid / 0x1_0000) % 256))
    && (code == PRIORITY_PROMOTE ==> a.word / 0x1_0000 < |k.slots|)
    && (code in [HAND_OVER, HIBERNATE, PRIORITY_PROMOTE, PRIORITY_DEMOTE, INVOKE_BASE, RELEASE_BASE, START_SCHEDULER,
        KILL_TASK]
        ==> k.current < |k.slots|)
  }

  /** One call: the kernel, the code left behind and the arguments left behind. */
  ghost function Call(k: Kernel, code: nat, a: Arguments): (Kernel, nat, Arguments)
    requires Callable(k, code, a)
  {
    if code == HAND_OVER then (HandedOver(k), code, a)
    else if code == HIBERNATE then (Hibernated(k, a.reverse, a.op1, a.op2, a.value), code, a)
    else if code == PRIORITY_PROMOTE then (Promoted(k, a.mutex, a.word / 0x1_0000), code, a)
    else if code == PRIORITY_DEMOTE then (Demoted(k), HAND_OVER, a)
    else if code == CREATE_TASK then (if Admission(k, a.task) == NoError then Created(k, a.task) else k, code, a)
    else if code == KILL_TASK then
      (Killed(k, (a.pid / 0x1_0000) % 256, a.self), if a.self then HAND_OVER else code, a)
    else if code == INVOKE_BASE then
      var (r, error) := Invoked(k);
      if error == NoError then (r, PRIORITY_PROMOTE, a.(mutex := BASE_MUTEX, word := 1)) else (r, code, a)
    else if code == RELEASE_BASE then
      var (r, error) := Released(k, a.error);
      (r, if error == NoError then PRIORITY_DEMOTE else code, a)
    else if code == GRANT_PERMISSION then (Granted(k, a.id, a.permission).0, code, a)
    else if code == START_SCHEDULER then (Started(k), HAND_OVER, a)
    else (k, code, a)
  }

  /** A call leaves its code or one of lower rank, whose service can be called. */
  lemma CallDescends(k: Kernel, code: nat, a: Arguments)
    requires Callable(k, code, a)
    ensures var (r, next, b) := Call(k, code, a);
            next != code ==> Rank(next) < Rank(code) && Callable(r, next, b)
  {
    hide HandedOver, Hibernated, Promoted, Created, Killed, Demoted, Shaped, Endable, Searchable, WithId, Granted;
    if code == PRIORITY_DEMOTE { DemotedCurrent(k); }
    if code == KILL_TASK { KilledCurrent(k, (a.pid / 0x1_0000) % 256, a.self); }
  }

  lemma KilledCurrent(k: Kernel, i: nat, self: bool)
    requires Shaped(k) && Endable(k, i)
    ensures Killed(k, i, self).current == k.current && |Killed(k, i, self).slots| == |k.slots|
  {
    hide Shared, Removed, TopLevel, Unlink, Byte, Count, Word;
  }

  lemma DemotedCurrent(k: Kernel)
    requires k.current < |k.slots|
    ensures Demoted(k).current == k.current && |Demoted(k).slots| == |k.slots|
  {
  }

  /** The kernel when no service rewrites the code any more. */
  ghost function Handled(k: Kernel, code: nat, a: Arguments): Kernel
    requires Callable(k, code, a)
    decreases Rank(code)
  {
    CallDescends(k, code, a);
    var (r, next, b) := Call(k, code, a);
    if next == code then r else Handled(r, next, b)
  }

  /** Look a code up in the table. */
  method LookUp(code: nat) returns (i: nat)
    ensures i <= |TABLE| && (i < |TABLE| <==> code in TABLE) && (i < |TABLE| ==> TABLE[i] == code)
  {
    i := 0;
    while i < |TABLE| && TABLE[i] != code
      invariant i <= |TABLE| && forall j :: 0 <= j < i ==> TABLE[j] != code
    {
      i := i + 1;
    }
  }

  /** Code 0 is meant to end the loop like any code that is not in the table; but the table has a row for it, and that
      row has no service. It is the only such code. */
  lemma ZeroIsInTable(k: Kernel, a: Arguments)
    ensures 0 in TABLE && !Callable(k, 0, a)
    ensures forall code: nat :: code !in TABLE ==> Callable(k, code, a) && Call(k, code, a) == (k, code, a)
  {
    assert TABLE[18] == 0;
    assert TABLE[0] == 11 && TABLE[1] == 13 && TABLE[2] == 16 && TABLE[3] == 17 && TABLE[6] == 10 && TABLE[7] == 12;
    assert TABLE[8] == 18 && TABLE[9] == 19 && TABLE[10] == 44 && TABLE[16] == 20;
  }

  /** Call the service of the given code. */
  method Serve(kv: KernelVars, code: nat, a: Arguments) returns (next: nat, b: Arguments)
    requires Callable(kv.Model(), code, a)
    modifies kv, kv.slots, kv.stash
    ensures (kv.Model(), next, b) == old(Call(kv.Model(), code, a))
  {
    hide Created, Killed, Promoted, Demoted, Hibernated, HandedOver, Ring, Sorted, Count, WithId, Started;
    next, b := code, a;
    if code == HAND_OVER {
      kv.HandOver();
    } else if code == HIBERNATE {
      kv.Hibernate(a.reverse, a.op1, a.op2, a.value);
    } else if code == PRIORITY_PROMOTE {
      kv.PriorityPromote(a.mutex, a.word);
    } else if code == PRIORITY_DEMOTE {
      kv.PriorityDemote();
      next := HAND_OVER;
    } else if code == CREATE_TASK {
      var error := kv.TaskCreate(a.task);
    } else if code == KILL_TASK {
      var handOver := kv.TaskKill(a.pid, a.self);
      if handOver {
        next := HAND_OVER;
      }
    } else if code == INVOKE_BASE {
      var error := kv.InvokeBase();
      if error == NoError {
        next, b := PRIORITY_PROMOTE, a.(mutex := BASE_MUTEX, word := 1);
      }
    } else if code == RELEASE_BASE {
      var error := kv.ReleaseBase(a.error);
      if error == NoError {
        next := PRIORITY_DEMOTE;
      }
    } else if code == GRANT_PERMISSION {
      var error := kv.GrantPermission(a.id, a.permission);
    } else if code == START_SCHEDULER {
      kv.StartScheduler();
      next := HAND_OVER;
    }
  }

  /** The handler's loop. It ends for every other code, in the table or not, from every state from which the service can
      be called, after at most three calls. */
  method SvcHandler(kv: KernelVars, svc: nat, a: Arguments) returns (calls: nat)
    requires Callable(kv.Model(), svc, a)
    modifies kv, kv.slots, kv.stash
    ensures kv.Model() == old(Handled(kv.Model(), svc, a)) && calls <= Rank(svc) + 1
  {
    hide Callable, Call;
    ghost var k := kv.Model();
    var code, args, more := svc, a, true;
    calls := 0;
    while more
      invariant more ==> Callable(kv.Model(), code, args) && Handled(kv.Model(), code, args) == Handled(k, svc, a)
      invariant more ==> calls + Rank(code) <= Rank(svc)
      invariant !more ==> kv.Model() == Handled(k, svc, a) && calls <= Rank(svc) + 1
      decreases more, Rank(code)
    {
      var i := LookUp(code);
      if i == |TABLE| {
        Unknown(kv.Model(), code, args);
        more := false;
      } else {
        CallDescends(kv.Model(), code, args);
        var next, left := Serve(kv, code, args);
        calls := calls + 1;
        more := next != code;
        code, args := next, left;
      }
    }
  }

  lemma Unknown(k: Kernel, code: nat, a: Arguments)
    requires code !in TABLE && Callable(k, code, a)
    ensures Handled(k, code, a) == k
  {
    ZeroIsInTable(k, a);
  }

  // ----- the events of a run

  /** The code and the arguments a user call traps with. */
  function CodeOf(e: Event): nat
    requires !e.Tick? && !e.Disturb?
  {
    match e
    case Create(_) => CREATE_TASK
    case Kill(_) => KILL_TASK
    case End => KILL_TASK
    case Hibernate(_, _, _, _) => HIBERNATE
    case Promote(_, _) => PRIORITY_PROMOTE
    case Demote => PRIORITY_DEMOTE
    case HandOver => HAND_OVER
    case Invoke => INVOKE_BASE
    case Release(_) => RELEASE_BASE
    case Grant(_, _) => GRANT_PERMISSION
  }

  function ArgumentsOf(k: Kernel, e: Event): Arguments {
    var none := Arguments(Task(0, 0, false), 0, false, false, 0, 0, 0, 0, 0, 0, 0, 0);
    match e
    case Create(t) => none.(task := t)
    case Kill(i) => none.(pid := i * 0x1_0000)
    case End => none.(pid := k.current * 0x1_0000, self := true)
    case Hibernate(reverse, x, y, v) => none.(reverse := reverse, op1 := x, op2 := y, value := v)
    case Promote(m, o) => none.(mutex := m, word := o * 0x1_0000 + 1)
    case Release(v) => none.(error := v)
    case Grant(id, p) => none.(id := id, permission := p)
    case _ => none
  }

  lemma SlotOfPid(i: nat)
    requires i < 256
    ensures (i * 0x1_0000 / 0x1_0000) % 256 == i && (i * 0x1_0000 + 1) / 0x1_0000 == i
  {
  }

  lemma EventCallable(k: Kernel, e: Event)
    requires Settled(k) && Allowed(k, e) && !e.Tick? && !e.Disturb?
    ensures Callable(k, CodeOf(e), ArgumentsOf(k, e))
  {
    hide Sorted, Ring, Shared, Count, WithId, Misplaced;
    match e
    case Kill(i) => SlotOfPid(i);
    case End => SlotOfPid(k.current);
    case Promote(m, o) => SlotOfPid(o);
    case _ =>
  }

  /** What the handler makes of an event is the effect the runs are made of. */
  lemma HandledIsEffect(k: Kernel, e: Event)
    requires Settled(k) && Allowed(k, e) && !e.Tick? && !e.Disturb?
    ensures Callable(k, CodeOf(e), ArgumentsOf(k, e)) && Handled(k, CodeOf(e), ArgumentsOf(k, e)) == Effect(k, e)
  {
    hide Sorted, Ring, Shared, Count, WithId, Misplaced, Created, Killed, Promoted, Demoted, Hibernated, HandedOver;
    EventCallable(k, e);
    var a := ArgumentsOf(k, e);
    CallDescends(k, CodeOf(e), a);
    match e
    case Kill(i) => SlotOfPid(i);
    case End => SlotOfPid(k.current);
    case Promote(m, o) => SlotOfPid(o);
    case Release(v) =>
      if Released(k, v).1 == NoError {
        CallDescends(Released(k, v).0, PRIORITY_DEMOTE, a);
      }
    case _ =>
  }

  /** Starting the scheduler is handled as a hand-over behind the start. */
  lemma HandledStart(k: Kernel, a: Arguments)
    requires k.current < |k.slots|
    ensures Handled(k, START_SCHEDULER, a) == HandedOver(Started(k))
  {
    CallDescends(k, START_SCHEDULER, a);
  }
}
