/** The kernel's variables as one value, and what each service does to them. Services that end by rewriting the
    service code are given here up to that point; `Svc` chains them. */
module Services {
  import opened Slots
  import opened JumpList
  import opened LevelStash

  datatype Error =
    | NoError
    | MaxProcessCount
    | InvalidTaskPriority
    | InsufficientPermission
    | BaseProcess
    | UnknownProcessId

  datatype Kernel = Kernel(
    slots: seq<Slot>,
    stash: seq<nat>,       // level_stash and, as its last entry, the byte of memory behind it
    lstash: nat,           // lstash_ptr
    current: nat,
    next: nat,
    maxLevel: nat,
    maxpLevel: nat,        // highest user level while a promotion is in force, 127 otherwise
    alc: nat,              // active tasks at maxLevel
    hlc: nat,              // hibernating tasks at maxLevel
    alcp: nat,
    hlcp: nat,
    taskCount: nat,
    totalCount: nat,       // tasks ever created, modulo 65536
    invoked: nat,          // id of the task that invoked the base task, 0 for none
    selfKill: bool,
    started: bool,
    normal: bool,          // normal_schedule
    timer: bool)           // is the scheduler's timer on?

  /** What a task object hands to creation; `hibernate` is its hibernate bit. */
  datatype Task = Task(addr: nat, prio: nat, hibernate: bool)

  const NO_PROMOTION := 127
  const BASE_MUTEX: nat := 4 // address of the constant that stands for the base task's mutex

  /** Unsigned 8-bit arithmetic. */
  function Byte(x: int): (r: nat)
    ensures r < 256
  {
    x % 256
  }

  /** Unsigned 32-bit arithmetic. */
  function Word(x: int): (r: nat) {
    x % 0x1_0000_0000
  }

  lemma WordSmall(x: nat)
    requires x < 0x1_0000_0000
    ensures Word(x) == x
  {
  }

  /** The table has between 1 and 127 slots, the stash as many entries and the byte behind them, and the live slots are
      counted. */
  ghost predicate Shaped(k: Kernel) {
    && 0 < |k.slots| <= 127 && |k.stash| == |k.slots| + 1
    && k.current < |k.slots| && k.next < |k.slots|
    && k.taskCount == Count(k.slots, Live)
    && k.alc < 256 && k.hlc < 256 && k.alcp < 256 && k.hlcp < 256
    && k.maxLevel < 256 && k.maxpLevel < 256 && k.totalCount < 65536
  }

  // ----- creation

  /** (i << 16) | (total + 1), with total a 16-bit count. */
  function MakeId(i: nat, total: nat): nat {
    if total + 1 < 0x1_0000 then i * 0x1_0000 + total + 1
    else if i % 2 == 1 then i * 0x1_0000 else (i + 1) * 0x1_0000
  }

  function Admission(k: Kernel, t: Task): Error {
    if k.taskCount >= |k.slots| then MaxProcessCount
    else if t.prio > 127 || (t.prio == 0 && k.started) then InvalidTaskPriority
    else NoError
  }

  function NewSlot(k: Kernel, i: nat, t: Task): Slot
    requires i < |k.slots|
  {
    k.slots[i].(state := if t.hibernate then k.slots[i].state else Sleep,
                prio := t.prio, id := MakeId(i, k.totalCount), obj := t.addr)
  }

  function Placed(k: Kernel, i: nat, t: Task): seq<Slot>
    requires i < |k.slots|
  {
    if i == 0 then k.slots[0 := NewSlot(k, 0, t).(jmp := 0)] else Link(k.slots, i, NewSlot(k, i, t))
  }

  /** The search keeps its bounds: the stash is sorted, so its lower end never passes below level 0. */
  ghost predicate Searchable(k: Kernel) {
    Sorted(k.stash, k.lstash)
  }

  /** The two counters after a creation that may have raised the top level and may have landed on it. */
  function Tally(alc: nat, hlc: nat, raised: bool, here: bool, asleep: bool): (nat, nat) {
    (Byte((if raised then 0 else alc) + Bit(here && !asleep)), Byte((if raised then 0 else hlc) + Bit(here && asleep)))
  }

  /** The whole of a successful creation. */
  ghost function Created(k: Kernel, t: Task): Kernel
    requires Shaped(k) && Searchable(k) && Admission(k, t) == NoError
  {
    var i := FirstIdle(k.slots);
    var slots := Placed(k, i, t);
    SearchSafe(k.stash, k.lstash, t.prio);
    var (stash, n) := Added(k.stash, k.lstash, t.prio);
    var top := TopLevel(slots, k.maxLevel);
    var raised := top > k.maxLevel;
    var (alc, hlc) := Tally(k.alc, k.hlc, raised, t.prio == top, HibernateBit(slots[i].state));
    k.(slots := slots, stash := stash, lstash := n, maxLevel := top, alc := alc, hlc := hlc,
       taskCount := k.taskCount + 1, totalCount := (k.totalCount + 1) % 0x1_0000,
       timer := k.timer || (k.started && (raised || alc + hlc == 2)))
  }

  // ----- kill

  /** Some other slot, idle or not, carries the priority of slot i. */
  predicate Shared(t: seq<Slot>, i: nat)
    requires i < |t|
  {
    exists j :: 0 <= j < |t| && j != i && t[j].prio == t[i].prio
  }

  function AwakeAt(level: nat): Slot -> bool {
    (s: Slot) => s.prio == level && !HibernateBit(s.state)
  }

  function AsleepAt(level: nat): Slot -> bool {
    (s: Slot) => s.prio == level && HibernateBit(s.state)
  }

  function Buried(s: Slot): Slot {
    s.(state := Idle, id := 0, obj := 0)
  }

  /** What a kill needs not to reach outside its arrays: a slot with a task object. */
  ghost predicate Endable(k: Kernel, i: nat) {
    i < |k.slots| && Live(k.slots[i]) && 0 < k.lstash < |k.stash|
  }

  /** Slot i can be killed: it is a live slot on the ring other than the base task's. */
  ghost predicate Killable(k: Kernel, i: nat) {
    Endable(k, i) && 0 < i && Ring(k.slots)
  }

  /** The whole of a kill. A task ending by itself moves `next_task` on by its own jump. */
  ghost function Killed(k: Kernel, i: nat, self: bool): Kernel
    requires Shaped(k) && Endable(k, i)
  {
    var slots := Unlink(k.slots, i, Buried(k.slots[i]));
    var top := TopLevel(slots, 0);
    CountPositive(k.slots, Live);
    k.(slots := slots,
       stash := if Shared(k.slots, i) then k.stash else Removed(k.stash, k.lstash, k.slots[i].prio),
       lstash := if Shared(k.slots, i) then k.lstash else k.lstash - 1,
       next := if k.selfKill || self then Word(k.next + Stride(k.slots, i)) else k.next,
       selfKill := k.selfKill || self,
       maxLevel := top,
       alc := Byte(Count(slots, AwakeAt(top))), hlc := Byte(Count(slots, AsleepAt(top))),
       taskCount := k.taskCount - 1,
       timer := true)
  }

  // ----- the services that only touch a slot or two

  function SetState(k: Kernel, i: nat, s: TaskState): Kernel
    requires i < |k.slots|
  {
    k.(slots := k.slots[i := k.slots[i].(state := s)])
  }

  function HandedOver(k: Kernel): Kernel
    requires k.current < |k.slots|
  {
    (if k.selfKill then k.(selfKill := false) else SetState(k, k.current, Sleep)).(normal := false)
  }

  function Hibernated(k: Kernel, reverse: bool, op1: nat, op2: nat, value: nat): Kernel
    requires k.current < |k.slots|
  {
    var s := k.slots[k.current];
    var top := s.prio == k.maxLevel;
    k.(slots := k.slots[k.current := s.(state := if reverse then HibernateL else HibernateG,
                                        op1 := op1, op2 := op2, hib := value)],
       hlc := if top then Byte(k.hlc + 1) else k.hlc,
       alc := if top then Byte(k.alc - 1) else k.alc,
       normal := false)
  }

  /** Raise `owner` above every level and hold the current task on the mutex. */
  function Promoted(k: Kernel, mutex: nat, owner: nat): Kernel
    requires k.current < |k.slots| && owner < |k.slots|
  {
    var first := k.maxpLevel == NO_PROMOTION;
    var level := Byte((if first then 127 else k.maxLevel) + 1);
    var o := k.slots[owner];
    var raised := k.slots[owner := o.(mutex := mutex, saved := o.prio, prio := level)];
    k.(maxpLevel := if first then k.maxLevel else k.maxpLevel,
       alcp := if first then k.alc else k.alcp, hlcp := if first then k.hlc else k.hlcp,
       alc := if first then 1 else k.alc, hlc := if first then 0 else k.hlc,
       maxLevel := level,
       slots := raised[k.current := raised[k.current].(state := Hold, op1 := mutex)],
       normal := false)
  }

  /** The first slot held on the given mutex, or |t|. */
  function Holder(t: seq<Slot>, mutex: nat, from: nat): (r: nat)
    requires from <= |t|
    ensures from <= r <= |t|
    ensures forall i :: from <= i < r ==> !(t[i].state == Hold && t[i].op1 == mutex)
    ensures r < |t| ==> t[r].state == Hold && t[r].op1 == mutex
    decreases |t| - from
  {
    if from == |t| || (t[from].state == Hold && t[from].op1 == mutex) then from else Holder(t, mutex, from + 1)
  }

  function Woken(t: seq<Slot>, mutex: nat): seq<Slot> {
    var i := Holder(t, mutex, 0);
    if i < |t| then t[i := t[i].(state := Sleep)] else t
  }

  /** Give the current task its stashed priority back and wake the first task held on its mutex. */
  function Demoted(k: Kernel): Kernel
    requires k.current < |k.slots|
  {
    var c := k.slots[k.current];
    var level := Byte(k.maxLevel - 1);
    var last := level == NO_PROMOTION;
    var woken := Woken(k.slots[k.current := c.(prio := c.saved, saved := 0)], c.mutex);
    assert |woken| == |k.slots|;
    k.(slots := woken[k.current := woken[k.current].(mutex := 0)],
       maxLevel := if last then k.maxpLevel else level,
       maxpLevel := if last then NO_PROMOTION else k.maxpLevel,
       alc := if last then k.alcp else k.alc,
       hlc := if last then k.hlcp else k.hlc)
  }

  // ----- base invocation

  function WithId(t: seq<Slot>, id: nat, from: nat): (r: nat)
    requires from <= |t|
    ensures from <= r <= |t|
    ensures forall i :: from <= i < r ==> t[i].id != id
    ensures r < |t| ==> t[r].id == id
    decreases |t| - from
  {
    if from == |t| || t[from].id == id then from else WithId(t, id, from + 1)
  }

  /** `invoke_base` up to the promotion it rewrites itself to. */
  function Invoked(k: Kernel): (Kernel, Error)
    requires k.current < |k.slots|
  {
    if k.current == 0 then (k, BaseProcess) else (k.(invoked := k.slots[k.current].id), NoError)
  }

  /** `release_base` up to the demotion it rewrites itself to. */
  function Released(k: Kernel, error: nat): (Kernel, Error) {
    if k.current != 0 then (k, InsufficientPermission)
    else
      var i := WithId(k.slots, k.invoked, 0);
      if i == |k.slots| then (k, UnknownProcessId)
      else (k.(slots := k.slots[i := k.slots[i].(hib := error)], invoked := 0), NoError)
  }

  /** A slot keeps 16 bits of the permission. */
  function Granted(k: Kernel, id: nat, permission: nat): (Kernel, Error) {
    if k.current != 0 then (k, InsufficientPermission)
    else
      var i := WithId(k.slots, id, 0);
      if i == |k.slots| then (k, UnknownProcessId)
      else (k.(slots := k.slots[i := k.slots[i].(perm := permission % 0x1_0000)]), NoError)
  }

  /** `start_scheduler` up to the hand-over it rewrites itself to. */
  function Started(k: Kernel): Kernel {
    k.(maxpLevel := NO_PROMOTION, started := true, selfKill := false,
       slots := seq(|k.slots|, i requires 0 <= i < |k.slots| =>
                      k.slots[i].(perm := if i == 0 then 0xFFFF else 0)))
  }

  /** Whatever lies behind the stash has changed. */
  function Disturbed(k: Kernel, byte: nat): Kernel {
    if k.stash == [] then k else k.(stash := k.stash[|k.stash| - 1 := byte])
  }

  /** The kernel before the first creation: every slot idle, one listed level, which is 0, and any byte behind the
      stash. */
  function Reset(n: nat, byte: nat): Kernel {
    var s := Slot(Idle, 0, 0, 0, 0, 0, 0, 0, 0, 0, 0);
    Kernel(seq(n, _ => s), seq(n, _ => 0) + [byte], 1, 0, 0, 0, 0, 0, 0, 0, 0, 0, 0, 0, false, false, true, false)
  }
}
