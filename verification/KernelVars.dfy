/** The kernel's variables as they are kept and updated in place. Each method is one service, or one loop of a service,
    proved against its function in `Services` and `Scheduler`. */
module KernelVars {
  import opened Slots
  import opened JumpList
  import opened LevelStash
  import opened Services
  import opened Scheduler
  import opened Invariant

  class KernelVars {
    const slots: array<Slot>
    const stash: array<nat>
    var lstash: nat
    var current: nat
    var next: nat
    var maxLevel: nat
    var maxpLevel: nat
    var alc: nat
    var hlc: nat
    var alcp: nat
    var hlcp: nat
    var taskCount: nat
    var totalCount: nat
    var invoked: nat
    var selfKill: bool
    var started: bool
    var normal: bool
    var timer: bool

    /** The variables as one value. */
    ghost function Model(): Kernel
      reads this, slots, stash
    {
      Kernel(slots[..], stash[..], lstash, current, next, maxLevel, maxpLevel, alc, hlc, alcp, hlcp,
             taskCount, totalCount, invoked, selfKill, started, normal, timer)
    }

    /** The last entry of the stash array stands for the byte behind it. */
    constructor (n: nat, byte: nat)
      ensures Model() == Reset(n, byte)
      ensures fresh(slots) && fresh(stash)
    {
      slots := new Slot[n](_ => Slot(Idle, 0, 0, 0, 0, 0, 0, 0, 0, 0, 0));
      stash := new nat[n + 1](i => if i == n then byte else 0);
      lstash, current, next, maxLevel, maxpLevel := 1, 0, 0, 0, 0;
      alc, hlc, alcp, hlcp, taskCount, totalCount, invoked := 0, 0, 0, 0, 0, 0, 0;
      selfKill, started, normal, timer := false, false, true, false;
      new;
      assert slots[..] == Reset(n, byte).slots;
      assert stash[..] == Reset(n, byte).stash;
    }

    // ----- creation

    /** The first idle slot. */
    method FindIdle() returns (i: nat)
      requires Count(slots[..], Live) < slots.Length
      ensures i == FirstIdle(slots[..])
    {
      i := 0;
      CountAll(slots[..], Live);
      while i < slots.Length && Live(slots[i])
        invariant i <= slots.Length
        invariant forall j :: 0 <= j < i ==> Live(slots[j])
      {
        i := i + 1;
      }
      assert forall j :: 0 <= j < slots.Length ==> slots[..][j] == slots[j];
    }

    /** The binary search for a level. The upper bound never drops below 0, because level 0 comes first. */
    method SearchStash(p: nat) returns (r: Probe)
      requires Sorted(stash[..], lstash)
      ensures r == Search(stash[..], p, 0, lstash, 0)
    {
      ghost var a := stash[..];
      var lower, upper, index := 0, lstash, 0;
      while lower <= upper
        invariant 0 <= lower && 0 <= upper < stash.Length && lower <= upper + 1
        invariant Search(a, p, lower, upper, index) == Search(a, p, 0, lstash, 0)
        decreases upper - lower + 1
      {
        index := lower + (upper - lower) / 2;
        if stash[index] == p {
          return Found;
        }
        if stash[index] < p {
          lower := index + 1;
        } else {
          assert index > 0;
          upper := index - 1;
        }
      }
      return Missing(index);
    }

    /** Shift everything from s on up by one and put p at s. */
    method InsertLevel(s: nat, p: nat)
      requires s <= lstash < stash.Length
      modifies stash
      ensures stash[..] == Insert(old(stash[..]), lstash, s, p)
    {
      ghost var a := stash[..];
      var j := lstash;
      while j > s
        invariant s <= j <= lstash
        invariant forall x :: 0 <= x <= j ==> stash[x] == a[x]
        invariant forall x :: j < x <= lstash ==> stash[x] == a[x - 1]
        invariant forall x :: lstash < x < stash.Length ==> stash[x] == a[x]
      {
        stash[j] := stash[j - 1];
        j := j - 1;
      }
      stash[s] := p;
      assert stash[..] == Insert(a, lstash, s, p);
    }

    /** Raise the top level over all live slots; a raise clears both counters and switches the timer on. */
    method RaiseTop()
      modifies this`maxLevel, this`alc, this`hlc, this`timer
      ensures maxLevel == TopLevel(slots[..], old(maxLevel))
      ensures alc == if maxLevel > old(maxLevel) then 0 else old(alc)
      ensures hlc == if maxLevel > old(maxLevel) then 0 else old(hlc)
      ensures timer == (old(timer) || (started && maxLevel > old(maxLevel)))
    {
      var j := 0;
      while j < slots.Length
        invariant j <= slots.Length
        invariant maxLevel == TopLevel(slots[..j], old(maxLevel))
        invariant alc == if maxLevel > old(maxLevel) then 0 else old(alc)
        invariant hlc == if maxLevel > old(maxLevel) then 0 else old(hlc)
        invariant timer == (old(timer) || (started && maxLevel > old(maxLevel)))
      {
        assert slots[..j + 1][..j] == slots[..j];
        if slots[j].prio > maxLevel && slots[j].state != Idle {
          maxLevel := slots[j].prio;
          alc, hlc := 0, 0;
          if started {
            timer := true;
          }
        }
        j := j + 1;
      }
      assert slots[..j] == slots[..];
    }

    /** Write the new task into slot i and link it into the ring. */
    method PlaceTask(i: nat, t: Task)
      requires i < slots.Length
      modifies slots
      ensures slots[..] == old(Placed(Model(), i, t))
    {
      if i == 0 {
        slots[0] := slots[0].(jmp := 0);
      } else {
        var j := i - 1;
        slots[i] := slots[i].(jmp := slots[j].jmp - (i - j));
        slots[j] := slots[j].(jmp := i - j);
      }
      slots[i] := slots[i].(obj := t.addr, id := MakeId(i, totalCount));
      if !t.hibernate {
        slots[i] := slots[i].(state := Sleep);
      }
      slots[i] := slots[i].(prio := t.prio);
    }

    /** List level p unless it is listed already. */
    method ListLevel(p: nat)
      requires Sorted(stash[..], lstash)
      modifies stash, this`lstash
      ensures old(Search(stash[..], p, 0, lstash, 0)).Missing? ==>
          old(Search(stash[..], p, 0, lstash, 0)).last <= old(lstash)
      ensures (stash[..], lstash) == old(Added(stash[..], lstash, p))
    {
      SearchSafe(stash[..], lstash, p);
      var found := SearchStash(p);
      if found.Missing? {
        InsertLevel(found.last, p);
        lstash := lstash + 1;
      }
    }

    /** Bring the top level, the counters and the timer up to date with the task now in slot i. */
    method TallyTask(i: nat)
      requires i < slots.Length && alc < 256 && hlc < 256
      modifies this`maxLevel, this`alc, this`hlc, this`timer
      ensures maxLevel == TopLevel(slots[..], old(maxLevel))
      ensures (alc, hlc) == Tally(old(alc), old(hlc), maxLevel > old(maxLevel), slots[i].prio == maxLevel,
          HibernateBit(slots[i].state))
      ensures timer == (old(timer) || (started && (maxLevel > old(maxLevel) || alc + hlc == 2)))
    {
      hide Byte, Tally, TopLevel;
      RaiseTop();
      TallyCases(old(alc), old(hlc), maxLevel > old(maxLevel), slots[i].prio == maxLevel, HibernateBit(slots[i].state));
      if slots[i].prio == maxLevel {
        if HibernateBit(slots[i].state) {
          hlc := Byte(hlc + 1);
        } else {
          alc := Byte(alc + 1);
        }
      }
      if alc + hlc == 2 && started {
        timer := true;
      }
    }

    /** Everything of a creation in slot i but the top level and its counters. */
    method Enroll(i: nat, t: Task)
      requires i < slots.Length && Sorted(stash[..], lstash)
      modifies slots, stash, this`lstash, this`totalCount, this`taskCount
      ensures old(Search(stash[..], t.prio, 0, lstash, 0)).Missing? ==>
                old(Search(stash[..], t.prio, 0, lstash, 0)).last <= old(lstash)
      ensures Model() == old(Enrolled(Model(), i, t, Added(stash[..], lstash, t.prio)))
    {
      hide Sorted, Search, Placed, Added;
      PlaceTask(i, t);
      ListLevel(t.prio);
      totalCount := (totalCount + 1) % 0x1_0000;
      taskCount := taskCount + 1;
    }

    /** A creation that has passed its checks. */
    method Admit(t: Task)
      requires Shaped(Model()) && Admission(Model(), t) == NoError && Searchable(Model())
      modifies this, slots, stash
      ensures Model() == old(Created(Model(), t))
    {
      hide Sorted, TopLevel, Search, Placed, Byte, Tally, Added, Created, Count, FirstIdle;
      ghost var k := Model();
      var i := FindIdle();
      IdleSlot(k, i);
      Enroll(i, t);
      PlacedPrio(k, i, t);
      TallyTask(i);
      CreatedPieces(k, t, i, Model());
    }

    method TaskCreate(t: Task) returns (error: Error)
      requires Shaped(Model()) && (Admission(Model(), t) == NoError ==> Searchable(Model()))
      modifies this, slots, stash
      ensures error == old(Admission(Model(), t))
      ensures Model() == old(if Admission(Model(), t) == NoError then Created(Model(), t) else Model())
    {
      hide Created, Count, Sorted;
      if taskCount >= slots.Length {
        return MaxProcessCount;
      }
      if t.prio > 127 || (t.prio == 0 && started) {
        return InvalidTaskPriority;
      }
      Admit(t);
      return NoError;
    }

    // ----- kill

    method LevelShared(i: nat) returns (b: bool)
      requires i < slots.Length
      ensures b == Shared(slots[..], i)
    {
      var j := 0;
      while j < slots.Length
        invariant j <= slots.Length
        invariant forall x :: 0 <= x < j && x != i ==> slots[x].prio != slots[i].prio
      {
        if j != i && slots[j].prio == slots[i].prio {
          assert slots[..][j].prio == slots[..][i].prio;
          return true;
        }
        j := j + 1;
      }
      return false;
    }

    /** Move everything after the first p among the first n entries down by one; x is where that p is, or n. */
    method ShiftOut(p: nat, n: nat, ghost x: nat)
      requires n < stash.Length && x <= n && (x < n ==> stash[x] == p) && forall y :: 0 <= y < x ==> stash[y] != p
      modifies stash
      ensures forall y :: 0 <= y < x ==> stash[y] == old(stash[y])
      ensures forall y :: x <= y < n ==> stash[y] == old(stash[y + 1])
      ensures forall y :: n <= y < stash.Length ==> stash[y] == old(stash[y])
    {
      var found, j := false, 0;
      while j < n
        invariant j <= n && (found <==> x < j)
        invariant forall y :: 0 <= y < j && y < x ==> stash[y] == old(stash[y])
        invariant forall y :: x <= y < j ==> stash[y] == old(stash[y + 1])
        invariant forall y :: j <= y < stash.Length ==> stash[y] == old(stash[y])
      {
        if stash[j] == p {
          found := true;
        }
        if found {
          stash[j] := stash[j + 1];
        }
        j := j + 1;
      }
    }

    /** Take level p off the list by moving everything after it down by one. */
    method UnlistLevel(p: nat)
      requires 0 < lstash < stash.Length
      modifies stash, this`lstash
      ensures stash[..] == old(Removed(stash[..], lstash, p)) && lstash == old(lstash) - 1
    {
      hide Removed;
      ghost var a := stash[..];
      ghost var x := if Listed(a, lstash, p) then IndexOf(a, lstash, p) else lstash;
      FirstAt(a, lstash, p);
      ShiftOut(p, lstash, x);
      RemovedIs(a, lstash, p, stash[..]);
      lstash := lstash - 1;
    }

    /** Bridge the gap that slot i leaves in the ring. The result is its jump before it is cleared. */
    method UnlinkSlot(i: nat) returns (jump: int)
      requires i < slots.Length
      modifies slots
      ensures slots[..] == old(Unlink(slots[..], i, slots[i])) && jump == old(Stride(slots[..], i))
    {
      var j := 0;
      while j < i && i != j + slots[j].jmp
        invariant j <= i
        invariant Pred(slots[..], i, j) == Pred(slots[..], i, 0)
      {
        j := j + 1;
      }
      slots[j] := slots[j].(jmp := slots[j].jmp + slots[i].jmp);
      jump := slots[i].jmp;
      slots[i] := slots[i].(jmp := 0);
    }

    /** The highest current priority of a live slot. */
    method FindTop()
      modifies this`maxLevel
      ensures maxLevel == TopLevel(slots[..], 0)
    {
      maxLevel := 0;
      var i := 0;
      while i < slots.Length
        invariant i <= slots.Length && maxLevel == TopLevel(slots[..i], 0)
      {
        assert slots[..i + 1][..i] == slots[..i];
        if slots[i].prio >= maxLevel && slots[i].state != Idle {
          maxLevel := slots[i].prio;
        }
        i := i + 1;
      }
      assert slots[..i] == slots[..];
    }

    /** How many slots carry the top level, idle ones included. */
    method CountTop()
      requires slots.Length <= 127
      modifies this`alc, this`hlc
      ensures alc == Byte(Count(slots[..], AwakeAt(maxLevel))) && hlc == Byte(Count(slots[..], AsleepAt(maxLevel)))
    {
      alc, hlc := 0, 0;
      var i := 0;
      while i < slots.Length
        invariant i <= slots.Length
        invariant alc == Count(slots[..i], AwakeAt(maxLevel)) <= i && hlc == Count(slots[..i], AsleepAt(maxLevel)) <= i
      {
        assert slots[..i + 1][..i] == slots[..i];
        ByteSmall(alc + 1);
        ByteSmall(hlc + 1);
        if slots[i].prio == maxLevel {
          if HibernateBit(slots[i].state) {
            hlc := Byte(hlc + 1);
          } else {
            alc := Byte(alc + 1);
          }
        }
        i := i + 1;
      }
      assert slots[..i] == slots[..];
      ByteSmall(alc);
      ByteSmall(hlc);
    }

    /** Take the level of slot i off the list unless another slot carries it. */
    method DropLevel(i: nat)
      requires i < slots.Length && 0 < lstash < stash.Length
      modifies stash, this`lstash
      ensures stash[..] == old(if Shared(slots[..], i) then stash[..] else Removed(stash[..], lstash, slots[i].prio))
      ensures lstash == old(if Shared(slots[..], i) then lstash else lstash - 1)
    {
      var shared := LevelShared(i);
      if !shared {
        UnlistLevel(slots[i].prio);
      }
    }

    /** Everything of a kill but the top level, its counters and the timer. */
    method EmptySlot(i: nat, self: bool)
      requires i < slots.Length && taskCount > 0 && 0 < lstash < stash.Length
      modifies slots, stash, this`lstash, this`selfKill, this`next, this`taskCount
      ensures Model() == old(Emptied(Model(), i, self))
    {
      hide Unlink, Removed, Shared, Buried, Word, Stride;
      DropLevel(i);
      BuryAndUnlink(i, self);
      taskCount := taskCount - 1;
    }

    /** Kill the task whose id is given. The result tells whether the service code becomes a hand-over. */
    method TaskKill(pid: nat, self: bool) returns (handOver: bool)
      requires Shaped(Model()) && Endable(Model(), (pid / 0x1_0000) % 256)
      modifies this, slots, stash
      ensures handOver == self
      ensures Model() == old(Killed(Model(), (pid / 0x1_0000) % 256, self))
    {
      hide Killed, TopLevel, Count, Byte, Emptied, Word, Stride;
      var i := (pid / 0x1_0000) % 256;
      ghost var k := Model();
      KillReady(k, i);
      EmptySlot(i, self);
      EmptiedSize(k, i, self);
      FindTop();
      CountTop();
      timer := true;
      handOver := self;
      KilledPieces(k, i, self, Model());
    }

    /** Empty slot i, and move on `next_task` if it is the task ending. */
    method BuryAndUnlink(i: nat, self: bool)
      requires i < slots.Length
      modifies slots, this`selfKill, this`next
      ensures slots[..] == old(Unlink(slots[..], i, Buried(slots[i])))
      ensures selfKill == (old(selfKill) || self)
      ensures next == if selfKill then old(Word(next + Stride(slots[..], i))) else old(next)
    {
      ghost var t := slots[..];
      slots[i] := Buried(slots[i]);
      if self {
        selfKill := true;
      }
      PredKept(t, slots[..], i, 0);
      var jump := UnlinkSlot(i);
      if selfKill {
        next := Word(next + jump);
      }
      assert slots[..] == Unlink(t, i, Buried(t[i]));
    }

    // ----- the services that touch a slot or two

    method HandOver()
      requires current < slots.Length
      modifies this`selfKill, this`normal, slots
      ensures Model() == old(HandedOver(Model()))
    {
      if !selfKill {
        slots[current] := slots[current].(state := Sleep);
      } else {
        selfKill := false;
      }
      normal := false;
    }

    method Hibernate(reverse: bool, op1: nat, op2: nat, value: nat)
      requires current < slots.Length
      modifies this`hlc, this`alc, this`normal, slots
      ensures Model() == old(Hibernated(Model(), reverse, op1, op2, value))
    {
      slots[current] := slots[current].(state := if reverse then HibernateL else HibernateG);
      slots[current] := slots[current].(op1 := op1, op2 := op2, hib := value);
      if slots[current].prio == maxLevel {
        hlc := Byte(hlc + 1);
        alc := Byte(alc - 1);
      }
      normal := false;
    }

    /** `word` is the lock word of the mutex: its upper half names the owner's slot. */
    method PriorityPromote(mutex: nat, word: nat)
      requires current < slots.Length && word / 0x1_0000 < slots.Length
      modifies this, slots
      ensures Model() == old(Promoted(Model(), mutex, word / 0x1_0000))
    {
      hide Byte;
      AddLevel();
      var index := word / 0x1_0000;
      slots[index] := slots[index].(mutex := mutex, saved := slots[index].prio, prio := maxLevel);
      slots[current] := slots[current].(state := Hold, op1 := mutex);
      normal := false;
    }

    /** One promotion more; the first one keeps the unpromoted numbers underneath. */
    method AddLevel()
      modifies this`maxLevel, this`maxpLevel, this`alc, this`hlc, this`alcp, this`hlcp
      ensures var first := old(maxpLevel) == 127;
              && maxLevel == Byte((if first then 127 else old(maxLevel)) + 1)
              && maxpLevel == (if first then old(maxLevel) else old(maxpLevel))
              && alcp == (if first then old(alc) else old(alcp)) && hlcp == (if first then old(hlc) else old(hlcp))
              && alc == (if first then 1 else old(alc)) && hlc == (if first then 0 else old(hlc))
    {
      hide Byte;
      if maxpLevel == 127 {
        maxpLevel := maxLevel;
        maxLevel := 127;
        alcp, hlcp := alc, hlc;
        alc, hlc := 1, 0;
      }
      maxLevel := Byte(maxLevel + 1);
    }

    /** Wake the first task held on the given mutex. */
    method WakeHolder(mutex: nat)
      modifies slots
      ensures slots[..] == old(Woken(slots[..], mutex))
    {
      var i := 0;
      while i < slots.Length
        invariant i <= slots.Length && slots[..] == old(slots[..])
        invariant Holder(slots[..], mutex, i) == Holder(slots[..], mutex, 0)
      {
        if slots[i].state == Hold && slots[i].op1 == mutex {
          slots[i] := slots[i].(state := Sleep);
          return;
        }
        i := i + 1;
      }
    }

    /** Demotion up to the hand-over it becomes. */
    method PriorityDemote()
      requires current < slots.Length
      modifies this, slots
      ensures Model() == old(Demoted(Model()))
    {
      hide Byte, Woken;
      var c := slots[current];
      slots[current] := c.(prio := c.saved, saved := 0);
      WokenSize(slots[..], c.mutex);
      LowerTop();
      WakeHolder(c.mutex);
      slots[current] := slots[current].(mutex := 0);
    }

    /** One promotion less; with the last one the numbers kept underneath come back. */
    method LowerTop()
      modifies this`maxLevel, this`maxpLevel, this`alc, this`hlc
      ensures var level := Byte(old(maxLevel) - 1);
              if level == 127 then maxLevel == old(maxpLevel) && maxpLevel == 127 && alc == alcp && hlc == hlcp
              else maxLevel == level && maxpLevel == old(maxpLevel) && alc == old(alc) && hlc == old(hlc)
    {
      hide Byte;
      maxLevel := Byte(maxLevel - 1);
      if maxLevel == 127 {
        maxLevel := maxpLevel;
        maxpLevel := 127;
        alc, hlc := alcp, hlcp;
      }
    }

    // ----- base invocation

    method FindId(id: nat) returns (i: nat)
      ensures i == WithId(slots[..], id, 0)
    {
      i := 0;
      while i < slots.Length && slots[i].id != id
        invariant i <= slots.Length && WithId(slots[..], id, i) == WithId(slots[..], id, 0)
      {
        i := i + 1;
      }
    }

    method InvokeBase() returns (error: Error)
      requires current < slots.Length
      modifies this`invoked
      ensures (Model(), error) == old(Invoked(Model()))
    {
      if current == 0 {
        return BaseProcess;
      }
      invoked := slots[current].id;
      return NoError;
    }

    method ReleaseBase(value: nat) returns (error: Error)
      modifies this`invoked, slots
      ensures (Model(), error) == old(Released(Model(), value))
    {
      if current != 0 {
        return InsufficientPermission;
      }
      var i := FindId(invoked);
      if i == slots.Length {
        return UnknownProcessId;
      }
      slots[i] := slots[i].(hib := value);
      invoked := 0;
      return NoError;
    }

    method GrantPermission(id: nat, permission: nat) returns (error: Error)
      modifies slots
      ensures (Model(), error) == old(Granted(Model(), id, permission))
    {
      if current != 0 {
        return InsufficientPermission;
      }
      var i := FindId(id);
      if i == slots.Length {
        return UnknownProcessId;
      }
      slots[i] := slots[i].(perm := permission % 0x1_0000);
      return NoError;
    }

    /** Starting the scheduler up to the hand-over it becomes. */
    method StartScheduler()
      requires slots.Length > 0
      modifies this, slots
      ensures Model() == old(Started(Model()))
    {
      ghost var t := slots[..];
      maxpLevel := 127;
      slots[0] := slots[0].(perm := 0xFFFF);
      var i := 1;
      while i < slots.Length
        invariant 1 <= i <= slots.Length
        invariant slots[0] == t[0].(perm := 0xFFFF)
        invariant forall x :: 1 <= x < i ==> slots[x] == t[x].(perm := 0)
        invariant forall x :: i <= x < slots.Length ==> slots[x] == t[x]
        invariant Model() == old(Model()).(maxpLevel := 127, slots := slots[..])
      {
        slots[i] := slots[i].(perm := 0);
        i := i + 1;
      }
      started := true;
      selfKill := false;
      assert slots[..] == old(Started(Model())).slots;
    }

    // ----- the scheduler

    /** Wake slot i if its condition holds, moving it between the two counts of the top level. */
    method WakeSlot(i: nat, mem: Memory)
      requires i < slots.Length && alc < 256 && hlc < 256
      modifies this`alc, this`hlc, slots
      ensures slots[..] == old(slots[..])[i := old(Wake(slots[i], mem))]
      ensures alc == Byte(old(alc) + Bit(DueAt(maxLevel, mem)(old(slots[i]))))
      ensures hlc == Byte(old(hlc) - Bit(DueAt(maxLevel, mem)(old(slots[i]))))
    {
      hide Byte;
      SweepStart(alc, hlc);
      var s := slots[i];
      var d := Minus32(mem(s.op1), mem(s.op2));
      if s.state == HibernateG && d >= s.hib {
        if s.prio == maxLevel {
          hlc := Byte(hlc - 1);
          alc := Byte(alc + 1);
        }
        slots[i] := s.(state := Sleep);
      }
      if slots[i].state == HibernateL && d <= s.hib {
        if s.prio == maxLevel {
          hlc := Byte(hlc - 1);
          alc := Byte(alc + 1);
        }
        slots[i] := slots[i].(state := Sleep);
      }
    }

    /** The sweep: once around the ring from `next_task`, every live slot exactly once. */
    method Sweep(mem: Memory)
      requires Walkable(Model()) && alc < 256 && hlc < 256
      modifies this`alc, this`hlc, slots
      ensures Model() == old(Swept(Model(), mem))
    {
      hide Byte, Ring, Half, Walkable, DueAt, Due, Wake, Bit, Count, WakeAll;
      ghost var k := Model();
      ghost var w := 0;
      ghost var p := DueAt(maxLevel, mem);
      var i: int := next;
      var first := true;
      SweepStart(k.alc, k.hlc);
      HalfStart(k, mem);
      while first || i != next
        invariant 0 <= i < slots.Length == |k.slots| && Live(k.slots[i]) && (first ==> i == next)
        invariant Half(k, slots[..], first, i, mem)
        invariant Count(slots[..], p) + w == Count(k.slots, p) && w >= 0
        invariant alc == Byte(k.alc + w) && hlc == Byte(k.hlc - w)
        decreases first, if !first && i == next then 0 else |k.slots| - Gap(next, i, |k.slots|)
      {
        ghost var before := slots[..];
        HalfNext(k, before, first, i, mem);
        ghost var d := Bit(p(before[i]));
        WakeSlot(i, mem);
        WakeNotDue(before[i], mem, maxLevel);
        CountUpdate(before, i, Wake(before[i], mem), p);
        SweepCount(k.alc, k.hlc, w, d);
        w := w + d;
        i := i + slots[i].jmp;
        first := false;
      }
      HalfDone(k, slots[..], i, mem);
    }

    /** The selection loop. It has no bound of its own; it ends because something can be selected. */
    method Select() returns (level: nat)
      requires Walkable(Model()) && Selectable(Model())
      modifies this`next
      ensures next < slots.Length && Picked(old(Model()), next, level)
    {
      hide Ring, Picked, NoneAbove, Walkable, Selectable;
      ghost var k := Model();
      WalkableBounds(k);
      SelectableGoal(k);
      ghost var goal := if exists u :: Rival(k, u) then (var u :| Rival(k, u); u) else 0;
      level := maxLevel;
      var lptr: nat := lstash - 1;
      StartPassed(k);
      while true
        invariant next < slots.Length && lptr < lstash && Passed(k, At(next, lptr, level))
        invariant !Live(k.slots[k.current]) ==> Rival(k, goal)
        decreases lptr, Left(k, At(next, lptr, level), goal)
      {
        ghost var w := At(next, lptr, level);
        if Hop(k.slots, w.slot) == k.current { AdvanceRound(k, w); } else { AdvanceWithin(k, w); }
        HopFacts(k, w.slot);
        next := next + slots[next].jmp;
        if current == next {
          lptr := lptr - 1;
          level := stash[lptr];
        }
        assert At(next, lptr, level) == Advance(k, w);
        if slots[next].state == Sleep && slots[next].prio == level {
          break;
        }
        AdvanceDecreases(k, w, goal);
      }
    }

    /** Stop the timer, and put a task interrupted by a tick to sleep. */
    method Settle()
      requires current < slots.Length
      modifies this`timer, this`normal, slots
      ensures Model() == old(Prepared(Model()))
    {
      timer := false;
      if normal {
        slots[current] := slots[current].(state := Sleep);
      } else {
        normal := true;
      }
    }

    /** The scheduler: settle the running task, wake whoever is due, select, and leave the timer off only for a sole
        task. */
    method Schedule(mem: Memory) returns (level: nat)
      requires current < slots.Length && alc < 256 && hlc < 256
      requires Walkable(Prepared(Model())) && Walkable(Awake(Model(), mem)) && Selectable(Awake(Model(), mem))
      modifies this, slots
      ensures next < slots.Length && Picked(old(Awake(Model(), mem)), next, level)
      ensures Model() == Resumed(old(Awake(Model(), mem)), next, level).(current := old(current))
    {
      hide Walkable, Selectable, Picked, Swept, Byte;
      ghost var p := Awake(Model(), mem);
      Settle();
      Sweep(mem);
      assert Model() == p;
      level := Select();
      slots[next] := slots[next].(state := Active);
      timer := !(alc == 1 && hlc == 0) || level != maxLevel;
    }

    /** The context switch. */
    method Switch()
      modifies this`current
      ensures Model() == old(Model()).(current := old(next))
    {
      current := next;
    }

    /** One scheduling as a step of a run: from a settled service to a state of the invariant. */
    method Reschedule(mem: Memory, ghost st: seq<nat>)
      requires Core(Model(), st) && Between(Model()) && Selectable(Awake(Model(), mem))
      modifies this, slots
      ensures Scheduled(old(Model()), mem, Model()) && Inv(Model(), st)
    {
      hide Selectable, Picked, Inv, Walkable, Swept, Prepared;
      ghost var k := Model();
      PreparedWalkable(k, st);
      AwakeWalkable(k, mem);
      var level := Schedule(mem);
      Switch();
      assert Model() == Resumed(Awake(k, mem), next, level);
      ScheduleKeeps(k, mem, Model(), st);
    }
  }

  /** Has the sweep that started at `start` and stands at i been to u? */
  predicate Visited(first: bool, start: int, i: int, u: int, n: int) {
    !first && (i == start || Gap(start, u, n) < Gap(start, i, n))
  }

  /** Moving on from i adds exactly i to the slots visited, and brings the sweep closer to its end. */
  lemma VisitNext(k: Kernel, first: bool, i: nat)
    requires Walkable(k) && i < |k.slots| && Live(k.slots[i]) && (first ==> i == k.next) && (first || i != k.next)
    ensures 0 <= Hop(k.slots, i) < |k.slots| && Live(k.slots[Hop(k.slots, i)])
    ensures forall u :: 0 <= u < |k.slots| && Live(k.slots[u]) ==>
              (Visited(false, k.next, Hop(k.slots, i), u, |k.slots|) <==>
               u == i || Visited(first, k.next, i, u, |k.slots|))
    ensures Hop(k.slots, i) != k.next ==> Gap(k.next, i, |k.slots|) < Gap(k.next, Hop(k.slots, i), |k.slots|)
  {
    HopFacts(k, i);
    var n, v := |k.slots|, Hop(k.slots, i);
    HopGap(k.next, i, v, i, n);
    forall u | 0 <= u < n && Live(k.slots[u])
      ensures Visited(false, k.next, v, u, n) <==> u == i || Visited(first, k.next, i, u, n)
    {
      HopGap(k.next, i, v, u, n);
    }
  }

  lemma WalkableBounds(k: Kernel)
    requires Walkable(k)
    ensures 0 < k.lstash < |k.stash| && k.current < |k.slots| && k.next < |k.slots|
  {
  }

  lemma SelectableGoal(k: Kernel)
    requires Selectable(k)
    ensures k.current < |k.slots| && !Live(k.slots[k.current]) ==> exists u :: Rival(k, u)
  {
  }

  lemma SweepStart(alc: nat, hlc: nat)
    requires alc < 256 && hlc < 256
    ensures alc == Byte(alc + 0) && hlc == Byte(hlc - 0)
  {
  }

  lemma SweepCount(alc: nat, hlc: nat, w: nat, d: nat)
    ensures Byte(Byte(alc + w) + d) == Byte(alc + (w + d)) && Byte(Byte(hlc - w) - d) == Byte(hlc - (w + d))
  {
    ByteShift(alc + w + d, -((alc + w) / 256));
    ByteShift(hlc - w - d, -((hlc - w) / 256));
  }

  /** The table half-way through the sweep: the slots visited are woken, the others as they were. */
  ghost predicate Half(k: Kernel, s: seq<Slot>, first: bool, i: int, mem: Memory) {
    && |s| == |k.slots|
    && forall u :: 0 <= u < |s| ==>
         s[u] == if Live(k.slots[u]) && Visited(first, k.next, i, u, |s|) then Wake(k.slots[u], mem) else k.slots[u]
  }

  lemma WakeNotDue(s: Slot, mem: Memory, level: nat)
    ensures Bit(DueAt(level, mem)(Wake(s, mem))) == 0
  {
  }

  lemma HalfStart(k: Kernel, mem: Memory)
    requires Walkable(k)
    ensures Half(k, k.slots, true, k.next, mem) && k.next < |k.slots| && Live(k.slots[k.next])
  {
  }

  lemma HalfNext(k: Kernel, s: seq<Slot>, first: bool, i: nat, mem: Memory)
    requires Walkable(k) && Half(k, s, first, i, mem) && i < |k.slots| && Live(k.slots[i])
    requires (first ==> i == k.next) && (first || i != k.next)
    ensures s[i] == k.slots[i] && Wake(s[i], mem).jmp == k.slots[i].jmp
    ensures var v := Hop(k.slots, i);
            && 0 <= v < |k.slots| && Live(k.slots[v]) && Half(k, s[i := Wake(s[i], mem)], false, v, mem)
            && (v != k.next ==> Gap(k.next, i, |k.slots|) < Gap(k.next, v, |k.slots|) < |k.slots|)
  {
    hide Ring;
    VisitNext(k, first, i);
  }

  lemma HalfDone(k: Kernel, s: seq<Slot>, i: int, mem: Memory)
    requires Half(k, s, false, i, mem) && i == k.next
    ensures s == WakeAll(k.slots, mem) && Count(s, DueAt(k.maxLevel, mem)) == 0
  {
    assert s == WakeAll(k.slots, mem);
    forall u | 0 <= u < |s| ensures !DueAt(k.maxLevel, mem)(s[u]) { }
    CountPositive(s, DueAt(k.maxLevel, mem));
  }

  lemma ByteSmall(x: nat)
    requires x < 256
    ensures Byte(x) == x
  {
  }

  lemma TallyCases(alc: nat, hlc: nat, raised: bool, here: bool, asleep: bool)
    requires alc < 256 && hlc < 256
    ensures var a, h := if raised then 0 else alc, if raised then 0 else hlc;
            Tally(alc, hlc, raised, here, asleep) ==
            if !here then (a, h) else if asleep then (a, Byte(h + 1)) else (Byte(a + 1), h)
  {
  }

  function Enrolled(k: Kernel, i: nat, t: Task, added: (seq<nat>, nat)): Kernel
    requires i < |k.slots|
  {
    k.(slots := Placed(k, i, t), stash := added.0, lstash := added.1,
       totalCount := (k.totalCount + 1) % 0x1_0000, taskCount := k.taskCount + 1)
  }

  /** A creation put together from its pieces. */
  lemma CreatedPieces(k: Kernel, t: Task, i: nat, r: Kernel)
    requires Shaped(k) && Searchable(k) && Admission(k, t) == NoError && i == FirstIdle(k.slots)
    requires Search(k.stash, t.prio, 0, k.lstash, 0).Missing? ==>
        Search(k.stash, t.prio, 0, k.lstash, 0).last <= k.lstash
    requires r.slots == Placed(k, i, t) && (r.stash, r.lstash) == Added(k.stash, k.lstash, t.prio)
    requires r.maxLevel == TopLevel(r.slots, k.maxLevel) && i < |r.slots|
    requires (r.alc, r.hlc) == Tally(k.alc, k.hlc, r.maxLevel > k.maxLevel, t.prio == r.maxLevel,
        HibernateBit(r.slots[i].state))
    requires r.taskCount == k.taskCount + 1 && r.totalCount == (k.totalCount + 1) % 0x1_0000
    requires r.timer == (k.timer || (k.started && (r.maxLevel > k.maxLevel || r.alc + r.hlc == 2)))
    requires r == k.(slots := r.slots, stash := r.stash, lstash := r.lstash, maxLevel := r.maxLevel, alc := r.alc,
        hlc := r.hlc,
                     taskCount := r.taskCount, totalCount := r.totalCount, timer := r.timer)
    ensures r == Created(k, t)
  {
  }

  lemma {:induction false} PredKept(t: seq<Slot>, r: seq<Slot>, i: nat, j: nat)
    requires j <= i < |t| == |r| && forall x :: 0 <= x < |t| ==> t[x].jmp == r[x].jmp
    ensures Pred(t, i, j) == Pred(r, i, j)
    decreases i - j
  {
    if j < i {
      PredKept(t, r, i, j + 1);
    }
  }

  lemma KillReady(k: Kernel, i: nat)
    requires Shaped(k) && Endable(k, i)
    ensures k.taskCount > 0
  {
    CountPositive(k.slots, Live);
  }

  ghost function Emptied(k: Kernel, i: nat, self: bool): Kernel
    requires i < |k.slots| && k.taskCount > 0 && 0 < k.lstash < |k.stash|
  {
    k.(slots := Unlink(k.slots, i, Buried(k.slots[i])),
       stash := if Shared(k.slots, i) then k.stash else Removed(k.stash, k.lstash, k.slots[i].prio),
       lstash := if Shared(k.slots, i) then k.lstash else k.lstash - 1,
       next := if k.selfKill || self then Word(k.next + Stride(k.slots, i)) else k.next,
       selfKill := k.selfKill || self, taskCount := k.taskCount - 1)
  }

  lemma EmptiedSize(k: Kernel, i: nat, self: bool)
    requires i < |k.slots| && k.taskCount > 0 && 0 < k.lstash < |k.stash|
    ensures |Emptied(k, i, self).slots| == |k.slots|
  {
  }

  /** A kill put together from its pieces. */
  lemma KilledPieces(k: Kernel, i: nat, self: bool, r: Kernel)
    requires Shaped(k) && Endable(k, i) && k.taskCount > 0
    requires r.maxLevel == TopLevel(r.slots, 0) && r.timer
    requires r.alc == Byte(Count(r.slots, AwakeAt(r.maxLevel))) && r.hlc == Byte(Count(r.slots, AsleepAt(r.maxLevel)))
    requires r == Emptied(k, i, self).(maxLevel := r.maxLevel, alc := r.alc, hlc := r.hlc, timer := r.timer)
    ensures r == Killed(k, i, self)
  {
    hide TopLevel, Count, Byte, Unlink, Removed, Shared, Word, Stride;
  }

  lemma PreparedWalkable(k: Kernel, st: seq<nat>)
    requires Core(k, st) && Between(k)
    ensures SmallFields(k) && Ring(k.slots) && |k.stash| == |k.slots| + 1 && Sorted(k.stash, k.lstash) &&
        Walkable(Prepared(k))
  {
    var p := Prepared(k);
    UpdateKeepsRing(k.slots, p.slots);
  }

  lemma IdleSlot(k: Kernel, i: nat)
    requires Shaped(k) && k.taskCount < |k.slots| && i == FirstIdle(k.slots)
    ensures i < |k.slots|
  {
  }

  lemma WokenSize(t: seq<Slot>, mutex: nat)
    ensures |Woken(t, mutex)| == |t|
    ensures forall i :: 0 <= i < |t| ==> Woken(t, mutex)[i].mutex == t[i].mutex
  {
  }

  lemma FirstAt(a: seq<nat>, n: nat, p: nat)
    requires n <= |a|
    ensures !Listed(a, n, p) ==> forall y :: 0 <= y < n ==> a[y] != p
  {
    assert forall y :: 0 <= y < n ==> a[y] == a[..n][y];
  }

  lemma RemovedIs(a: seq<nat>, n: nat, p: nat, b: seq<nat>)
    requires n < |a| == |b|
    requires var x := if Listed(a, n, p) then IndexOf(a, n, p) else n;
             && (forall y :: 0 <= y < x ==> b[y] == a[y]) && (forall y :: x <= y < n ==> b[y] == a[y + 1])
             && (forall y :: n <= y < |a| ==> b[y] == a[y])
    ensures b == Removed(a, n, p)
  {
    if Listed(a, n, p) {
      ShiftedIs(a, n, IndexOf(a, n, p), b);
    }
  }

  lemma ShiftedIs(a: seq<nat>, n: nat, x: nat, b: seq<nat>)
    requires x < n < |a| == |b|
    requires (forall y :: 0 <= y < x ==> b[y] == a[y]) && (forall y :: x <= y < n ==> b[y] == a[y + 1])
    requires forall y :: n <= y < |a| ==> b[y] == a[y]
    ensures b == a[..x] + a[x + 1..n + 1] + a[n..]
  {
    assert b[..x] == a[..x] && b[x..n] == a[x + 1..n + 1] && b[n..] == a[n..];
    assert b == b[..x] + b[x..n] + b[n..];
  }

  lemma PlacedPrio(k: Kernel, i: nat, t: Task)
    requires i < |k.slots|
    ensures |Placed(k, i, t)| == |k.slots| && Placed(k, i, t)[i].prio == t.prio
  {
  }
}
