/** From reset to the first scheduling: the invariant is established, so every run of the system satisfies it. */
module Boot {
  import opened Slots
  import opened JumpList
  import opened LevelStash
  import opened Services
  import opened Scheduler
  import opened Invariant
  import opened Transitions
  import opened Runs

  /** The promotion sentinel is only stored when the scheduler starts; everything else is in order before. */
  function Primed(k: Kernel): Kernel {
    k.(maxpLevel := NO_PROMOTION)
  }

  ghost predicate Waiting(k: Kernel) {
    && Core(Primed(k), []) && k.maxpLevel < 256 && !k.started && !k.selfKill && k.normal && k.current == 0 &&
        k.next == 0
    && forall i :: 0 <= i < |k.slots| ==> k.slots[i].state != Active
  }

  lemma {:induction false} CountNone(t: seq<Slot>, p: Slot -> bool)
    requires forall i :: 0 <= i < |t| ==> !p(t[i])
    ensures Count(t, p) == 0
  {
    CountPositive(t, p);
  }

  ghost function BaseCreated(n: nat, addr: nat, byte: nat): Kernel
    requires 2 <= n <= 127
  {
    var k := Reset(n, byte);
    CountNone(k.slots, Live);
    Created(k, Task(addr, 0, false))
  }

  lemma BaseSlots(n: nat, addr: nat, byte: nat)
    requires 2 <= n <= 127
    ensures var k := BaseCreated(n, addr, byte);
            && |k.slots| == n && k.slots[0] == Slot(Sleep, 0, 0, 0, 0, 0, 0, 0, 1, addr, 0)
            && (forall i :: 1 <= i < n ==> k.slots[i] == Slot(Idle, 0, 0, 0, 0, 0, 0, 0, 0, 0, 0))
            && k == Kernel(k.slots, seq(n, _ => 0) + [byte], 1, 0, 0, 0, 0, 1, 0, 0, 0, 1, 1, 0, false, false, true,
                false)
  {
    var k := Reset(n, byte);
    var t := Task(addr, 0, false);
    CountNone(k.slots, Live);
    assert !Live(k.slots[0]);
    assert FirstIdle(k.slots) == 0;
    SearchResult(k.stash, k.lstash, 0);
    assert k.stash[..k.lstash][0] == 0;
    var slots := Placed(k, 0, t);
    assert TopLevel(slots, 0) == 0;
    HibernateBitNeverSet(Sleep);
    assert BaseCreated(n, addr, byte).stash == k.stash;
  }

  /** After reset and the creation of the base task, everything waits for the scheduler to start. */
  lemma BaseWaits(n: nat, addr: nat, byte: nat)
    requires 2 <= n <= 127 && addr != 0
    ensures Waiting(BaseCreated(n, addr, byte))
  {
    BaseSlots(n, addr, byte);
    var k := BaseCreated(n, addr, byte);
    var r := Primed(k);
    CountUpdate(Reset(n, byte).slots, 0, k.slots[0], Live);
    CountNone(Reset(n, byte).slots, Live);
    CountNone(Reset(n, byte).slots, LiveLevel(0));
    CountUpdate(Reset(n, byte).slots, 0, k.slots[0], LiveLevel(0));
    assert k.slots == Reset(n, byte).slots[0 := k.slots[0]];
    assert Count(r.slots, LiveLevel(0)) == 1;
    assert Ring(r.slots) by {
      assert forall i :: 0 <= i < n ==> LinkOk(r.slots, i);
    }
    assert r.stash[..1] == [0];
    assert Level(r.slots[0]) == 0 == UserTop(r);
    assert Levelled(r);
    assert Stacked(r, []);
    assert Counted(r);
    assert Named(r);
  }

  lemma PrimedCommutes(k: Kernel, t: Task)
    requires k.maxpLevel < 256 && CanCreate(Primed(k), t)
    ensures Shaped(k) && Searchable(k) && Admission(k, t) == NoError && Primed(Created(k, t)) == Created(Primed(k), t)
  {
    hide Sorted, Misplaced, Listed, Search, Insert, Link, TopLevel, Byte;
    var p := Primed(k);
    assert Placed(p, FirstIdle(k.slots), t) == Placed(k, FirstIdle(k.slots), t);
  }

  /** Tasks created before the start. */
  lemma CreateWaits(k: Kernel, t: Task)
    requires Waiting(k) && CanCreate(Primed(k), t)
    ensures Shaped(k) && Searchable(k) && Admission(k, t) == NoError && Waiting(Created(k, t))
  {
    PrimedCommutes(k, t);
    CreateKeepsCore(Primed(k), [], t);
    CreatedSlots(Primed(k), t, FirstIdle(k.slots));
    var r := Created(k, t);
    forall j | 0 <= j < |r.slots| ensures r.slots[j].state != Active {
      assert j != FirstIdle(k.slots) ==> Unmoved(k.slots[j], r.slots[j]);
    }
  }

  lemma DisturbedWaits(k: Kernel, byte: nat)
    requires Waiting(k)
    ensures Waiting(Disturbed(k, byte))
  {
    hide Core;
    DisturbedCore(Primed(k), [], byte);
    assert Primed(Disturbed(k, byte)) == Disturbed(Primed(k), byte);
  }

  lemma StartSame(k: Kernel)
    requires |k.slots| > 0 && k.current == 0 && k.next == 0 && k.alc < 256 && k.hlc < 256
    ensures SameTasks(Primed(k), Started(k))
  {
  }

  lemma StartBetween(k: Kernel)
    requires |k.slots| > 0 && k.current == 0 && k.next == 0 && Live(k.slots[0]) && k.alc < 256 && k.hlc < 256
    requires forall i :: 0 <= i < |k.slots| ==> k.slots[i].state != Active
    ensures SameTasks(Started(k), HandedOver(Started(k))) && Between(HandedOver(Started(k)))
  {
  }

  /** Starting the scheduler ends, once it has scheduled, in a state satisfying the whole invariant. */
  lemma StartKeeps(k: Kernel, mem: Memory, r: Kernel)
    requires Waiting(k) && Scheduled(HandedOver(Started(k)), mem, r)
    ensures Inv(r, [])
  {
    hide Core, Scheduled, Between, SameTasks;
    CoreFacts(Primed(k), []);
    CoreBase(Primed(k), []);
    StartSame(k);
    StartBetween(k);
    SameCore(Primed(k), Started(k), []);
    SameCore(Started(k), HandedOver(Started(k)), []);
    ScheduleKeeps(HandedOver(Started(k)), mem, r, []);
  }

  lemma CoreBase(k: Kernel, st: seq<nat>)
    requires Core(k, st)
    ensures Live(k.slots[0])
  {
  }

  /** Every run of the system: reset, the base task, any well-placed creations, the start, then any run of events. */
  lemma SystemRunsAreSafe(n: nat, addr: nat, byte: nat, ts: seq<Task>, boot: seq<Kernel>, mem: Memory,
                          ks: seq<Kernel>, sts: seq<seq<nat>>, es: seq<Event>, ms: seq<Memory>, i: nat, u: nat)
    requires 2 <= n <= 127 && addr != 0 && BootChain(n, addr, byte, ts, boot)
    requires Run(ks, sts, es, ms) && sts[0] == [] && i <= |es| && u < |ks[i].slots|
    requires var w := boot[|ts|]; w.current < |w.slots| && Scheduled(HandedOver(Started(w)), mem, ks[0])
    ensures Inv(ks[i], sts[i]) && Safe(ks[i], u)
  {
    hide Inv, Step, Waiting, Scheduled;
    AllWait(n, addr, byte, ts, boot, |ts|);
    StartKeeps(boot[|ts|], mem, ks[0]);
    RunKeeps(ks, sts, es, ms, i);
    InvIsSafe(ks[i], sts[i], u);
  }

  /** The creations before the start, one kernel after the other; the byte behind the stash may change in between. */
  ghost predicate BootChain(n: nat, addr: nat, byte: nat, ts: seq<Task>, boot: seq<Kernel>)
    requires 2 <= n <= 127
  {
    && |boot| == |ts| + 1 && boot[0] == BaseCreated(n, addr, byte)
    && forall i :: 0 <= i < |ts| ==>
         boot[i].maxpLevel < 256 && CanCreate(Primed(boot[i]), ts[i]) && CreatedNext(boot[i], ts[i], boot[i + 1])
  }

  ghost predicate CreatedNext(k: Kernel, t: Task, r: Kernel)
    requires k.maxpLevel < 256 && CanCreate(Primed(k), t)
  {
    PrimedCommutes(k, t);
    exists byte :: r == Disturbed(Created(k, t), byte)
  }

  lemma {:induction false} AllWait(n: nat, addr: nat, byte: nat, ts: seq<Task>, boot: seq<Kernel>, i: nat)
    requires 2 <= n <= 127 && addr != 0 && BootChain(n, addr, byte, ts, boot) && i <= |ts|
    ensures Waiting(boot[i])
  {
    hide Waiting, CanCreate;
    if i == 0 {
      BaseWaits(n, addr, byte);
    } else {
      AllWait(n, addr, byte, ts, boot, i - 1);
      assert CreatedNext(boot[i - 1], ts[i - 1], boot[i]);
      CreateWaits(boot[i - 1], ts[i - 1]);
      var b :| boot[i] == Disturbed(Created(boot[i - 1], ts[i - 1]), b);
      DisturbedWaits(Created(boot[i - 1], ts[i - 1]), b);
    }
  }
}
