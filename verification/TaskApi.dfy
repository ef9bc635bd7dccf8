/** The library calls that start and kill a task by its object, in front of the kernel services. The calls are given
    with nothing between the scan of the slots and the service; what the service does if something does come in between
    is given beside them. */
module TaskApi {
  import opened Slots
  import opened JumpList
  import opened LevelStash
  import opened Services
  import opened Invariant
  import opened Transitions
  import opened KernelVars
  import opened Findings

  datatype Outcome = AlreadyRunning | NotRunning | Called(error: Error)

  /** The first slot that holds the object, or |t|. */
  function SlotOf(t: seq<Slot>, addr: nat): (i: nat)
    ensures i <= |t| && (i < |t| ==> t[i].obj == addr) && forall j :: 0 <= j < i ==> t[j].obj != addr
  {
    if t == [] || t[0].obj == addr then 0
    else
      var i := SlotOf(t[1..], addr);
      assert forall j :: 0 < j <= i < |t| ==> t[j] == t[1..][j - 1];
      1 + i
  }

  lemma {:induction false} SlotIs(t: seq<Slot>, addr: nat, i: nat)
    requires i <= |t| && (i < |t| ==> t[i].obj == addr) && forall j :: 0 <= j < i ==> t[j].obj != addr
    ensures SlotOf(t, addr) == i
  {
  }

  method FindObject(v: KernelVars, addr: nat) returns (i: nat)
    ensures i == SlotOf(v.slots[..], addr)
  {
    i := 0;
    while i < v.slots.Length && v.slots[i].obj != addr
      invariant i <= v.slots.Length && forall j :: 0 <= j < i ==> v.slots[j].obj != addr
    {
      i := i + 1;
    }
    SlotIs(v.slots[..], addr, i);
  }

  /** Refuse an object that is running; otherwise call the creation service, whose own error is not looked at. */
  method TaskStart(v: KernelVars, t: Task) returns (r: Outcome)
    requires Shaped(v.Model()) && (Admission(v.Model(), t) == NoError ==> Searchable(v.Model()))
    modifies v, v.slots, v.stash
    ensures var k := old(v.Model());
            if SlotOf(k.slots, t.addr) < |k.slots| then r == AlreadyRunning && v.Model() == k
            else r == Called(Admission(k, t)) && v.Model() == old(if Admission(v.Model(),
                t) == NoError then Created(v.Model(), t) else v.Model())
  {
    hide Created, Searchable;
    var i := FindObject(v, t.addr);
    if i < v.slots.Length {
      return AlreadyRunning;
    }
    var e := v.TaskCreate(t);
    r := Called(e);
  }

  /** The id that the library kills for an object: that of the slot the scan stops at. A scan that finds nothing stops
      behind the table, where one word of memory is compared with the object and another one taken for the id. */
  function IdToKill(t: seq<Slot>, addr: nat, word: nat, id: nat): (r: (bool, nat))
    ensures r.0 <==> SlotOf(t, addr) < |t| || word == addr
  {
    var i := SlotOf(t, addr);
    if i < |t| then (true, t[i].id) else (word == addr, id)
  }

  /** Kill the task whose object is given. `word` and `id` lie behind the tables of objects and of ids. */
  method TaskKill(v: KernelVars, addr: nat, word: nat, id: nat) returns (r: Outcome)
    requires Shaped(v.Model())
    requires var (found, pid) := IdToKill(v.slots[..], addr, word, id);
             found ==> Endable(v.Model(), (pid / 0x1_0000) % 256)
    modifies v, v.slots, v.stash
    ensures var k := old(v.Model());
            var (found, pid) := IdToKill(k.slots, addr, word, id);
            if found then r == Called(NoError) && v.Model() == Killed(k, (pid / 0x1_0000) % 256, false)
            else r == NotRunning && v.Model() == k
  {
    hide Killed, Endable;
    var i := FindObject(v, addr);
    if (if i < v.slots.Length then v.slots[i].obj else word) != addr {
      return NotRunning;
    }
    var pid := if i < v.slots.Length then v.slots[i].id else id;
    var handOver := v.TaskKill(pid, false);
    r := Called(NoError);
  }

  /** Starting through the library keeps every object in one slot at most, and puts it in one when the service admits
      it. */
  lemma StartsOnce(k: Kernel, st: seq<nat>, t: Task)
    requires Inv(k, st) && CanCreate(k, t) && SlotOf(k.slots, t.addr) == |k.slots|
    ensures var r := Created(k, t).slots;
            var i := SlotOf(r, t.addr);
            i < |r| && Live(r[i]) && forall j :: 0 <= j < |r| && j != i ==> r[j].obj != t.addr
  {
    hide Created, Levelled, Stacked, Counted, Named;
    var i := CreatedObjects(k, t);
    SlotIs(Created(k, t).slots, t.addr, i);
  }

  lemma CreatedObjects(k: Kernel, t: Task) returns (i: nat)
    requires Ring(k.slots) && CanCreate(k, t)
    ensures var r := Created(k, t).slots;
            && |r| == |k.slots| && i < |r| && Live(r[i]) && r[i].obj == t.addr
            && forall j :: 0 <= j < |r| && j != i ==> r[j].obj != t.addr
  {
    hide Created;
    i := FirstIdle(k.slots);
    CreatedSlots(k, t, i);
  }

  /** With an object that no task has, the library refuses exactly if the word behind the table differs from it;
      otherwise it kills by the word behind the ids. */
  lemma RefusesExactly(k: Kernel, addr: nat, word: nat, id: nat)
    requires forall i :: 0 <= i < |k.slots| ==> k.slots[i].obj != addr
    ensures IdToKill(k.slots, addr, word, id).0 <==> word == addr
    ensures IdToKill(k.slots, addr, word, id).1 == id
  {
    SlotIs(k.slots, addr, |k.slots|);
  }

  /** Killing through the library reaches exactly the task whose object is given, whatever lies behind the tables: the
      id is that of the slot with the object, the call meets what the service needs, the object is in no slot
      afterwards, and every other task keeps its slot. */
  lemma KillsTheOne(k: Kernel, st: seq<nat>, addr: nat, i: nat, word: nat, id: nat)
    requires Inv(k, st) && addr != 0 && 0 < i < |k.slots| && k.slots[i].obj == addr
    ensures var (found, pid) := IdToKill(k.slots, addr, word, id);
            && found && (pid / 0x1_0000) % 256 == i && Killable(k, i)
            && var r := Killed(k, i, false).slots;
            && SlotOf(r, addr) == |r| == |k.slots| && r[i].state == Idle
            && forall j :: 0 <= j < |r| && j != i ==> r[j].obj == k.slots[j].obj && r[j].id == k.slots[j].id
  {
    hide Inv, Core, Killed;
    ObjectIsUnique(k, st, i);
    SlotIs(k.slots, addr, i);
    KilledSlots(k, i, false);
    SlotIs(Killed(k, i, false).slots, addr, |k.slots|);
  }

  lemma ObjectIsUnique(k: Kernel, st: seq<nat>, i: nat)
    requires Inv(k, st) && i < |k.slots| && k.slots[i].obj != 0
    ensures Shaped(k) && !k.selfKill && (k.slots[i].id / 0x1_0000) % 256 == i
    ensures Live(k.slots[i]) && (0 < i ==> Killable(k, i))
    ensures forall j :: 0 <= j < |k.slots| && j != i ==> k.slots[j].obj != k.slots[i].obj
  {
    hide Ring, Counted, Stacked;
  }

  // ----- when other tasks run between the scan and the service

  /** What a creation needs apart from its object: all of `CanCreate` but the clause that no slot holds the object. */
  ghost predicate Otherwise(k: Kernel, t: Task) {
    && Shaped(k) && Searchable(k) && Admission(k, t) == NoError && !InPromotion(k)
    && t.prio <= 126 && !t.hibernate && t.addr != 0 && k.totalCount < 65535
    && (Listed(k.stash, k.lstash, t.prio) || (!Full(k.stash, k.lstash) && !Misplaced(k.stash, k.lstash, t.prio)))
  }

  /** A start whose scan was some time ago keeps the invariant if and only if the object is still in no slot when the
      service runs: of two tasks that start the same object, the second one puts it in two slots. */
  lemma StartLater(k: Kernel, st: seq<nat>, t: Task)
    requires Core(k, st) && Otherwise(k, t)
    ensures (exists s :: Core(Created(k, t), s)) <==> SlotOf(k.slots, t.addr) == |k.slots|
  {
    hide Core, Created, Misplaced, Shaped, Searchable;
    CreateKeepsExactly(k, st, t);
    if forall j :: 0 <= j < |k.slots| ==> k.slots[j].obj != t.addr {
      SlotIs(k.slots, t.addr, |k.slots|);
    }
  }

  /** A kill whose scan was some time ago ends the task that is in the slot when the service runs: that object, and no
      other, is in no slot afterwards. It is the object asked for if and only if the slot still holds it. */
  lemma KillLater(k: Kernel, st: seq<nat>, i: nat, addr: nat)
    requires Inv(k, st) && Killable(k, i) && addr != 0
    ensures Shaped(k) && Endable(k, i)
    ensures var r := Killed(k, i, false).slots;
            && (forall o: nat :: o != 0 ==>
                  (SlotOf(r, o) == |r| <==> SlotOf(k.slots, o) == |k.slots| || o == k.slots[i].obj))
            && (SlotOf(k.slots, addr) < |k.slots| ==> (SlotOf(r, addr) == |r| <==> k.slots[i].obj == addr))
  {
    hide Core, Killed, Ring;
    NamedFacts(k, st);
    KilledSlots(k, i, false);
    var r := Killed(k, i, false).slots;
    assert r[i].obj == 0;
    forall o: nat | o != 0
      ensures SlotOf(r, o) == |r| <==> SlotOf(k.slots, o) == |k.slots| || o == k.slots[i].obj
    {
      ObjectGone(k.slots, r, i, o);
    }
  }

  lemma NamedFacts(k: Kernel, st: seq<nat>)
    requires Inv(k, st)
    ensures Shaped(k) && !k.selfKill
    ensures forall i, j :: 0 <= i < j < |k.slots| && k.slots[i].obj != 0 ==> k.slots[i].obj != k.slots[j].obj
  {
    hide Ring, Levelled, Counted, Stacked;
  }

  lemma ObjectGone(t: seq<Slot>, r: seq<Slot>, i: nat, o: nat)
    requires i < |t| == |r| && o != 0 && r[i].obj == 0
    requires forall j :: 0 <= j < |t| && j != i ==> Unmoved(t[j], r[j])
    requires forall x, y :: 0 <= x < y < |t| && t[x].obj != 0 ==> t[x].obj != t[y].obj
    ensures SlotOf(r, o) == |r| <==> SlotOf(t, o) == |t| || o == t[i].obj
  {
    assert forall j :: 0 <= j < |t| && j != i ==> r[j].obj == t[j].obj by {
      forall j | 0 <= j < |t| && j != i ensures r[j].obj == t[j].obj { assert Unmoved(t[j], r[j]); }
    }
    var x := SlotOf(t, o);
    if x < |t| {
      if x == i {
        SlotIs(r, o, |r|);
      } else {
        assert r[x].obj == o;
      }
    } else {
      SlotIs(r, o, |r|);
    }
  }
}
