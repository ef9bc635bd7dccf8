/** One failed attempt of a task to lock: when it asks for the holder to be promoted, when it only hands over, and when
    it tries again at once. */
module SpinLock {
  import opened Slots
  import opened Services
  import opened Invariant
  import opened Transitions
  import opened Runs
  import opened Scheduler
  import opened Order
  import opened JumpList
  import opened Findings
  import opened Fields

  datatype Next =
    | Asks(owner: nat) // promote the task in this slot, then hand over; counts as one attempt
    | Yields           // hand over; counts as one attempt
    | Again            // no service, and the attempt is not counted

  /** The slot in the lock word, cut to 8 bits. */
  function OwnerOf(word: nat): (i: nat)
    ensures i < 256
  {
    (word / 0x1_0000) % 256
  }

  function Attempt(k: Kernel, word: nat): Next
    requires k.current < |k.slots| && OwnerOf(word) < |k.slots|
  {
    var owner := OwnerOf(word);
    if k.slots[owner].prio < k.maxLevel && k.slots[k.current].prio == k.maxLevel then
      if k.slots[owner].prio > 127 then Again else Asks(owner)
    else Yields
  }

  /** The slot named by the word is promoted whatever is in it, and whether or not its task holds the lock. The
      promotion keeps the kernel's invariant if and only if that slot is live. */
  lemma AsksAllowed(k: Kernel, st: seq<nat>, mutex: nat, word: nat)
    requires Inv(k, st) && Settled(k) && mutex != 0 && OwnerOf(word) < |k.slots| && Attempt(k, word).Asks?
    ensures var owner := OwnerOf(word);
            && owner !in st && (Allowed(k, Promote(mutex, owner)) <==> Live(k.slots[owner]))
            && ((exists s :: Core(Promoted(k, mutex, owner), s)) <==> Live(k.slots[owner]))
  {
    hide Core, Promoted;
    AskedSlot(k, st, word);
    PromoteKeepsExactly(k, st, mutex, OwnerOf(word));
  }

  lemma AskedSlot(k: Kernel, st: seq<nat>, word: nat)
    requires Inv(k, st) && OwnerOf(word) < |k.slots| && Attempt(k, word).Asks?
    ensures var owner := OwnerOf(word); owner !in st && owner != k.current && k.slots[owner].prio <= 126
  {
    hide Ring, Levelled, Counted, Named;
  }

  /** With nothing promoted, the attempt asks exactly if the priority in the slot named is lower than that of the caller
      and the caller runs at the top level. The promotion then puts that slot, and no other, above every task. */
  lemma AsksInverted(k: Kernel, mutex: nat, word: nat)
    requires Inv(k, []) && Settled(k) && mutex != 0 && OwnerOf(word) < |k.slots|
    ensures Attempt(k, word).Asks? ==> Attempt(k, word) == Asks(OwnerOf(word))
    ensures Attempt(k, word).Asks? <==>
            && k.slots[OwnerOf(word)].prio < k.slots[k.current].prio
            && forall i :: 0 <= i < |k.slots| && Live(k.slots[i]) ==> k.slots[i].prio <= k.slots[k.current].prio
    ensures Attempt(k, word).Asks? ==>
              var r := Promoted(k, mutex, OwnerOf(word));
              forall i :: 0 <= i < |r.slots| && Live(r.slots[i]) && i != OwnerOf(word) ==>
                  r.slots[i].prio < r.slots[OwnerOf(word)].prio
  {
    TopIsReached(k);
    hide Inv, Promoted;
    if Attempt(k, word).Asks? { RaisedAboveAll(k, mutex, OwnerOf(word)); }
  }

  /** With nothing promoted the top level is the highest priority of a live task, and no slot is above 126. */
  lemma TopIsReached(k: Kernel)
    requires Inv(k, [])
    ensures !InPromotion(k) && k.maxLevel <= 126 && k.current < |k.slots| && Live(k.slots[k.current])
    ensures forall u :: 0 <= u < |k.slots| ==>
              k.slots[u].prio <= 126 && (Live(k.slots[u]) ==> k.slots[u].prio <= k.maxLevel)
    ensures exists u :: 0 <= u < |k.slots| && Live(k.slots[u]) && k.slots[u].prio == k.maxLevel
  {
    hide Ring, Counted, Named;
    LiveBelowTop(k, []);
    var u :| 0 <= u < |k.slots| && Live(k.slots[u]) && Level(k.slots[u]) == UserTop(k);
  }

  lemma RaisedAboveAll(k: Kernel, mutex: nat, owner: nat)
    requires !InPromotion(k) && owner < |k.slots| && k.current < |k.slots|
    requires forall u :: 0 <= u < |k.slots| ==> k.slots[u].prio <= 126
    ensures var r := Promoted(k, mutex, owner);
            |r.slots| == |k.slots| && r.slots[owner].prio == 128 && forall i :: 0 <= i < |r.slots| && i != owner ==>
                r.slots[i].prio <= 126
  {
  }

  /** While something is promoted, the attempt asks exactly if the caller is the last one promoted and the slot named is
      not promoted, and it asks for that slot. */
  lemma AsksPromoted(k: Kernel, st: seq<nat>, word: nat)
    requires Inv(k, st) && st != [] && OwnerOf(word) < |k.slots|
    ensures Attempt(k, word).Asks? <==> k.current == st[|st| - 1] && OwnerOf(word) !in st
    ensures Attempt(k, word).Asks? ==> Attempt(k, word) == Asks(OwnerOf(word))
  {
    hide Ring, Levelled, Counted, Named;
    if k.current !in st { assert k.slots[k.current].prio <= 126; }
    if OwnerOf(word) in st {
      var m :| 0 <= m < |st| && st[m] == OwnerOf(word);
      assert k.slots[st[m]].prio == 128 + m;
    }
  }

  /** The word of a live holder names the slot of that holder. */
  lemma HolderNamed(k: Kernel, st: seq<nat>, u: nat)
    requires Core(k, st) && u < |k.slots| && Live(k.slots[u])
    ensures OwnerOf(k.slots[u].id) == u
  {
    hide Ring, Levelled, Counted, Stacked;
  }

  /** The promotion asked for puts that slot at the level given by the depth of the stack, one above everything else,
      and leaves every other priority as it was, until and after the scheduling. */
  lemma AskedIsRaised(k: Kernel, st: seq<nat>, mutex: nat, word: nat, mem: Memory, r: Kernel)
    requires Inv(k, st) && mutex != 0 && OwnerOf(word) < |k.slots| && Attempt(k, word).Asks?
    requires Step(k, Promote(mutex, OwnerOf(word)), mem, r)
    ensures |r.slots| == |k.slots| && r.maxLevel == r.slots[OwnerOf(word)].prio == 128 + |st|
    ensures forall u :: 0 <= u < |k.slots| && u != OwnerOf(word) ==> r.slots[u].prio == k.slots[u].prio < 128 + |st|
  {
    hide Inv, Step, Attempt;
    var o := OwnerOf(word);
    StepKeeps(k, st, Promote(mutex, o), mem, r);
    StackLevels(r, st + [o]);
    StepFields(k, st, Promote(mutex, o), mem, r, o);
    forall u | 0 <= u < |k.slots|
      ensures |r.slots| == |k.slots| && r.slots[u].prio == (if u == o then 128 + |st| else k.slots[u].prio)
    {
      StepFields(k, st, Promote(mutex, o), mem, r, u);
    }
    StackLevels(k, st);
  }

  /** The last one promoted is at the top level, and nobody is above. */
  lemma StackLevels(k: Kernel, st: seq<nat>)
    requires Inv(k, st)
    ensures st != [] ==> k.maxLevel == 127 + |st|
    ensures forall u :: 0 <= u < |k.slots| ==> k.slots[u].prio < 128 + |st|
  {
    hide Ring, Levelled, Counted, Named;
    forall u | 0 <= u < |k.slots| ensures k.slots[u].prio < 128 + |st| {
      if u in st {
        var m :| 0 <= m < |st| && st[m] == u;
        assert k.slots[st[m]].prio == 128 + m;
      }
    }
  }

  /** An attempt is repeated at once, without a service and without being counted, exactly if both the caller and the
      holder are promoted, the holder below the caller. */
  lemma AgainExactly(k: Kernel, st: seq<nat>, word: nat)
    requires Inv(k, st) && Settled(k) && OwnerOf(word) < |k.slots|
    ensures Attempt(k, word).Again? <==>
            st != [] && st[|st| - 1] == k.current && OwnerOf(word) in st[..|st| - 1]
  {
  }

  /** That is a deadlock: from there on, over every run in which the caller's promotion is not given back, the holder
      never runs. */
  lemma HolderNeverRuns(ks: seq<Kernel>, sts: seq<seq<nat>>, es: seq<Event>, ms: seq<Memory>, i: nat, j: nat, word: nat)
    requires Run(ks, sts, es, ms) && Inv(ks[0], sts[0]) && i <= j <= |es|
    requires OwnerOf(word) < |ks[i].slots|
    requires ks[i].current < |ks[i].slots| && Attempt(ks[i], word).Again?
    requires forall x :: i <= x <= j ==> |sts[x]| >= |sts[i]|
    ensures ks[j].current != OwnerOf(word)
  {
    hide Inv, Step, Attempt, Shift;
    RunKeeps(ks, sts, es, ms, i);
    RunKeeps(ks, sts, es, ms, j);
    InvIsSettled(ks[i], sts[i]);
    AgainExactly(ks[i], sts[i], word);
    forall x | i <= x < j ensures Shift(sts[x], sts[x + 1]) {
      MoveShifts(ks[x], sts[x], es[x], ms[x], ks[x + 1], sts[x + 1]);
    }
    StackGrowsFrom(sts, i, j);
    var m :| 0 <= m < |sts[i]| - 1 && sts[i][..|sts[i]| - 1][m] == OwnerOf(word);
    assert sts[j][m] == sts[j][..|sts[i]|][m];
    BelowTopNotCurrent(ks[j], sts[j], m);
  }

  lemma InvIsSettled(k: Kernel, st: seq<nat>)
    requires Inv(k, st)
    ensures Settled(k)
  {
  }

  lemma BelowTopNotCurrent(k: Kernel, st: seq<nat>, m: nat)
    requires Inv(k, st) && m < |st| - 1
    ensures k.current != st[m]
  {
    hide Ring, Levelled, Counted, Named;
    assert k.slots[st[m]].prio == 128 + m && k.slots[st[|st| - 1]].prio == 127 + |st|;
  }

  // ----- what a promotion is for

  /** If the owner is runnable, the scheduling after the promotion has a result, and in every result it is the owner who
      runs, and may give the promotion back, since it keeps the mutex. */
  lemma OwnerRunsNext(k: Kernel, st: seq<nat>, mutex: nat, owner: nat, mem: Memory)
    requires Inv(k, st) && Settled(k) && CanPromote(k, mutex, owner) && k.slots[owner].state == Sleep
    ensures exists r :: Step(k, Promote(mutex, owner), mem, r)
    ensures forall r :: Step(k, Promote(mutex, owner), mem, r) ==>
              r.current == owner < |r.slots| && Inv(r, st + [owner]) && r.slots[owner].mutex != 0
  {
    assert k.current < |k.slots| && owner < |k.slots|;
    hide Inv, Step, CanPromote;
    SomeRuns(k, st, mutex, owner, mem);
    forall r | Step(k, Promote(mutex, owner), mem, r) ensures r.current == owner < |r.slots| && Inv(r, st + [owner]) &&
        r.slots[owner].mutex != 0 {
      OnlyOwnerRuns(k, st, mutex, owner, mem, r);
    }
  }

  lemma SomeRuns(k: Kernel, st: seq<nat>, mutex: nat, owner: nat, mem: Memory)
    requires Inv(k, st) && Settled(k) && CanPromote(k, mutex, owner) && k.slots[owner].state == Sleep
    ensures exists r :: Step(k, Promote(mutex, owner), mem, r)
  {
    hide Core, Selectable, Scheduled, Picked, Awake, Promoted;
    var e := Promote(mutex, owner);
    EffectEnds(k, st, e);
    var m := Effect(k, e);
    CoreRing(m, st + [owner]);
    OwnerOnTop(k, st, mutex, owner, mem);
    RivalSelects(Awake(m, mem), owner);
    ScheduleEnds(m, mem, st + [owner]);
    var s :| Scheduled(m, mem, s);
    assert Step(k, e, mem, s);
  }

  lemma OnlyOwnerRuns(k: Kernel, st: seq<nat>, mutex: nat, owner: nat, mem: Memory, r: Kernel)
    requires k.current < |k.slots| && owner < |k.slots|
    requires Inv(k, st) && CanPromote(k, mutex, owner) && k.slots[owner].state == Sleep
    requires Step(k, Promote(mutex, owner), mem, r)
    ensures r.current == owner < |r.slots| && Inv(r, st + [owner]) && r.slots[owner].mutex != 0
  {
    hide Inv, Step, Core, Scheduled, CanPromote, Promoted, Between, Awake;
    var e, m := Promote(mutex, owner), Promoted(k, mutex, owner);
    StepSchedules(k, st, mutex, owner, mem, r);
    OwnerOnTop(k, st, mutex, owner, mem);
    StepKeeps(k, st, e, mem, r);
    StackedTop(m, st + [owner]);
    OwnerSelected(m, st + [owner], owner, mem, r);
    OwnerHolds(r, st + [owner], owner);
  }

  lemma StepSchedules(k: Kernel, st: seq<nat>, mutex: nat, owner: nat, mem: Memory, r: Kernel)
    requires Inv(k, st) && Step(k, Promote(mutex, owner), mem, r)
    ensures var m := Promoted(k, mutex, owner);
            Core(m, st + [owner]) && Between(m) && m.current < |m.slots| && Scheduled(m, mem, r)
  {
    hide Inv, Core, Scheduled, Between;
    EffectEnds(k, st, Promote(mutex, owner));
  }

  lemma StackedTop(m: Kernel, st: seq<nat>)
    requires Core(m, st)
    ensures st != [] ==> InPromotion(m)
  {
  }

  lemma RivalSelects(p: Kernel, u: nat)
    requires Rival(p, u)
    ensures Selectable(p)
  {
  }

  lemma OwnerOnTop(k: Kernel, st: seq<nat>, mutex: nat, owner: nat, mem: Memory)
    requires Inv(k, st) && CanPromote(k, mutex, owner) && k.slots[owner].state == Sleep
    ensures Rival(Awake(Promoted(k, mutex, owner), mem), owner)
  {
    hide Ring, Levelled, Counted, Named;
    var q := Prepared(Promoted(k, mutex, owner));
    assert Awake(Promoted(k, mutex, owner), mem).slots[owner] == Wake(q.slots[owner], mem);
  }

  lemma OwnerSelected(m: Kernel, st: seq<nat>, owner: nat, mem: Memory, r: Kernel)
    requires Core(m, st) && Between(m) && InPromotion(m) && Rival(Awake(m, mem), owner) && Scheduled(m, mem, r)
    ensures r.current == owner
  {
    hide Ring, Levelled, Counted, Named, Stacked, Awake;
    var p := Awake(m, mem);
    AwakeSame(m, mem);
    SameStacked(m, p, st);
    TopIsHigh(p, st);
    var t: nat, level: nat :| t < |p.slots| && Picked(p, t, level) && r == Resumed(p, t, level);
    assert Rival(p, t);
    OneStackedTask(p, st, t, owner);
  }

  /** The first promotion also switches the timer off while the owner runs: it counts as the only task at the top. */
  lemma OwnerUndisturbed(k: Kernel, mutex: nat, owner: nat, mem: Memory, r: Kernel)
    requires Inv(k, []) && CanPromote(k, mutex, owner) && k.slots[owner].state == Sleep
    requires Step(k, Promote(mutex, owner), mem, r)
    ensures !r.timer
  {
    assert k.current < |k.slots| && owner < |k.slots|;
    hide Core, Scheduled, Picked, Promoted, CanPromote;
    OnlyOwnerRuns(k, [], mutex, owner, mem, r);
    NobodyDue(k, mutex, owner, mem);
    var m := Promoted(k, mutex, owner);
    StepSchedules(k, [], mutex, owner, mem, r);
    AwakeCounts(m, mem);
    var p := Awake(m, mem);
    OwnerOnTop(k, [], mutex, owner, mem);
    PickedAtTop(m, mem, r, owner);
  }

  lemma PickedAtTop(m: Kernel, mem: Memory, r: Kernel, owner: nat)
    requires m.current < |m.slots| && Scheduled(m, mem, r) && Rival(Awake(m, mem), owner)
    ensures r.timer <==> !(Awake(m, mem).alc == 1 && Awake(m, mem).hlc == 0)
  {
    hide Awake;
    var p := Awake(m, mem);
    var t: nat, level: nat :| t < |p.slots| && Picked(p, t, level) && r == Resumed(p, t, level);
    assert Rival(p, t);
  }

  lemma AwakeCounts(m: Kernel, mem: Memory)
    requires m.current < |m.slots| && m.alc < 256 && m.hlc < 256 && !m.normal
    requires forall u :: 0 <= u < |m.slots| ==> !DueAt(m.maxLevel, mem)(m.slots[u])
    ensures Awake(m, mem).alc == m.alc && Awake(m, mem).hlc == m.hlc
  {
    CountPositive(m.slots, DueAt(m.maxLevel, mem));
    assert Prepared(m).slots == m.slots;
  }

  lemma NobodyDue(k: Kernel, mutex: nat, owner: nat, mem: Memory)
    requires Inv(k, []) && CanPromote(k, mutex, owner) && k.slots[owner].state == Sleep
    ensures var m := Promoted(k, mutex, owner);
            && m.alc == 1 && m.hlc == 0 && !m.normal && m.current < |m.slots|
            && forall u :: 0 <= u < |m.slots| ==> !DueAt(m.maxLevel, mem)(m.slots[u])
  {
    hide Ring, Levelled, Counted, Named;
    RaisedAboveAll(k, mutex, owner);
  }

  lemma TopIsHigh(p: Kernel, st: seq<nat>)
    requires Stacked(p, st) && InPromotion(p)
    ensures p.maxLevel > 126
  {
  }

  lemma OwnerHolds(r: Kernel, st: seq<nat>, owner: nat)
    requires Inv(r, st) && owner in st && r.current == owner
    ensures owner < |r.slots| && r.slots[owner].mutex != 0
  {
  }
}
