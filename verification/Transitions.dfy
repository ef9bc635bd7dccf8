/** Each service keeps the invariant: promotion and demotion, creation and kill, and the services that only settle the
    current task's state. */
module Transitions {
  import opened Slots
  import opened JumpList
  import opened LevelStash
  import opened Services
  import opened Invariant

  // ----- settling the current task

  lemma HandOverSame(k: Kernel)
    requires SmallFields(k) && Running(k)
    ensures SameTasks(k, HandedOver(k)) && Between(HandedOver(k))
  {
  }

  lemma HandOverKeeps(k: Kernel, st: seq<nat>)
    requires Inv(k, st)
    ensures Core(HandedOver(k), st) && Between(HandedOver(k))
  {
    HandOverSame(k);
    SameCore(k, HandedOver(k), st);
  }

  lemma HibernateSame(k: Kernel, reverse: bool, op1: nat, op2: nat, value: nat)
    requires SmallFields(k) && Running(k)
    ensures SameTasks(k, Hibernated(k, reverse, op1, op2, value)) && Between(Hibernated(k, reverse, op1, op2, value))
  {
    SumKept(k.alc, k.hlc, -1);
  }

  lemma HibernateKeeps(k: Kernel, st: seq<nat>, reverse: bool, op1: nat, op2: nat, value: nat)
    requires Inv(k, st)
    ensures Core(Hibernated(k, reverse, op1, op2, value), st) && Between(Hibernated(k, reverse, op1, op2, value))
  {
    HibernateSame(k, reverse, op1, op2, value);
    SameCore(k, Hibernated(k, reverse, op1, op2, value), st);
  }

  // ----- promotion

  /** At most as many distinct slots are promoted as there are slots. */
  lemma {:induction false} Pigeonhole(st: seq<nat>, n: nat)
    requires forall i :: 0 <= i < |st| ==> st[i] < n
    requires forall i, j :: 0 <= i < j < |st| ==> st[i] != st[j]
    ensures |st| <= n
    decreases n
  {
    if st != [] {
      assert st[0] < n;
      if i :| 0 <= i < |st| && st[i] == n - 1 {
        Pigeonhole(st[..i] + st[i + 1..], n - 1);
      } else {
        Pigeonhole(st, n - 1);
      }
    }
  }

  lemma DepthBound(k: Kernel, st: seq<nat>, owner: nat)
    requires Stacked(k, st) && owner < |k.slots| && owner !in st
    ensures |st| < |k.slots|
  {
    var all := st + [owner];
    forall i, j | 0 <= i < j < |all| ensures all[i] != all[j] {
      if j < |st| { assert k.slots[st[i]].prio != k.slots[st[j]].prio; }
    }
    Pigeonhole(all, |k.slots|);
  }

  /** What a promotion needs to keep the invariant: the owner is another live task that is not promoted already. Of this
      `spin_lock` checks that the owner's priority is lower than the caller's and not promoted, but not that the slot is
      live. */
  ghost predicate CanPromote(k: Kernel, mutex: nat, owner: nat) {
    && mutex != 0 && owner < |k.slots| && owner != k.current
    && Live(k.slots[owner]) && k.slots[owner].prio <= 126
  }

  lemma PromoteStacked(k: Kernel, st: seq<nat>, mutex: nat, owner: nat)
    requires SmallFields(k) && Stacked(k, st) && CanPromote(k, mutex, owner) && |k.slots| <= 127
    requires Live(k.slots[k.current]) && (!InPromotion(k) ==> k.maxLevel <= 126)
    ensures Stacked(Promoted(k, mutex, owner), st + [owner])
  {
    assert owner !in st;
    DepthBound(k, st, owner);
    var r := Promoted(k, mutex, owner);
    var st' := st + [owner];
    forall m | 0 <= m < |st'|
      ensures st'[m] < |r.slots| && Live(r.slots[st'[m]]) && r.slots[st'[m]].prio == 128 + m &&
          r.slots[st'[m]].saved <= 126
    {
      if m < |st| { assert k.slots[st[m]].prio == 128 + m; }
    }
    forall u | 0 <= u < |r.slots|
      ensures (r.slots[u].prio > 126 ==> u in st') && (r.slots[u].mutex != 0 <==> u in st')
    {
      if u != owner { assert u in st' <==> u in st; }
    }
  }

  lemma PromoteLevels(k: Kernel, st: seq<nat>, mutex: nat, owner: nat)
    requires SmallFields(k) && Stacked(k, st) && CanPromote(k, mutex, owner) && |k.slots| <= 127
    requires Live(k.slots[k.current]) && (!InPromotion(k) ==> k.maxLevel <= 126)
    requires CountsTop(k)
    ensures var r := Promoted(k, mutex, owner);
            SameLevels(k, r) && SmallFields(r) && CountsTop(r)
  {
    assert owner !in st;
    DepthBound(k, st, owner);
    var r := Promoted(k, mutex, owner);
    assert Byte(1) == 1;
    assert InPromotion(r) && r.maxLevel == 128 + |st|;
  }

  lemma UserTopSmall(k: Kernel)
    requires Levelled(k)
    ensures UserTop(k) <= 126
  {
    var u :| 0 <= u < |k.slots| && Live(k.slots[u]) && Level(k.slots[u]) == UserTop(k);
    var i :| 0 <= i < k.lstash && k.stash[..k.lstash][i] == Level(k.slots[u]);
    assert k.stash[i] <= 126;
  }

  lemma PromoteBetween(k: Kernel, mutex: nat, owner: nat)
    requires SmallFields(k) && Running(k) && CanPromote(k, mutex, owner)
    ensures Between(Promoted(k, mutex, owner))
  {
  }

  /** A promotion pushes its owner. */
  lemma PromoteKeeps(k: Kernel, st: seq<nat>, mutex: nat, owner: nat)
    requires Inv(k, st) && CanPromote(k, mutex, owner)
    ensures Core(Promoted(k, mutex, owner), st + [owner]) && Between(Promoted(k, mutex, owner))
  {
    UserTopSmall(k);
    PromoteStacked(k, st, mutex, owner);
    PromoteLevels(k, st, mutex, owner);
    PromoteBetween(k, mutex, owner);
    SameLevelsCore(k, st, Promoted(k, mutex, owner), st + [owner]);
  }

  // ----- demotion

  /** Demotion up to and including the hand-over it rewrites itself to. */
  function Stepped(k: Kernel): Kernel
    requires k.current < |k.slots|
  {
    HandedOver(Demoted(k))
  }

  /** The slots after a demotion, one by one: only the current task's priorities and one held task's state change. */
  lemma DemotedSlots(k: Kernel)
    requires k.current < |k.slots|
    ensures |Demoted(k).slots| == |k.slots|
    ensures forall i :: 0 <= i < |k.slots| && i != k.current ==> SameTask(k.slots[i], Demoted(k).slots[i])
    ensures forall i :: 0 <= i < |k.slots| && i != k.current ==>
              Demoted(k).slots[i].state == k.slots[i].state || Demoted(k).slots[i].state == Sleep
    ensures var c, d := k.slots[k.current], Demoted(k).slots[k.current];
            && d.prio == c.saved && d.saved == 0 && d.mutex == 0 && d.jmp == c.jmp && d.id == c.id && d.obj == c.obj
            && (d.state == c.state || (c.state == Hold && d.state == Sleep))
  {
    var c := k.slots[k.current];
    var low := k.slots[k.current := c.(prio := c.saved, saved := 0)];
    var i := Holder(low, c.mutex, 0);
  }

  /** What a demotion does to the levels and counters of a stack of the given depth. */
  lemma DemotedFields(k: Kernel, depth: nat)
    requires k.current < |k.slots| && 0 < depth <= 128 && k.maxLevel == 127 + depth
    ensures var r := Demoted(k);
            && r.current == k.current && r.next == k.next && r.stash == k.stash && r.lstash == k.lstash
            && r.taskCount == k.taskCount && r.totalCount == k.totalCount && r.alcp == k.alcp && r.hlcp == k.hlcp
            && r.maxLevel == (if depth == 1 then k.maxpLevel else 126 + depth)
            && r.maxpLevel == (if depth == 1 then NO_PROMOTION else k.maxpLevel)
            && r.alc == (if depth == 1 then k.alcp else k.alc) && r.hlc == (if depth == 1 then k.hlcp else k.hlc)
  {
    hide Woken;
  }

  lemma DemotedOther(k: Kernel, st: seq<nat>, u: nat)
    requires Stacked(k, st) && st != [] && k.current == st[|st| - 1] && u < |k.slots| && u != k.current
    requires |Demoted(k).slots| == |k.slots| && SameTask(k.slots[u], Demoted(k).slots[u])
    ensures var r, rest := Demoted(k).slots[u], st[..|st| - 1];
            (r.prio > 126 ==> u in rest) && (r.mutex != 0 <==> u in rest)
  {
    hide Demoted;
    var rest := st[..|st| - 1];
    assert st == rest + [k.current];
    assert u in st <==> u in rest;
  }

  lemma DemotedTop(k: Kernel, st: seq<nat>, m: nat)
    requires Stacked(k, st) && st != [] && k.current == st[|st| - 1] && m < |st| - 1
    ensures st[m] != k.current && k.current !in st[..|st| - 1]
  {
    assert k.slots[st[m]].prio == 128 + m && k.slots[k.current].prio == 127 + |st|;
    forall x | 0 <= x < |st| - 1 ensures st[x] != k.current { assert k.slots[st[x]].prio == 128 + x; }
  }

  lemma DemoteStacked(k: Kernel, st: seq<nat>)
    requires SmallFields(k) && Stacked(k, st) && st != [] && k.current == st[|st| - 1] && k.maxLevel < 256
    requires k.slots[k.current].state == Active && k.maxpLevel <= 126
    ensures Stacked(Demoted(k), st[..|st| - 1])
  {
    hide Demoted, SmallFields;
    DemotedSlots(k);
    DemotedFields(k, |st|);
    var r := Demoted(k);
    var rest := st[..|st| - 1];
    forall m | 0 <= m < |rest|
      ensures rest[m] < |r.slots| && Live(r.slots[rest[m]]) && r.slots[rest[m]].prio == 128 + m &&
          r.slots[rest[m]].saved <= 126
    {
      DemotedTop(k, st, m);
      assert SameTask(k.slots[st[m]], r.slots[st[m]]);
    }
    forall u | 0 <= u < |r.slots|
      ensures (r.slots[u].prio > 126 ==> u in rest) && (r.slots[u].mutex != 0 <==> u in rest)
    {
      if u == k.current {
        if |st| > 1 { DemotedTop(k, st, 0); }
      } else {
        DemotedOther(k, st, u);
      }
    }
  }

  lemma DemoteLevels(k: Kernel, st: seq<nat>)
    requires SmallFields(k) && Stacked(k, st) && st != [] && k.current == st[|st| - 1]
    requires k.slots[k.current].state == Active && k.maxpLevel <= 126 && CountsTop(k)
    ensures var r := Demoted(k);
            SameLevels(k, r) && SmallFields(r) && CountsTop(r)
  {
    hide Demoted, Byte;
    assert k.slots[k.current].prio == 127 + |st|;
    DemotedSlots(k);
    DemotedFields(k, |st|);
    var r := Demoted(k);
    hide Stacked;
    forall i | 0 <= i < |k.slots|
      ensures && (Live(k.slots[i]) <==> Live(r.slots[i])) && k.slots[i].jmp == r.slots[i].jmp
              && Level(k.slots[i]) == Level(r.slots[i]) && k.slots[i].id == r.slots[i].id &&
                  k.slots[i].obj == r.slots[i].obj
    {
      if i != k.current { assert SameTask(k.slots[i], r.slots[i]); }
    }
  }

  lemma DemoteRunning(k: Kernel)
    requires k.current < |k.slots| && Running(k)
    ensures Running(Demoted(k))
  {
    DemotedSlots(k);
  }

  /** Only the top of the stack can be demoted, and a demotion pops it. */
  lemma DemoteKeeps(k: Kernel, st: seq<nat>)
    requires Inv(k, st) && k.slots[k.current].mutex != 0
    ensures st != [] && k.current == st[|st| - 1]
    ensures Core(Stepped(k), st[..|st| - 1]) && Between(Stepped(k))
  {
    UserTopSmall(k);
    DemoteStacked(k, st);
    DemoteLevels(k, st);
    var r := Demoted(k);
    SameLevelsCore(k, st, r, st[..|st| - 1]);
    DemoteRunning(k);
    HandOverSame(r);
    SameCore(r, HandedOver(r), st[..|st| - 1]);
  }

  // ----- creation

  /** A creation the kernel accepts and that is meant to be: user priority at most 126, hibernate bit clear, an object
      that is not running yet, fewer than 65535 creations so far and no promotion in force. */
  ghost predicate Welcome(k: Kernel, t: Task) {
    && Shaped(k) && Searchable(k) && Admission(k, t) == NoError && !InPromotion(k)
    && t.prio <= 126 && !t.hibernate && t.addr != 0 && k.totalCount < 65535
    && (forall i :: 0 <= i < |k.slots| ==> k.slots[i].obj != t.addr)
  }

  /** Its level is listed, or there is room for it and the search finds its place. */
  ghost predicate CanCreate(k: Kernel, t: Task) {
    && Welcome(k, t)
    && (Listed(k.stash, k.lstash, t.prio) || (!Full(k.stash, k.lstash) && !Misplaced(k.stash, k.lstash, t.prio)))
  }

  /** Everything but the link. */
  predicate Unmoved(s: Slot, r: Slot) {
    r == s.(jmp := r.jmp)
  }

  lemma LinkedSlots(t: seq<Slot>, i: nat, s: Slot)
    requires 0 < i < |t|
    ensures |Link(t, i, s)| == |t| && Unmoved(s, Link(t, i, s)[i])
    ensures forall j :: 0 <= j < |t| && j != i ==> Unmoved(t[j], Link(t, i, s)[j])
  {
  }

  /** Adding one slot that satisfies p to the count, the links being immaterial. */
  lemma LinkedCount(t: seq<Slot>, i: nat, s: Slot, p: Slot -> bool)
    requires 0 < i < |t| && !p(t[i])
    requires forall x, y :: Unmoved(x, y) ==> (p(x) <==> p(y))
    ensures Count(Link(t, i, s), p) == Count(t, p) + Bit(p(s))
  {
    LinkedSlots(t, i, s);
    var r := Link(t, i, s);
    CountUpdate(t, i, r[i], p);
    SameCount(t[i := r[i]], r, p);
    assert Unmoved(s, r[i]);
  }

  /** The table after a creation: the new task in the first idle slot, every other slot unmoved. */
  lemma CreatedSlots(k: Kernel, t: Task, i: nat)
    requires Welcome(k, t) && Ring(k.slots) && i == FirstIdle(k.slots)
    ensures 0 < i < |k.slots| && !Live(k.slots[i]) && Live(k.slots[i - 1])
    ensures NewSlot(k, i, t).state == Sleep
    ensures Created(k, t).slots == Link(k.slots, i, NewSlot(k, i, t))
    ensures |Created(k, t).slots| == |k.slots| && Unmoved(NewSlot(k, i, t), Created(k, t).slots[i])
    ensures forall j :: 0 <= j < |k.slots| && j != i ==> Unmoved(k.slots[j], Created(k, t).slots[j])
  {
    LinkedSlots(k.slots, i, NewSlot(k, i, t));
  }

  lemma CreatedTop(k: Kernel, t: Task, i: nat)
    requires CanCreate(k, t) && Ring(k.slots) && i == FirstIdle(k.slots)
    requires forall u :: 0 <= u < |k.slots| && Live(k.slots[u]) ==> k.slots[u].prio <= k.maxLevel
    ensures Created(k, t).maxLevel == if t.prio > k.maxLevel then t.prio else k.maxLevel
  {
    CreatedSlots(k, t, i);
    var r := Created(k, t);
    assert Live(r.slots[i]) && r.slots[i].prio == t.prio;
    assert forall u :: 0 <= u < |k.slots| && u != i ==>
      r.slots[u].state == k.slots[u].state && r.slots[u].prio == k.slots[u].prio;
  }

  lemma CreatedShape(k: Kernel, t: Task)
    requires CanCreate(k, t) && Ring(k.slots)
    requires forall u :: 0 <= u < |k.slots| && Live(k.slots[u]) ==> k.slots[u].prio <= k.maxLevel
    ensures Ring(Created(k, t).slots) && Shaped(Created(k, t))
  {
    var i := FirstIdle(k.slots);
    CreatedSlots(k, t, i);
    CreatedTop(k, t, i);
    LinkKeepsRing(k.slots, i, NewSlot(k, i, t));
    LinkedCount(k.slots, i, NewSlot(k, i, t), Live);
  }

  lemma CreatedStacked(k: Kernel, t: Task)
    requires CanCreate(k, t) && Ring(k.slots) && Stacked(k, [])
    ensures Stacked(Created(k, t), [])
  {
    var i := FirstIdle(k.slots);
    CreatedSlots(k, t, i);
    var r := Created(k, t);
    forall u | 0 <= u < |r.slots| ensures r.slots[u].prio <= 126 && r.slots[u].mutex == 0 {
      if u != i { assert Unmoved(k.slots[u], r.slots[u]); }
    }
  }

  lemma AddedSmall(a: seq<nat>, n: nat, b: seq<nat>, m: nat, p: nat)
    requires n <= |a| && m <= |b| && p <= 126
    requires forall x :: x in b[..m] <==> x in a[..n] || x == p
    requires forall i :: 0 <= i < n ==> a[i] <= 126
    ensures forall i :: 0 <= i < m ==> b[i] <= 126
  {
    forall i | 0 <= i < m ensures b[i] <= 126 {
      assert b[..m][i] == b[i];
      if b[i] != p {
        assert b[i] in b[..m];
        var x :| 0 <= x < n && a[..n][x] == b[i];
        assert a[x] <= 126;
      }
    }
  }

  lemma CreatedStash(k: Kernel, t: Task)
    requires CanCreate(k, t)
    requires forall i :: 0 <= i < k.lstash ==> k.stash[i] <= 126
    ensures var r := Created(k, t);
            && |r.stash| == |k.stash| && Sorted(r.stash, r.lstash)
            && (forall i :: 0 <= i < r.lstash ==> r.stash[i] <= 126)
            && (forall x :: x in r.stash[..r.lstash] <==> x in k.stash[..k.lstash] || x == t.prio)
  {
    AddKeepsSorted(k.stash, k.lstash, t.prio);
    AddLists(k.stash, k.lstash, t.prio);
    var (b, m) := Added(k.stash, k.lstash, t.prio);
    AddedSmall(k.stash, k.lstash, b, m, t.prio);
  }

  lemma CreatedLevelled(k: Kernel, t: Task)
    requires CanCreate(k, t) && Ring(k.slots) && Levelled(k)
    requires forall u :: 0 <= u < |k.slots| && Live(k.slots[u]) ==> k.slots[u].prio <= k.maxLevel <= 126
    ensures Levelled(Created(k, t))
  {
    var i := FirstIdle(k.slots);
    CreatedSlots(k, t, i);
    CreatedTop(k, t, i);
    CreatedStash(k, t);
    LevelledGrows(k, Created(k, t), i);
  }

  /** One more live slot, at a level that is listed now, and nothing else changed. */
  lemma LevelledGrows(k: Kernel, r: Kernel, i: nat)
    requires Levelled(k) && 0 < i < |k.slots| == |r.slots| && Live(r.slots[i]) && r.slots[i].prio <= 126
    requires forall j :: 0 <= j < |k.slots| && j != i ==> Unmoved(k.slots[j], r.slots[j])
    requires |r.stash| == |r.slots| + 1 && Sorted(r.stash, r.lstash)
    requires forall x :: 0 <= x < r.lstash ==> r.stash[x] <= 126
    requires forall x :: x in k.stash[..k.lstash] || x == r.slots[i].prio ==> x in r.stash[..r.lstash]
    requires !InPromotion(k) && !InPromotion(r) && !Live(k.slots[i])
    requires r.maxLevel == if r.slots[i].prio > k.maxLevel then r.slots[i].prio else k.maxLevel
    ensures Levelled(r)
  {
    forall u | 0 <= u < |r.slots| && Live(r.slots[u])
      ensures Level(r.slots[u]) in r.stash[..r.lstash] && Level(r.slots[u]) <= UserTop(r)
    {
      assert u != i ==> Level(r.slots[u]) == Level(k.slots[u]) && Live(k.slots[u]);
    }
    var u :| 0 <= u < |k.slots| && Live(k.slots[u]) && Level(k.slots[u]) == UserTop(k);
    var v := if r.slots[i].prio > k.maxLevel then i else u;
    assert Live(r.slots[v]) && Level(r.slots[v]) == UserTop(r);
  }

  /** The counters follow the count of live tasks at the top level; they stay below 255, so nothing wraps. */
  lemma TallySum(alc: nat, hlc: nat, raised: bool, here: bool)
    requires Byte(alc + hlc) < 255 && (raised ==> here)
    ensures Byte(Tally(alc, hlc, raised, here, false).0 + Tally(alc, hlc, raised, here, false).1) ==
            if raised then 1 else Byte(alc + hlc) + Bit(here)
  {
    var a, h := if raised then 0 else alc, if raised then 0 else hlc;
    ByteSum(a + Bit(here), h);
    ByteNext(a + h, Bit(here));
  }

  lemma ByteSum(x: nat, y: nat)
    ensures Byte(Byte(x) + Byte(y)) == Byte(x + y)
  {
    ByteShift(x + y, -(x / 256) - y / 256);
    assert x + y + 256 * (-(x / 256) - y / 256) == Byte(x) + Byte(y);
  }

  lemma ByteNext(x: nat, d: nat)
    requires d <= 1 && Byte(x) < 255
    ensures Byte(x + d) == Byte(x) + d
  {
  }

  lemma CreatedSum(k: Kernel, t: Task)
    requires CanCreate(k, t) && Ring(k.slots) && UserSum(k) < 255
    requires forall u :: 0 <= u < |k.slots| && Live(k.slots[u]) ==> k.slots[u].prio <= k.maxLevel
    ensures UserSum(Created(k, t)) == if t.prio > k.maxLevel then 1 else UserSum(k) + Bit(t.prio == k.maxLevel)
  {
    hide Ring, Sorted, Misplaced, Search, Byte, Tally, Link, Added;
    var i := FirstIdle(k.slots);
    CreatedSlots(k, t, i);
    CreatedTop(k, t, i);
    HibernateBitNeverSet(Created(k, t).slots[i].state);
    TallySum(k.alc, k.hlc, t.prio > k.maxLevel, t.prio == Created(k, t).maxLevel);
  }

  lemma CreatedCount(k: Kernel, t: Task, level: nat)
    requires CanCreate(k, t) && Ring(k.slots)
    ensures Count(Created(k, t).slots, LiveLevel(level)) == Count(k.slots, LiveLevel(level)) + Bit(t.prio == level)
  {
    var i := FirstIdle(k.slots);
    CreatedSlots(k, t, i);
    LinkedCount(k.slots, i, NewSlot(k, i, t), LiveLevel(level));
  }

  lemma CreatedCounted(k: Kernel, t: Task)
    requires CanCreate(k, t) && Ring(k.slots) && Counted(k)
    requires forall u :: 0 <= u < |k.slots| && Live(k.slots[u]) ==> k.slots[u].prio <= k.maxLevel <= 126
    ensures Counted(Created(k, t))
  {
    hide Ring, Sorted, Misplaced, Search;
    CreatedTop(k, t, FirstIdle(k.slots));
    CreatedSum(k, t);
    CreatedCount(k, t, Created(k, t).maxLevel);
    if t.prio > k.maxLevel {
      assert forall u :: 0 <= u < |k.slots| ==> !LiveLevel(t.prio)(k.slots[u]);
      CountPositive(k.slots, LiveLevel(t.prio));
    }
  }

  lemma NewIdFacts(i: nat, total: nat)
    requires total < 65535
    ensures MakeId(i, total) / 0x1_0000 == i && MakeId(i, total) % 0x1_0000 == total + 1
  {
  }

  /** A slot gets an id and an object that no live slot has. */
  lemma NamedGrows(k: Kernel, r: Kernel, i: nat)
    requires Named(k) && i < |k.slots| == |r.slots| && !Live(k.slots[i]) && Live(r.slots[i])
    requires forall j :: 0 <= j < |k.slots| && j != i ==> Unmoved(k.slots[j], r.slots[j])
    requires r.totalCount == k.totalCount + 1
    requires r.slots[i].id / 0x1_0000 == i && r.slots[i].id % 0x1_0000 == r.totalCount
    requires r.slots[i].obj != 0 && forall j :: 0 <= j < |k.slots| ==> k.slots[j].obj != r.slots[i].obj
    ensures Named(r)
  {
    assert forall j :: 0 <= j < |k.slots| && j != i ==>
      r.slots[j].id == k.slots[j].id && r.slots[j].obj == k.slots[j].obj && (Live(r.slots[j]) <==> Live(k.slots[j]));
    forall x, y | 0 <= x < y < |r.slots| && Live(r.slots[x]) && Live(r.slots[y])
      ensures r.slots[x].id % 0x1_0000 != r.slots[y].id % 0x1_0000 && r.slots[x].obj != r.slots[y].obj
    {
      assert x != i ==> r.slots[x].id % 0x1_0000 <= k.totalCount;
      assert y != i ==> r.slots[y].id % 0x1_0000 <= k.totalCount;
    }
  }

  lemma CreatedNamed(k: Kernel, t: Task)
    requires CanCreate(k, t) && Ring(k.slots) && Named(k)
    ensures Named(Created(k, t))
  {
    hide Ring, Sorted, Misplaced, Search;
    var i := FirstIdle(k.slots);
    CreatedSlots(k, t, i);
    NewIdFacts(i, k.totalCount);
    NamedGrows(k, Created(k, t), i);
  }

  lemma CreatedRunning(k: Kernel, t: Task)
    requires CanCreate(k, t) && Ring(k.slots) && Running(k)
    ensures Running(Created(k, t)) && TopRuns(Created(k, t), [])
  {
    var i := FirstIdle(k.slots);
    CreatedSlots(k, t, i);
    var r := Created(k, t);
    forall j | 0 <= j < |r.slots| ensures r.slots[j].state == Active <==> j == r.current {
      if j != i { assert Unmoved(k.slots[j], r.slots[j]); }
    }
  }

  lemma CreatedTimed(k: Kernel, t: Task)
    requires CanCreate(k, t) && Ring(k.slots) && Running(k) && Timed(k)
    requires forall u :: 0 <= u < |k.slots| && Live(k.slots[u]) ==> k.slots[u].prio <= k.maxLevel
    ensures Timed(Created(k, t))
  {
    hide Ring, Sorted, Misplaced, Search;
    var i := FirstIdle(k.slots);
    CreatedSlots(k, t, i);
    CreatedTop(k, t, i);
    assert Unmoved(k.slots[k.current], Created(k, t).slots[k.current]);
    HibernateBitNeverSet(Created(k, t).slots[i].state);
  }

  lemma LiveBelowTop(k: Kernel, st: seq<nat>)
    requires Levelled(k) && Stacked(k, st) && !InPromotion(k)
    ensures st == []
    ensures forall u :: 0 <= u < |k.slots| && Live(k.slots[u]) ==> k.slots[u].prio <= k.maxLevel <= 126
  {
    UserTopSmall(k);
    forall u | 0 <= u < |k.slots| && Live(k.slots[u]) ensures k.slots[u].prio <= k.maxLevel {
      assert u !in st;
      assert Level(k.slots[u]) <= UserTop(k);
    }
  }

  lemma CreateKeepsCore(k: Kernel, st: seq<nat>, t: Task)
    requires Core(k, st) && CanCreate(k, t)
    ensures st == [] && Core(Created(k, t), [])
  {
    LiveBelowTop(k, st);
    CreatedShape(k, t);
    CreatedStacked(k, t);
    CreatedLevelled(k, t);
    CreatedCounted(k, t);
    CreatedNamed(k, t);
  }

  /** A properly placed creation keeps the whole invariant. */
  lemma CreateKeeps(k: Kernel, st: seq<nat>, t: Task)
    requires Inv(k, st) && CanCreate(k, t)
    ensures st == [] && Inv(Created(k, t), [])
  {
    LiveBelowTop(k, st);
    CreateKeepsCore(k, st, t);
    CreatedRunning(k, t);
    CreatedTimed(k, t);
  }

  // ----- kill

  /** If a kill takes a level off a full list, it moves the byte behind the array into it. */
  ghost predicate Clean(k: Kernel, i: nat)
    requires i < |k.slots| && k.lstash < |k.stash|
  {
    Shared(k.slots, i) || !Full(k.stash, k.lstash) || k.stash[k.lstash] == 0
  }

  ghost predicate CanKill(k: Kernel, i: nat) {
    Killable(k, i) && !InPromotion(k) && Clean(k, i)
  }

  /** Named slot by slot: slot i is blank and idle, every other slot unmoved. */
  lemma KilledSlots(k: Kernel, i: nat, self: bool)
    requires Shaped(k) && Killable(k, i) && (k.selfKill || self ==> i == k.next)
    ensures |Killed(k, i, self).slots| == |k.slots| && Unmoved(Buried(k.slots[i]), Killed(k, i, self).slots[i])
    ensures forall j :: 0 <= j < |k.slots| && j != i ==> Unmoved(k.slots[j], Killed(k, i, self).slots[j])
    ensures Ring(Killed(k, i, self).slots)
  {
    UnlinkKeepsRing(k.slots, i, Buried(k.slots[i]));
  }

  lemma UnlinkedCount(t: seq<Slot>, r: seq<Slot>, i: nat, p: Slot -> bool)
    requires i < |t| == |r| && p(t[i]) && !p(r[i])
    requires forall j :: 0 <= j < |t| && j != i ==> Unmoved(t[j], r[j])
    requires forall x, y :: Unmoved(x, y) ==> (p(x) <==> p(y))
    ensures Count(r, p) + 1 == Count(t, p)
  {
    CountUpdate(t, i, r[i], p);
    SameCount(t[i := r[i]], r, p);
  }

  lemma KilledShape(k: Kernel, i: nat, self: bool)
    requires Shaped(k) && Killable(k, i) && (k.selfKill || self ==> i == k.next)
    requires forall u :: 0 <= u < |k.slots| && Live(k.slots[u]) ==> k.slots[u].prio <= 126
    ensures Shaped(Killed(k, i, self))
  {
    KilledSlots(k, i, self);
    var r := Killed(k, i, self);
    UnlinkedCount(k.slots, r.slots, i, Live);
    KilledNext(k, i, self);
    KilledTop(k, i, self);
  }

  lemma KilledNext(k: Kernel, i: nat, self: bool)
    requires Shaped(k) && Killable(k, i) && (k.selfKill || self ==> i == k.next)
    ensures k.selfKill || self ==> Killed(k, i, self).next == Hop(k.slots, i) < |k.slots|
  {
    hide Unlink, Removed, Shared, TopLevel, Count, Byte, Word;
    PredExists(k.slots, i);
    assert LinkOk(k.slots, i);
    if k.selfKill || self { WordSmall(Hop(k.slots, i)); }
  }

  lemma KilledTop(k: Kernel, i: nat, self: bool)
    requires Shaped(k) && Killable(k, i) && (k.selfKill || self ==> i == k.next)
    requires forall u :: 0 <= u < |k.slots| && Live(k.slots[u]) ==> k.slots[u].prio <= 126
    ensures Killed(k, i, self).maxLevel <= 126
  {
    KilledSlots(k, i, self);
    var r := Killed(k, i, self);
    assert forall u :: 0 <= u < |k.slots| && u != i ==>
      r.slots[u].state == k.slots[u].state && r.slots[u].prio == k.slots[u].prio;
  }

  /** The level goes off the list only if no other slot carries it; it is then neither 0 nor needed. */
  lemma KilledStash(k: Kernel, i: nat, self: bool)
    requires Shaped(k) && Killable(k, i) && (k.selfKill || self ==> i == k.next)
    requires Sorted(k.stash, k.lstash) && k.slots[0].prio == 0 && k.slots[i].prio in k.stash[..k.lstash]
    requires forall x :: 0 <= x < k.lstash ==> k.stash[x] <= 126
    ensures var r := Killed(k, i, self);
            && |r.stash| == |k.stash| && r.lstash <= |r.stash| && (Sorted(r.stash, r.lstash) <==> Clean(k, i))
            && (forall x :: 0 <= x < r.lstash ==> r.stash[x] <= 126)
            && (forall x :: x in r.stash[..r.lstash] <==>
                            x in k.stash[..k.lstash] && (Shared(k.slots, i) || x != k.slots[i].prio))
  {
    hide Ring, Unlink, TopLevel, Count, Byte, Word;
    if !Shared(k.slots, i) {
      assert k.slots[0].prio != k.slots[i].prio;
      var p := k.slots[i].prio;
      RemoveKeepsSorted(k.stash, k.lstash, p);
      RemovedSmall(k.stash, k.lstash, p);
    }
  }

  lemma RemovedSmall(a: seq<nat>, n: nat, p: nat)
    requires 0 < n < |a| && Listed(a, n, p) && forall i :: 0 <= i < n ==> a[i] <= 126
    ensures forall i :: 0 <= i < n - 1 ==> Removed(a, n, p)[i] <= 126
  {
  }

  lemma LevelledShrinks(k: Kernel, r: Kernel, i: nat)
    requires Levelled(k) && 0 < i < |k.slots| == |r.slots| && Live(k.slots[0]) && !Live(r.slots[i])
    requires forall j :: 0 <= j < |k.slots| && j != i ==> Unmoved(k.slots[j], r.slots[j])
    requires forall u :: 0 <= u < |k.slots| ==> k.slots[u].prio <= 126
    requires |r.stash| == |r.slots| + 1 && Sorted(r.stash, r.lstash)
    requires forall x :: 0 <= x < r.lstash ==> r.stash[x] <= 126
    requires forall x :: x in r.stash[..r.lstash] <==>
                         x in k.stash[..k.lstash] && (Shared(k.slots, i) || x != k.slots[i].prio)
    requires !InPromotion(r) && r.maxLevel == TopLevel(r.slots, 0)
    ensures Levelled(r)
  {
    forall u | 0 <= u < |r.slots| && Live(r.slots[u])
      ensures Level(r.slots[u]) in r.stash[..r.lstash] && Level(r.slots[u]) <= UserTop(r)
    {
      assert Unmoved(k.slots[u], r.slots[u]);
      assert k.slots[u].prio == k.slots[i].prio ==> Shared(k.slots, i);
    }
    assert Unmoved(k.slots[0], r.slots[0]);
    assert Live(r.slots[0]) && Level(r.slots[0]) == 0;
    if r.maxLevel != 0 {
      var u :| 0 <= u < |r.slots| && Live(r.slots[u]) && r.slots[u].prio == r.maxLevel;
      assert Unmoved(k.slots[u], r.slots[u]);
      assert Level(r.slots[u]) == UserTop(r);
    }
  }

  /** The recount takes in idle slots with a stale priority and sees no task hibernate, so it can only be too high. */
  lemma RecountEnough(t: seq<Slot>, top: nat)
    requires forall u :: 0 <= u < |t| ==> t[u].prio <= 126
    requires |t| <= 127
    ensures var sum := Byte(Byte(Count(t, AwakeAt(top))) + Byte(Count(t, AsleepAt(top))));
            Count(t, LiveLevel(top)) <= sum <= |t|
  {
    forall u | 0 <= u < |t| ensures !HibernateBit(t[u].state) { HibernateBitNeverSet(t[u].state); }
    CountMono(t, LiveLevel(top), t, AwakeAt(top));
    CountBound(t, AwakeAt(top));
    CountPositive(t, AsleepAt(top));
  }

  lemma RecountedCounted(r: Kernel)
    requires !InPromotion(r) && |r.slots| <= 127 && forall u :: 0 <= u < |r.slots| ==> r.slots[u].prio <= 126
    requires r.alc == Byte(Count(r.slots, AwakeAt(r.maxLevel))) && r.hlc == Byte(Count(r.slots, AsleepAt(r.maxLevel)))
    ensures Counted(r)
  {
    RecountEnough(r.slots, r.maxLevel);
  }

  lemma KilledCounted(k: Kernel, i: nat, self: bool)
    requires Shaped(k) && Killable(k, i) && (k.selfKill || self ==> i == k.next) && !InPromotion(k)
    requires forall u :: 0 <= u < |k.slots| ==> k.slots[u].prio <= 126
    ensures Counted(Killed(k, i, self))
  {
    KilledSlots(k, i, self);
    var r := Killed(k, i, self);
    forall u | 0 <= u < |r.slots| ensures r.slots[u].prio <= 126 {
      assert u != i ==> Unmoved(k.slots[u], r.slots[u]);
    }
    RecountedCounted(r);
  }

  lemma KilledNamed(k: Kernel, i: nat, self: bool)
    requires Shaped(k) && Killable(k, i) && (k.selfKill || self ==> i == k.next) && Named(k)
    ensures Named(Killed(k, i, self))
  {
    hide Sorted, Removed, Shared, Ring;
    KilledSlots(k, i, self);
    var r := Killed(k, i, self);
    assert forall j :: 0 <= j < |k.slots| && j != i ==>
      r.slots[j].id == k.slots[j].id && r.slots[j].obj == k.slots[j].obj && (Live(r.slots[j]) <==> Live(k.slots[j]));
    assert r.slots[i].id == 0 && r.slots[i].obj == 0 && !Live(r.slots[i]);
  }

  lemma KilledStacked(k: Kernel, i: nat, self: bool)
    requires Shaped(k) && Killable(k, i) && (k.selfKill || self ==> i == k.next) && Stacked(k, [])
    ensures Stacked(Killed(k, i, self), [])
  {
    KilledSlots(k, i, self);
    var r := Killed(k, i, self);
    forall u | 0 <= u < |r.slots| ensures r.slots[u].prio <= 126 && r.slots[u].mutex == 0 {
      assert u != i ==> Unmoved(k.slots[u], r.slots[u]);
    }
  }

  lemma KilledLevelled(k: Kernel, i: nat, self: bool)
    requires Shaped(k) && CanKill(k, i) && (k.selfKill || self ==> i == k.next) && Levelled(k)
    requires forall u :: 0 <= u < |k.slots| ==> k.slots[u].prio <= 126
    ensures Levelled(Killed(k, i, self))
  {
    assert Level(k.slots[i]) in k.stash[..k.lstash];
    KilledSlots(k, i, self);
    KilledStash(k, i, self);
    LevelledShrinks(k, Killed(k, i, self), i);
  }

  lemma KillKeepsCore(k: Kernel, st: seq<nat>, i: nat, self: bool)
    requires Core(k, st) && CanKill(k, i) && (k.selfKill || self ==> i == k.next)
    ensures st == [] && Core(Killed(k, i, self), []) && Killed(k, i, self).timer
  {
    LiveBelowTop(k, st);
    assert forall u :: 0 <= u < |k.slots| ==> k.slots[u].prio <= 126;
    KilledShape(k, i, self);
    KilledSlots(k, i, self);
    KilledLevelled(k, i, self);
    KilledStacked(k, i, self);
    KilledCounted(k, i, self);
    KilledNamed(k, i, self);
  }

  lemma KilledRunning(k: Kernel, i: nat)
    requires Shaped(k) && Killable(k, i) && Running(k) && i != k.current
    ensures Running(Killed(k, i, false))
  {
    KilledSlots(k, i, false);
    var r := Killed(k, i, false);
    assert forall j :: 0 <= j < |k.slots| && j != i ==> r.slots[j].state == k.slots[j].state;
  }

  /** Killing another task keeps the whole invariant. */
  lemma KillKeeps(k: Kernel, st: seq<nat>, i: nat)
    requires Inv(k, st) && CanKill(k, i) && i != k.current
    ensures st == [] && Inv(Killed(k, i, false), [])
  {
    KillKeepsCore(k, st, i, false);
    KilledRunning(k, i);
  }

  /** A task that ends leaves `next_task` on the ring. */
  lemma EndBetween(k: Kernel)
    requires Shaped(k) && Killable(k, k.current) && Running(k)
    ensures Between(HandedOver(Killed(k, k.current, true)))
    ensures SameTasks(Killed(k, k.current, true), HandedOver(Killed(k, k.current, true)))
  {
    hide Sorted, Removed, Shared, TopLevel, Count, Byte, Word;
    var i := k.current;
    KilledSlots(k, i, true);
    var r := Killed(k, i, true);
    assert forall j :: 0 <= j < |k.slots| && j != i ==> r.slots[j].state == k.slots[j].state;
    KilledNext(k, i, true);
    assert LinkOk(k.slots, i);
    assert Ahead(i, Hop(k.slots, i), |k.slots|) <= Ahead(i, 0, |k.slots|);
  }

  lemma EndKeeps(k: Kernel, st: seq<nat>)
    requires Inv(k, st) && CanKill(k, k.current)
    ensures st == [] && Core(HandedOver(Killed(k, k.current, true)), []) &&
        Between(HandedOver(Killed(k, k.current, true)))
  {
    KillKeepsCore(k, st, k.current, true);
    EndBetween(k);
    SameCore(Killed(k, k.current, true), HandedOver(Killed(k, k.current, true)), []);
  }
}
