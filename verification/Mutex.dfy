/** The lock word of a mutex on one core: exclusive load, exclusive store, and a byte store to unlock, interleaved with
    switches that clear the exclusive monitor (section A3.4 of the ARMv7-M Architecture Reference Manual). */
module Mutex {
  import opened Slots
  import Services
  import Invariant
  import Scheduler
  import Runs
  import Order

  /** Where a task is in the lock code: before it or after it without the lock, past the load that saw a zero byte, past
      the load of its own id, or holding the lock. */
  datatype Phase = Outside | Loaded | Armed(id: nat) | Holding

  datatype Lock = Lock(word: nat, monitor: bool, current: nat, phases: seq<Phase>)

  datatype Action = Load | Fetch | Store | Unlock | Switch(next: nat)

  /** The word after a byte of zeros has been stored. */
  function Unlocked(word: nat): nat {
    word - word % 256
  }

  /** One instruction of the current task, or an exception after which some task runs. The ids are those of all tasks
      that ever use the lock. Only the holder unlocks. */
  function Step(ids: seq<nat>, s: Lock, a: Action): (t: Lock)
    requires |s.phases| == |ids| && s.current < |ids|
    ensures |t.phases| == |ids| && t.current < |ids|
  {
    var me := s.phases[s.current];
    match a
    case Load =>
      if me != Outside then s
      else if s.word % 256 != 0 then s.(monitor := true)
      else s.(monitor := true, phases := s.phases[s.current := Loaded])
    case Fetch =>
      if me != Loaded then s else s.(phases := s.phases[s.current := Armed(ids[s.current])])
    case Store =>
      if !me.Armed? then s
      else if s.monitor then s.(word := me.id, monitor := false, phases := s.phases[s.current := Holding])
      else s.(phases := s.phases[s.current := Outside])
    case Unlock =>
      if me != Holding then s else s.(word := Unlocked(s.word), phases := s.phases[s.current := Outside])
    case Switch(next) =>
      if next < |ids| then s.(monitor := false, current := next) else s
  }

  ghost predicate Start(ids: seq<nat>, s: Lock) {
    && |s.phases| == |ids| && s.current < |ids| && s.word == 0 && !s.monitor
    && forall t :: 0 <= t < |ids| ==> s.phases[t] == Outside
  }

  function After(ids: seq<nat>, s: Lock, actions: seq<Action>): (t: Lock)
    requires |s.phases| == |ids| && s.current < |ids|
    ensures |t.phases| == |ids| && t.current < |ids|
    decreases |actions|
  {
    if actions == [] then s else After(ids, Step(ids, s, actions[0]), actions[1..])
  }

  /** At most one task holds the lock, and then the word is its id. */
  ghost predicate Exclusive(ids: seq<nat>, s: Lock)
    requires |s.phases| == |ids|
  {
    && (forall t, u :: 0 <= t < u < |ids| ==> !(s.phases[t].Holding? && s.phases[u].Holding?))
    && (forall t :: 0 <= t < |ids| && s.phases[t].Holding? ==> s.word == ids[t])
  }

  predicate Visible(ids: seq<nat>) {
    forall t :: 0 <= t < |ids| ==> ids[t] % 256 != 0
  }

  ghost predicate Inv(ids: seq<nat>, s: Lock) {
    && |s.phases| == |ids| && s.current < |ids| && Exclusive(ids, s)
    && (s.word % 256 != 0 ==> exists t :: 0 <= t < |ids| && s.phases[t].Holding?)
    && (forall t :: 0 <= t < |ids| && s.phases[t].Armed? ==> s.phases[t].id == ids[t])
    && (s.monitor && (s.phases[s.current].Loaded? || s.phases[s.current].Armed?) ==> s.word % 256 == 0)
  }

  /** Every step of every task, and every exception, keeps the invariant, provided every id has a byte the load can
      see. */
  lemma StepKeeps(ids: seq<nat>, s: Lock, a: Action)
    requires Inv(ids, s) && Visible(ids)
    ensures Inv(ids, Step(ids, s, a))
  {
    var t := Step(ids, s, a);
    assert forall u :: 0 <= u < |ids| && u != s.current ==> t.phases[u] == s.phases[u];
    ClearedByte(s.word);
    if s.word % 256 != 0 && a != Unlock {
      var u :| 0 <= u < |ids| && s.phases[u].Holding?;
      assert t.phases[u].Holding?;
    }
    if a == Store && t.word != s.word { assert t.phases[s.current].Holding?; }
  }

  lemma ClearedByte(word: nat)
    ensures Unlocked(word) % 256 == 0
  {
    assert word - word % 256 == 256 * (word / 256);
    Remainder(word / 256, 0);
  }

  lemma {:induction false} RunKeeps(ids: seq<nat>, s: Lock, actions: seq<Action>)
    requires Inv(ids, s) && Visible(ids)
    ensures Inv(ids, After(ids, s, actions))
    decreases |actions|
  {
    if actions != [] {
      StepKeeps(ids, s, actions[0]);
      RunKeeps(ids, Step(ids, s, actions[0]), actions[1..]);
    }
  }

  ghost predicate AlwaysExclusive(ids: seq<nat>) {
    forall s, actions :: Start(ids, s) ==> Exclusive(ids, After(ids, s, actions))
  }

  /** Main result: with two or more tasks, the lock excludes and its word names the holder in every interleaving if and
      only if no id has a zero low byte. */
  lemma ExclusiveExactly(ids: seq<nat>)
    requires |ids| >= 2
    ensures AlwaysExclusive(ids) <==> Visible(ids)
  {
    if Visible(ids) {
      forall s, actions | Start(ids, s) ensures Exclusive(ids, After(ids, s, actions)) {
        RunKeeps(ids, s, actions);
      }
    } else {
      var t :| 0 <= t < |ids| && ids[t] % 256 == 0;
      var u := if t == 0 then 1 else 0;
      var s := Lock(0, false, t, seq(|ids|, i => Outside));
      BothHold(ids, s, t, u);
    }
  }

  /** A task whose id has a zero low byte locks, another task runs, and locks as well. */
  lemma BothHold(ids: seq<nat>, s: Lock, t: nat, u: nat)
    requires Start(ids, s) && s.current == t && u < |ids| && u != t && ids[t] % 256 == 0
    ensures exists actions :: !Exclusive(ids, After(ids, s, actions))
  {
    var taken := [Load, Fetch, Store];
    var first := After(ids, s, taken);
    TakesFree(ids, s);
    var moved := Step(ids, first, Switch(u));
    TakesFree(ids, moved);
    Chained(ids, s, taken, [Switch(u)] + taken);
    assert ([Switch(u)] + taken)[1..] == taken;
    var end := After(ids, s, taken + ([Switch(u)] + taken));
    assert end.phases[t].Holding? && end.phases[u].Holding?;
  }

  /** Three instructions in a row take the lock exactly if its low byte is zero. */
  lemma TakesFree(ids: seq<nat>, s: Lock)
    requires |s.phases| == |ids| && s.current < |ids| && s.phases[s.current] == Outside
    ensures var t := After(ids, s, [Load, Fetch, Store]);
            && (t.phases[s.current].Holding? <==> s.word % 256 == 0)
            && t == if s.word % 256 == 0
                    then s.(word := ids[s.current], monitor := false, phases := s.phases[s.current := Holding])
                    else s.(monitor := true)
  {
    var l := [Load, Fetch, Store];
    assert l[1..] == [Fetch, Store] && l[1..][1..] == [Store] && l[1..][1..][1..] == [];
    var a := Step(ids, s, Load);
    var b := Step(ids, a, Fetch);
    assert After(ids, s, l) == After(ids, a, [Fetch, Store]) == After(ids, b, [Store]) == Step(ids, b, Store);
    var c := s.current;
    assert s.phases[c := Loaded][c := Armed(ids[c])][c := Holding] == s.phases[c := Holding];
  }

  lemma {:induction false} Chained(ids: seq<nat>, s: Lock, xs: seq<Action>, ys: seq<Action>)
    requires |s.phases| == |ids| && s.current < |ids|
    ensures After(ids, s, xs + ys) == After(ids, After(ids, s, xs), ys)
    decreases |xs|
  {
    if xs == [] {
      assert xs + ys == ys;
    } else {
      assert (xs + ys)[1..] == xs[1..] + ys;
      Chained(ids, Step(ids, s, xs[0]), xs[1..], ys);
    }
  }

  // ----- what the rest of the word says

  /** While the lock is held, and after it was, the upper half of the word is the slot of the last task that took it:
      the slot a waiting task reads from the word exists, though its task may have unlocked. */
  ghost predicate NamesSlot(ids: seq<nat>, word: nat) {
    word == 0 || exists t :: 0 <= t < |ids| && word / 0x1_0000 == ids[t] / 0x1_0000
  }

  lemma {:induction false} WordNamesSlot(ids: seq<nat>, s: Lock, actions: seq<Action>)
    requires Inv(ids, s) && Visible(ids) && NamesSlot(ids, s.word)
    ensures NamesSlot(ids, After(ids, s, actions).word)
    decreases |actions|
  {
    if actions != [] {
      var t := Step(ids, s, actions[0]);
      StepKeeps(ids, s, actions[0]);
      SameSlot(s.word);
      assert NamesSlot(ids, t.word);
      WordNamesSlot(ids, t, actions[1..]);
    }
  }

  /** The word is the id of a task that holds the lock if and only if its low byte is not 0. With a zero low byte nobody
      holds it: the rest of the word names nobody, or a task that has unlocked. */
  lemma WordNamesHolder(ids: seq<nat>, s: Lock)
    requires Inv(ids, s) && Visible(ids)
    ensures s.word % 256 != 0 <==> exists t :: 0 <= t < |ids| && s.phases[t].Holding? && s.word == ids[t]
    ensures s.word % 256 == 0 <==> forall t :: 0 <= t < |ids| ==> !s.phases[t].Holding?
  {
    if s.word % 256 != 0 {
      var t :| 0 <= t < |ids| && s.phases[t].Holding?;
      assert s.word == ids[t];
    }
  }

  /** So it is in every interleaving. */
  lemma RunNamesHolder(ids: seq<nat>, s: Lock, actions: seq<Action>)
    requires Start(ids, s) && Visible(ids)
    ensures var t := After(ids, s, actions);
            t.word % 256 != 0 <==> exists u :: 0 <= u < |ids| && t.phases[u].Holding? && t.word == ids[u]
  {
    RunKeeps(ids, s, actions);
    WordNamesHolder(ids, After(ids, s, actions));
  }

  /** An exception between the load and the store makes an attempt fail although the low byte is 0. It leaves the lock
      as it was. */
  lemma FailsOnFree(ids: seq<nat>, s: Lock)
    requires |s.phases| == |ids| && s.current < |ids| && s.phases[s.current] == Outside && s.word % 256 == 0
    ensures After(ids, s, [Load, Fetch, Switch(s.current), Store]) == s.(monitor := false)
  {
    var c := s.current;
    var l := [Load, Fetch, Switch(c), Store];
    assert l[1..] == [Fetch, Switch(c), Store] && l[1..][1..] == [Switch(c), Store] && l[1..][1..][1..] == [Store];
    var a := Step(ids, s, Load);
    var b := Step(ids, a, Fetch);
    var d := Step(ids, b, Switch(c));
    assert After(ids, s, l) == After(ids, a, l[1..]) == After(ids, b, l[1..][1..]) == After(ids, d, [Store]);
    assert After(ids, d, [Store]) == Step(ids, d, Store);
    assert s.phases[c := Loaded][c := Armed(ids[c])][c := Outside] == s.phases;
  }

  /** In some interleaving from a fresh lock an attempt of task c is refused although nobody holds the lock, and the
      word that c then reads is the one given. */
  ghost predicate RefusedFree(ids: seq<nat>, c: nat, word: nat) {
    exists s: Lock, actions: seq<Action> :: Start(ids, s) && EndsFree(ids, s, actions, c, word)
  }

  ghost predicate EndsFree(ids: seq<nat>, s: Lock, actions: seq<Action>, c: nat, word: nat)
    requires |s.phases| == |ids| && s.current < |ids|
  {
    var t := After(ids, s, actions + [Load, Fetch, Switch(c), Store]);
    t.current == c && t.word == word && forall u :: 0 <= u < |ids| ==> t.phases[u] == Outside
  }

  /** On a fresh lock the word is 0, which names slot 0. */
  lemma FreshRefused(ids: seq<nat>, c: nat)
    requires c < |ids|
    ensures RefusedFree(ids, c, 0)
  {
    var s := Lock(0, false, c, seq(|ids|, _ => Outside));
    FailsOnFree(ids, s);
    assert [] + [Load, Fetch, Switch(c), Store] == [Load, Fetch, Switch(c), Store];
    assert EndsFree(ids, s, [], c, 0);
  }

  /** After task o has locked and unlocked, the word is the id of o without its low byte, which names the slot of o. */
  lemma StaleRefused(ids: seq<nat>, o: nat, c: nat)
    requires o < |ids| && c < |ids| && c != o
    ensures RefusedFree(ids, c, Unlocked(ids[o])) && Unlocked(ids[o]) / 0x1_0000 == ids[o] / 0x1_0000
  {
    var s := Lock(0, false, o, seq(|ids|, _ => Outside));
    var taken, left, refused := [Load, Fetch, Store], [Unlock, Switch(c)], [Load, Fetch, Switch(c), Store];
    TakesFree(ids, s);
    var held := After(ids, s, taken);
    var free := Step(ids, held, Unlock);
    var moved := Step(ids, free, Switch(c));
    assert left[1..] == [Switch(c)];
    assert After(ids, held, left) == After(ids, free, [Switch(c)]) == moved;
    Chained(ids, s, taken, left);
    Chained(ids, s, taken + left, refused);
    assert s.phases[o := Holding][o := Outside] == s.phases;
    ClearedByte(ids[o]);
    SameSlot(ids[o]);
    FailsOnFree(ids, moved);
    assert EndsFree(ids, s, taken + left, c, Unlocked(ids[o]));
  }

  lemma SameSlot(word: nat)
    ensures Unlocked(word) / 0x1_0000 == word / 0x1_0000
  {
    var q, r := word / 0x1_0000, word % 0x1_0000;
    var a, b := r / 256, r % 256;
    assert word == 256 * (256 * q + a) + b;
    assert word % 256 == b by { Remainder(256 * q + a, b); }
    assert word - b == 0x1_0000 * q + 256 * a;
  }

  lemma Remainder(q: nat, b: nat)
    requires b < 256
    ensures (256 * q + b) % 256 == b
  {
  }

  // ----- the ids that task creation gives out

  /** The load sees an id exactly if the number of the creation is not a multiple of 256 (nor past 16 bits, where the
      ids have no low half left): the first 255 creations are safe, the next one is not. */
  lemma VisibleIds(slot: nat, total: nat)
    ensures Services.MakeId(slot, total) % 256 != 0 <==> total + 1 < 0x1_0000 && (total + 1) % 256 != 0
    ensures total < 255 ==> Services.MakeId(slot, total) % 256 != 0
    ensures Services.MakeId(slot, 255) % 256 == 0
  {
    Low(slot * 256, total + 1);
    Low(slot * 256, 0);
    Low((slot + 1) * 256, 0);
    Low(slot * 256, 256);
  }

  lemma Low(k: nat, n: nat)
    ensures (k * 256 + n) % 256 == n % 256
  {
    assert k * 256 + n == 256 * (k + n / 256) + n % 256;
    Remainder(k + n / 256, n % 256);
  }

  /** As long as at most 255 tasks were ever created, the load sees the id of every live task. */
  lemma LiveIdVisible(k: Services.Kernel, st: seq<nat>, u: nat)
    requires Invariant.Inv(k, st) && k.totalCount <= 255 && u < |k.slots| && Live(k.slots[u])
    ensures k.slots[u].id % 256 != 0
  {
    var id := k.slots[u].id;
    var q, r := id / 0x1_0000, id % 0x1_0000;
    assert 0 < r <= 255 by { NamedId(k, st, u); }
    assert id == (q * 256) * 256 + r;
    Low(q * 256, r);
  }

  lemma NamedId(k: Services.Kernel, st: seq<nat>, u: nat)
    requires Invariant.Inv(k, st) && u < |k.slots| && Live(k.slots[u])
    ensures 0 < k.slots[u].id % 0x1_0000 <= k.totalCount
  {
    hide Invariant.Levelled, Invariant.Counted, Invariant.Stacked;
  }

  /** Over every run that ends with at most 255 creations, the ids of all tasks live at any time are visible to the
      load; so a lock that they use excludes in every interleaving. */
  lemma RunIdsVisible(ks: seq<Services.Kernel>, sts: seq<seq<nat>>, es: seq<Runs.Event>, ms: seq<Scheduler.Memory>,
      ids: seq<nat>)
    requires Runs.Run(ks, sts, es, ms) && Invariant.Inv(ks[0], sts[0]) && ks[|es|].totalCount <= 255
    requires forall t :: 0 <= t < |ids| ==>
               exists i, u :: 0 <= i <= |es| && 0 <= u < |ks[i].slots| && Live(ks[i].slots[u]) &&
                   ks[i].slots[u].id == ids[t]
    ensures Visible(ids) && (|ids| >= 2 ==> AlwaysExclusive(ids))
  {
    hide Invariant.Inv, Runs.Step, AlwaysExclusive;
    forall t | 0 <= t < |ids| ensures ids[t] % 256 != 0 {
      var i, u :| 0 <= i <= |es| && 0 <= u < |ks[i].slots| && Live(ks[i].slots[u]) && ks[i].slots[u].id == ids[t];
      Runs.RunKeeps(ks, sts, es, ms, i);
      Order.RunTotal(ks, sts, es, ms, i, |es|);
      LiveIdVisible(ks[i], sts[i], u);
    }
    if |ids| >= 2 { ExclusiveExactly(ids); }
  }
}
