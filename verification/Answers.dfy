/** What the services answer, and what they have done when they answer it. */
module Answers {
  import opened Slots
  import opened JumpList
  import opened Services
  import opened Invariant

  /** Creation is refused for want of a slot exactly if every slot is taken, and for its priority exactly if a slot is
      free and the priority is above 127, or 0 once the scheduler runs. */
  lemma AdmitsExactly(k: Kernel, t: Task)
    requires Shaped(k)
    ensures Admission(k, t) == MaxProcessCount <==> forall u :: 0 <= u < |k.slots| ==> k.slots[u].state != Idle
    ensures Admission(k, t) == InvalidTaskPriority <==>
            && (exists u :: 0 <= u < |k.slots| && k.slots[u].state == Idle)
            && (t.prio > 127 || (t.prio == 0 && k.started))
    ensures Admission(k, t) in {NoError, MaxProcessCount, InvalidTaskPriority}
  {
    CountAll(k.slots, Live);
    CountBound(k.slots, Live);
  }

  /** The id of a new task has the number of the creation in its lower half and its slot in the upper one. When the
      number reaches 65536, its bit falls on the last one of the slot: the id then names another slot exactly if the
      slot is even. */
  lemma IdNamesSlot(i: nat, total: nat)
    requires total < 0x1_0000
    ensures var id := MakeId(i, total);
            && id % 0x1_0000 == (total + 1) % 0x1_0000 && id / 0x2_0000 == i / 2
            && (id / 0x1_0000 == i <==> total < 0xFFFF || i % 2 == 1)
            && (total == 0xFFFF ==> (id / 0x1_0000) % 2 == 1)
  {
  }

  /** An invocation is refused exactly if the base task asks for it; otherwise it notes the id of the caller and changes
      nothing else until the promotion. */
  lemma InvokeAnswers(k: Kernel)
    requires k.current < |k.slots|
    ensures var (r, error) := Invoked(k);
            if k.current == 0 then error == BaseProcess && r == k
            else error == NoError && r == k.(invoked := k.slots[k.current].id)
  {
  }

  /** A release is refused exactly if the caller is not the base task or no slot has the id noted. Otherwise the task
      that has it is given the error, the id is forgotten, and nothing else changes until the demotion. */
  lemma ReleaseAnswers(k: Kernel, st: seq<nat>, value: nat, u: nat)
    requires Core(k, st) && u < |k.slots| && Live(k.slots[u])
    ensures var (r, error) := Released(k, value);
            && (error == InsufficientPermission <==> k.current != 0)
            && (error == UnknownProcessId <==>
                  k.current == 0 && forall x :: 0 <= x < |k.slots| ==> k.slots[x].id != k.invoked)
            && (error == NoError || (error in {InsufficientPermission, UnknownProcessId} && r == k))
            && (k.current == 0 && k.slots[u].id == k.invoked ==>
                  error == NoError && r == k.(slots := k.slots[u := k.slots[u].(hib := value)], invoked := 0))
  {
    hide Ring, Levelled, Stacked, Counted;
    var i := WithId(k.slots, k.invoked, 0);
    if k.slots[u].id == k.invoked { assert i <= u && Live(k.slots[i]); }
  }
}
