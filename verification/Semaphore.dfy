/** rt_sem_init, rt_sem_take, rt_sem_release and rt_sem_control on the fields of struct rt_semaphore and of
    the threads; the waiting threads are on a circular list.

    Each method is one interrupts-disabled region; its effect is the matching step of SemaphoreModel,
    whose invariant (Model.Inv) every step keeps. */
module Semaphore {
  import opened WaitQueue
  import opened WaitList
  import IntrusiveList
  import Model = SemaphoreModel

  class Semaphore {
    var value: nat
    const flag: Flag
    /** parent.suspend_thread */
    const suspended: WaitList

    // Fields of the threads.
    var priority: map<Thread, nat>
    var error: map<Thread, Code>
    var phase: map<Thread, Phase>

    ghost function State(): Model.State
      reads this, suspended
    {
      Model.State(value, flag, suspended.Queue(), priority, error, phase)
    }

    /** `tlist` are the list nodes of the threads. */
    constructor (value: nat, flag: Flag, priority: map<Thread, nat>, tlist: map<Thread, IntrusiveList.Node>)
      requires value <= Model.VALUE_MAX && forall t | t in tlist :: tlist[t].thread == t
      ensures suspended.Valid() && suspended.tlist == tlist && State() == Model.Initial(value, flag, priority).s
      ensures fresh(suspended) && fresh(suspended.Nodes())
    {
      this.value, this.flag, this.priority := value, flag, priority;
      suspended := new WaitList(tlist);
      error := map t | t in priority :: EOK;
      phase := map t | t in priority :: Ready;
    }

    method Take(t: Thread, time: int) returns (r: Model.Outcome)
      requires Model.Typed(State()) && Model.Member(State(), t)
      requires suspended.Valid() && t in suspended.tlist && t !in suspended.Queue()
      modifies this, suspended, suspended.Nodes(), suspended.tlist[t]
      ensures suspended.Valid() && (State(), r) == Model.Take(old(State()), t, time)
      ensures suspended.Nodes() <= old(suspended.Nodes()) + {suspended.tlist[t]}
    {
      hide Enqueue, WaitList.Valid, WaitList.Queue, WaitList.Nodes;
      if value > 0 {
        value := value - 1;
        r := Model.Returned(EOK);
      } else if time == 0 {
        r := Model.Returned(ETIMEOUT);
      } else {
        error := error[t := EOK];
        suspended.Suspend(t, priority, flag);
        phase := phase[t := Waiting(time > 0)];
        r := Model.Blocked;
      }
    }

    method Leave(t: Thread) returns (r: Model.Outcome)
      requires Model.Member(State(), t)
      modifies this`phase
      ensures (State(), r) == Model.Leave(old(State()), t)
    {
      phase := phase[t := Ready];
      r := Model.Returned(error[t]);
    }

    method Release() returns (r: Model.Outcome)
      requires suspended.Valid()
      modifies this, suspended, suspended.Nodes()
      ensures suspended.Valid() && (State(), r) == Model.Release(old(State()))
      ensures suspended.Nodes() <= old(suspended.Nodes())
    {
      hide WaitList.Valid, WaitList.Queue, WaitList.Nodes;
      r := Model.Returned(EOK);
      var empty := suspended.IsEmpty();
      if !empty {
        var t := suspended.Resume();
        phase := phase[t := Woken];
      } else if value < Model.VALUE_MAX {
        value := value + 1;
      } else {
        r := Model.Returned(EFULL);
      }
    }

    /** rt_thread_timeout */
    method Timeout(t: Thread)
      requires suspended.Valid() && t in suspended.Queue()
      modifies this, suspended, suspended.Nodes()
      ensures suspended.Valid() && State() == Model.Expire(old(State()), t)
      ensures suspended.Nodes() <= old(suspended.Nodes())
    {
      hide Without, WaitList.Valid, WaitList.Queue, WaitList.Nodes;
      error := error[t := ETIMEOUT];
      suspended.Leave(t);
      phase := phase[t := Woken];
    }

    method Reset(value: nat)
      requires suspended.Valid() && Model.Typed(State())
      modifies this, suspended, suspended.Nodes()
      ensures suspended.Valid() && State() == Model.Reset(old(State()), value)
      ensures suspended.Nodes() <= old(suspended.Nodes())
    {
      hide WaitList.Valid, WaitList.Queue, WaitList.Nodes;
      WakeAllPhases(phase, suspended.Queue());
      error, phase := suspended.ResumeAll(error, phase);
      this.value := value % 0x1_0000;
    }
  }
}
