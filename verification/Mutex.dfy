/** rt_mutex_take and rt_mutex_release on the fields of struct rt_mutex and of the threads; the
    waiting threads are on a circular list.

    Each method is one interrupts-disabled region; its effect is the matching step of MutexModel,
    whose invariant (Model.Inv) every step keeps. */
module Mutex {
  import opened Options
  import opened WaitQueue
  import opened WaitList
  import IntrusiveList
  import Model = MutexModel

  class Mutex {
    var value: nat
    var owner: Option<Thread>
    var hold: nat
    var originalPriority: nat
    const flag: Flag
    /** parent.suspend_thread */
    const suspended: WaitList

    // Fields of the threads.
    var currentPriority: map<Thread, nat>
    var error: map<Thread, Code>
    var phase: map<Thread, Phase>

    ghost function State(): Model.State
      reads this, suspended
    {
      Model.State(value, owner, hold, originalPriority, flag, suspended.Queue(), currentPriority, error, phase)
    }

    /** rt_mutex_init, with all threads ready at their own priority; `tlist` are their list nodes. */
    constructor (flag: Flag, base: map<Thread, nat>, tlist: map<Thread, IntrusiveList.Node>)
      requires forall t | t in base :: base[t] < PRIORITY_MAX
      requires forall t | t in tlist :: tlist[t].thread == t
      ensures State() == Model.InitialState(flag, base) && Model.Inv(State(), base)
      ensures suspended.Valid() && suspended.tlist == tlist
      ensures fresh(suspended) && fresh(suspended.Nodes())
    {
      this.flag := flag;
      value, owner, originalPriority, hold := 1, None, 0xFF, 0;
      suspended := new WaitList(tlist);
      currentPriority := base;
      error, phase := Model.NoErrors(base), Model.AllReady(base);
    }

    method Take(t: Thread, time: int) returns (r: Model.Outcome)
      requires Model.Typed(State()) && t in phase && phase[t] == Ready
      requires suspended.Valid() && t in suspended.tlist && t !in suspended.Queue()
      modifies this, suspended, suspended.Nodes(), suspended.tlist[t]
      ensures suspended.Valid() && (State(), r) == Model.Take(old(State()), t, time)
      ensures suspended.Nodes() <= old(suspended.Nodes()) + {suspended.tlist[t]}
    {
      hide Enqueue, WaitList.Valid, WaitList.Queue, WaitList.Nodes;
      r := Model.Returned(EOK);
      error := error[t := EOK];
      if owner == Some(t) {
        if hold < Model.HOLD_MAX {
          hold := hold + 1;
        } else {
          r := Model.Returned(EFULL);
        }
      } else if value > 0 {
        value := value - 1;
        owner := Some(t);
        originalPriority := currentPriority[t];
        if hold < Model.HOLD_MAX {
          hold := hold + 1;
        } else {
          r := Model.Returned(EFULL);
        }
      } else if time == 0 {
        error := error[t := ETIMEOUT];
        r := Model.Returned(ETIMEOUT);
      } else {
        if currentPriority[t] < currentPriority[owner.value] {
          currentPriority := currentPriority[owner.value := currentPriority[t]];
        }
        suspended.Suspend(t, currentPriority, flag);
        phase := phase[t := Waiting(time > 0)];
        r := Model.Blocked;
      }
    }

    method Leave(t: Thread) returns (r: Model.Outcome)
      requires Model.Typed(State()) && t in phase && phase[t] == Woken
      modifies this`phase
      ensures (State(), r) == Model.Leave(old(State()), t)
    {
      phase := phase[t := Ready];
      r := Model.Returned(error[t]);
    }

    method Release(t: Thread) returns (r: Model.Outcome)
      requires Model.Typed(State()) && t in phase && phase[t] == Ready
      requires owner == Some(t) ==> hold > 0
      requires suspended.Valid()
      modifies this, suspended, suspended.Nodes()
      ensures suspended.Valid() && (State(), r) == Model.Release(old(State()), t)
      ensures suspended.Nodes() <= old(suspended.Nodes())
    {
      hide Model.HandOff, WaitList.Valid, WaitList.Queue, WaitList.Nodes;
      r := Model.Returned(EOK);
      if owner != Some(t) {
        error := error[t := ERROR];
        r := Model.Returned(ERROR);
      } else {
        hold := hold - 1;
        if hold == 0 {
          if originalPriority != currentPriority[owner.value] {
            currentPriority := currentPriority[owner.value := originalPriority];
          }
          var empty := suspended.IsEmpty();
          if !empty {
            r := WakeFirst();
          } else if value < Model.VALUE_MAX {
            value := value + 1;
            owner := None;
            originalPriority := 0xFF;
          } else {
            r := Model.Returned(EFULL);
          }
        }
      }
    }

    /** The first waiter becomes the owner, raised to the most urgent priority on a FIFO list. */
    method GrantTo(thread: Thread)
      requires suspended.Valid() && thread in currentPriority
      requires forall x | x in suspended.Queue() :: x in currentPriority
      modifies this`owner, this`originalPriority, this`currentPriority
      ensures owner == Some(thread) && originalPriority == old(currentPriority[thread])
      ensures var p, top := old(currentPriority), Highest(suspended.Queue(), old(currentPriority));
        currentPriority == if flag == FIFO && p[thread] != top then p[thread := top] else p
    {
      owner := Some(thread);
      originalPriority := currentPriority[thread];
      var top := suspended.GetHighestPriority(currentPriority);
      if flag == FIFO && currentPriority[thread] != top {
        currentPriority := currentPriority[thread := top];
      }
    }

    /** The wake-up part of rt_mutex_release. */
    method WakeFirst() returns (r: Model.Outcome)
      requires suspended.Valid() && suspended.Queue() != []
      requires forall x | x in suspended.Queue() :: x in currentPriority
      modifies this, suspended, suspended.Nodes()
      ensures suspended.Valid() && (State(), r) == Model.HandOff(old(State()))
      ensures suspended.Nodes() <= old(suspended.Nodes())
    {
      hide Highest, WaitList.Valid, WaitList.Queue, WaitList.Nodes;
      var thread := suspended.First();
      GrantTo(thread);
      if hold < Model.HOLD_MAX {
        hold := hold + 1;
      } else {
        return Model.Returned(EFULL);
      }
      thread := suspended.Resume();
      phase := phase[thread := Woken];
      r := Model.Returned(EOK);
    }

    /** rt_thread_timeout for a thread suspended on this mutex. */
    method Timeout(t: Thread)
      requires Model.Typed(State()) && suspended.Valid() && t in suspended.Queue()
      modifies this, suspended, suspended.Nodes()
      ensures suspended.Valid() && State() == Model.Expire(old(State()), t)
      ensures suspended.Nodes() <= old(suspended.Nodes())
    {
      hide Without, WaitList.Valid, WaitList.Queue, WaitList.Nodes;
      error := error[t := ETIMEOUT];
      suspended.Leave(t);
      phase := phase[t := Woken];
    }
  }
}
