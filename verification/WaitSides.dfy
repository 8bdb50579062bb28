/** The two suspended-thread lists of a mailbox or message queue.  A thread has one list node, so it is on
    at most one of them. */
module WaitSides {
  import opened WaitQueue
  import opened Waiters
  import opened WaitList
  import opened IntrusiveList

  class WaitSides {
    /** parent.suspend_thread and suspend_sender_thread */
    const receivers: WaitList
    const senders: WaitList
    /** Resumed threads that have not run yet. */
    ghost var wokenReceivers: set<Thread>
    ghost var wokenSenders: set<Thread>

    ghost function Objects(): set<object>
      reads this, receivers, senders
    {
      {this, receivers, senders} + receivers.Nodes() + senders.Nodes()
    }

    ghost predicate Valid()
      reads this, receivers, senders, receivers.ring, senders.ring
    {
      && receivers != senders && receivers.tlist == senders.tlist
      && receivers.Valid() && senders.Valid() && receivers.Nodes() !! senders.Nodes()
    }

    ghost predicate Suspendable(t: Thread)
      reads this, receivers, senders
    {
      t in receivers.tlist && t !in receivers.Queue() && t !in senders.Queue()
    }

    ghost function Receivers(): Side
      reads this, receivers
    {
      Side(receivers.Queue(), wokenReceivers)
    }

    ghost function Senders(): Side
      reads this, senders
    {
      Side(senders.Queue(), wokenSenders)
    }

    constructor (tlist: map<Thread, Node>)
      requires forall t | t in tlist :: tlist[t].thread == t
      ensures Valid() && receivers.tlist == tlist && Receivers() == Side([], {}) && Senders() == Side([], {})
      ensures fresh(Objects())
    {
      receivers := new WaitList(tlist);
      senders := new WaitList(tlist);
      wokenReceivers, wokenSenders := {}, {};
    }

    /** A receiver runs its loop. */
    ghost method RunReceiver(t: Thread)
      requires Valid()
      modifies this
      ensures Valid() && Receivers() == Runs(old(Receivers()), t) && Senders() == old(Senders())
      ensures Objects() == old(Objects())
    {
      wokenReceivers := wokenReceivers - {t};
    }

    ghost method RunSender(t: Thread)
      requires Valid()
      modifies this
      ensures Valid() && Senders() == Runs(old(Senders()), t) && Receivers() == old(Receivers())
      ensures Objects() == old(Objects())
    {
      wokenSenders := wokenSenders - {t};
    }

    /** rt_ipc_list_suspend */
    method SuspendReceiver(t: Thread, priority: map<Thread, nat>, flag: Flag)
      requires Valid() && Suspendable(t)
      requires t in priority && forall x | x in receivers.Queue() :: x in priority
      modifies receivers, receivers.Nodes(), receivers.tlist[t]
      ensures Valid() && Senders() == old(Senders())
      ensures Receivers() == Sleeps(old(Receivers()), Enqueue(old(receivers.Queue()), priority, flag, t))
      ensures Objects() <= old(Objects()) + {receivers.tlist[t]}
    {
      hide Enqueue, WaitList.Valid, WaitList.Queue;
      senders.OffTheRing(t);
      receivers.Suspend(t, priority, flag);
    }

    method SuspendSender(t: Thread, priority: map<Thread, nat>, flag: Flag)
      requires Valid() && Suspendable(t)
      requires t in priority && forall x | x in senders.Queue() :: x in priority
      modifies senders, senders.Nodes(), senders.tlist[t]
      ensures Valid() && Receivers() == old(Receivers())
      ensures Senders() == Sleeps(old(Senders()), Enqueue(old(senders.Queue()), priority, flag, t))
      ensures Objects() <= old(Objects()) + {senders.tlist[t]}
    {
      hide Enqueue, WaitList.Valid, WaitList.Queue;
      receivers.OffTheRing(t);
      senders.Suspend(t, priority, flag);
    }

    /** rt_ipc_list_resume, for a list that may be empty. */
    method ResumeReceiver()
      requires Valid()
      modifies this`wokenReceivers, receivers, receivers.Nodes()
      ensures Valid() && Receivers() == WakeOne(old(Receivers())) && Senders() == old(Senders())
      ensures Objects() <= old(Objects())
    {
      hide WaitList.Valid, WaitList.Queue;
      var empty := receivers.IsEmpty();
      if !empty {
        var t := receivers.Resume();
        wokenReceivers := wokenReceivers + {t};
      }
    }

    method ResumeSender()
      requires Valid()
      modifies this`wokenSenders, senders, senders.Nodes()
      ensures Valid() && Senders() == WakeOne(old(Senders())) && Receivers() == old(Receivers())
      ensures Objects() <= old(Objects())
    {
      hide WaitList.Valid, WaitList.Queue;
      var empty := senders.IsEmpty();
      if !empty {
        var t := senders.Resume();
        wokenSenders := wokenSenders + {t};
      }
    }

    /** The removal in rt_thread_timeout: the code does not know on which of the lists the thread is. */
    method Timeout(t: Thread)
      requires Valid() && (t in receivers.Queue() || t in senders.Queue())
      modifies receivers, receivers.Nodes(), senders, senders.Nodes()
      ensures Valid() && Receivers() == Expires(old(Receivers()), t) && Senders() == Expires(old(Senders()), t)
      ensures Objects() <= old(Objects())
    {
      hide Without, WaitList.Valid, WaitList.Queue;
      receivers.QueueDistinct();
      senders.QueueDistinct();
      OneList(t);
      ghost var l := if t in receivers.Queue() then receivers else senders;
      WaitList.Unlink(receivers.tlist[t], l);
    }

    lemma OneList(t: Thread)
      requires Valid() && (t in receivers.Queue() || t in senders.Queue())
      ensures t in receivers.tlist && receivers.tlist[t].thread == t
      ensures t in receivers.Queue() <==> t !in senders.Queue()
    {
      if t in receivers.Queue() {
        receivers.OnTheRing(t);
      }
      if t in senders.Queue() {
        senders.OnTheRing(t);
      }
      hide WaitList.Valid, WaitList.Queue, WaitList.Nodes;
    }

    /** rt_ipc_list_resume_all on both lists. */
    method ResumeAll(error: map<Thread, Code>) returns (e: map<Thread, Code>)
      requires Valid()
      modifies receivers, receivers.Nodes(), senders, senders.Nodes()
      ensures Valid() && Receivers() == Sleeps(old(Receivers()), []) && Senders() == Sleeps(old(Senders()), [])
      ensures e == FailAll(FailAll(error, old(receivers.Queue())), old(senders.Queue()))
      ensures Objects() <= old(Objects())
    {
      hide WaitList.Valid, WaitList.Queue, FailAll;
      var p;
      e, p := receivers.ResumeAll(error, map[]);
      e, p := senders.ResumeAll(e, map[]);
    }
  }
}
