/** rt_mb_init, rt_mb_send_wait, rt_mb_urgent, rt_mb_recv and rt_mb_control on the fields of
    struct rt_mailbox and of the threads; the waiting threads are on two circular lists.

    Each method is one interrupts-disabled region; its effect is the matching step of MailboxModel,
    whose invariant (Model.Inv) every step keeps. */
module Mailbox {
  import opened WaitQueue
  import opened WaitSides
  import IntrusiveList
  import WaitList
  import WaitTime
  import Ring = MailRing
  import Model = MailboxModel

  class Mailbox {
    const pool: array<Ring.Mail>
    var inOffset: nat
    var outOffset: nat
    var entry: nat
    const flag: Flag
    const threads: WaitSides

    // Fields of the threads, and the local variables of blocked calls.
    var priority: map<Thread, nat>
    var error: map<Thread, Code>
    var call: map<Thread, Model.Call>

    ghost function Buffer(): Ring.Ring
      reads this, pool
    {
      Ring.Ring(pool.Length, inOffset, outOffset, entry, pool[..])
    }

    ghost function State(): Model.State
      reads this, pool, threads, threads.receivers, threads.senders
    {
      Model.State(Buffer(), flag, threads.Receivers(), threads.Senders(), priority, error, call)
    }

    /** `tlist` are the list nodes of the threads. */
    constructor (pool: array<Ring.Mail>, flag: Flag, priority: map<Thread, nat>,
                 tlist: map<Thread, IntrusiveList.Node>)
      requires pool.Length <= Model.ENTRY_MAX && forall t | t in tlist :: tlist[t].thread == t
      ensures threads.Valid() && threads.receivers.tlist == tlist && fresh(threads.Objects())
      ensures State() == Model.InitialState(pool[..], flag, priority) && Model.Inv(State())
      ensures this.pool == pool && Ring.Contents(Buffer()) == []
    {
      this.pool, this.flag := pool, flag;
      inOffset, outOffset, entry := 0, 0, 0;
      threads := new WaitSides(tlist);
      this.priority := priority;
      error, call := Model.NoErrors(priority), Model.NoCalls(priority);
      new;
      assert forall t: Thread :: Model.PlacedAt(State(), t);
    }

    // ---- The ring: all but the count of entries ------------------------------------------------

    method StoreLast(v: Ring.Mail)
      requires Ring.Valid(Buffer()) && entry != pool.Length
      modifies this`inOffset, pool
      ensures Buffer().(entry := entry + 1) == Ring.Put(old(Buffer()), v)
    {
      pool[inOffset] := v;
      inOffset := inOffset + 1;
      if inOffset >= pool.Length {
        inOffset := 0;
      }
    }

    method StoreFirst(v: Ring.Mail)
      requires Ring.Valid(Buffer()) && entry != pool.Length
      modifies this`outOffset, pool
      ensures Buffer().(entry := entry + 1) == Ring.PutFront(old(Buffer()), v)
    {
      outOffset := if outOffset > 0 then outOffset - 1 else pool.Length - 1;
      pool[outOffset] := v;
    }

    method Fetch() returns (v: Ring.Mail)
      requires Ring.Valid(Buffer()) && entry > 0
      modifies this`outOffset
      ensures v == Ring.Head(old(Buffer())) && Buffer().(entry := entry - 1) == Ring.Drop(old(Buffer()))
    {
      v := pool[outOffset];
      outOffset := outOffset + 1;
      if outOffset >= pool.Length {
        outOffset := 0;
      }
    }

    // ---- Sending ---------------------------------------------------------------------------

    method SendLoop(t: Thread, v: Ring.Mail, timeout: int, now: int) returns (r: Model.Outcome)
      requires Model.Typed(State()) && Model.Member(State(), t)
      requires threads.Valid() && threads.Suspendable(t)
      modifies this, pool, threads.Objects(), threads.receivers.tlist[t]
      ensures threads.Valid() && (State(), r) == Model.SendLoop(old(State()), t, v, timeout, now)
      ensures threads.Objects() <= old(threads.Objects()) + {threads.receivers.tlist[t]}
    {
      hide Enqueue, WaitSides.Valid, WaitList.WaitList.Valid, WaitList.WaitList.Queue, WaitList.WaitList.Nodes;
      hide Ring.Valid, Ring.Put, Ring.Drop, Ring.Head;
      threads.RunSender(t);
      if entry == pool.Length {
        error := error[t := EOK];
        if timeout == 0 {
          call := call[t := Model.Idle];
          r := Model.Returned(EFULL);
        } else {
          threads.SuspendSender(t, priority, flag);
          call := call[t := Model.Sending(v, timeout, if timeout > 0 then now else 0)];
          r := Model.Blocked;
        }
      } else {
        call := call[t := Model.Idle];
        StoreLast(v);
        if entry < Model.ENTRY_MAX {
          entry := entry + 1;
          threads.ResumeReceiver();
          r := Model.Returned(EOK);
        } else {
          r := Model.Returned(EFULL);
        }
      }
    }

    method SendCall(t: Thread, v: Ring.Mail, timeout: int, now: int) returns (r: Model.Outcome)
      requires Model.Typed(State()) && Model.Member(State(), t)
      requires threads.Valid() && threads.Suspendable(t)
      modifies this, pool, threads.Objects(), threads.receivers.tlist[t]
      ensures threads.Valid() && (State(), r) == Model.SendCall(old(State()), t, v, timeout, now)
      ensures threads.Objects() <= old(threads.Objects()) + {threads.receivers.tlist[t]}
    {
      if entry == pool.Length && timeout == 0 {
        r := Model.Returned(EFULL);
      } else {
        r := SendLoop(t, v, timeout, now);
      }
    }

    method SendReturn(t: Thread, now: int) returns (r: Model.Outcome)
      requires Model.Typed(State()) && Model.Member(State(), t) && call[t].Sending?
      requires threads.Valid() && threads.Suspendable(t)
      modifies this, pool, threads.Objects(), threads.receivers.tlist[t]
      ensures threads.Valid() && (State(), r) == Model.SendReturn(old(State()), t, now)
      ensures threads.Objects() <= old(threads.Objects()) + {threads.receivers.tlist[t]}
    {
      var c := call[t];
      if error[t] != EOK {
        call := call[t := Model.Idle];
        r := Model.Returned(error[t]);
      } else {
        r := SendLoop(t, c.mail, WaitTime.Remaining(c.timeout, c.start, now), now);
      }
    }

    method Urgent(v: Ring.Mail) returns (r: Model.Outcome)
      requires Model.Typed(State()) && threads.Valid()
      modifies this, pool, threads.Objects()
      ensures threads.Valid() && (State(), r) == Model.Urgent(old(State()), v)
      ensures threads.Objects() <= old(threads.Objects())
    {
      hide WaitSides.Valid, WaitList.WaitList.Valid, WaitList.WaitList.Queue, WaitList.WaitList.Nodes;
      if entry == pool.Length {
        r := Model.Returned(EFULL);
      } else {
        StoreFirst(v);
        entry := entry + 1;
        threads.ResumeReceiver();
        r := Model.Returned(EOK);
      }
    }

    // ---- Receiving -------------------------------------------------------------------------

    method RecvLoop(t: Thread, timeout: int, now: int) returns (r: Model.Outcome)
      requires Model.Typed(State()) && Model.Member(State(), t)
      requires threads.Valid() && threads.Suspendable(t)
      modifies this, threads.Objects(), threads.receivers.tlist[t]
      ensures threads.Valid() && (State(), r) == Model.RecvLoop(old(State()), t, timeout, now)
      ensures threads.Objects() <= old(threads.Objects()) + {threads.receivers.tlist[t]}
    {
      hide Enqueue, WaitSides.Valid, WaitList.WaitList.Valid, WaitList.WaitList.Queue, WaitList.WaitList.Nodes;
      hide Ring.Valid, Ring.Put, Ring.Drop, Ring.Head;
      threads.RunReceiver(t);
      if entry == 0 {
        error := error[t := EOK];
        if timeout == 0 {
          call := call[t := Model.Idle];
          error := error[t := ETIMEOUT];
          r := Model.Returned(ETIMEOUT);
        } else {
          threads.SuspendReceiver(t, priority, flag);
          call := call[t := Model.Receiving(timeout, if timeout > 0 then now else 0)];
          r := Model.Blocked;
        }
      } else {
        call := call[t := Model.Idle];
        var v := Fetch();
        r := Model.Received(v);
        entry := entry - 1;
        threads.ResumeSender();
      }
    }

    method RecvCall(t: Thread, timeout: int, now: int) returns (r: Model.Outcome)
      requires Model.Typed(State()) && Model.Member(State(), t)
      requires threads.Valid() && threads.Suspendable(t)
      modifies this, threads.Objects(), threads.receivers.tlist[t]
      ensures threads.Valid() && (State(), r) == Model.RecvCall(old(State()), t, timeout, now)
      ensures threads.Objects() <= old(threads.Objects()) + {threads.receivers.tlist[t]}
    {
      if entry == 0 && timeout == 0 {
        r := Model.Returned(ETIMEOUT);
      } else {
        r := RecvLoop(t, timeout, now);
      }
    }

    method RecvReturn(t: Thread, now: int) returns (r: Model.Outcome)
      requires Model.Typed(State()) && Model.Member(State(), t) && call[t].Receiving?
      requires threads.Valid() && threads.Suspendable(t)
      modifies this, threads.Objects(), threads.receivers.tlist[t]
      ensures threads.Valid() && (State(), r) == Model.RecvReturn(old(State()), t, now)
      ensures threads.Objects() <= old(threads.Objects()) + {threads.receivers.tlist[t]}
    {
      var c := call[t];
      if error[t] != EOK {
        call := call[t := Model.Idle];
        r := Model.Returned(error[t]);
      } else {
        r := RecvLoop(t, WaitTime.Remaining(c.timeout, c.start, now), now);
      }
    }

    // ---- Timeout and reset -------------------------------------------------------------------

    /** rt_thread_timeout */
    method Timeout(t: Thread)
      requires threads.Valid() && (t in threads.receivers.Queue() || t in threads.senders.Queue())
      modifies this`error, threads.Objects()
      ensures threads.Valid() && State() == Model.Timeout(old(State()), t)
      ensures threads.Objects() <= old(threads.Objects())
    {
      hide WaitSides.Valid, WaitList.WaitList.Valid, WaitList.WaitList.Queue, WaitList.WaitList.Nodes;
      hide Without;
      error := error[t := ETIMEOUT];
      threads.Timeout(t);
    }

    /** Everybody on both lists is resumed, then the ring is empty. */
    method Reset()
      requires threads.Valid()
      modifies this, threads.Objects()
      ensures threads.Valid() && State() == Model.Reset(old(State()))
      ensures threads.Objects() <= old(threads.Objects())
    {
      hide WaitSides.Valid, WaitList.WaitList.Valid, WaitList.WaitList.Queue, WaitList.WaitList.Nodes;
      hide FailAll;
      error := threads.ResumeAll(error);
      entry, inOffset, outOffset := 0, 0, 0;
    }
  }
}
