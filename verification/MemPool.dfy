/** rt_mp_init, rt_mp_alloc and rt_mp_free on the fields of struct rt_mempool, the header words of
    its blocks, and the threads, whose waiters are on a circular list.  A block is named by its index in
    the pool.

    Each method is one interrupts-disabled region; its effect is the matching step of PoolModel,
    whose invariant (Model.Inv) every step keeps. */
module MemPool {
  import opened Links
  import opened WaitQueue
  import opened WaitList
  import IntrusiveList
  import Waiters
  import WaitTime
  import Model = PoolModel

  /** The header words of the blocks in q link them in this order. */
  ghost predicate Chained(headers: seq<Model.Header>, q: seq<Model.Block>) {
    forall i: nat | i < |q| :: q[i] < |headers| && headers[q[i]] == Model.Next(LinkAfter(q, i))
  }

  lemma PopChain(headers: seq<Model.Header>, q: seq<Model.Block>)
    requires Chained(headers, q) && Distinct(q) && q != []
    ensures headers[q[0]] == Model.Next(First(q[1..]))
    ensures Chained(headers[q[0] := Model.Owner], q[1..]) && Distinct(q[1..])
  {
    var after := headers[q[0] := Model.Owner];
    assert headers[q[0]] == Model.Next(LinkAfter(q, 0));
    forall i: nat | i < |q[1..]|
      ensures q[1..][i] < |after| && after[q[1..][i]] == Model.Next(LinkAfter(q[1..], i))
    {
      assert headers[q[i + 1]] == Model.Next(LinkAfter(q, i + 1));
    }
  }

  lemma PushChain(headers: seq<Model.Header>, q: seq<Model.Block>, n: Model.Block)
    requires Chained(headers, q) && Distinct(q) && n < |headers| && headers[n] == Model.Owner
    ensures Chained(headers[n := Model.Next(First(q))], [n] + q) && Distinct([n] + q)
  {
    var r := [n] + q;
    var after := headers[n := Model.Next(First(q))];
    forall i: nat | i < |r|
      ensures r[i] < |after| && after[r[i]] == Model.Next(LinkAfter(r, i)) && (i > 0 ==> r[i] != n)
    {
      if i > 0 {
        assert headers[q[i - 1]] == Model.Next(LinkAfter(q, i - 1));
      }
    }
  }

  class MemPool {
    /** The header words of the blocks; start_address is block 0. */
    const header: array<Model.Header>
    var blockList: int
    var freeCount: nat
    /** suspend_thread */
    const waiting: WaitList
    /** Resumed threads that have not run yet. */
    ghost var woken: set<Thread>

    // Fields of the threads, and the local variables of blocked calls.
    var error: map<Thread, Code>
    var call: map<Thread, Model.Call>

    /** The free list, in list order. */
    ghost var free: seq<Model.Block>

    ghost function State(): Model.State
      reads this, header, waiting
    {
      Model.State(header[..], free, freeCount, Waiters.Side(waiting.Queue(), woken), error, call)
    }

    /** block_list points to the first free block; in a pool without blocks nothing ever reads it. */
    ghost predicate Linked()
      reads this`blockList, this`free, header
    {
      (header.Length > 0 ==> blockList == First(free)) && Distinct(free) && Chained(header[..], free)
    }

    /** rt_mp_init; `tlist` are the list nodes of the threads.  Sizes for which the stride wraps to 0 are
        left out, because the code then divides by it (Model.StrideHolds). */
    constructor (size: nat, blockSize: nat, threads: set<Thread>, tlist: map<Thread, IntrusiveList.Node>)
      requires 0 < size && 0 < blockSize && Model.Stride(blockSize) > 0
      requires forall t | t in tlist :: tlist[t].thread == t
      ensures waiting.Valid() && waiting.tlist == tlist && fresh(waiting) && fresh(waiting.Nodes())
      ensures fresh(header) && Linked() && State() == Model.Initial(Model.TotalCount(size, blockSize), threads)
    {
      var total := Model.TotalCount(size, blockSize);
      var blocks := new Model.Header[total](i => Model.Owner);
      LinkAll(blocks);
      header := blocks;
      blockList, freeCount := 0, total;
      waiting := new WaitList(tlist);
      woken := {};
      error := map t | t in threads :: EOK;
      call := map t | t in threads :: Model.Idle;
      free := Model.InitialFree(total);
    }

    /** The loop of rt_mp_init links every block to the next address; then the last link is overwritten.  When
        there is no block, that store goes in front of the region (Model.EndMarkInside) and no header changes. */
    static method LinkAll(header: array<Model.Header>)
      modifies header
      ensures header[..] == Model.InitialHeaders(header.Length)
    {
      for offset := 0 to header.Length
        invariant forall i | 0 <= i < offset :: header[i] == Model.Next(i + 1)
      {
        header[offset] := Model.Next(offset + 1);
      }
      if header.Length > 0 {
        header[header.Length - 1] := Model.Next(NULL);
      }
    }

    /** The body of the loop of rt_mp_alloc. */
    method WaitForBlock(t: Thread, time: int, now: int) returns (r: Model.Outcome)
      requires Model.Typed(State()) && Model.Member(State(), t) && freeCount == 0
      requires waiting.Valid() && t in waiting.tlist && t !in waiting.Queue()
      modifies this`error, this`call, this`woken, waiting, waiting.Nodes(), waiting.tlist[t]
      ensures waiting.Valid()
      ensures (State(), r) == Model.AllocLoop(old(State()), t, time, now)
      ensures waiting.Nodes() <= old(waiting.Nodes()) + {waiting.tlist[t]}
    {
      hide WaitList.Valid, WaitList.Queue, WaitList.Nodes;
      woken := woken - {t};
      if time == 0 {
        error := error[t := ETIMEOUT];
        call := call[t := Model.Idle];
        r := Model.Failed;
      } else {
        error := error[t := EOK];
        waiting.SuspendFirst(t);
        call := call[t := Model.Allocating(time, if time > 0 then now else 0)];
        r := Model.Blocked;
      }
    }

    method AllocLoop(t: Thread, time: int, now: int) returns (r: Model.Outcome)
      requires Model.Typed(State()) && Model.Member(State(), t) && Linked()
      requires waiting.Valid() && t in waiting.tlist && t !in waiting.Queue()
      modifies this, header, waiting, waiting.Nodes(), waiting.tlist[t]
      ensures Linked() && waiting.Valid()
      ensures (State(), r) == Model.AllocLoop(old(State()), t, time, now)
      ensures waiting.Nodes() <= old(waiting.Nodes()) + {waiting.tlist[t]}
    {
      hide WaitList.Valid, WaitList.Queue, WaitList.Nodes, Linked;
      if freeCount == 0 {
        r := WaitForBlock(t, time, now);
      } else {
        woken := woken - {t};
        var n := TakeBlock();
        call := call[t := Model.Idle];
        r := Model.Allocated(n);
      }
    }

    /** The head of the free list gets the pool as its owner. */
    method TakeBlock() returns (n: Model.Block)
      requires Linked() && freeCount > 0 && free != []
      modifies this`freeCount, this`blockList, this`free, header
      ensures Linked() && n == old(free)[0] && n < header.Length
      ensures free == old(free)[1..] && freeCount == old(freeCount) - 1
      ensures header[..] == old(header[..])[n := Model.Owner]
    {
      PopChain(header[..], free);
      freeCount := freeCount - 1;
      n := blockList;
      blockList := header[n].link;
      header[n] := Model.Owner;
      free := free[1..];
    }

    /** What a resumed call does with interrupts on. */
    method AllocWake(t: Thread, now: int) returns (r: Model.Outcome)
      requires Model.Member(State(), t) && call[t].Allocating?
      modifies this`call
      ensures (State(), r) == Model.AllocWake(old(State()), t, now)
    {
      hide WaitList.Valid, WaitList.Queue, WaitList.Nodes;
      var c := call[t];
      if error[t] != EOK {
        call := call[t := Model.Idle];
        r := Model.Failed;
      } else {
        call := call[t := Model.Retrying(WaitTime.Remaining(c.time, c.start, now))];
        r := Model.Awake;
      }
    }

    /** The block becomes the head of the free list. */
    method PutBlock(n: Model.Block)
      requires n < header.Length && header[n] == Model.Owner && Linked()
      modifies this`freeCount, this`blockList, this`free, header
      ensures Linked() && free == [n] + old(free) && freeCount == old(freeCount) + 1
      ensures header[..] == old(header[..])[n := Model.Next(First(old(free)))]
    {
      PushChain(header[..], free, n);
      freeCount := freeCount + 1;
      header[n] := Model.Next(blockList);
      blockList := n;
      free := [n] + free;
    }

    method Free(n: Model.Block)
      requires n < header.Length && header[n] == Model.Owner && Linked() && waiting.Valid()
      modifies this, header, waiting, waiting.Nodes()
      ensures Linked() && waiting.Valid()
      ensures State() == Model.Free(old(State()), n)
      ensures waiting.Nodes() <= old(waiting.Nodes())
    {
      hide WaitList.Valid, WaitList.Queue, WaitList.Nodes, Linked, First;
      PutBlock(n);
      var empty := waiting.IsEmpty();
      if !empty {
        var t := waiting.First();
        error := error[t := EOK];
        t := waiting.Resume();
        woken := woken + {t};
      }
    }

    /** rt_thread_timeout */
    method Timeout(t: Thread)
      requires Linked() && waiting.Valid() && t in waiting.Queue()
      modifies this`error, waiting, waiting.Nodes()
      ensures Linked() && waiting.Valid() && State() == Model.Timeout(old(State()), t)
      ensures waiting.Nodes() <= old(waiting.Nodes())
    {
      hide WaitList.Valid, WaitList.Queue, WaitList.Nodes, Without;
      error := error[t := ETIMEOUT];
      waiting.Leave(t);
    }
  }
}
