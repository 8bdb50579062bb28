/** The suspend_thread list of an IPC object: its list object and the tlist members of the threads on it. */
module WaitList {
  import opened WaitQueue
  import opened IntrusiveList
  import Rings = ThreadList

  class WaitList {
    const list: Node
    const tlist: map<Thread, Node>
    /** The list object and the nodes on the list, in list order. */
    ghost var ring: seq<Node>

    /** The nodes of the ring are the tlist members of their threads. */
    ghost predicate Members()
      reads this
    {
      && ring != [] && ring[0] == list
      && (forall k | 0 < k < |ring| :: ring[k].thread in tlist && ring[k] == tlist[ring[k].thread])
      && (forall t | t in tlist :: tlist[t] != list && tlist[t].thread == t)
    }

    ghost predicate Valid()
      reads this, ring
    {
      Members() && Ring(ring)
    }

    ghost function Nodes(): set<Node>
      reads this
    {
      set n | n in ring
    }

    /** The suspended threads. */
    ghost function Queue(): seq<Thread>
      reads this
    {
      if ring == [] then [] else Rings.Threads(ring)
    }

    /** rt_ipc_object_init */
    constructor (tlist: map<Thread, Node>)
      requires forall t | t in tlist :: tlist[t].thread == t
      ensures Valid() && Queue() == [] && this.tlist == tlist && fresh(list) && ring == [list]
    {
      var l := new Node(0);
      list := l;
      this.tlist := tlist;
      ring := [l];
    }

    lemma QueueDistinct()
      requires Valid()
      ensures Distinct(Queue()) && forall x | x in Queue() :: x in tlist
    {
      forall i, j | 0 <= i < j < |Queue()| ensures Queue()[i] != Queue()[j] {
        OnePlace(ring, i + 1, j + 1);
      }
    }

    lemma OnTheRing(t: Thread)
      requires Valid() && t in Queue()
      ensures t in tlist && tlist[t].thread == t && tlist[t] in Nodes()
    {
      var k :| 0 <= k < |Queue()| && Queue()[k] == t;
      assert ring[k + 1].thread == t;
    }

    lemma OffTheRing(t: Thread)
      requires Valid() && t in tlist && t !in Queue()
      ensures tlist[t] !in ring
    {
      forall k | 0 <= k < |ring| ensures ring[k] != tlist[t] {
        if k > 0 {
          assert Queue()[k - 1] == ring[k].thread && ring[k].thread in Queue();
        }
      }
    }

    method Suspend(t: Thread, priority: map<Thread, nat>, flag: Flag)
      requires Valid() && t in tlist && t !in Queue()
      requires t in priority && forall x | x in Queue() :: x in priority
      modifies this, Nodes(), tlist[t]
      ensures Valid() && Queue() == Enqueue(old(Queue()), priority, flag, t)
      ensures Nodes() <= old(Nodes()) + {tlist[t]}
    {
      hide Enqueue, Rings.Threads;
      OffTheRing(t);
      ghost var r := ring;
      ghost var s := Rings.Suspend(list, tlist[t], priority, flag, r);
      ring := s;
      forall k | 0 < k < |ring| ensures ring[k].thread in tlist && ring[k] == tlist[ring[k].thread] {
        OnePlace(ring, 0, k);
        assert ring[k] in r || ring[k] == tlist[t];
      }
    }

    /** rt_list_insert_after the list object: t becomes the first thread. */
    method SuspendFirst(t: Thread)
      requires Valid() && t in tlist && t !in Queue()
      modifies this, Nodes(), tlist[t]
      ensures Valid() && Queue() == [t] + old(Queue())
      ensures Nodes() <= old(Nodes()) + {tlist[t]}
    {
      OffTheRing(t);
      ghost var r := ring;
      assert LinkedAt(r, 0) && list.next in r;
      IntrusiveList.InsertAfter(list, tlist[t], r, 0);
      ring := Inserted(r, 1, tlist[t]);
      Rings.InsertedThreads(r, 1, tlist[t]);
      Rings.InsertedNodes(r, 1, tlist[t]);
    }

    method IsEmpty() returns (b: bool)
      requires Valid()
      ensures b <==> Queue() == []
    {
      b := IntrusiveList.IsEmpty(list, ring);
    }

    method First() returns (t: Thread)
      requires Valid() && Queue() != []
      ensures t == Queue()[0]
    {
      assert LinkedAt(ring, 0);
      t := list.next.thread;
    }

    /** Takes the first thread off the list. */
    method Resume() returns (t: Thread)
      requires Valid() && Queue() != []
      modifies this, Nodes()
      ensures Valid() && t == old(Queue())[0] && Queue() == old(Queue())[1..]
      ensures Nodes() <= old(Nodes())
    {
      ghost var r := ring;
      var n, s := Rings.Resume(list, r);
      ring := s;
      t := n.thread;
    }

    /** rt_ipc_list_resume_all: every thread gets an error code and leaves the list. */
    method ResumeAll(error: map<Thread, Code>, phase: map<Thread, Phase>)
      returns (e: map<Thread, Code>, p: map<Thread, Phase>)
      requires Valid()
      modifies this, Nodes()
      ensures Valid() && Queue() == [] && Nodes() <= old(Nodes())
      ensures e == FailAll(error, old(Queue())) && p == WakeAll(phase, old(Queue()))
    {
      hide WaitList.Valid, WaitList.Queue, WaitList.Nodes;
      e, p := error, phase;
      var empty := IsEmpty();
      while !empty
        invariant Valid() && empty == (Queue() == []) && Nodes() <= old(Nodes())
        invariant FailAll(e, Queue()) == FailAll(error, old(Queue()))
        invariant WakeAll(p, Queue()) == WakeAll(phase, old(Queue()))
        decreases |Queue()|
      {
        var t := Resume();
        e, p := e[t := ERROR], p[t := Woken];
        empty := IsEmpty();
      }
    }

    /** The node at place k of the list, counting from 1, and the list object behind the last one. */
    ghost function At(k: nat): Node
      requires 1 <= k <= |ring| && ring[0] == list
      reads this
    {
      if k < |ring| then ring[k] else list
    }

    /** A walk has passed the threads `kept` and left them on the list; its cursor n stands at the first of
        the others, or at the list object when there are none. */
    ghost predicate Cursor(n: Node, kept: seq<Thread>, rest: seq<Thread>)
      reads this, ring
    {
      Valid() && Queue() == kept + rest && n == At(|kept| + 1)
    }

    method Begin() returns (n: Node)
      requires Valid()
      ensures Cursor(n, [], Queue())
    {
      assert LinkedAt(ring, 0);
      n := list.next;
      assert [] + Queue() == Queue();
    }

    lemma CursorAt(n: Node, kept: seq<Thread>, rest: seq<Thread>)
      requires Cursor(n, kept, rest)
      ensures Valid() && Queue() == kept + rest
      ensures n == list <==> rest == []
      ensures rest != [] ==> n.thread == rest[0]
    {
      if rest != [] {
        OnePlace(ring, 0, |kept| + 1);
        assert Queue()[|kept|] == rest[0];
      }
    }

    /** Moves the cursor on, and then takes the thread it stood at off the list or leaves it there. */
    method Pass(n: Node, ghost kept: seq<Thread>, ghost rest: seq<Thread>, leave: bool) returns (next: Node)
      requires Cursor(n, kept, rest) && rest != []
      modifies this, Nodes()
      ensures Cursor(next, if leave then kept else kept + [rest[0]], rest[1..]) && Nodes() <= old(Nodes())
    {
      ghost var k := |kept| + 1;
      assert LinkedAt(ring, k);
      next := n.next;
      if leave {
        LeaveAt(n, k);
        assert (kept + rest)[..k - 1] == kept && (kept + rest)[k..] == rest[1..];
      } else {
        assert kept + rest == (kept + [rest[0]]) + rest[1..];
      }
    }

    /** Takes the node at place k off the list: rt_list_remove(&(thread->tlist)). */
    method LeaveAt(n: Node, ghost k: nat)
      requires Valid() && 1 <= k < |ring| && n == At(k)
      modifies this, Nodes()
      ensures Valid() && Nodes() <= old(Nodes()) && |ring| == old(|ring|) - 1 && At(k) == old(At(k + 1))
      ensures k <= old(|Queue()|) && Queue() == old(Queue())[..k - 1] + old(Queue())[k..]
      ensures Queue() == Without(old(Queue()), n.thread)
    {
      hide Without;
      QueueDistinct();
      ghost var r := ring;
      ghost var s := Rings.Leave(n, r, k);
      ring := s;
      Rings.RemovedThreads(r, k);
    }

    /** Takes a thread off the list, wherever it stands. */
    method Leave(t: Thread)
      requires Valid() && t in Queue()
      modifies this, Nodes()
      ensures Valid() && Queue() == Without(old(Queue()), t)
      ensures Nodes() <= old(Nodes())
    {
      QueueDistinct();
      Unlink(tlist[t], this);
    }

    /** rt_list_remove(&(thread->tlist)) takes a thread off whatever list l it is on. */
    static method Unlink(n: Node, ghost l: WaitList)
      requires l.Valid() && n.thread in l.Queue() && n.thread in l.tlist && n == l.tlist[n.thread]
      modifies l, l.Nodes()
      ensures l.Valid() && l.Queue() == Without(old(l.Queue()), n.thread)
      ensures l.Nodes() <= old(l.Nodes())
    {
      hide Without;
      l.QueueDistinct();
      ghost var k :| 0 <= k < |l.Queue()| && l.Queue()[k] == n.thread;
      ghost var r := l.ring;
      assert r[k + 1] == n;
      ghost var s := Rings.Leave(n, r, k + 1);
      l.ring := s;
    }

    method GetHighestPriority(priority: map<Thread, nat>) returns (p: nat)
      requires Valid() && forall x | x in Queue() :: x in priority
      ensures p == Highest(Queue(), priority)
    {
      p := Rings.GetHighestPriority(list, priority, ring);
    }
  }
}
