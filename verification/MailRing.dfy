/** The ring buffer of a mailbox and the bounded deque it stands for. */
module MailRing {
  import Modulo

  type Mail = nat

  /** size, in_offset, out_offset, entry and msg_pool of struct rt_mailbox. */
  datatype Ring = Ring(size: nat, inOffset: nat, outOffset: nat, entry: nat, pool: seq<Mail>)

  ghost predicate Valid(r: Ring) {
    && |r.pool| == r.size
    && r.entry <= r.size
    && (if r.size == 0 then r.inOffset == 0 && r.outOffset == 0
        else r.outOffset < r.size && r.inOffset == Slot(r, r.entry))
  }

  function Empty(pool: seq<Mail>): Ring { Ring(|pool|, 0, 0, 0, pool) }

  /** The slot of the k-th mail from the head: (outOffset + k) mod size. */
  function Slot(r: Ring, k: nat): int {
    if r.outOffset + k < r.size then r.outOffset + k else r.outOffset + k - r.size
  }

  lemma SlotIsModulo(r: Ring, k: nat)
    requires 0 < r.size && r.outOffset < r.size && k <= r.size
    ensures Slot(r, k) == (r.outOffset + k) % r.size
    ensures Valid(r) && k == r.entry ==> r.inOffset == (r.outOffset + r.entry) % r.size
  {
    if r.outOffset + k >= r.size {
      Modulo.Unique(r.outOffset + k, r.size, 1, r.outOffset + k - r.size);
    }
  }

  /** The mails in the order in which they will be received. */
  ghost function Contents(r: Ring): (c: seq<Mail>)
    requires Valid(r)
    ensures |c| == r.entry
  {
    seq(r.entry, k requires 0 <= k < r.entry => r.pool[Slot(r, k)])
  }

  function Next(r: Ring, offset: nat): nat {
    if offset + 1 >= r.size then 0 else offset + 1
  }

  function Previous(r: Ring, offset: nat): int {
    if offset > 0 then offset - 1 else r.size - 1
  }

  function Put(r: Ring, v: Mail): Ring
    requires Valid(r) && r.entry < r.size
  {
    r.(pool := r.pool[r.inOffset := v], inOffset := Next(r, r.inOffset), entry := r.entry + 1)
  }

  function PutFront(r: Ring, v: Mail): Ring
    requires Valid(r) && r.entry < r.size
  {
    var o := Previous(r, r.outOffset);
    r.(pool := r.pool[o := v], outOffset := o, entry := r.entry + 1)
  }

  function Head(r: Ring): Mail
    requires Valid(r) && r.entry > 0
  {
    r.pool[r.outOffset]
  }

  function Drop(r: Ring): Ring
    requires Valid(r) && r.entry > 0
  {
    r.(outOffset := Next(r, r.outOffset), entry := r.entry - 1)
  }

  /** send appends. */
  lemma PutAppends(r: Ring, v: Mail)
    requires Valid(r) && r.entry < r.size
    ensures Valid(Put(r, v)) && Contents(Put(r, v)) == Contents(r) + [v]
  {
    var s := Put(r, v);
    forall k: nat | k < r.entry ensures s.pool[Slot(s, k)] == r.pool[Slot(r, k)] {}
  }

  /** urgent prepends. */
  lemma PutFrontPrepends(r: Ring, v: Mail)
    requires Valid(r) && r.entry < r.size
    ensures Valid(PutFront(r, v)) && Contents(PutFront(r, v)) == [v] + Contents(r)
  {
    var s := PutFront(r, v);
    forall k: nat | k < r.entry ensures s.pool[Slot(s, k + 1)] == r.pool[Slot(r, k)] {
      assert Slot(s, k + 1) == Slot(r, k);
    }
    var c := Contents(s);
    assert forall k: nat | 0 < k < r.entry + 1 :: c[k] == s.pool[Slot(s, (k - 1) + 1)];
  }

  /** recv pops the head. */
  lemma DropPops(r: Ring)
    requires Valid(r) && r.entry > 0
    ensures Valid(Drop(r)) && Contents(r) == [Head(r)] + Contents(Drop(r))
  {
    var s := Drop(r);
    forall k: nat | k < s.entry ensures s.pool[Slot(s, k)] == r.pool[Slot(r, k + 1)] {}
    var c := Contents(r);
    assert forall k: nat | 0 < k < r.entry :: c[k] == r.pool[Slot(r, (k - 1) + 1)];
  }
}
