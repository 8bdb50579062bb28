/** What rt_event_send and rt_event_recv answer, on the masks of the request: with RT_EVENT_FLAG_AND (0x01)
    all of the bits, otherwise with RT_EVENT_FLAG_OR (0x02) any of them; RT_EVENT_FLAG_CLEAR is 0x04. */
module EventAnswers {
  import opened WaitQueue
  import opened EventModel
  import opened EventRuns

  predicate AndMode(option: bv8) { option & 0x01 != 0 }

  predicate ClearMode(option: bv8) { option & 0x04 != 0 }

  predicate AllOf(flags: bv32, want: bv32) { flags & want == want }

  predicate AnyOf(flags: bv32, want: bv32) { flags & want != 0 }

  /** The flags have what a request asks for. */
  predicate Wanted(flags: bv32, want: bv32, option: bv8) {
    if AndMode(option) then AllOf(flags, want) else AnyOf(flags, want)
  }

  /** The bits that are set among those asked for. */
  function Common(flags: bv32, want: bv32): bv32 { flags & want }

  function Added(flags: bv32, bits: bv32): bv32 { flags | bits }

  /** The option names a mode. */
  predicate AndOr(option: bv8) { option & 0x03 != 0 }

  lemma ModesAre(option: bv8)
    ensures AndOr(option) <==> HasMode(option)
    ensures ByAnd(option) <==> AndMode(option)
    ensures Clears(option) <==> ClearMode(option)
  {
  }

  lemma MetIsWanted(flags: Bits, want: Bits, option: bv8)
    requires AndOr(option)
    ensures Met(flags, want, option) <==> Wanted(flags, want, option)
    ensures Met(flags, want, option) ==> Delivered(flags, want, option) == Common(flags, want)
  {
  }

  /** What a request with CLEAR leaves of the flags. */
  function LeftOf(flags: bv32, want: bv32, option: bv8): bv32 {
    if ClearMode(option) then flags & !want else flags
  }

  lemma LeftIsCleared(flags: Bits, want: Bits, option: bv8)
    ensures Cleared(flags, want, option) == LeftOf(flags, want, option)
    ensures LeftOf(flags, Common(flags, want), option) == LeftOf(flags, want, option)
    ensures SomeBit(want) <==> want != 0
    ensures Meet(flags, want) == Common(flags, want)
  {
  }

  /** rt_event_recv, in every state: it fails on an empty set, answers at once exactly when the flags have
      all of the bits in AND mode or one of them in OR mode, with the bits that are set, and otherwise gives
      up or blocks by its timeout. */
  lemma RecvExactly(s: State, t: Thread, bits: Bits, option: bv8, timeout: int)
    requires Typed(s) && t in s.threads && AndOr(option)
    ensures HasMode(option)
    ensures var (r, o) := Recv(s, t, bits, option, timeout);
      && (o.Received? <==>
            bits != 0 && if AndMode(option) then AllOf(s.flags, bits) else AnyOf(s.flags, bits))
      && (o.Received? ==> o.bits == Common(s.flags, bits))
      && r.flags == (if o.Received? then LeftOf(s.flags, bits, option) else s.flags)
      && (bits == 0 ==> o == Returned(ERROR))
      && (bits != 0 && !o.Received? ==> o == if timeout == 0 then Returned(ETIMEOUT) else Blocked)
      && if o == Blocked then
           && r.waiters == Enqueue(s.waiters, s.priority, s.flag, t) && r.phase == s.phase[t := Waiting(timeout > 0)]
           && r.want[t] == bits && r.info[t] == option
         else r.waiters == s.waiters && r.phase == s.phase
  {
    hide Met, Cleared, LeftOf, HasMode, AndOr, SomeBit, Meet, Common, Delivered, Enqueue, AndMode, AllOf, AnyOf;
    ModesAre(option);
    MetIsWanted(s.flags, bits, option);
    LeftIsCleared(s.flags, bits, option);
  }

  /** One turn of the walk of rt_event_send: the first waiter is resumed exactly when the flags have what it
      asks for, with the bits it asked for that are set; the walk goes on with the flags it leaves. */
  lemma TurnExactly(q: seq<Thread>, flags: Bits, want: map<Thread, Bits>, info: map<Thread, bv8>)
    requires q != [] && Covered(q, want, info) && AndOr(info[q[0]])
    ensures var t := q[0];
      if Wanted(flags, want[t], info[t]) then
        var got := want[t := Common(flags, want[t])];
        && Covered(q[1..], got, info)
        && var r := Wake(q[1..], LeftOf(flags, want[t], info[t]), got, info);
        Wake(q, flags, want, info) == r.(woken := [t] + r.woken)
      else
        && Covered(q[1..], want, info)
        && var r := Wake(q[1..], flags, want, info);
        Wake(q, flags, want, info) == r.(waiters := [t] + r.waiters)
  {
    hide Met, Wanted, Cleared, LeftOf, HasMode, AndOr, Delivered, SomeBit, Meet, Common, ByAnd, Clears;
    var t := q[0];
    ModesAre(info[t]);
    MetIsWanted(flags, want[t], info[t]);
    LeftIsCleared(flags, want[t], info[t]);
    LeftIsCleared(flags, Common(flags, want[t]), info[t]);
  }

  /** After every step of every run: a suspended thread's request is as it was made, a thread in AND mode
      lacks one of its bits, and one in OR mode all of them. */
  lemma RunAsleep(states: seq<State>, events: seq<Event>, flag: Flag, priority: map<Thread, nat>, n: nat, t: Thread)
    requires Run(states, events) && states[0] == Initial(flag, priority) && n < |states|
    requires var s := states[n]; t in s.threads && t in s.phase && s.phase[t].Waiting?
    ensures var s := states[n];
      && t in s.want && t in s.info && t in s.request && s.want[t] == s.request[t]
      && (s.info[t] & 0x01 != 0 ==> s.flags & s.want[t] != s.want[t])
      && (s.info[t] & 0x01 == 0 ==> s.info[t] & 0x02 != 0 && s.flags & s.want[t] == 0)
  {
    hide Run, Inv, Met, HasMode;
    RunQuiet(states, events, flag, priority, n);
    var s := states[n];
    AsleepUnmet(s, t);
    Unmet(s.flags, s.want[t], s.info[t]);
  }

  lemma AsleepUnmet(s: State, t: Thread)
    requires Inv(s) && t in s.threads && t in s.phase && s.phase[t].Waiting?
    ensures t in s.want && t in s.info && t in s.request && s.want[t] == s.request[t]
    ensures HasMode(s.info[t]) && !Met(s.flags, s.want[t], s.info[t])
  {
    hide Answered, Met, HasMode, SomeBit, Distinct;
    assert t in s.waiters;
  }

  lemma Unmet(flags: bv32, want: bv32, option: bv8)
    requires HasMode(option) && !Met(flags, want, option)
    ensures option & 0x01 != 0 ==> flags & want != want
    ensures option & 0x01 == 0 ==> option & 0x02 != 0 && flags & want == 0
  {
  }

  /** A send of a set, in every state of a run: who stays asleep lacks what it asked for in the flags left,
      and who is resumed gets set bits it asked for, in AND mode all of them and in OR mode at least one. */
  lemma SendExactly(s: State, bits: Bits, t: Thread)
    requires Inv(s) && t in s.waiters
    ensures Typed(s) && t in s.want && t in s.info && t in s.phase
    ensures var (r, o) := Send(s, bits);
      && o == Returned(if bits == 0 then ERROR else EOK)
      && (bits == 0 ==> r == s)
      && t in r.phase && t in r.want
      && if bits == 0 || t in r.waiters then
           && r.phase[t] == s.phase[t] && r.want[t] == s.want[t]
           && (bits != 0 ==> !Wanted(r.flags, s.want[t], s.info[t]))
         else
           && r.phase[t] == Woken && r.want[t] != 0
           && Common(r.want[t], Common(Added(s.flags, bits), s.want[t])) == r.want[t]
           && (AndMode(s.info[t]) ==> r.want[t] == s.want[t])
  {
    hide Wake, Met, Wanted, Distinct, SomeBit, HasMode, ByAnd, Common, Union, Added, Subset, AndMode, AndOr, Answers;
    var flags := Union(s.flags, bits);
    UnionIsAdded(s.flags, bits);
    Nonzero(bits);
    ModesAre(s.info[t]);
    if SomeBit(bits) {
      var w := Wake(s.waiters, flags, s.want, s.info);
      WakeSent(s, flags);
      SendKeeps(s, bits);
      if t in w.waiters {
        MetIsWanted(w.flags, s.want[t], s.info[t]);
      } else {
        WakeDelivers(s.waiters, flags, s.want, s.info, t);
        Within(w.want[t], flags, s.want[t]);
        Nonzero(w.want[t]);
      }
    }
  }

  lemma UnionIsAdded(flags: Bits, bits: Bits)
    ensures Union(flags, bits) == Added(flags, bits)
  {
  }

  lemma Nonzero(bits: Bits)
    ensures SomeBit(bits) <==> bits != 0
  {
  }

  lemma Within(got: Bits, flags: Bits, want: Bits)
    requires Subset(got, flags) && Subset(got, want)
    ensures Common(got, Common(flags, want)) == got
  {
  }
}
