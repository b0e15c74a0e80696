/**
 Where the promises of the lock-free queue end: a single slot, and the DropOldest policy, whose branch for a full ring
 sets dequeuePos from a position read earlier and so may set it back.
 */
module LockFreeLimits {
  import opened Division
  import opened QueueTypes
  import opened LockFreeProtocol
  import opened LockFreeSafety

  // ---------------------------------------------------------------------------------------------
  // Building runs

  ghost predicate Reachable(c: Config, n: nat, s: State)
    requires 0 < c.cap
  {
    |s.slots| == c.cap && |s.threads| == n && exists actions :: Run(c, n, actions) == s
  }

  lemma Start(c: Config, n: nat)
    requires 0 < c.cap
    ensures Reachable(c, n, Init(c, n))
  {
    assert Run(c, n, []) == Init(c, n);
  }

  lemma Then(c: Config, n: nat, s: State, a: Action)
    requires 0 < c.cap && Reachable(c, n, s)
    ensures Reachable(c, n, Apply(c, s, a))
  {
    var actions :| Run(c, n, actions) == s;
    assert Run(c, n, actions + [a]) == Apply(c, s, a);
  }

  /** The next step of thread t. */
  lemma Next(c: Config, n: nat, s: State, t: nat, s': State)
    requires 0 < c.cap && Reachable(c, n, s) && t < n && s' == StepThread(c, s, t)
    ensures Reachable(c, n, s')
  {
    Then(c, n, s, Advance(t));
  }

  /** An Enqueue call up to its compare-and-swap, which it wins. */
  lemma Claiming(c: Config, n: nat, s: State, t: nat, item: MessageRef)
    requires 0 < c.cap && Reachable(c, n, s) && t < n && s.threads[t].Idle?
    requires s.slots[SlotOf(c.cap, s.enq)].sequence == s.enq
    ensures Reachable(c, n, WonClaim(s, t, item, s.enq))
  {
    Then(c, n, s, CallEnqueue(t, item));
    var s1 := Goto(s, t, EnqLoadPos(item, 0));
    var s2 := Goto(s, t, EnqLoadSeq(item, 0, s.enq));
    var s3 := Goto(s, t, EnqCas(item, 0, s.enq));
    assert s2 == Goto(s1, t, EnqLoadSeq(item, 0, s.enq)) && s3 == Goto(s2, t, EnqCas(item, 0, s.enq));
    Next(c, n, s1, t, s2);
    Next(c, n, s2, t, s3);
    assert WonClaim(s3, t, item, s.enq) == WonClaim(s, t, item, s.enq);
    Next(c, n, s3, t, WonClaim(s, t, item, s.enq));
  }

  /** The state after an Enqueue call that holds ticket pos has stored its message and returned. */
  function AfterStore(c: Config, s: State, t: nat, item: MessageRef, pos: nat): State
    requires 0 < c.cap == |s.slots| && t < |s.threads|
  {
    EnqueueReturned(s.(slots := s.slots[SlotOf(c.cap, pos) := Slot(pos + 1, item)]), t, pos)
  }

  lemma Storing(c: Config, n: nat, s: State, t: nat)
    requires 0 < c.cap && Reachable(c, n, s) && t < n && s.threads[t].EnqStoreData?
    ensures Reachable(c, n, AfterStore(c, s, t, s.threads[t].item, s.threads[t].pos))
  {
    var item, pos := s.threads[t].item, s.threads[t].pos;
    var s1 := StoredData(c, s, t, item, pos);
    var s2 := Published(c, s1, t, item, pos);
    Next(c, n, s, t, s1);
    Next(c, n, s1, t, s2);
    assert s2 == Goto(s, t, EnqCount(item, pos)).(slots := s.slots[SlotOf(c.cap, pos) := Slot(pos + 1, item)]);
    Next(c, n, s2, t, AfterStore(c, s, t, item, pos));
  }

  /** A whole Enqueue call on a free slot. */
  function AfterEnqueue(c: Config, s: State, t: nat, item: MessageRef): State
    requires 0 < c.cap == |s.slots| && t < |s.threads|
  {
    AfterStore(c, WonClaim(s, t, item, s.enq), t, item, s.enq)
  }

  lemma Enqueueing(c: Config, n: nat, s: State, t: nat, item: MessageRef)
    requires 0 < c.cap && Reachable(c, n, s) && t < n && s.threads[t].Idle?
    requires s.slots[SlotOf(c.cap, s.enq)].sequence == s.enq
    ensures Reachable(c, n, AfterEnqueue(c, s, t, item))
  {
    Claiming(c, n, s, t, item);
    Storing(c, n, WonClaim(s, t, item, s.enq), t);
  }

  /** A Dequeue call up to its compare-and-swap, which it wins. */
  lemma Taking(c: Config, n: nat, s: State, t: nat)
    requires 0 < c.cap && Reachable(c, n, s) && t < n && s.threads[t].Idle?
    requires s.slots[SlotOf(c.cap, s.deq)].sequence == s.deq + 1
    ensures Reachable(c, n, WonTake(s, t, s.deq))
  {
    Then(c, n, s, CallDequeue(t));
    var s1 := Goto(s, t, DeqLoadPos(0));
    var s2 := Goto(s, t, DeqLoadSeq(0, s.deq));
    var s3 := Goto(s, t, DeqCas(0, s.deq));
    assert s2 == Goto(s1, t, DeqLoadSeq(0, s.deq)) && s3 == Goto(s2, t, DeqCas(0, s.deq));
    Next(c, n, s1, t, s2);
    Next(c, n, s2, t, s3);
    assert WonTake(s3, t, s.deq) == WonTake(s, t, s.deq);
    Next(c, n, s3, t, WonTake(s, t, s.deq));
  }

  /** The message is read. */
  function AfterLoad(c: Config, s: State, t: nat, pos: nat): State
    requires 0 < c.cap == |s.slots| && t < |s.threads|
  {
    Goto(s, t, DeqClear(pos, s.slots[SlotOf(c.cap, pos)].data))
  }

  lemma Loading(c: Config, n: nat, s: State, t: nat)
    requires 0 < c.cap && Reachable(c, n, s) && t < n && s.threads[t].DeqLoadData?
    ensures Reachable(c, n, AfterLoad(c, s, t, s.threads[t].pos))
  {
    Next(c, n, s, t, AfterLoad(c, s, t, s.threads[t].pos));
  }

  /** The slot is handed back and the call returns. */
  function AfterRelease(c: Config, s: State, t: nat, pos: nat, data: MessageRef): State
    requires 0 < c.cap == |s.slots| && t < |s.threads|
  {
    DequeueReturned(s.(slots := s.slots[SlotOf(c.cap, pos) := Slot(pos + c.cap, NIL)]), t, pos, data)
  }

  lemma Releasing(c: Config, n: nat, s: State, t: nat)
    requires 0 < c.cap && Reachable(c, n, s) && t < n && s.threads[t].DeqClear?
    ensures Reachable(c, n, AfterRelease(c, s, t, s.threads[t].pos, s.threads[t].data))
  {
    var pos, data := s.threads[t].pos, s.threads[t].data;
    var s1 := Cleared(c, s, t, pos, data);
    var s2 := Released(c, s1, t, pos, data);
    Next(c, n, s, t, s1);
    Next(c, n, s1, t, s2);
    assert s2 == Goto(s, t, DeqCount(pos, data)).(slots := s.slots[SlotOf(c.cap, pos) := Slot(pos + c.cap, NIL)]);
    Next(c, n, s2, t, AfterRelease(c, s, t, pos, data));
  }

  /** A whole Dequeue call on a published slot. */
  function AfterDequeue(c: Config, s: State, t: nat): State
    requires 0 < c.cap == |s.slots| && t < |s.threads|
  {
    AfterRelease(c, WonTake(s, t, s.deq), t, s.deq, s.slots[SlotOf(c.cap, s.deq)].data)
  }

  lemma Dequeueing(c: Config, n: nat, s: State, t: nat)
    requires 0 < c.cap && Reachable(c, n, s) && t < n && s.threads[t].Idle?
    requires s.slots[SlotOf(c.cap, s.deq)].sequence == s.deq + 1
    ensures Reachable(c, n, AfterDequeue(c, s, t))
  {
    Taking(c, n, s, t);
    var s1 := WonTake(s, t, s.deq);
    Loading(c, n, s1, t);
    var s2 := AfterLoad(c, s1, t, s.deq);
    Releasing(c, n, s2, t);
    GoneOn(c, s1, t, s2.threads[t], s.deq, s2.threads[t].data);
  }

  /** Where a call stood before it returned does not show afterwards. */
  lemma GoneOn(c: Config, s: State, t: nat, l: Local, pos: nat, data: MessageRef)
    requires 0 < c.cap == |s.slots| && t < |s.threads|
    ensures AfterRelease(c, Goto(s, t, l), t, pos, data) == AfterRelease(c, s, t, pos, data)
  {
    assert s.threads[t := l][t := Idle] == s.threads[t := Idle];
  }

  // ---------------------------------------------------------------------------------------------
  // One slot

  /** Why one slot is not enough: with capacity 1 two Enqueue calls in a row are both accepted, and the first message is lost. */
  lemma OneSlotLosesMessages(first: MessageRef, second: MessageRef, policy: DropPolicy) returns (s: State)
    ensures Reachable(Config(1, policy), 1, s)
    ensures s.accepted == [0, 1] && s.rejected == [] && s.enq - s.deq == 2 > 1 && s.slots == [Slot(2, second)]
    ensures |s.claims| == 2 && s.claims[0].item == first && s.deq == 0
  {
    var c := Config(1, policy);
    var s0 := Init(c, 1);
    Start(c, 1);
    Enqueueing(c, 1, s0, 0, first);
    var s1 := AfterEnqueue(c, s0, 0, first);
    assert s1.slots == [Slot(1, first)] && s1.threads == [Idle];
    Enqueueing(c, 1, s1, 0, second);
    s := AfterEnqueue(c, s1, 0, second);
  }

  /** Thread 1 has won ticket 0 and stopped; a second message has been stored over the first. */
  lemma OneSlotStalled(policy: DropPolicy, a: MessageRef, b: MessageRef) returns (s: State)
    ensures Reachable(Config(1, policy), 2, s) && s.threads == [Idle, DeqLoadData(0)]
    ensures s.slots == [Slot(2, b)] && s.deq == 1 && s.returned == []
    ensures |s.claims| == 2 && s.claims[0].item == a && s.claims[1].item == b
  {
    var c := Config(1, policy);
    var s0 := Init(c, 2);
    Start(c, 2);
    Enqueueing(c, 2, s0, 0, a);
    var s1 := AfterEnqueue(c, s0, 0, a);
    assert s1.slots == [Slot(1, a)] && s1.threads == [Idle, Idle];
    Taking(c, 2, s1, 1);
    var s2 := WonTake(s1, 1, 0);
    Enqueueing(c, 2, s2, 0, b);
    s := AfterEnqueue(c, s2, 0, b);
  }

  /** Thread 0 wins ticket 1; both threads read the slot. */
  lemma OneSlotReadTwice(policy: DropPolicy, a: MessageRef, b: MessageRef) returns (s: State)
    ensures Reachable(Config(1, policy), 2, s) && s.threads == [DeqClear(1, b), DeqClear(0, b)] && s.returned == []
    ensures |s.claims| == 2 && s.claims[0].item == a && s.claims[1].item == b
  {
    var c := Config(1, policy);
    var s0 := OneSlotStalled(policy, a, b);
    Taking(c, 2, s0, 0);
    var s1 := WonTake(s0, 0, 1);
    Loading(c, 2, s1, 0);
    var s2 := AfterLoad(c, s1, 0, 1);
    Loading(c, 2, s2, 1);
    s := AfterLoad(c, s2, 1, 0);
  }

  /** With one slot, and any policy, two Dequeue calls of different tickets can return the same message, and the other is never returned. */
  lemma OneSlotReturnsTwice(policy: DropPolicy, a: MessageRef, b: MessageRef) returns (s: State)
    ensures Reachable(Config(1, policy), 2, s) && s.returned == [Delivery(1, b), Delivery(0, b)]
    ensures |s.claims| == 2 && s.claims[0].item == a && s.claims[1].item == b
  {
    var c := Config(1, policy);
    var s0 := OneSlotReadTwice(policy, a, b);
    Releasing(c, 2, s0, 0);
    var s1 := AfterRelease(c, s0, 0, 1, b);
    Releasing(c, 2, s1, 1);
    s := AfterRelease(c, s1, 1, 0, b);
  }

  // ---------------------------------------------------------------------------------------------
  // A full ring under DropOldest

  /** So many messages stored, and nothing else done. */
  ghost predicate Filled(c: Config, s: State, k: nat) {
    && |s.slots| == c.cap && s.enq == k == |s.claims| && s.deq == 0 && s.returned == []
    && s.threads == [Idle, Idle, Idle]
    && (forall i :: 0 <= i < k && i < c.cap ==> s.slots[i].sequence == i + 1)
    && (forall i :: k <= i < c.cap ==> s.slots[i].sequence == i)
  }

  lemma {:induction false} Fill(c: Config, k: nat) returns (s: State)
    requires 0 < c.cap && k <= c.cap
    ensures Reachable(c, 3, s) && Filled(c, s, k)
  {
    if k == 0 {
      s := Init(c, 3);
      Start(c, 3);
    } else {
      var before := Fill(c, k - 1);
      Remainder(c.cap, k - 1, 0, k - 1);
      Enqueueing(c, 3, before, 1, k);
      s := AfterEnqueue(c, before, 1, k);
    }
  }

  /** Thread 0 has found the ring full at position cap and stands before it looks at dequeuePos. */
  ghost predicate Stalled(c: Config, s: State, item: MessageRef) {
    && |s.slots| == c.cap && s.enq == c.cap == |s.claims| && s.deq == 0 && s.returned == []
    && s.threads == [EnqReadHead(item, 0, c.cap), Idle, Idle]
    && (forall i :: 0 <= i < c.cap ==> s.slots[i].sequence == i + 1)
  }

  /** Thread 0 looks for room while the last free slot is claimed and not yet stored to. */
  lemma Looking(c: Config, s: State, item: MessageRef)
    requires 0 < c.cap && c.policy.DropOldest? && Reachable(c, 3, s) && s.threads[0].Idle?
    requires s.enq == c.cap && s.slots[0].sequence < c.cap
    ensures Reachable(c, 3, Goto(s, 0, EnqReadHead(item, 0, c.cap)))
  {
    Remainder(c.cap, c.cap, 1, 0);
    Then(c, 3, s, CallEnqueue(0, item));
    var s1 := Goto(s, 0, EnqLoadPos(item, 0));
    var s2 := Goto(s, 0, EnqLoadSeq(item, 0, c.cap));
    var s3 := Goto(s, 0, EnqReadHead(item, 0, c.cap));
    assert s2 == Goto(s1, 0, EnqLoadSeq(item, 0, c.cap)) && s3 == Goto(s2, 0, EnqReadHead(item, 0, c.cap));
    Next(c, 3, s1, 0, s2);
    Next(c, 3, s2, 0, s3);
  }

  lemma Stall(c: Config, item: MessageRef) returns (s: State)
    requires 0 < c.cap && c.policy.DropOldest?
    ensures Reachable(c, 3, s) && Stalled(c, s, item)
  {
    var k := c.cap - 1;
    var s0 := Fill(c, k);
    Remainder(c.cap, k, 0, k);
    Claiming(c, 3, s0, 2, c.cap);
    var s1 := WonClaim(s0, 2, c.cap, k);
    Looking(c, s1, item);
    var s2 := Goto(s1, 0, EnqReadHead(item, 0, c.cap));
    Storing(c, 3, s2, 2);
    s := AfterStore(c, s2, 2, c.cap, k);
  }

  /** Since then one message has been taken and one more stored. */
  ghost predicate Lapped(c: Config, s: State, item: MessageRef) {
    && |s.slots| == c.cap > 0 && s.enq == c.cap + 1 == |s.claims| && s.deq == 1 && |s.returned| == 1
    && s.threads == [EnqReadHead(item, 0, c.cap), Idle, Idle]
    && s.slots[SlotOf(c.cap, 1)].sequence == 2
  }

  lemma Lap(c: Config, item: MessageRef) returns (s: State)
    requires 0 < c.cap && c.policy.DropOldest?
    ensures Reachable(c, 3, s) && Lapped(c, s, item)
  {
    var s0 := Stall(c, item);
    Remainder(c.cap, 0, 0, 0);
    Remainder(c.cap, c.cap, 1, 0);
    if c.cap > 1 { Remainder(c.cap, 1, 0, 1); }
    Dequeueing(c, 3, s0, 1);
    var s1 := AfterDequeue(c, s0, 1);
    Enqueueing(c, 3, s1, 1, c.cap + 1);
    s := AfterEnqueue(c, s1, 1, c.cap + 1);
  }

  /** Thread 0 goes on: it sets dequeuePos to 1, whatever it is by now. */
  lemma SettingBack(c: Config, s: State, item: MessageRef)
    requires 0 < c.cap && Reachable(c, 3, s) && s.threads[0] == EnqReadHead(item, 0, c.cap)
    ensures Reachable(c, 3, Goto(s, 0, EnqLoadPos(item, 1)).(deq := 1))
  {
    var s1 := Goto(s, 0, EnqMoveHead(item, 0, c.cap, s.deq));
    Next(c, 3, s, 0, s1);
    var s2 := Goto(s, 0, EnqLoadPos(item, 1)).(deq := 1);
    assert s2 == Goto(s1, 0, EnqRetry(item, 0)).(deq := MovedHead(c.cap, c.cap));
    Next(c, 3, s1, 0, s2);
  }

  /** Under DropOldest more tickets can be out than there are slots. */
  lemma MoreThanCapacity(c: Config) returns (s: State)
    requires 0 < c.cap && c.policy.DropOldest?
    ensures Reachable(c, 3, s) && s.enq - s.deq > c.cap
  {
    var s0 := Lap(c, 1);
    Dequeueing(c, 3, s0, 1);
    var s1 := AfterDequeue(c, s0, 1);
    NextLap(c.cap, 1);
    Enqueueing(c, 3, s1, 1, 1);
    var s2 := AfterEnqueue(c, s1, 1, 1);
    SettingBack(c, s2, 1);
    s := Goto(s2, 0, EnqLoadPos(1, 1)).(deq := 1);
  }

  /** Two threads hold ticket 1, and the second has read the message. */
  ghost predicate BothHold(c: Config, s: State, item: MessageRef, data: MessageRef) {
    && |s.slots| == c.cap > 0 && s.enq == c.cap + 1 == |s.claims| && s.deq == 2 && |s.returned| == 1
    && s.threads == [EnqLoadPos(item, 1), DeqClear(1, data), DeqLoadData(1)]
    && s.slots[SlotOf(c.cap, 1)] == Slot(2, data)
  }

  lemma HoldTwice(c: Config, item: MessageRef) returns (s: State, data: MessageRef)
    requires 0 < c.cap && c.policy.DropOldest?
    ensures Reachable(c, 3, s) && BothHold(c, s, item, data)
  {
    var s0 := Lap(c, item);
    data := s0.slots[SlotOf(c.cap, 1)].data;
    Taking(c, 3, s0, 2);
    var s1 := WonTake(s0, 2, 1);
    SettingBack(c, s1, item);
    var s2 := Goto(s1, 0, EnqLoadPos(item, 1)).(deq := 1);
    Taking(c, 3, s2, 1);
    var s3 := WonTake(s2, 1, 1);
    Loading(c, 3, s3, 1);
    s := AfterLoad(c, s3, 1, 1);
  }

  /** The first of them returns, and the slot takes a new message. */
  lemma Refill(c: Config, item: MessageRef, w: MessageRef) returns (s: State, data: MessageRef)
    requires 0 < c.cap && c.policy.DropOldest?
    ensures Reachable(c, 3, s) && s.threads[1] == DeqClear(1, data) && s.deq == 2
    ensures |s.returned| == 2 && s.returned[1] == Delivery(1, data)
    ensures s.slots[SlotOf(c.cap, 1)] == Slot(c.cap + 2, w)
    ensures c.cap + 1 in s.accepted && c.cap + 1 < |s.claims| && s.claims[c.cap + 1].item == w
  {
    var s0;
    s0, data := HoldTwice(c, item);
    Loading(c, 3, s0, 2);
    var s1 := AfterLoad(c, s0, 2, 1);
    Releasing(c, 3, s1, 2);
    var s2 := AfterRelease(c, s1, 2, 1, data);
    NextLap(c.cap, 1);
    Enqueueing(c, 3, s2, 2, w);
    s := AfterEnqueue(c, s2, 2, w);
    assert s.accepted[|s2.accepted|] == c.cap + 1;
  }

  /**
   Under DropOldest one message can be returned by two Dequeue calls, and an accepted one, still to be taken, wiped out
   of its slot by the second of them.
   */
  lemma DropOldestDoublesAndLoses(c: Config, w: MessageRef) returns (s: State, data: MessageRef)
    requires 0 < c.cap && c.policy.DropOldest?
    ensures Reachable(c, 3, s) && |s.returned| == 3 && s.returned[1] == s.returned[2] == Delivery(1, data)
    ensures s.deq <= c.cap + 1 < |s.claims| && c.cap + 1 in s.accepted && s.claims[c.cap + 1].item == w
    ensures s.slots[SlotOf(c.cap, c.cap + 1)] == Slot(c.cap + 1, NIL)
  {
    var s0;
    s0, data := Refill(c, 1, w);
    Releasing(c, 3, s0, 1);
    s := AfterRelease(c, s0, 1, 1, data);
    NextLap(c.cap, 1);
  }

  // ---------------------------------------------------------------------------------------------
  // Every ticket is returned at most once, with any number of slots but without DropOldest

  /** Tickets are taken one after another, each by one thread, and returned by it. */
  ghost predicate Once(s: State) {
    && |s.takes| == s.deq
    && (forall t :: 0 <= t < |s.threads| ==> !s.threads[t].EnqReadHead? && !s.threads[t].EnqMoveHead?)
    && (forall t, p :: 0 <= t < |s.threads| && HoldsTake(s.threads[t], p) ==> Consuming(s, t, p))
    && (forall i :: 0 <= i < |s.returned| ==> s.returned[i].ticket < |s.takes| && s.takes[s.returned[i].ticket].done)
    && Distinct(Tickets(s.returned))
  }

  lemma ReturnOnce(s: State, t: nat)
    requires Once(s) && t < |s.threads| && s.threads[t].DeqCount?
    ensures Once(DequeueReturned(s, t, s.threads[t].pos, s.threads[t].data))
  {
    var pos, d := s.threads[t].pos, Delivery(s.threads[t].pos, s.threads[t].data);
    assert HoldsTake(s.threads[t], pos);
    assert Tickets(s.returned + [d]) == Tickets(s.returned) + [pos];
  }

  lemma TakeOnce(s: State, t: nat)
    requires Once(s) && t < |s.threads| && s.threads[t].DeqCas? && s.threads[t].pos == s.deq
    ensures Once(WonTake(s, t, s.deq))
  {
  }

  /** The other steps take and return nothing. */
  lemma OtherSteps(c: Config, s: State, t: nat)
    requires 0 < c.cap == |s.slots| && !c.policy.DropOldest? && Once(s) && t < |s.threads|
    requires !s.threads[t].DeqCount? && !(s.threads[t].DeqCas? && s.threads[t].pos == s.deq)
    ensures var s' := StepThread(c, s, t);
            && s'.takes == s.takes && s'.deq == s.deq && s'.returned == s.returned && s'.threads == s.threads[t := s'.threads[t]]
            && !s'.threads[t].EnqReadHead? && !s'.threads[t].EnqMoveHead?
            && (forall p {:trigger HoldsTake(s'.threads[t], p)} :: HoldsTake(s'.threads[t], p) ==> HoldsTake(s.threads[t], p))
  {
  }

  lemma StepOnce(c: Config, s: State, t: nat)
    requires 0 < c.cap == |s.slots| && !c.policy.DropOldest? && Once(s) && t < |s.threads|
    ensures Once(StepThread(c, s, t))
  {
    if s.threads[t].DeqCount? {
      ReturnOnce(s, t);
    } else if s.threads[t].DeqCas? && s.threads[t].pos == s.deq {
      TakeOnce(s, t);
    } else {
      OtherSteps(c, s, t);
    }
  }

  lemma {:induction false} RunOnce(c: Config, n: nat, actions: seq<Action>)
    requires 0 < c.cap && !c.policy.DropOldest?
    ensures Once(Run(c, n, actions))
  {
    if actions != [] {
      var k := |actions| - 1;
      var s, a := Run(c, n, actions[..k]), actions[k];
      RunOnce(c, n, actions[..k]);
      if a.t < |s.threads| && a.Advance? { StepOnce(c, s, a.t); }
    }
  }

  // ---------------------------------------------------------------------------------------------
  // Accepted messages stay in their slots

  /** Past its store, a message that is still to be taken is in its slot. */
  ghost predicate Stored(c: Config, s: State)
    requires 0 < c.cap == |s.slots| && |s.claims| == s.enq
  {
    && (forall p {:trigger SlotOf(c.cap, p)} :: s.deq <= p < s.enq && s.claims[p].done ==> s.slots[SlotOf(c.cap, p)].sequence == p + 1)
    && (forall t :: 0 <= t < |s.threads| && s.threads[t].EnqCount? && s.deq <= s.threads[t].pos ==>
          s.slots[SlotOf(c.cap, s.threads[t].pos)].sequence == s.threads[t].pos + 1)
  }

  lemma PublishStored(c: Config, s: State, t: nat)
    requires Inv(c, s) && Stored(c, s) && t < |s.threads| && s.threads[t].EnqStoreSeq?
    ensures Stored(c, Published(c, s, t, s.threads[t].item, s.threads[t].pos))
  {
    assert ThreadInv(c, s, t);
    Apart(c.cap, s.threads[t].pos);
    assert forall u :: 0 <= u < |s.threads| ==> ThreadInv(c, s, u);
  }

  lemma ReleaseStored(c: Config, s: State, t: nat)
    requires Inv(c, s) && Stored(c, s) && t < |s.threads| && s.threads[t].DeqStoreSeq?
    ensures Stored(c, Released(c, s, t, s.threads[t].pos, s.threads[t].data))
  {
    assert ThreadInv(c, s, t);
    Apart(c.cap, s.threads[t].pos);
    assert forall u :: 0 <= u < |s.threads| ==> ThreadInv(c, s, u);
  }

  lemma ReturnStored(c: Config, s: State, t: nat)
    requires Inv(c, s) && Stored(c, s) && t < |s.threads| && s.threads[t].EnqCount?
    ensures Stored(c, EnqueueReturned(s, t, s.threads[t].pos))
  {
    assert ThreadInv(c, s, t);
  }

  /** The other steps change no sequence and finish no claim. */
  lemma SameSequences(c: Config, s: State, t: nat)
    requires Inv(c, s) && !c.policy.DropOldest? && t < |s.threads|
    requires var l := s.threads[t]; !l.EnqStoreSeq? && !l.DeqStoreSeq? && !l.EnqCount?
    ensures var s' := StepThread(c, s, t);
            && s.deq <= s'.deq && s.enq <= s'.enq && |s'.slots| == |s.slots| && |s'.claims| == s'.enq
            && s'.threads == s.threads[t := s'.threads[t]] && !s'.threads[t].EnqCount?
            && (forall i :: 0 <= i < |s.slots| ==> s'.slots[i].sequence == s.slots[i].sequence)
            && (forall p :: 0 <= p < |s'.claims| && s'.claims[p].done ==> p < |s.claims| && s.claims[p].done)
  {
    assert ThreadInv(c, s, t);
  }

  lemma StepStored(c: Config, s: State, t: nat)
    requires Inv(c, s) && Stored(c, s) && !c.policy.DropOldest? && t < |s.threads|
    ensures Inv(c, StepThread(c, s, t)) && Stored(c, StepThread(c, s, t))
  {
    StepInv(c, s, t);
    var l := s.threads[t];
    if l.EnqStoreSeq? {
      PublishStored(c, s, t);
    } else if l.DeqStoreSeq? {
      ReleaseStored(c, s, t);
    } else if l.EnqCount? {
      ReturnStored(c, s, t);
    } else {
      SameSequences(c, s, t);
      StoredKept(c, s, t, StepThread(c, s, t));
    }
  }

  lemma StoredKept(c: Config, s: State, t: nat, s': State)
    requires 0 < c.cap == |s.slots| && |s.claims| == s.enq && Stored(c, s) && t < |s.threads|
    requires s.deq <= s'.deq && s.enq <= s'.enq && |s'.slots| == |s.slots| && |s'.claims| == s'.enq
    requires |s'.threads| == |s.threads| && s'.threads == s.threads[t := s'.threads[t]] && !s'.threads[t].EnqCount?
    requires forall i :: 0 <= i < |s.slots| ==> s'.slots[i].sequence == s.slots[i].sequence
    requires forall p :: 0 <= p < |s'.claims| && s'.claims[p].done ==> p < |s.claims| && s.claims[p].done
    ensures Stored(c, s')
  {
  }

  lemma {:induction false} RunStored(c: Config, n: nat, actions: seq<Action>)
    requires 2 <= c.cap && !c.policy.DropOldest?
    ensures Inv(c, Run(c, n, actions)) && Stored(c, Run(c, n, actions))
  {
    RunInv(c, n, actions);
    if actions != [] {
      var k := |actions| - 1;
      var s, a := Run(c, n, actions[..k]), actions[k];
      RunStored(c, n, actions[..k]);
      if a.t < |s.threads| && a.Advance? { StepStored(c, s, a.t); }
    }
  }

  // ---------------------------------------------------------------------------------------------
  // Which queues keep which promise

  predicate WithinCapacity(c: Config, n: nat, actions: seq<Action>)
    requires 0 < c.cap
  {
    var s := Run(c, n, actions); s.enq - s.deq <= c.cap
  }

  /** No run ever claims more than there are slots, exactly if there are at least two and the policy is not DropOldest. */
  lemma CapacityExactly(c: Config)
    requires 0 < c.cap
    ensures (forall n, actions :: WithinCapacity(c, n, actions)) <==> 2 <= c.cap && !c.policy.DropOldest?
  {
    if c.policy.DropOldest? {
      var s := MoreThanCapacity(c);
      var actions :| Run(c, 3, actions) == s;
      assert !WithinCapacity(c, 3, actions);
    } else if c.cap == 1 {
      var s := OneSlotLosesMessages(1, 2, c.policy);
      var actions :| Run(c, 1, actions) == s;
      assert !WithinCapacity(c, 1, actions);
    } else {
      forall n, actions ensures WithinCapacity(c, n, actions) { Safety(c, n, actions); }
    }
  }

  ghost predicate TicketsDistinct(c: Config, n: nat, actions: seq<Action>)
    requires 0 < c.cap
  {
    Distinct(Tickets(Run(c, n, actions).returned))
  }

  /** No two Dequeue calls of a run ever return under the same ticket, exactly if the policy is not DropOldest. */
  lemma TicketsDistinctExactly(c: Config)
    requires 0 < c.cap
    ensures (forall n, actions :: TicketsDistinct(c, n, actions)) <==> !c.policy.DropOldest?
  {
    if c.policy.DropOldest? {
      var s, data := DropOldestDoublesAndLoses(c, 1);
      var actions :| Run(c, 3, actions) == s;
      assert Tickets(s.returned)[1] == Tickets(s.returned)[2];
      assert !TicketsDistinct(c, 3, actions);
    } else {
      forall n, actions ensures TicketsDistinct(c, n, actions) { RunOnce(c, n, actions); }
    }
  }

  /** Every Dequeue call that returned a message returned the one stored under its ticket, and no two had the same ticket. */
  ghost predicate DeliveredOnce(c: Config, n: nat, actions: seq<Action>)
    requires 0 < c.cap
  {
    var s := Run(c, n, actions);
    && Distinct(Tickets(s.returned))
    && forall i :: 0 <= i < |s.returned| ==>
         s.returned[i].ticket < |s.claims| && s.returned[i].value == s.claims[s.returned[i].ticket].item
  }

  /** No run ever returns a message twice or in place of another, exactly if there are at least two slots and the policy is not DropOldest. */
  lemma DeliveredOnceExactly(c: Config)
    requires 0 < c.cap
    ensures (forall n, actions :: DeliveredOnce(c, n, actions)) <==> 2 <= c.cap && !c.policy.DropOldest?
  {
    if c.policy.DropOldest? {
      var s, data := DropOldestDoublesAndLoses(c, 1);
      var actions :| Run(c, 3, actions) == s;
      assert Tickets(s.returned)[1] == Tickets(s.returned)[2];
      assert !DeliveredOnce(c, 3, actions);
    } else if c.cap == 1 {
      var s := OneSlotReturnsTwice(c.policy, 1, 2);
      var actions :| Run(c, 2, actions) == s;
      assert s.returned[1] == Delivery(0, 2) && !DeliveredOnce(c, 2, actions);
    } else {
      forall n, actions ensures DeliveredOnce(c, n, actions) { Safety(c, n, actions); }
    }
  }

  /** Every accepted message that is still to be taken is in its slot, published. */
  ghost predicate Kept(c: Config, n: nat, actions: seq<Action>)
    requires 0 < c.cap
  {
    var s := Run(c, n, actions);
    forall p :: p in s.accepted && s.deq <= p ==> p < |s.claims| && s.slots[SlotOf(c.cap, p)] == Slot(p + 1, s.claims[p].item)
  }

  lemma RunKept(c: Config, n: nat, actions: seq<Action>)
    requires 2 <= c.cap && !c.policy.DropOldest?
    ensures Kept(c, n, actions)
  {
    RunStored(c, n, actions);
    RunAnswers(c, n, actions);
  }

  /** No run ever overwrites an accepted message, exactly if there are at least two slots and the policy is not DropOldest. */
  lemma KeptExactly(c: Config)
    requires 0 < c.cap
    ensures (forall n, actions :: Kept(c, n, actions)) <==> 2 <= c.cap && !c.policy.DropOldest?
  {
    if c.policy.DropOldest? {
      var s, data := DropOldestDoublesAndLoses(c, 1);
      var actions :| Run(c, 3, actions) == s;
      assert !Kept(c, 3, actions);
    } else if c.cap == 1 {
      var s := OneSlotLosesMessages(1, 2, c.policy);
      var actions :| Run(c, 1, actions) == s;
      assert s.accepted[0] == 0 && !Kept(c, 1, actions);
    } else {
      forall n, actions ensures Kept(c, n, actions) { RunKept(c, n, actions); }
    }
  }
}
