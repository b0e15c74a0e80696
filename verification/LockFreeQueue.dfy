/**
 The lock-free queue called by one thread at a time (pkg/queue/lockfree.go): the class with its retry loops, the
 bounded FIFO it refines, and what becomes of the queue when a DropOldest Enqueue meets a full ring.
 */
module LockFreeQueue {
  import opened Division
  import opened QueueTypes
  import opened Bits

  // ---------------------------------------------------------------------------------------------
  // The effect of whole calls, without their loops

  datatype Ring = Ring(
    policy: DropPolicy, slots: seq<Slot>, enq: nat, deq: nat, enqCount: nat, deqCount: nat, dropCount: nat)

  function SlotAt(r: Ring, p: nat): Slot
    requires |r.slots| > 0
  {
    r.slots[SlotOf(|r.slots|, p)]
  }

  predicate EnqueueAccepted(r: Ring)
    requires |r.slots| > 0
  {
    SlotAt(r, r.enq).sequence == r.enq
  }

  function AfterEnqueue(r: Ring, item: MessageRef): (r': Ring)
    requires |r.slots| > 0
    ensures |r'.slots| == |r.slots|
  {
    if EnqueueAccepted(r) then
      r.(slots := r.slots[SlotOf(|r.slots|, r.enq) := Slot(r.enq + 1, item)], enq := r.enq + 1, enqCount := r.enqCount + 1)
    else if SlotAt(r, r.enq).sequence < r.enq && r.policy.DropOldest? then
      r.(deq := MovedHead(r.enq, |r.slots|), dropCount := r.dropCount + 1)
    else
      r.(dropCount := r.dropCount + 1)
  }

  predicate DequeueFinds(r: Ring)
    requires |r.slots| > 0
  {
    SlotAt(r, r.deq).sequence == r.deq + 1
  }

  function AfterDequeue(r: Ring): (r': Ring)
    requires |r.slots| > 0
    ensures |r'.slots| == |r.slots|
  {
    if DequeueFinds(r) then
      r.(slots := r.slots[SlotOf(|r.slots|, r.deq) := Slot(r.deq + |r.slots|, NIL)], deq := r.deq + 1, deqCount := r.deqCount + 1)
    else r
  }

  // ---------------------------------------------------------------------------------------------
  // The class

  class Queue {
    const policy: DropPolicy
    const mask: nat
    const buffer: array<Slot>
    var enqueuePos: nat
    var dequeuePos: nat
    var enqueueCount: nat
    var dequeueCount: nat
    var dropCount: nat

    ghost predicate Valid()
      reads this
    {
      buffer.Length == mask + 1 && IsPow2(buffer.Length)
    }

    ghost function View(): Ring
      reads this, buffer
    {
      Ring(policy, buffer[..], enqueuePos, dequeuePos, enqueueCount, dequeueCount, dropCount)
    }

    /**
     Rounds the capacity up to a power of two. A negative one, read as an unsigned integer, is rounded up past 2^64, which
     is 0. A queue of capacity 0 has no slot, and no call on it can return.
     */
    constructor (capacity: int, policy: DropPolicy)
      requires 0 - TWO_TO_THE_63 < capacity <= TWO_TO_THE_62
      ensures fresh(buffer) && View() == EmptyRing(policy, buffer.Length)
      ensures Valid() <==> capacity > 0
      ensures capacity <= 0 ==> buffer.Length == 0
      ensures capacity > 0 ==> capacity <= buffer.Length && forall p: nat :: IsPow2(p) && capacity <= p ==> buffer.Length <= p
    {
      var size: nat := 0;
      if capacity != 0 {
        var unsigned := if capacity < 0 then TWO_TO_THE_64 + capacity else capacity;
        PowerTest(unsigned);
        if capacity < 0 { UpperHalf(unsigned); }
        size := unsigned;
        if And(unsigned, unsigned - 1) != 0 {
          size := NextPowerOf2(unsigned);
        }
      }
      this.policy := policy;
      mask := if size == 0 then TWO_TO_THE_64 - 1 else size - 1;
      buffer := new Slot[size](i requires 0 <= i => Slot(i, NIL));
      enqueuePos, dequeuePos, enqueueCount, dequeueCount, dropCount := 0, 0, 0, 0, 0;
    }

    method Enqueue(item: MessageRef) returns (ok: bool)
      requires Valid()
      modifies this, buffer
      ensures Valid()
      ensures ok == old(EnqueueAccepted(View()))
      ensures View() == AfterEnqueue(old(View()), item)
    {
      var retryCount := 0;
      var claimed := false;
      var pos, i := 0, 0;
      while retryCount < MAX_RETRIES && !claimed
        invariant Valid() && retryCount <= MAX_RETRIES
        invariant buffer[..] == old(buffer[..])
        invariant enqueueCount == old(enqueueCount) && dequeueCount == old(dequeueCount) && dropCount == old(dropCount)
        invariant retryCount > 0 ==> !old(EnqueueAccepted(View()))
        invariant dequeuePos == if retryCount > 0 then AfterEnqueue(old(View()), item).deq else old(dequeuePos)
        invariant claimed ==> old(EnqueueAccepted(View())) && pos == old(enqueuePos) && i == SlotOf(buffer.Length, pos) && retryCount == 0
        invariant enqueuePos == if claimed then old(enqueuePos) + 1 else old(enqueuePos)
        decreases MAX_RETRIES - retryCount, !claimed
      {
        pos := enqueuePos;
        MaskedIndex(pos);
        i := And(pos, mask);
        var sequence := buffer[i].sequence;
        if sequence == pos {
          enqueuePos := pos + 1;
          claimed := true;
        } else if sequence < pos {
          match policy {
            case DropNewest =>
              dropCount := dropCount + 1;
              return false;
            case DropOldest =>
              dequeuePos := MovedHead(pos, buffer.Length);
              retryCount := retryCount + 1;
            case Block =>
              retryCount := retryCount + 1;
          }
        } else {
          retryCount := retryCount + 1;
        }
      }
      if retryCount >= MAX_RETRIES {
        dropCount := dropCount + 1;
        return false;
      }
      buffer[i] := buffer[i].(data := item);
      buffer[i] := buffer[i].(sequence := pos + 1);
      enqueueCount := enqueueCount + 1;
      return true;
    }

    method Dequeue() returns (data: MessageRef, ok: bool)
      requires Valid()
      modifies this, buffer
      ensures Valid()
      ensures ok == old(DequeueFinds(View()))
      ensures data == if ok then old(SlotAt(View(), dequeuePos).data) else NIL
      ensures View() == AfterDequeue(old(View()))
    {
      var retryCount := 0;
      var taken := false;
      var pos, i := 0, 0;
      while retryCount < MAX_RETRIES && !taken
        invariant Valid() && retryCount <= MAX_RETRIES
        invariant buffer[..] == old(buffer[..]) && enqueuePos == old(enqueuePos)
        invariant enqueueCount == old(enqueueCount) && dequeueCount == old(dequeueCount) && dropCount == old(dropCount)
        invariant retryCount > 0 ==> !old(DequeueFinds(View()))
        invariant taken ==> old(DequeueFinds(View())) && pos == old(dequeuePos) && i == SlotOf(buffer.Length, pos) && retryCount == 0
        invariant dequeuePos == if taken then old(dequeuePos) + 1 else old(dequeuePos)
        decreases MAX_RETRIES - retryCount, !taken
      {
        pos := dequeuePos;
        MaskedIndex(pos);
        i := And(pos, mask);
        var sequence := buffer[i].sequence;
        if sequence == pos + 1 {
          dequeuePos := pos + 1;
          taken := true;
        } else if sequence < pos + 1 {
          return NIL, false;
        } else {
          retryCount := retryCount + 1;
        }
      }
      if retryCount >= MAX_RETRIES {
        return NIL, false;
      }
      data := buffer[i].data;
      buffer[i] := buffer[i].(data := NIL);
      buffer[i] := buffer[i].(sequence := pos + mask + 1);
      dequeueCount := dequeueCount + 1;
      return data, true;
    }

    method TryForceEnqueueDropOldest(item: MessageRef) returns (ok: bool)
      requires Valid()
      modifies this, buffer
      ensures Valid()
      ensures !policy.DropOldest? ==> !ok && View() == old(View())
      ensures policy.DropOldest? ==>
                ok == EnqueueAccepted(AfterDequeue(old(View()))) && View() == AfterEnqueue(AfterDequeue(old(View())), item)
    {
      if !policy.DropOldest? { return false; }
      var _, _ := Dequeue();
      ok := Enqueue(item);
    }

    lemma MaskedIndex(p: nat)
      requires Valid()
      ensures And(p, mask) == SlotOf(buffer.Length, p)
    {
      var k :| 0 <= k <= buffer.Length && Pow2(k) == buffer.Length;
      MaskIsModulo(p, k);
    }
  }

  function EmptyRing(policy: DropPolicy, cap: nat): Ring {
    Ring(policy, seq(cap, i requires 0 <= i => Slot(i, NIL)), 0, 0, 0, 0, 0)
  }

  // ---------------------------------------------------------------------------------------------
  // The bounded FIFO

  /** The ring holds exactly the messages q, oldest first. */
  ghost predicate Holds(r: Ring, q: seq<MessageRef>) {
    && 2 <= |r.slots|
    && r.enq == r.deq + |q| && |q| <= |r.slots|
    && (forall p {:trigger SlotAt(r, p)} :: r.deq <= p < r.enq ==> SlotAt(r, p) == Slot(p + 1, q[p - r.deq]))
    && (forall p {:trigger SlotAt(r, p)} :: r.enq <= p < r.deq + |r.slots| ==> SlotAt(r, p) == Slot(p, NIL))
  }

  lemma EmptyHolds(policy: DropPolicy, cap: nat)
    requires 2 <= cap
    ensures Holds(EmptyRing(policy, cap), [])
  {
    var r := EmptyRing(policy, cap);
    forall p {:trigger SlotAt(r, p)} | 0 <= p < cap ensures SlotAt(r, p) == Slot(p, NIL) {
      Remainder(cap, p, 0, p);
    }
  }

  /** Enqueue appends exactly when the FIFO is not full; a refusal changes nothing but the drop counter. */
  lemma EnqueueRefines(r: Ring, q: seq<MessageRef>, item: MessageRef)
    requires Holds(r, q)
    ensures EnqueueAccepted(r) <==> |q| < |r.slots|
    ensures |q| < |r.slots| ==> Holds(AfterEnqueue(r, item), q + [item])
    ensures |q| == |r.slots| && !r.policy.DropOldest? ==> AfterEnqueue(r, item) == r.(dropCount := r.dropCount + 1)
  {
    Apart(|r.slots|, r.enq);
    if |q| == |r.slots| {
      NextLap(|r.slots|, r.deq);
      assert SlotAt(r, r.deq).sequence == r.deq + 1;
    } else {
      var r' := AfterEnqueue(r, item);
      forall p {:trigger SlotAt(r', p)} | r'.deq <= p < r'.enq ensures SlotAt(r', p) == Slot(p + 1, (q + [item])[p - r.deq]) {
        if p < r.enq { assert SlotAt(r, p) == SlotAt(r', p); }
      }
      forall p {:trigger SlotAt(r', p)} | r'.enq <= p < r'.deq + |r'.slots| ensures SlotAt(r', p) == Slot(p, NIL) {
        assert SlotAt(r, p) == SlotAt(r', p);
      }
    }
  }

  /** Dequeue takes the head exactly when the FIFO is not empty. */
  lemma DequeueRefines(r: Ring, q: seq<MessageRef>)
    requires Holds(r, q)
    ensures DequeueFinds(r) <==> q != []
    ensures q != [] ==> SlotAt(r, r.deq).data == q[0] && Holds(AfterDequeue(r), q[1..])
    ensures q == [] ==> AfterDequeue(r) == r
  {
    Apart(|r.slots|, r.deq);
    if q == [] {
      assert SlotAt(r, r.deq) == Slot(r.deq, NIL);
    } else {
      var r' := AfterDequeue(r);
      forall p {:trigger SlotAt(r', p)} | r'.deq <= p < r'.enq ensures SlotAt(r', p) == Slot(p + 1, q[1..][p - r'.deq]) {
        assert SlotAt(r, p) == SlotAt(r', p);
      }
      forall p {:trigger SlotAt(r', p)} | r'.enq <= p < r'.deq + |r'.slots| ensures SlotAt(r', p) == Slot(p, NIL) {
        if p < r.deq + |r.slots| { assert SlotAt(r, p) == SlotAt(r', p); }
      }
    }
  }

  datatype Call = Put(item: MessageRef) | Get | Force(item: MessageRef)

  datatype Answer = Stored(ok: bool) | Got(value: MessageRef) | Empty

  function AfterCall(r: Ring, call: Call): (r': Ring)
    requires |r.slots| > 0
    ensures |r'.slots| == |r.slots| && r'.policy == r.policy
  {
    match call
    case Put(item) => AfterEnqueue(r, item)
    case Get => AfterDequeue(r)
    case Force(item) => if r.policy.DropOldest? then AfterEnqueue(AfterDequeue(r), item) else r
  }

  function AnswerOf(r: Ring, call: Call): Answer
    requires |r.slots| > 0
  {
    match call
    case Put(_) => Stored(EnqueueAccepted(r))
    case Get => if DequeueFinds(r) then Got(SlotAt(r, r.deq).data) else Empty
    case Force(_) => Stored(r.policy.DropOldest? && EnqueueAccepted(AfterDequeue(r)))
  }

  function AfterCalls(r: Ring, calls: seq<Call>): (r': Ring)
    requires |r.slots| > 0
    ensures |r'.slots| == |r.slots| && r'.policy == r.policy
    decreases |calls|
  {
    if calls == [] then r else AfterCalls(AfterCall(r, calls[0]), calls[1..])
  }

  function Answers(r: Ring, calls: seq<Call>): (answers: seq<Answer>)
    requires |r.slots| > 0
    ensures |answers| == |calls|
    decreases |calls|
  {
    if calls == [] then [] else [AnswerOf(r, calls[0])] + Answers(AfterCall(r, calls[0]), calls[1..])
  }

  // What a caller is promised: a FIFO of at most cap messages, which a full DropOldest queue makes room in by
  // discarding its head.

  function PromisedAfter(policy: DropPolicy, cap: nat, q: seq<MessageRef>, call: Call): seq<MessageRef> {
    match call
    case Put(item) =>
      if |q| < cap then q + [item]
      else if policy.DropOldest? && q != [] then q[1..] + [item]
      else q
    case Get => if q == [] then q else q[1..]
    case Force(item) => if !policy.DropOldest? then q else if q == [] then [item] else q[1..] + [item]
  }

  function PromisedAnswer(policy: DropPolicy, cap: nat, q: seq<MessageRef>, call: Call): Answer {
    match call
    case Put(_) => Stored(|q| < cap || policy.DropOldest?)
    case Get => if q == [] then Empty else Got(q[0])
    case Force(_) => Stored(policy.DropOldest?)
  }

  function PromisedAnswers(policy: DropPolicy, cap: nat, q: seq<MessageRef>, calls: seq<Call>): (answers: seq<Answer>)
    ensures |answers| == |calls|
    decreases |calls|
  {
    if calls == [] then []
    else [PromisedAnswer(policy, cap, q, calls[0])] +
         PromisedAnswers(policy, cap, PromisedAfter(policy, cap, q, calls[0]), calls[1..])
  }

  function PromisedContents(policy: DropPolicy, cap: nat, q: seq<MessageRef>, calls: seq<Call>): seq<MessageRef>
    decreases |calls|
  {
    if calls == [] then q else PromisedContents(policy, cap, PromisedAfter(policy, cap, q, calls[0]), calls[1..])
  }

  /** Some Put of the run meets a full queue. */
  predicate MeetsFull(policy: DropPolicy, cap: nat, q: seq<MessageRef>, calls: seq<Call>)
    decreases |calls|
  {
    calls != [] &&
    ((calls[0].Put? && |q| == cap) || MeetsFull(policy, cap, PromisedAfter(policy, cap, q, calls[0]), calls[1..]))
  }

  /** One call does what is promised, unless it is a Put on a full DropOldest queue. */
  lemma CallRefines(r: Ring, q: seq<MessageRef>, call: Call)
    requires Holds(r, q)
    requires !(call.Put? && r.policy.DropOldest? && |q| == |r.slots|)
    ensures AnswerOf(r, call) == PromisedAnswer(r.policy, |r.slots|, q, call)
    ensures Holds(AfterCall(r, call), PromisedAfter(r.policy, |r.slots|, q, call))
  {
    match call {
      case Put(item) => EnqueueRefines(r, q, item);
        if |q| == |r.slots| { SameSlots(r, r.(dropCount := r.dropCount + 1), q); }
      case Get => DequeueRefines(r, q);
      case Force(item) =>
        DequeueRefines(r, q);
        EnqueueRefines(AfterDequeue(r), if q == [] then [] else q[1..], item);
    }
  }

  lemma SameSlots(r: Ring, r': Ring, q: seq<MessageRef>)
    requires Holds(r, q) && r'.slots == r.slots && r'.enq == r.enq && r'.deq == r.deq
    ensures Holds(r', q)
  {
    assert forall p: nat {:trigger SlotAt(r', p)} :: SlotAt(r', p) == SlotAt(r, p);
  }

  /** With DropNewest and Block every run answers like the bounded FIFO. */
  lemma {:induction false} FifoRefinement(r: Ring, q: seq<MessageRef>, calls: seq<Call>)
    requires Holds(r, q) && !r.policy.DropOldest?
    ensures Answers(r, calls) == PromisedAnswers(r.policy, |r.slots|, q, calls)
    ensures Holds(AfterCalls(r, calls), PromisedContents(r.policy, |r.slots|, q, calls))
    decreases |calls|
  {
    if calls != [] {
      CallRefines(r, q, calls[0]);
      FifoRefinement(AfterCall(r, calls[0]), PromisedAfter(r.policy, |r.slots|, q, calls[0]), calls[1..]);
    }
  }

  /** Size, as Enqueue and Dequeue counts see it, is the number of messages held. */
  lemma {:induction false} CountsGiveSize(r: Ring, calls: seq<Call>)
    requires |r.slots| > 0 && !r.policy.DropOldest? && r.enq - r.deq == r.enqCount - r.deqCount
    ensures var r' := AfterCalls(r, calls); r'.enq - r'.deq == r'.enqCount - r'.deqCount
    decreases |calls|
  {
    if calls != [] {
      CountsGiveSize(AfterCall(r, calls[0]), calls[1..]);
    }
  }

  // ---------------------------------------------------------------------------------------------
  // DropOldest

  /**
   The jam: the slot of the next ticket still carries the message of ticket d, one lap back, and no call can reach
   it: Dequeue works on tickets d+1 .. d+cap-1 only.
   */
  ghost predicate Jammed(r: Ring, d: nat) {
    && r.policy.DropOldest? && 2 <= |r.slots|
    && r.enq == d + |r.slots| && d + 1 <= r.deq <= d + |r.slots|
    && SlotAt(r, d).sequence == d + 1
  }

  /** A Put on a full DropOldest queue is refused, counts one drop, and jams the queue. */
  lemma FullPutJams(r: Ring, q: seq<MessageRef>, item: MessageRef)
    requires Holds(r, q) && r.policy.DropOldest? && |q| == |r.slots|
    ensures !EnqueueAccepted(r)
    ensures var r' := AfterEnqueue(r, item); Jammed(r', r.deq) && r'.dropCount == r.dropCount + 1 && r'.slots == r.slots
  {
    NextLap(|r.slots|, r.deq);
    assert SlotAt(r, r.deq).sequence == r.deq + 1;
  }

  lemma JamStays(r: Ring, d: nat, call: Call)
    requires Jammed(r, d)
    ensures Jammed(AfterCall(r, call), d)
    ensures call.Put? || call.Force? ==> AnswerOf(r, call) == Stored(false)
  {
    DequeueKeepsJam(r, d);
    PutKeepsJam(r, d, if call.Get? then NIL else call.item);
    PutKeepsJam(AfterDequeue(r), d, if call.Get? then NIL else call.item);
  }

  lemma PutKeepsJam(r: Ring, d: nat, item: MessageRef)
    requires Jammed(r, d)
    ensures !EnqueueAccepted(r) && Jammed(AfterEnqueue(r, item), d)
    ensures AfterEnqueue(r, item) == r.(deq := d + 1, dropCount := r.dropCount + 1)
  {
    NextLap(|r.slots|, d);
  }

  lemma DequeueKeepsJam(r: Ring, d: nat)
    requires Jammed(r, d)
    ensures Jammed(AfterDequeue(r), d)
  {
    NextLap(|r.slots|, d);
    if r.deq < d + |r.slots| { DistinctSlots(|r.slots|, d, r.deq); }
  }

  /** Once jammed, every later Put and forced Put of any run is refused. */
  lemma {:induction false} JamIsForever(r: Ring, d: nat, calls: seq<Call>)
    requires Jammed(r, d)
    ensures Jammed(AfterCalls(r, calls), d)
    ensures forall i :: 0 <= i < |calls| && !calls[i].Get? ==> Answers(r, calls)[i] == Stored(false)
    decreases |calls|
  {
    if calls != [] {
      JamStays(r, d, calls[0]);
      JamIsForever(AfterCall(r, calls[0]), d, calls[1..]);
    }
  }

  /** The dead queue: the head points at a slot that was already consumed in this lap. */
  ghost predicate Dead(r: Ring, d: nat) {
    Jammed(r, d) && r.deq == d + 1 && SlotAt(r, d + 1).sequence == d + 1 + |r.slots|
  }

  lemma DeadStays(r: Ring, d: nat, call: Call)
    requires Dead(r, d)
    ensures Dead(AfterCall(r, call), d) && AfterCall(r, call).slots == r.slots
    ensures call.Get? ==> AnswerOf(r, call) == Empty
  {
    PutKeepsJam(r, d, if call.Get? then NIL else call.item);
  }

  /** Once dead, no message is ever accepted or returned again, whatever is still in the slots. */
  lemma {:induction false} DeadIsForever(r: Ring, d: nat, calls: seq<Call>)
    requires Dead(r, d)
    ensures AfterCalls(r, calls).slots == r.slots
    ensures forall i :: 0 <= i < |calls| ==>
              Answers(r, calls)[i] == if calls[i].Get? then Empty else Stored(false)
    decreases |calls|
  {
    if calls != [] {
      JamStays(r, d, calls[0]);
      DeadStays(r, d, calls[0]);
      DeadIsForever(AfterCall(r, calls[0]), d, calls[1..]);
    }
  }

  lemma OneFirst(r: Ring, a: Call, calls: seq<Call>)
    requires |r.slots| > 0
    ensures AfterCalls(r, [a] + calls) == AfterCalls(AfterCall(r, a), calls)
    ensures Answers(r, [a] + calls) == [AnswerOf(r, a)] + Answers(AfterCall(r, a), calls)
  {
  }

  lemma Three(r: Ring, a: Call, b: Call, c: Call)
    requires |r.slots| > 0
    ensures AfterCalls(r, [a, b, c]) == AfterCall(AfterCall(AfterCall(r, a), b), c)
    ensures Answers(r, [a, b, c]) == [AnswerOf(r, a), AnswerOf(AfterCall(r, a), b), AnswerOf(AfterCall(AfterCall(r, a), b), c)]
  {
    assert [a, b, c] == [a] + ([b] + [c]);
    OneFirst(r, a, [b] + [c]);
    OneFirst(AfterCall(r, a), b, [c]);
  }

  /** A Get right after the jam takes the message behind the head that was passed over, and the queue is dead. */
  lemma GetKills(r: Ring, q: seq<MessageRef>, x: MessageRef)
    requires Holds(r, q) && r.policy.DropOldest? && |q| == |r.slots|
    ensures var r1 := AfterEnqueue(r, x);
            AnswerOf(r1, Get) == Got(q[1]) && Jammed(AfterDequeue(r1), r.deq)
            && SlotAt(AfterDequeue(r1), r.deq + 1).sequence == r.deq + 1 + |r.slots|
  {
    FullPutJams(r, q, x);
    var r1 := AfterEnqueue(r, x);
    assert r1.deq == r.deq + 1 && SlotAt(r1, r.deq + 1) == SlotAt(r, r.deq + 1) == Slot(r.deq + 2, q[1]);
    DequeueKeepsJam(r1, r.deq);
  }

  /** The shortest way there: fill up, one Put too many, one Get, one more Put. The rest of the messages is lost. */
  lemma FullGetPutKills(r: Ring, q: seq<MessageRef>, x: MessageRef, y: MessageRef)
    requires Holds(r, q) && r.policy.DropOldest? && |q| == |r.slots|
    ensures Answers(r, [Put(x), Get, Put(y)]) == [Stored(false), Got(q[1]), Stored(false)]
    ensures Dead(AfterCalls(r, [Put(x), Get, Put(y)]), r.deq)
  {
    FullPutJams(r, q, x);
    GetKills(r, q, x);
    PutKeepsJam(AfterDequeue(AfterEnqueue(r, x)), r.deq, y);
    Three(r, Put(x), Get, Put(y));
  }

  /** DropOldest keeps its promise on exactly the runs in which no Put meets a full queue. */
  lemma {:induction false} DropOldestExactly(r: Ring, q: seq<MessageRef>, calls: seq<Call>)
    requires Holds(r, q) && r.policy.DropOldest?
    ensures Answers(r, calls) == PromisedAnswers(r.policy, |r.slots|, q, calls)
            <==> !MeetsFull(r.policy, |r.slots|, q, calls)
    decreases |calls|
  {
    if calls != [] {
      var cap, call := |r.slots|, calls[0];
      if call.Put? && |q| == cap {
        FullPutJams(r, q, call.item);
        assert Answers(r, calls)[0] == Stored(false);
        assert PromisedAnswers(r.policy, cap, q, calls)[0] == Stored(true);
      } else {
        CallRefines(r, q, call);
        var q' := PromisedAfter(r.policy, cap, q, call);
        DropOldestExactly(AfterCall(r, call), q', calls[1..]);
        assert Answers(r, calls)[1..] == Answers(AfterCall(r, call), calls[1..]);
        assert PromisedAnswers(r.policy, cap, q, calls)[1..] == PromisedAnswers(r.policy, cap, q', calls[1..]);
      }
    }
  }

  // ---------------------------------------------------------------------------------------------
  // One slot

  /** The ring of one slot holds exactly the messages q. */
  ghost predicate HoldsInOne(r: Ring, q: seq<MessageRef>) {
    && |r.slots| == 1 && |q| <= 1 && r.enq == r.deq + |q| && r.slots[0].sequence == r.enq
    && (q != [] ==> r.slots[0].data == q[0])
  }

  lemma EmptyHoldsInOne(policy: DropPolicy)
    ensures HoldsInOne(EmptyRing(policy, 1), [])
  {
  }

  /** A message was stored over another: the slot looks free to every Put and unpublished to every Get. */
  ghost predicate Overrun(r: Ring) {
    |r.slots| == 1 && r.slots[0].sequence == r.enq && r.deq + 2 <= r.enq
  }

  lemma OverrunStays(r: Ring, call: Call)
    requires Overrun(r)
    ensures Overrun(AfterCall(r, call))
    ensures AnswerOf(r, call) == if call.Get? then Empty else Stored(call.Put? || r.policy.DropOldest?)
  {
  }

  /** After a message was stored over another, every Put is accepted and every Get finds nothing, for ever. */
  lemma {:induction false} OverrunIsForever(r: Ring, calls: seq<Call>)
    requires Overrun(r)
    ensures Overrun(AfterCalls(r, calls))
    ensures forall i :: 0 <= i < |calls| ==>
              Answers(r, calls)[i] == if calls[i].Get? then Empty else Stored(calls[i].Put? || r.policy.DropOldest?)
    decreases |calls|
  {
    if calls != [] {
      OverrunStays(r, calls[0]);
      OverrunIsForever(AfterCall(r, calls[0]), calls[1..]);
    }
  }

  /** One call does what is promised, unless it is a Put on the full slot; that one is accepted. */
  lemma OneSlotCall(r: Ring, q: seq<MessageRef>, call: Call)
    requires HoldsInOne(r, q)
    ensures if call.Put? && |q| == 1 then AnswerOf(r, call) == Stored(true) && Overrun(AfterCall(r, call))
            else AnswerOf(r, call) == PromisedAnswer(r.policy, 1, q, call) && HoldsInOne(AfterCall(r, call), PromisedAfter(r.policy, 1, q, call))
  {
  }

  predicate HasGet(calls: seq<Call>) {
    exists i :: 0 <= i < |calls| && calls[i].Get?
  }

  /** A Put of the run meets the full slot and, under DropOldest, a Get comes later. */
  predicate Shows(policy: DropPolicy, q: seq<MessageRef>, calls: seq<Call>)
    decreases |calls|
  {
    calls != [] &&
    if calls[0].Put? && |q| == 1 then !policy.DropOldest? || HasGet(calls[1..])
    else Shows(policy, PromisedAfter(policy, 1, q, calls[0]), calls[1..])
  }

  /** A queue that is promised never to be empty promises a message to the first Get, and room to every Put of DropOldest. */
  lemma {:induction false} OverrunShows(r: Ring, q: seq<MessageRef>, calls: seq<Call>)
    requires Overrun(r) && r.policy.DropOldest? && |q| == 1
    ensures Answers(r, calls) == PromisedAnswers(r.policy, 1, q, calls) <==> !HasGet(calls)
    decreases |calls|
  {
    if calls != [] {
      OverrunStays(r, calls[0]);
      var r', q' := AfterCall(r, calls[0]), PromisedAfter(r.policy, 1, q, calls[0]);
      if calls[0].Get? {
        assert Answers(r, calls)[0] == Empty && PromisedAnswers(r.policy, 1, q, calls)[0] == Got(q[0]);
      } else {
        OverrunShows(r', q', calls[1..]);
        SameAnswers(r, q, calls);
        assert HasGet(calls) <==> HasGet(calls[1..]) by {
          if i :| 0 <= i < |calls| && calls[i].Get? { assert calls[1..][i - 1] == calls[i]; }
          if i :| 0 <= i < |calls[1..]| && calls[1..][i].Get? { assert calls[i + 1] == calls[1..][i]; }
        }
      }
    }
  }

  /** The first answers agree, so all do if and only if the others do. */
  lemma SameAnswers(r: Ring, q: seq<MessageRef>, calls: seq<Call>)
    requires |r.slots| > 0 && calls != [] && AnswerOf(r, calls[0]) == PromisedAnswer(r.policy, |r.slots|, q, calls[0])
    ensures Answers(r, calls) == PromisedAnswers(r.policy, |r.slots|, q, calls)
            <==> Answers(AfterCall(r, calls[0]), calls[1..])
                 == PromisedAnswers(r.policy, |r.slots|, PromisedAfter(r.policy, |r.slots|, q, calls[0]), calls[1..])
  {
    var cap, q' := |r.slots|, PromisedAfter(r.policy, |r.slots|, q, calls[0]);
    assert Answers(r, calls)[1..] == Answers(AfterCall(r, calls[0]), calls[1..]);
    assert PromisedAnswers(r.policy, cap, q, calls)[1..] == PromisedAnswers(r.policy, cap, q', calls[1..]);
  }

  /**
   With one slot, under DropNewest and Block, the promise is kept on exactly the runs in which no Put meets the full
   slot; under DropOldest on exactly those in which no Get comes after such a Put.
   */
  lemma {:induction false} OneSlotExactly(r: Ring, q: seq<MessageRef>, calls: seq<Call>)
    requires HoldsInOne(r, q)
    ensures Answers(r, calls) == PromisedAnswers(r.policy, 1, q, calls) <==> !Shows(r.policy, q, calls)
    decreases |calls|
  {
    if calls != [] {
      OneSlotCall(r, q, calls[0]);
      if calls[0].Put? && |q| == 1 {
        if r.policy.DropOldest? {
          OverrunShows(AfterCall(r, calls[0]), PromisedAfter(r.policy, 1, q, calls[0]), calls[1..]);
          SameAnswers(r, q, calls);
        } else {
          assert Answers(r, calls)[0] == Stored(true) && PromisedAnswers(r.policy, 1, q, calls)[0] == Stored(false);
        }
      } else {
        OneSlotExactly(AfterCall(r, calls[0]), PromisedAfter(r.policy, 1, q, calls[0]), calls[1..]);
        SameAnswers(r, q, calls);
      }
    }
  }
}
