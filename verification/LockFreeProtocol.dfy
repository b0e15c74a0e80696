/**
 The lock-free queue under concurrency (pkg/queue/lockfree.go). Every atomic load, compare-and-swap, store and
 add of Enqueue and Dequeue is one step of one thread; a run is any list of actions of any number of threads.
 Positions are nat: the 64-bit counters are taken not to wrap.

 The history fields are never read by a step. claims and takes record which message got which ticket and which
 threads won it; accepted, returned and rejected record, in order, what finished calls answered: the tickets of the
 Enqueue calls that returned true, the values of the Dequeue calls that returned one, the messages refused.
 */
module LockFreeProtocol {
  import opened QueueTypes

  datatype Config = Config(cap: nat, policy: DropPolicy)

  /** A thread's program counter together with the local variables that are live there. */
  datatype Local =
    | Idle
    | EnqLoadPos(item: MessageRef, retry: nat)
    | EnqLoadSeq(item: MessageRef, retry: nat, pos: nat)
    | EnqCas(item: MessageRef, retry: nat, pos: nat)
    | EnqReadHead(item: MessageRef, retry: nat, pos: nat)
    | EnqMoveHead(item: MessageRef, retry: nat, pos: nat, head: nat)
    | EnqStoreData(item: MessageRef, pos: nat)
    | EnqStoreSeq(item: MessageRef, pos: nat)
    | EnqCount(item: MessageRef, pos: nat)
    | EnqDrop(item: MessageRef)
    | DeqLoadPos(retry: nat)
    | DeqLoadSeq(retry: nat, pos: nat)
    | DeqCas(retry: nat, pos: nat)
    | DeqLoadData(pos: nat)
    | DeqClear(pos: nat, data: MessageRef)
    | DeqStoreSeq(pos: nat, data: MessageRef)
    | DeqCount(pos: nat, data: MessageRef)

  /** Ticket p was claimed for item by a thread's compare-and-swap on enqueuePos; done once its call returned. */
  datatype Claim = Claim(item: MessageRef, who: nat, done: bool)

  /** Ticket p was taken by a thread's compare-and-swap on dequeuePos; done once its call returned. */
  datatype Take = Take(who: nat, done: bool)

  /** A Dequeue call that took a ticket returned a value. */
  datatype Delivery = Delivery(ticket: nat, value: MessageRef)

  datatype State = State(
    enq: nat, deq: nat, slots: seq<Slot>,
    enqCount: nat, deqCount: nat, dropCount: nat,
    threads: seq<Local>,
    claims: seq<Claim>, takes: seq<Take>,
    accepted: seq<nat>, returned: seq<Delivery>, rejected: seq<MessageRef>)

  datatype Action = CallEnqueue(t: nat, item: MessageRef) | CallDequeue(t: nat) | Advance(t: nat)

  function Init(c: Config, n: nat): State {
    State(0, 0, seq(c.cap, i requires 0 <= i => Slot(i, NIL)), 0, 0, 0, seq(n, _ => Idle), [], [], [], [], [])
  }

  /** A failed round of the Enqueue loop: start over, or give up and drop. */
  function EnqRetry(item: MessageRef, retry: nat): Local {
    if retry + 1 < MAX_RETRIES then EnqLoadPos(item, retry + 1) else EnqDrop(item)
  }

  function Goto(s: State, t: nat, l: Local): State
    requires t < |s.threads|
  {
    s.(threads := s.threads[t := l])
  }

  // The steps that touch more than the thread that takes them.

  function WonClaim(s: State, t: nat, item: MessageRef, pos: nat): State
    requires t < |s.threads|
  {
    Goto(s, t, EnqStoreData(item, pos)).(enq := pos + 1, claims := s.claims + [Claim(item, t, false)])
  }

  function StoredData(c: Config, s: State, t: nat, item: MessageRef, pos: nat): State
    requires 0 < c.cap == |s.slots| && t < |s.threads|
  {
    var i := SlotOf(c.cap, pos);
    Goto(s, t, EnqStoreSeq(item, pos)).(slots := s.slots[i := s.slots[i].(data := item)])
  }

  function Published(c: Config, s: State, t: nat, item: MessageRef, pos: nat): State
    requires 0 < c.cap == |s.slots| && t < |s.threads|
  {
    var i := SlotOf(c.cap, pos);
    Goto(s, t, EnqCount(item, pos)).(slots := s.slots[i := s.slots[i].(sequence := pos + 1)])
  }

  function EnqueueReturned(s: State, t: nat, pos: nat): State
    requires t < |s.threads|
  {
    Goto(s, t, Idle).(enqCount := s.enqCount + 1, claims := MarkClaim(s.claims, pos), accepted := s.accepted + [pos])
  }

  function WonTake(s: State, t: nat, pos: nat): State
    requires t < |s.threads|
  {
    Goto(s, t, DeqLoadData(pos)).(deq := pos + 1, takes := s.takes + [Take(t, false)])
  }

  function Cleared(c: Config, s: State, t: nat, pos: nat, data: MessageRef): State
    requires 0 < c.cap == |s.slots| && t < |s.threads|
  {
    var i := SlotOf(c.cap, pos);
    Goto(s, t, DeqStoreSeq(pos, data)).(slots := s.slots[i := s.slots[i].(data := NIL)])
  }

  function Released(c: Config, s: State, t: nat, pos: nat, data: MessageRef): State
    requires 0 < c.cap == |s.slots| && t < |s.threads|
  {
    var i := SlotOf(c.cap, pos);
    Goto(s, t, DeqCount(pos, data)).(slots := s.slots[i := s.slots[i].(sequence := pos + c.cap)])
  }

  function DequeueReturned(s: State, t: nat, pos: nat, data: MessageRef): State
    requires t < |s.threads|
  {
    Goto(s, t, Idle).(deqCount := s.deqCount + 1, takes := MarkTake(s.takes, pos),
                      returned := s.returned + [Delivery(pos, data)])
  }

  /** One atomic step of thread t, which is inside a call. */
  function StepThread(c: Config, s: State, t: nat): State
    requires 0 < c.cap == |s.slots| && t < |s.threads|
  {
    match s.threads[t]
    case Idle => s
    case EnqLoadPos(item, retry) => Goto(s, t, EnqLoadSeq(item, retry, s.enq))
    case EnqLoadSeq(item, retry, pos) =>
      var sequence := s.slots[SlotOf(c.cap, pos)].sequence;
      if sequence == pos then Goto(s, t, EnqCas(item, retry, pos))
      else if sequence < pos then
        match c.policy {
          case DropNewest => Goto(s, t, EnqDrop(item))
          case DropOldest => Goto(s, t, EnqReadHead(item, retry, pos))
          case Block => Goto(s, t, EnqRetry(item, retry))
        }
      else Goto(s, t, EnqRetry(item, retry))
    case EnqCas(item, retry, pos) =>
      if s.enq == pos then WonClaim(s, t, item, pos) else Goto(s, t, EnqLoadPos(item, retry))
    case EnqReadHead(item, retry, pos) => Goto(s, t, EnqMoveHead(item, retry, pos, s.deq))
    case EnqMoveHead(item, retry, pos, head) =>
      var s' := if s.deq == head then s.(deq := MovedHead(pos, c.cap)) else s;
      Goto(s', t, EnqRetry(item, retry))
    case EnqStoreData(item, pos) => StoredData(c, s, t, item, pos)
    case EnqStoreSeq(item, pos) => Published(c, s, t, item, pos)
    case EnqCount(item, pos) => EnqueueReturned(s, t, pos)
    case EnqDrop(item) => Goto(s, t, Idle).(dropCount := s.dropCount + 1, rejected := s.rejected + [item])
    case DeqLoadPos(retry) => Goto(s, t, DeqLoadSeq(retry, s.deq))
    case DeqLoadSeq(retry, pos) =>
      var sequence := s.slots[SlotOf(c.cap, pos)].sequence;
      if sequence == pos + 1 then Goto(s, t, DeqCas(retry, pos))
      else if sequence < pos + 1 then Goto(s, t, Idle)
      else if retry + 1 < MAX_RETRIES then Goto(s, t, DeqLoadPos(retry + 1))
      else Goto(s, t, Idle)
    case DeqCas(retry, pos) =>
      if s.deq == pos then WonTake(s, t, pos) else Goto(s, t, DeqLoadPos(retry))
    case DeqLoadData(pos) => Goto(s, t, DeqClear(pos, s.slots[SlotOf(c.cap, pos)].data))
    case DeqClear(pos, data) => Cleared(c, s, t, pos, data)
    case DeqStoreSeq(pos, data) => Released(c, s, t, pos, data)
    case DeqCount(pos, data) => DequeueReturned(s, t, pos, data)
  }

  function MarkClaim(claims: seq<Claim>, p: nat): seq<Claim> {
    if p < |claims| then claims[p := claims[p].(done := true)] else claims
  }

  function MarkTake(takes: seq<Take>, p: nat): seq<Take> {
    if p < |takes| then takes[p := takes[p].(done := true)] else takes
  }

  /** An action by a thread that cannot perform it changes nothing. */
  function Apply(c: Config, s: State, a: Action): State
    requires 0 < c.cap == |s.slots|
  {
    if a.t >= |s.threads| then s
    else match a
      case CallEnqueue(t, item) => if s.threads[t].Idle? then Goto(s, t, EnqLoadPos(item, 0)) else s
      case CallDequeue(t) => if s.threads[t].Idle? then Goto(s, t, DeqLoadPos(0)) else s
      case Advance(t) => StepThread(c, s, t)
  }

  /** The state after a list of actions, from the empty queue with n threads. */
  function Run(c: Config, n: nat, actions: seq<Action>): (s: State)
    requires 0 < c.cap
    ensures |s.slots| == c.cap && |s.threads| == n
  {
    if actions == [] then Init(c, n)
    else Apply(c, Run(c, n, actions[..|actions| - 1]), actions[|actions| - 1])
  }

  // ---------------------------------------------------------------------------------------------
  // The invariant

  /** Slots of claimed, untaken tickets: not published yet, or published with the claimed message. */
  ghost predicate ClaimedSlots(c: Config, s: State)
    requires 0 < c.cap == |s.slots| && |s.claims| == s.enq
  {
    forall p {:trigger SlotOf(c.cap, p)} :: s.deq <= p < s.enq ==>
      var slot := s.slots[SlotOf(c.cap, p)];
      slot.sequence == p || (slot.sequence == p + 1 && slot.data == s.claims[p].item)
  }

  /** Slots of the tickets that may be claimed next: free, or still held by the consumer of the lap before. */
  ghost predicate FreeSlots(c: Config, s: State)
    requires 0 < c.cap == |s.slots|
  {
    forall p {:trigger SlotOf(c.cap, p)} :: s.enq <= p < s.deq + c.cap ==>
      var sequence := s.slots[SlotOf(c.cap, p)].sequence;
      sequence == p || (c.cap <= p && sequence == p - c.cap + 1)
  }

  ghost predicate Producing(s: State, t: nat, pos: nat, item: MessageRef) {
    pos < |s.claims| && s.claims[pos] == Claim(item, t, false)
  }

  ghost predicate Consuming(s: State, t: nat, pos: nat) {
    pos < |s.takes| && s.takes[pos] == Take(t, false)
  }

  /** The ticket a thread holds as a producer, between its compare-and-swap and its return. */
  ghost predicate HoldsClaim(l: Local, p: nat) {
    (l.EnqStoreData? || l.EnqStoreSeq? || l.EnqCount?) && l.pos == p
  }

  ghost predicate HoldsTake(l: Local, p: nat) {
    (l.DeqLoadData? || l.DeqClear? || l.DeqStoreSeq? || l.DeqCount?) && l.pos == p
  }

  ghost predicate ThreadInv(c: Config, s: State, t: nat)
    requires 0 < c.cap == |s.slots| && t < |s.threads| && |s.claims| == s.enq && s.deq <= s.enq
  {
    match s.threads[t]
    case Idle => true
    case EnqLoadPos(_, _) => true
    case EnqLoadSeq(_, _, pos) => pos <= s.enq
    case EnqCas(_, _, pos) => pos <= s.enq && s.slots[SlotOf(c.cap, pos)].sequence >= pos
    case EnqReadHead(_, _, _) => false
    case EnqMoveHead(_, _, _, _) => false
    case EnqStoreData(item, pos) =>
      Producing(s, t, pos, item) && s.deq <= pos && s.slots[SlotOf(c.cap, pos)].sequence == pos
    case EnqStoreSeq(item, pos) =>
      Producing(s, t, pos, item) && s.deq <= pos && s.slots[SlotOf(c.cap, pos)] == Slot(pos, item)
    case EnqCount(item, pos) => Producing(s, t, pos, item)
    case EnqDrop(_) => true
    case DeqLoadPos(_) => true
    case DeqLoadSeq(_, pos) => pos <= s.deq
    case DeqCas(_, pos) => pos <= s.deq && s.slots[SlotOf(c.cap, pos)].sequence >= pos + 1
    case DeqLoadData(pos) =>
      Consuming(s, t, pos) && pos < s.deq && s.enq <= pos + c.cap &&
      s.slots[SlotOf(c.cap, pos)] == Slot(pos + 1, s.claims[pos].item)
    case DeqClear(pos, data) =>
      Consuming(s, t, pos) && pos < s.deq && s.enq <= pos + c.cap &&
      s.slots[SlotOf(c.cap, pos)].sequence == pos + 1 && data == s.claims[pos].item
    case DeqStoreSeq(pos, data) =>
      Consuming(s, t, pos) && pos < s.deq && s.enq <= pos + c.cap &&
      s.slots[SlotOf(c.cap, pos)].sequence == pos + 1 && data == s.claims[pos].item
    case DeqCount(pos, data) =>
      Consuming(s, t, pos) && pos < s.deq && data == s.claims[pos].item
  }

  /** Every open claim and every open take is held by the thread it names. */
  ghost predicate Owned(s: State) {
    && (forall p :: 0 <= p < |s.claims| && !s.claims[p].done ==>
          s.claims[p].who < |s.threads| && HoldsClaim(s.threads[s.claims[p].who], p))
    && (forall p :: 0 <= p < |s.takes| && !s.takes[p].done ==>
          s.takes[p].who < |s.threads| && HoldsTake(s.threads[s.takes[p].who], p))
  }

  ghost predicate Inv(c: Config, s: State) {
    && 2 <= c.cap == |s.slots|
    && s.deq <= s.enq <= s.deq + c.cap
    && |s.claims| == s.enq && |s.takes| == s.deq
    && ClaimedSlots(c, s)
    && FreeSlots(c, s)
    && (forall t :: 0 <= t < |s.threads| ==> ThreadInv(c, s, t))
    && Owned(s)
  }

  lemma InitInv(c: Config, n: nat)
    requires 2 <= c.cap
    ensures Inv(c, Init(c, n))
  {
    var s := Init(c, n);
    forall p {:trigger SlotOf(c.cap, p)} | s.enq <= p < s.deq + c.cap
      ensures s.slots[SlotOf(c.cap, p)].sequence == p
    {
      assert SlotOf(c.cap, p) == p;
    }
  }

  /** A step that only moves a thread that holds no ticket, before and after. */
  lemma QuietStep(c: Config, s: State, t: nat, s': State)
    requires Inv(c, s) && t < |s.threads|
    requires s'.enq == s.enq && s'.deq == s.deq && s'.slots == s.slots && s'.claims == s.claims && s'.takes == s.takes
    requires |s'.threads| == |s.threads|
    requires forall u :: 0 <= u < |s.threads| && u != t ==> s'.threads[u] == s.threads[u]
    requires forall p {:trigger HoldsClaim(s.threads[t], p)} :: !HoldsClaim(s.threads[t], p)
    requires forall p {:trigger HoldsTake(s.threads[t], p)} :: HoldsTake(s.threads[t], p) ==> HoldsTake(s'.threads[t], p)
    requires ThreadInv(c, s', t)
    ensures Inv(c, s')
  {
    forall u | 0 <= u < |s'.threads|
      ensures ThreadInv(c, s', u)
    {
      assert ThreadInv(c, s, u);
    }
  }

  lemma ClaimKeepsThread(c: Config, s: State, t: nat, u: nat)
    requires Inv(c, s) && t < |s.threads| && s.threads[t].EnqCas? && s.threads[t].pos == s.enq
    requires u < |s.threads|
    ensures ThreadInv(c, WonClaim(s, t, s.threads[t].item, s.enq), u)
  {
    assert ThreadInv(c, s, u);
    RoomToClaim(c, s, t);
    var l := s.threads[u];
    if l.DeqLoadData? || l.DeqClear? || l.DeqStoreSeq? {
      NextLap(c.cap, l.pos);  // a consumer still at work one lap back would show in the slot
      assert l.pos + c.cap != s.enq;
    }
  }

  lemma ClaimStep(c: Config, s: State, t: nat)
    requires Inv(c, s) && t < |s.threads| && s.threads[t].EnqCas? && s.threads[t].pos == s.enq
    ensures Inv(c, WonClaim(s, t, s.threads[t].item, s.enq))
  {
    RoomToClaim(c, s, t);
    forall u | 0 <= u < |s.threads|
      ensures ThreadInv(c, WonClaim(s, t, s.threads[t].item, s.enq), u)
    {
      ClaimKeepsThread(c, s, t, u);
    }
  }

  /** A producer that wins the compare-and-swap has room: the slot it read cannot belong to the ticket one lap back. */
  lemma RoomToClaim(c: Config, s: State, t: nat)
    requires Inv(c, s) && t < |s.threads| && s.threads[t].EnqCas? && s.threads[t].pos == s.enq
    ensures s.enq < s.deq + c.cap && s.slots[SlotOf(c.cap, s.enq)].sequence == s.enq
  {
    assert ThreadInv(c, s, t);
    Apart(c.cap, s.deq);
    assert s.deq < s.enq ==> s.slots[SlotOf(c.cap, s.deq)].sequence <= s.deq + 1;
  }

  /** A consumer that wins the compare-and-swap takes a published ticket. */
  lemma PublishedToTake(c: Config, s: State, t: nat)
    requires Inv(c, s) && t < |s.threads| && s.threads[t].DeqCas? && s.threads[t].pos == s.deq
    ensures s.deq < s.enq && s.slots[SlotOf(c.cap, s.deq)] == Slot(s.deq + 1, s.claims[s.deq].item)
  {
    assert ThreadInv(c, s, t);
  }

  lemma TakeStep(c: Config, s: State, t: nat)
    requires Inv(c, s) && t < |s.threads| && s.threads[t].DeqCas? && s.threads[t].pos == s.deq
    ensures Inv(c, WonTake(s, t, s.threads[t].pos))
  {
    var l := s.threads[t];
    var s' := WonTake(s, t, l.pos);
    assert ThreadInv(c, s, t);
    Apart(c.cap, l.pos);
    PublishedToTake(c, s, t);
    forall u | 0 <= u < |s'.threads|
      ensures ThreadInv(c, s', u)
    {
      assert ThreadInv(c, s, u);
    }
  }

  /** A thread between its compare-and-swap and the store that hands the slot on. */
  ghost predicate InSlot(l: Local) {
    l.EnqStoreData? || l.EnqStoreSeq? || l.DeqLoadData? || l.DeqClear? || l.DeqStoreSeq?
  }

  /** Mutual exclusion: two threads are never inside the same slot. */
  lemma ExclusiveSlots(c: Config, s: State, t: nat, u: nat)
    requires Inv(c, s) && t < |s.threads| && u < |s.threads| && t != u
    requires InSlot(s.threads[t]) && InSlot(s.threads[u])
    ensures SlotOf(c.cap, s.threads[t].pos) != SlotOf(c.cap, s.threads[u].pos)
  {
    assert ThreadInv(c, s, t) && ThreadInv(c, s, u);
    Apart(c.cap, s.threads[t].pos);
  }

  /** Writing the slot a thread is inside keeps what every other thread relies on. */
  lemma SlotWrite(c: Config, s: State, t: nat, l: Local, slot: Slot)
    requires Inv(c, s) && t < |s.threads| && InSlot(s.threads[t])
    requires slot.sequence >= s.slots[SlotOf(c.cap, s.threads[t].pos)].sequence
    requires forall p {:trigger HoldsClaim(l, p)} {:trigger HoldsTake(l, p)} ::
               HoldsClaim(l, p) == HoldsClaim(s.threads[t], p) && HoldsTake(l, p) == HoldsTake(s.threads[t], p)
    requires var s' := Goto(s, t, l).(slots := s.slots[SlotOf(c.cap, s.threads[t].pos) := slot]);
             ThreadInv(c, s', t) && ClaimedSlots(c, s') && FreeSlots(c, s')
    ensures Inv(c, Goto(s, t, l).(slots := s.slots[SlotOf(c.cap, s.threads[t].pos) := slot]))
  {
    var s' := Goto(s, t, l).(slots := s.slots[SlotOf(c.cap, s.threads[t].pos) := slot]);
    forall u | 0 <= u < |s'.threads|
      ensures ThreadInv(c, s', u)
    {
      assert ThreadInv(c, s, u);
      if u != t && InSlot(s.threads[u]) { ExclusiveSlots(c, s, t, u); }
    }
    assert HoldsClaim(l, s.threads[t].pos) == HoldsClaim(s.threads[t], s.threads[t].pos);
  }

  lemma StoreDataStep(c: Config, s: State, t: nat)
    requires Inv(c, s) && t < |s.threads| && s.threads[t].EnqStoreData?
    ensures Inv(c, StoredData(c, s, t, s.threads[t].item, s.threads[t].pos))
  {
    var l := s.threads[t];
    assert ThreadInv(c, s, t);
    Apart(c.cap, l.pos);
    SlotWrite(c, s, t, EnqStoreSeq(l.item, l.pos), s.slots[SlotOf(c.cap, l.pos)].(data := l.item));
  }

  lemma PublishStep(c: Config, s: State, t: nat)
    requires Inv(c, s) && t < |s.threads| && s.threads[t].EnqStoreSeq?
    ensures Inv(c, Published(c, s, t, s.threads[t].item, s.threads[t].pos))
  {
    var l := s.threads[t];
    assert ThreadInv(c, s, t);
    Apart(c.cap, l.pos);
    SlotWrite(c, s, t, EnqCount(l.item, l.pos), s.slots[SlotOf(c.cap, l.pos)].(sequence := l.pos + 1));
  }

  lemma ClearStep(c: Config, s: State, t: nat)
    requires Inv(c, s) && t < |s.threads| && s.threads[t].DeqClear?
    ensures Inv(c, Cleared(c, s, t, s.threads[t].pos, s.threads[t].data))
  {
    var l := s.threads[t];
    assert ThreadInv(c, s, t);
    Apart(c.cap, l.pos);
    SlotWrite(c, s, t, DeqStoreSeq(l.pos, l.data), s.slots[SlotOf(c.cap, l.pos)].(data := NIL));
  }

  lemma ReleaseStep(c: Config, s: State, t: nat)
    requires Inv(c, s) && t < |s.threads| && s.threads[t].DeqStoreSeq?
    ensures Inv(c, Released(c, s, t, s.threads[t].pos, s.threads[t].data))
  {
    var l := s.threads[t];
    assert ThreadInv(c, s, t);
    Apart(c.cap, l.pos);
    SlotWrite(c, s, t, DeqCount(l.pos, l.data), s.slots[SlotOf(c.cap, l.pos)].(sequence := l.pos + c.cap));
  }

  lemma EnqueueReturnStep(c: Config, s: State, t: nat)
    requires Inv(c, s) && t < |s.threads| && s.threads[t].EnqCount?
    ensures Inv(c, EnqueueReturned(s, t, s.threads[t].pos))
  {
    var l := s.threads[t];
    var s' := EnqueueReturned(s, t, l.pos);
    assert ThreadInv(c, s, t);
    forall u | 0 <= u < |s'.threads|
      ensures ThreadInv(c, s', u)
    {
      assert ThreadInv(c, s, u);
    }
  }

  lemma DequeueReturnStep(c: Config, s: State, t: nat)
    requires Inv(c, s) && t < |s.threads| && s.threads[t].DeqCount?
    ensures Inv(c, DequeueReturned(s, t, s.threads[t].pos, s.threads[t].data))
  {
    var l := s.threads[t];
    var s' := DequeueReturned(s, t, l.pos, l.data);
    assert ThreadInv(c, s, t);
    forall u | 0 <= u < |s'.threads|
      ensures ThreadInv(c, s', u)
    {
      assert ThreadInv(c, s, u);
    }
  }

  ghost predicate Quiet(s: State, l: Local) {
    && !(l.EnqCas? && l.pos == s.enq) && !(l.DeqCas? && l.pos == s.deq)
    && !l.EnqStoreData? && !l.EnqStoreSeq? && !l.EnqCount?
    && !l.DeqClear? && !l.DeqStoreSeq? && !l.DeqCount?
  }

  /** The other steps only read shared state (or count a drop) and move the thread on. */
  lemma QuietLocal(c: Config, s: State, t: nat)
    requires Inv(c, s) && !c.policy.DropOldest? && t < |s.threads| && Quiet(s, s.threads[t])
    ensures var s' := StepThread(c, s, t);
            && s'.enq == s.enq && s'.deq == s.deq && s'.slots == s.slots && s'.claims == s.claims && s'.takes == s.takes
            && |s'.threads| == |s.threads|
            && (forall u :: 0 <= u < |s.threads| && u != t ==> s'.threads[u] == s.threads[u])
            && (forall p {:trigger HoldsClaim(s.threads[t], p)} :: !HoldsClaim(s.threads[t], p))
            && (forall p {:trigger HoldsTake(s.threads[t], p)} :: HoldsTake(s.threads[t], p) ==> HoldsTake(s'.threads[t], p))
            && ThreadInv(c, s', t)
  {
    assert ThreadInv(c, s, t);
  }

  /** Every atomic step of every thread keeps the invariant. */
  lemma StepInv(c: Config, s: State, t: nat)
    requires Inv(c, s) && !c.policy.DropOldest? && t < |s.threads|
    ensures Inv(c, StepThread(c, s, t))
  {
    var l := s.threads[t];
    if l.EnqCas? && l.pos == s.enq { ClaimStep(c, s, t); }
    else if l.DeqCas? && l.pos == s.deq { TakeStep(c, s, t); }
    else if l.EnqStoreData? { StoreDataStep(c, s, t); }
    else if l.EnqStoreSeq? { PublishStep(c, s, t); }
    else if l.DeqClear? { ClearStep(c, s, t); }
    else if l.DeqStoreSeq? { ReleaseStep(c, s, t); }
    else if l.EnqCount? { EnqueueReturnStep(c, s, t); }
    else if l.DeqCount? { DequeueReturnStep(c, s, t); }
    else { QuietLocal(c, s, t); QuietStep(c, s, t, StepThread(c, s, t)); }
  }

  lemma ApplyInv(c: Config, s: State, a: Action)
    requires Inv(c, s) && !c.policy.DropOldest?
    ensures Inv(c, Apply(c, s, a))
  {
    if a.t < |s.threads| {
      if a.Advance? {
        StepInv(c, s, a.t);
      } else if s.threads[a.t].Idle? {
        QuietStep(c, s, a.t, Apply(c, s, a));
      }
    }
  }

  /** The invariant holds in every state of every run. */
  lemma {:induction false} RunInv(c: Config, n: nat, actions: seq<Action>)
    requires 2 <= c.cap && !c.policy.DropOldest?
    ensures Inv(c, Run(c, n, actions))
  {
    if actions == [] {
      InitInv(c, n);
    } else {
      var k := |actions| - 1;
      RunInv(c, n, actions[..k]);
      ApplyInv(c, Run(c, n, actions[..k]), actions[k]);
    }
  }
}
