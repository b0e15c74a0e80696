/** What the two ring queues share: message references, drop policies, slots and the arithmetic of slots. */
module QueueTypes {
  import opened Division

  /** A reference to a message. The queues never look behind it; nil is 0. */
  type MessageRef = nat

  const NIL: MessageRef := 0

  /** The retry bound of Enqueue and Dequeue. */
  const MAX_RETRIES: nat := 1000

  const TWO_TO_THE_64: nat := 0x1_0000_0000_0000_0000

  datatype DropPolicy = DropOldest | DropNewest | Block

  datatype Slot = Slot(sequence: nat, data: MessageRef)

  /** Where the DropOldest branch moves dequeuePos: pos - capacity + 1 on 64-bit unsigned integers. */
  function MovedHead(pos: nat, cap: nat): nat {
    if cap <= pos + 1 then pos + 1 - cap else (pos + 1 - cap) % TWO_TO_THE_64
  }

  /** The slot of a ticket. */
  function SlotOf(cap: nat, p: nat): (i: nat)
    requires 0 < cap
    ensures i < cap
  {
    p % cap
  }

  /** Two tickets less than one lap apart never share a slot. */
  lemma DistinctSlots(cap: nat, p: nat, q: nat)
    requires p < q < p + cap
    ensures p % cap != q % cap
  {
    var lap, r, d := p / cap, p % cap, q - p;
    if r + d < cap {
      Remainder(cap, q, lap, r + d);
    } else {
      Remainder(cap, q, lap + 1, r + d - cap);
    }
  }

  /** Tickets one lap apart share a slot. */
  lemma NextLap(cap: nat, p: nat)
    requires 0 < cap
    ensures (p + cap) % cap == p % cap
  {
    Remainder(cap, p + cap, p / cap + 1, p % cap);
  }

  /** The slot of ticket p is the slot of no other ticket less than a lap away. */
  lemma Apart(cap: nat, p: nat)
    requires 2 <= cap
    ensures forall q: nat {:trigger SlotOf(cap, q)} :: (p < q < p + cap || q < p < q + cap) ==> SlotOf(cap, q) != SlotOf(cap, p)
    ensures SlotOf(cap, p + cap) == SlotOf(cap, p)
  {
    forall q: nat {:trigger SlotOf(cap, q)} | p < q < p + cap || q < p < q + cap ensures SlotOf(cap, q) != SlotOf(cap, p) {
      if p < q { DistinctSlots(cap, p, q); } else { DistinctSlots(cap, q, p); }
    }
    NextLap(cap, p);
  }
}
