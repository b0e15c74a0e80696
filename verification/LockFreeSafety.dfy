/** What every run of the lock-free queue keeps, and the bounded FIFO it refines. */
module LockFreeSafety {
  import opened QueueTypes
  import opened LockFreeProtocol

  // ---------------------------------------------------------------------------------------------
  // Answers

  ghost predicate Distinct(tickets: seq<nat>) {
    forall i, j :: 0 <= i < j < |tickets| ==> tickets[i] != tickets[j]
  }

  function Tickets(returned: seq<Delivery>): (ts: seq<nat>)
    ensures |ts| == |returned|
  {
    seq(|returned|, i requires 0 <= i < |returned| => returned[i].ticket)
  }

  function Values(returned: seq<Delivery>): (vs: seq<MessageRef>)
    ensures |vs| == |returned|
  {
    seq(|returned|, i requires 0 <= i < |returned| => returned[i].value)
  }

  /** The claimed messages in ticket order. */
  function Items(claims: seq<Claim>): (items: seq<MessageRef>)
    ensures |items| == |claims|
  {
    seq(|claims|, i requires 0 <= i < |claims| => claims[i].item)
  }

  /** The Enqueue calls that answered true are exactly the finished claims, each once. */
  ghost predicate AcceptedInv(accepted: seq<nat>, claims: seq<Claim>) {
    && (forall i :: 0 <= i < |accepted| ==> accepted[i] < |claims| && claims[accepted[i]].done)
    && Distinct(accepted)
    && (forall p :: 0 <= p < |claims| && claims[p].done ==> p in accepted)
  }

  /** The Dequeue calls that returned a value are exactly the finished takes, each once, with the ticket's message. */
  ghost predicate ReturnedInv(returned: seq<Delivery>, takes: seq<Take>, items: seq<MessageRef>) {
    && |takes| <= |items|
    && (forall i :: 0 <= i < |returned| ==>
          returned[i].ticket < |takes| && takes[returned[i].ticket].done &&
          returned[i].value == items[returned[i].ticket])
    && Distinct(Tickets(returned))
    && (forall p :: 0 <= p < |takes| && takes[p].done ==> Delivery(p, items[p]) in returned)
  }

  function DoneClaims(claims: seq<Claim>): nat {
    if claims == [] then 0
    else DoneClaims(claims[..|claims| - 1]) + (if claims[|claims| - 1].done then 1 else 0)
  }

  /** The messages of the tickets whose Dequeue call has returned. */
  function DoneItems(takes: seq<Take>, items: seq<MessageRef>): multiset<MessageRef>
    requires |takes| <= |items|
  {
    if takes == [] then multiset{}
    else
      var k := |takes| - 1;
      DoneItems(takes[..k], items) + (if takes[k].done then multiset{items[k]} else multiset{})
  }

  ghost predicate Answers(s: State) {
    && AcceptedInv(s.accepted, s.claims)
    && ReturnedInv(s.returned, s.takes, Items(s.claims))
    && s.enqCount == |s.accepted| == DoneClaims(s.claims)
    && s.deqCount == |s.returned|
    && s.dropCount == |s.rejected|
    && multiset(Values(s.returned)) == DoneItems(s.takes, Items(s.claims))
  }

  lemma {:induction false} MarkedClaim(claims: seq<Claim>, p: nat)
    requires p < |claims| && !claims[p].done
    ensures DoneClaims(MarkClaim(claims, p)) == DoneClaims(claims) + 1
    ensures Items(MarkClaim(claims, p)) == Items(claims)
  {
    var k := |claims| - 1;
    var marked := MarkClaim(claims, p);
    if p < k {
      MarkedClaim(claims[..k], p);
      assert marked[..k] == MarkClaim(claims[..k], p);
    } else {
      assert marked[..k] == claims[..k];
    }
  }

  lemma ClaimOne(accepted: seq<nat>, claims: seq<Claim>, claim: Claim)
    requires !claim.done && AcceptedInv(accepted, claims)
    ensures AcceptedInv(accepted, claims + [claim])
    ensures DoneClaims(claims + [claim]) == DoneClaims(claims)
  {
  }

  lemma {:induction false} MarkedTake(takes: seq<Take>, p: nat, items: seq<MessageRef>)
    requires p < |takes| <= |items| && !takes[p].done
    ensures DoneItems(MarkTake(takes, p), items) == DoneItems(takes, items) + multiset{items[p]}
  {
    var k := |takes| - 1;
    var marked := MarkTake(takes, p);
    if p < k {
      MarkedTake(takes[..k], p, items);
      assert marked[..k] == MarkTake(takes[..k], p);
    } else {
      assert marked[..k] == takes[..k];
    }
  }

  lemma ReturnOne(returned: seq<Delivery>, takes: seq<Take>, items: seq<MessageRef>, p: nat)
    requires ReturnedInv(returned, takes, items) && p < |takes| && !takes[p].done
    ensures ReturnedInv(returned + [Delivery(p, items[p])], MarkTake(takes, p), items)
    ensures multiset(Values(returned + [Delivery(p, items[p])])) == multiset(Values(returned)) + multiset{items[p]}
  {
    var d := Delivery(p, items[p]);
    var returned', takes' := returned + [d], MarkTake(takes, p);
    assert Tickets(returned') == Tickets(returned) + [p];
    assert Values(returned') == Values(returned) + [items[p]];
    forall i | 0 <= i < |returned| ensures Tickets(returned)[i] != p {
      assert takes[returned[i].ticket].done;
    }
    forall q | 0 <= q < |takes'| && takes'[q].done ensures Delivery(q, items[q]) in returned' {
      if q == p { assert returned'[|returned|] == d; } else { assert takes[q].done; }
    }
  }

  lemma {:induction false} MoreItems(takes: seq<Take>, items: seq<MessageRef>, item: MessageRef)
    requires |takes| <= |items|
    ensures DoneItems(takes, items + [item]) == DoneItems(takes, items)
  {
    if takes != [] {
      MoreItems(takes[..|takes| - 1], items, item);
    }
  }

  lemma AcceptStep(c: Config, s: State, t: nat)
    requires t < |s.threads| && Inv(c, s) && Answers(s) && s.threads[t].EnqCount?
    ensures Answers(EnqueueReturned(s, t, s.threads[t].pos))
  {
    assert ThreadInv(c, s, t);
    MarkedClaim(s.claims, s.threads[t].pos);
  }

  lemma ReturnStep(c: Config, s: State, t: nat)
    requires t < |s.threads| && Inv(c, s) && Answers(s) && s.threads[t].DeqCount?
    ensures Answers(DequeueReturned(s, t, s.threads[t].pos, s.threads[t].data))
  {
    assert ThreadInv(c, s, t);
    var l, items := s.threads[t], Items(s.claims);
    ReturnOne(s.returned, s.takes, items, l.pos);
    MarkedTake(s.takes, l.pos, items);
  }

  lemma ClaimStepAnswers(s: State, t: nat, item: MessageRef, pos: nat)
    requires t < |s.threads| && Answers(s)
    ensures Answers(WonClaim(s, t, item, pos))
  {
    var claim, items := Claim(item, t, false), Items(s.claims);
    ClaimOne(s.accepted, s.claims, claim);
    assert Items(s.claims + [claim]) == items + [item];
    MoreItems(s.takes, items, item);
    assert ReturnedInv(s.returned, s.takes, items + [item]);
  }

  lemma TakeStepAnswers(s: State, t: nat, pos: nat)
    requires t < |s.threads| && Answers(s) && |s.takes| < |s.claims|
    ensures Answers(WonTake(s, t, pos))
  {
  }

  /** Every atomic step keeps answers and tickets in agreement. */
  lemma StepAnswers(c: Config, s: State, t: nat)
    requires t < |s.threads| && Inv(c, s) && !c.policy.DropOldest? && Answers(s)
    ensures Answers(StepThread(c, s, t))
  {
    var l := s.threads[t];
    if l.EnqCount? {
      AcceptStep(c, s, t);
    } else if l.DeqCount? {
      ReturnStep(c, s, t);
    } else if l.EnqCas? && l.pos == s.enq {
      ClaimStepAnswers(s, t, l.item, l.pos);
    } else if l.DeqCas? && l.pos == s.deq {
      PublishedToTake(c, s, t);
      TakeStepAnswers(s, t, l.pos);
    } else {
      UnansweredStep(c, s, t);
    }
  }

  lemma UnansweredStep(c: Config, s: State, t: nat)
    requires t < |s.threads| && Inv(c, s) && !c.policy.DropOldest? && s.dropCount == |s.rejected|
    requires var l := s.threads[t];
             !l.EnqCount? && !l.DeqCount? && !(l.EnqCas? && l.pos == s.enq) && !(l.DeqCas? && l.pos == s.deq)
    ensures var s' := StepThread(c, s, t);
            && s'.claims == s.claims && s'.takes == s.takes && s'.enq == s.enq && s'.deq == s.deq
            && s'.accepted == s.accepted && s'.returned == s.returned
            && s'.enqCount == s.enqCount && s'.deqCount == s.deqCount && s'.dropCount == |s'.rejected|
  {
    assert ThreadInv(c, s, t);
  }

  lemma {:induction false} RunAnswers(c: Config, n: nat, actions: seq<Action>)
    requires 2 <= c.cap && !c.policy.DropOldest?
    ensures Answers(Run(c, n, actions))
  {
    if actions != [] {
      var k := |actions| - 1;
      var s, a := Run(c, n, actions[..k]), actions[k];
      RunAnswers(c, n, actions[..k]);
      RunInv(c, n, actions[..k]);
      if a.t < |s.threads| && a.Advance? {
        StepAnswers(c, s, a.t);
      }
    }
  }

  // ---------------------------------------------------------------------------------------------
  // Conservation of messages

  // Counted for one message m at a time: how often m has each fate.

  /** Is this thread inside an Enqueue call for m that has neither won a ticket nor been refused? */
  function Undecided(l: Local, m: MessageRef): nat {
    if (l.EnqLoadPos? || l.EnqLoadSeq? || l.EnqCas? || l.EnqReadHead? || l.EnqMoveHead? || l.EnqDrop?) && l.item == m
    then 1 else 0
  }

  function AllUndecided(threads: seq<Local>, m: MessageRef): nat {
    if threads == [] then 0
    else AllUndecided(threads[..|threads| - 1], m) + Undecided(threads[|threads| - 1], m)
  }

  lemma {:induction false} UndecidedUpdate(threads: seq<Local>, t: nat, l: Local, m: MessageRef)
    requires t < |threads|
    ensures AllUndecided(threads[t := l], m) + Undecided(threads[t], m) == AllUndecided(threads, m) + Undecided(l, m)
  {
    var k := |threads| - 1;
    if t < k {
      UndecidedUpdate(threads[..k], t, l, m);
      assert threads[t := l][..k] == threads[..k][t := l];
    } else {
      assert threads[t := l][..k] == threads[..k];
    }
  }

  lemma {:induction false} NoneUndecided(threads: seq<Local>, m: MessageRef)
    requires forall t :: 0 <= t < |threads| ==> threads[t].Idle?
    ensures AllUndecided(threads, m) == 0
  {
    if threads != [] {
      NoneUndecided(threads[..|threads| - 1], m);
    }
  }

  /** How often the actions of a run hand m to Enqueue. */
  function Offered(c: Config, n: nat, actions: seq<Action>, m: MessageRef): nat
    requires 0 < c.cap
  {
    if actions == [] then 0
    else
      var k := |actions| - 1;
      Offered(c, n, actions[..k], m) + (if Offers(Run(c, n, actions[..k]), actions[k], m) then 1 else 0)
  }

  predicate Offers(s: State, a: Action, m: MessageRef) {
    a.CallEnqueue? && a.t < |s.threads| && s.threads[a.t].Idle? && a.item == m
  }

  /** How often m has claimed a ticket, was refused, or is still open. */
  function Fates(s: State, m: MessageRef): nat {
    multiset(Items(s.claims))[m] + multiset(s.rejected)[m] + AllUndecided(s.threads, m)
  }

  /** What is decided about a message, by claim, refusal or not at all yet. */
  function FatesAt(s: State, t: nat, m: MessageRef): nat
    requires t < |s.threads|
  {
    multiset(Items(s.claims))[m] + multiset(s.rejected)[m] + Undecided(s.threads[t], m)
  }

  /** How a step of thread t changes claims and refusals: by a won claim, a mark, a refusal, or not at all. */
  predicate Decides(s: State, s': State, t: nat, m: MessageRef)
    requires t < |s.threads|
  {
    && |s'.threads| == |s.threads| && s'.threads == s.threads[t := s'.threads[t]]
    && var l, l' := s.threads[t], s'.threads[t];
       if l.EnqCas? && l.pos == s.enq then
         l'.EnqStoreData? && s'.claims == s.claims + [Claim(l.item, t, false)] && s'.rejected == s.rejected
       else if l.EnqCount? then l'.Idle? && s'.claims == MarkClaim(s.claims, l.pos) && s'.rejected == s.rejected
       else if l.EnqDrop? then l'.Idle? && s'.claims == s.claims && s'.rejected == s.rejected + [l.item]
       else s'.claims == s.claims && s'.rejected == s.rejected && Undecided(l', m) == Undecided(l, m)
  }

  predicate InDequeue(l: Local) {
    l.DeqLoadPos? || l.DeqLoadSeq? || l.DeqCas? || l.DeqLoadData? || l.DeqClear? || l.DeqStoreSeq? || l.DeqCount?
  }

  lemma EnqueueDecides(c: Config, s: State, t: nat, m: MessageRef)
    requires 0 < c.cap == |s.slots| && t < |s.threads| && !InDequeue(s.threads[t])
    ensures Decides(s, StepThread(c, s, t), t, m)
  {
  }

  lemma DequeueDecides(c: Config, s: State, t: nat, m: MessageRef)
    requires 0 < c.cap == |s.slots| && t < |s.threads| && InDequeue(s.threads[t])
    ensures Decides(s, StepThread(c, s, t), t, m)
  {
  }

  lemma StepDecides(c: Config, s: State, t: nat, m: MessageRef)
    requires 0 < c.cap == |s.slots| && t < |s.threads|
    ensures Decides(s, StepThread(c, s, t), t, m)
  {
    if InDequeue(s.threads[t]) { DequeueDecides(c, s, t, m); } else { EnqueueDecides(c, s, t, m); }
  }

  /** No step loses a message. */
  lemma DecidedOnce(s: State, s': State, t: nat, m: MessageRef)
    requires t < |s.threads| && Decides(s, s', t, m)
    ensures FatesAt(s', t, m) == FatesAt(s, t, m)
  {
    var l := s.threads[t];
    if l.EnqCas? && l.pos == s.enq {
      assert Items(s'.claims) == Items(s.claims) + [l.item];
    } else if l.EnqCount? {
      assert Items(s'.claims) == Items(s.claims);
    }
  }

  lemma ApplyFates(c: Config, s: State, a: Action, m: MessageRef)
    requires 0 < c.cap == |s.slots|
    ensures Fates(Apply(c, s, a), m) == Fates(s, m) + (if Offers(s, a, m) then 1 else 0)
  {
    if a.t < |s.threads| {
      if a.Advance? {
        StepDecides(c, s, a.t, m);
        DecidedOnce(s, StepThread(c, s, a.t), a.t, m);
      }
      UndecidedUpdate(s.threads, a.t, Apply(c, s, a).threads[a.t], m);
      assert Apply(c, s, a).threads == s.threads[a.t := Apply(c, s, a).threads[a.t]];
    }
  }

  /** Every message offered has exactly one fate, whatever the policy. */
  lemma {:induction false} Conservation(c: Config, n: nat, actions: seq<Action>, m: MessageRef)
    requires 0 < c.cap
    ensures Offered(c, n, actions, m) == Fates(Run(c, n, actions), m)
  {
    if actions == [] {
      NoneUndecided(Init(c, n).threads, m);
    } else {
      var k := |actions| - 1;
      Conservation(c, n, actions[..k], m);
      ApplyFates(c, Run(c, n, actions[..k]), actions[k], m);
    }
  }

  // ---------------------------------------------------------------------------------------------
  // Main results

  lemma {:induction false} DoneItemsBound(takes: seq<Take>, items: seq<MessageRef>)
    requires |takes| <= |items|
    ensures DoneItems(takes, items) <= multiset(items[..|takes|])
  {
    if takes != [] {
      var k := |takes| - 1;
      DoneItemsBound(takes[..k], items);
      assert items[..k + 1] == items[..k] + [items[k]];
    }
  }

  /**
   Safety of every interleaving: the positions never cross or drift more than the capacity apart; every value
   returned is the message stored under the ticket that call took; no ticket is returned twice, so the values
   returned, counted with repetition, are among the messages claimed, which are among the messages offered to
   Enqueue and not refused; and the counters count the answers.
   */
  lemma Safety(c: Config, n: nat, actions: seq<Action>)
    requires 2 <= c.cap && !c.policy.DropOldest?
    ensures var s := Run(c, n, actions);
            && 0 <= s.enq - s.deq <= c.cap && |s.claims| == s.enq
            && (forall i :: 0 <= i < |s.returned| ==>
                  s.returned[i].ticket < |s.claims| && s.returned[i].value == s.claims[s.returned[i].ticket].item)
            && Distinct(Tickets(s.returned)) && Distinct(s.accepted)
            && multiset(Values(s.returned)) <= multiset(Items(s.claims)[..s.deq])
            && (forall m :: multiset(Items(s.claims))[m] + multiset(s.rejected)[m] <= Offered(c, n, actions, m))
            && s.enqCount == |s.accepted| && s.deqCount == |s.returned| && s.dropCount == |s.rejected|
  {
    var s := Run(c, n, actions);
    RunInv(c, n, actions);
    RunAnswers(c, n, actions);
    forall m ensures multiset(Items(s.claims))[m] + multiset(s.rejected)[m] <= Offered(c, n, actions, m) {
      Conservation(c, n, actions, m);
    }
    DoneItemsBound(s.takes, Items(s.claims));
    forall i | 0 <= i < |s.returned|
      ensures s.returned[i].ticket < |s.claims| && s.returned[i].value == s.claims[s.returned[i].ticket].item
    {
      assert s.returned[i].value == Items(s.claims)[s.returned[i].ticket];
    }
  }

  /** The bounded FIFO a state stands for: the claimed messages not yet taken, in ticket order. */
  ghost function Fifo(c: Config, s: State): seq<MessageRef>
    requires Inv(c, s)
  {
    Items(s.claims)[s.deq..]
  }

  /** The message an Enqueue thread is about to append, the winner of the compare-and-swap on enqueuePos. */
  ghost predicate Appends(s: State, t: nat, item: MessageRef)
    requires t < |s.threads|
  {
    var l := s.threads[t];
    l.EnqCas? && l.pos == s.enq && l.item == item
  }

  ghost predicate TakesHead(s: State, t: nat)
    requires t < |s.threads|
  {
    var l := s.threads[t];
    l.DeqCas? && l.pos == s.deq
  }

  /**
   Refinement of a bounded FIFO: each step appends its message to a FIFO that is not full, or removes the head of a
   FIFO that is not empty and from then on holds the head's ticket, or leaves the FIFO alone.
   */
  lemma FifoRefinement(c: Config, s: State, t: nat)
    requires t < |s.threads| && Inv(c, s) && !c.policy.DropOldest?
    ensures Inv(c, StepThread(c, s, t))
    ensures |Fifo(c, s)| <= c.cap
    ensures var s' := StepThread(c, s, t);
            if s.threads[t].EnqCas? && Appends(s, t, s.threads[t].item) then
              |Fifo(c, s)| < c.cap && Fifo(c, s') == Fifo(c, s) + [s.threads[t].item]
            else if TakesHead(s, t) then
              && |Fifo(c, s)| > 0 && Fifo(c, s') == Fifo(c, s)[1..]
              && HoldsTake(s'.threads[t], s.deq) && s'.claims[s.deq].item == Fifo(c, s)[0]
            else Fifo(c, s') == Fifo(c, s)
  {
    var l := s.threads[t];
    var s' := StepThread(c, s, t);
    StepInv(c, s, t);
    assert ThreadInv(c, s, t);
    if l.EnqCas? && l.pos == s.enq {
      RoomToClaim(c, s, t);
      assert Items(s'.claims) == Items(s.claims) + [l.item];
    } else if l.DeqCas? && l.pos == s.deq {
      PublishedToTake(c, s, t);
    } else {
      assert Items(s'.claims) == Items(s.claims);
    }
  }

  lemma {:induction false} AllDone(takes: seq<Take>, items: seq<MessageRef>)
    requires |takes| <= |items| && forall p :: 0 <= p < |takes| ==> takes[p].done
    ensures DoneItems(takes, items) == multiset(items[..|takes|])
  {
    if takes != [] {
      var k := |takes| - 1;
      AllDone(takes[..k], items);
      assert items[..k + 1] == items[..k] + [items[k]];
    }
  }

  lemma {:induction false} AllClaimsDone(claims: seq<Claim>)
    requires forall p :: 0 <= p < |claims| ==> claims[p].done
    ensures DoneClaims(claims) == |claims|
  {
    if claims != [] { AllClaimsDone(claims[..|claims| - 1]); }
  }

  lemma SplitCount(xs: seq<MessageRef>, k: nat, m: MessageRef)
    requires k <= |xs|
    ensures multiset(xs)[m] == multiset(xs[..k])[m] + multiset(xs[k..])[m]
  {
    assert xs == xs[..k] + xs[k..];
  }

  lemma RestingTickets(c: Config, s: State)
    requires Inv(c, s) && Answers(s)
    requires forall t :: 0 <= t < |s.threads| ==> s.threads[t].Idle?
    ensures multiset(Values(s.returned)) == multiset(Items(s.claims)[..s.deq])
    ensures s.enqCount == s.enq && s.deqCount == s.deq
  {
    AllDone(s.takes, Items(s.claims));
    AllClaimsDone(s.claims);
    assert |Values(s.returned)| == |multiset(Values(s.returned))|;
    assert |Items(s.claims)[..s.deq]| == |multiset(Items(s.claims)[..s.deq])|;
  }

  lemma RestingFates(c: Config, s: State, m: MessageRef)
    requires Inv(c, s) && Answers(s)
    requires forall t :: 0 <= t < |s.threads| ==> s.threads[t].Idle?
    ensures Fates(s, m) == multiset(Values(s.returned))[m] + multiset(Fifo(c, s))[m] + multiset(s.rejected)[m]
  {
    RestingTickets(c, s);
    SplitCount(Items(s.claims), s.deq, m);
    NoneUndecided(s.threads, m);
  }

  /**
   At rest the books close: every message was returned, is still queued or was refused exactly as often as it was
   offered, and the two counters give the size.
   */
  lemma Quiescence(c: Config, n: nat, actions: seq<Action>, m: MessageRef)
    requires 2 <= c.cap && !c.policy.DropOldest?
    requires forall t :: 0 <= t < n ==> Run(c, n, actions).threads[t].Idle?
    ensures var s := Run(c, n, actions);
            && Inv(c, s)
            && multiset(Values(s.returned))[m] + multiset(Fifo(c, s))[m] + multiset(s.rejected)[m]
               == Offered(c, n, actions, m)
            && s.enqCount - s.deqCount == s.enq - s.deq == |Fifo(c, s)|
  {
    var s := Run(c, n, actions);
    RunInv(c, n, actions);
    RunAnswers(c, n, actions);
    RestingTickets(c, s);
    RestingFates(c, s, m);
    Conservation(c, n, actions, m);
  }
}
