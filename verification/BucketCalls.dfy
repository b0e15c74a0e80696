/**
 Calls to a rate limiter broken up where they let go of the limiter's mutex: a call first looks its bucket up, making
 it if there is none, and later takes a token from the bucket it found. A cleanup in between may have removed that
 bucket from the table; the call still uses it.
 */
module BucketCalls {
  import opened Buckets

  /** t is the thread that makes the call; at is the clock's reading. */
  datatype Event = Lookup(t: nat, key: string, at: int) | Take(t: nat, at: int) | Sweep(at: int)

  datatype Hold = Hold(key: string, id: nat)

  /** All buckets ever made, those in the table, and what the calls under way have found. */
  datatype Heap = Heap(buckets: seq<Bucket>, table: map<string, nat>, holds: map<nat, Hold>)

  const START := Heap([], map[], map[])

  /** Does this call hold a bucket? */
  predicate Holds(h: Heap, t: nat) {
    t in h.holds && h.holds[t].id < |h.buckets|
  }

  function AfterLookup(l: Limiter, h: Heap, t: nat, key: string, at: int): Heap {
    if key in h.table then h.(holds := h.holds[t := Hold(key, h.table[key])])
    else
      var id := |h.buckets|;
      Heap(h.buckets + [Bucket(l.full, at)], h.table[key := id], h.holds[t := Hold(key, id)])
  }

  function AfterTake(l: Limiter, h: Heap, t: nat, at: int): Heap
    requires Holds(h, t)
  {
    var id := h.holds[t].id;
    h.(buckets := h.buckets[id := l.use(h.buckets[id], at).bucket], holds := h.holds - {t})
  }

  function AfterSweep(l: Limiter, h: Heap, at: int): Heap {
    h.(table := map k | k in h.table && h.table[k] < |h.buckets| && h.buckets[h.table[k]].last >= at - l.age :: h.table[k])
  }

  function Step(l: Limiter, h: Heap, e: Event): Heap {
    match e
    case Lookup(t, key, at) => if t in h.holds then h else AfterLookup(l, h, t, key, at)
    case Take(t, at) => if Holds(h, t) then AfterTake(l, h, t, at) else h
    case Sweep(at) => AfterSweep(l, h, at)
  }

  function Exec(l: Limiter, h: Heap, events: seq<Event>): Heap {
    if events == [] then h else Step(l, Exec(l, h, events[..|events| - 1]), events[|events| - 1])
  }

  /** The event gives a token of this key. */
  predicate Gives(l: Limiter, h: Heap, e: Event, key: string) {
    e.Take? && Holds(h, e.t) && h.holds[e.t].key == key && l.use(h.buckets[h.holds[e.t].id], e.at).ok
  }

  function Given(l: Limiter, h: Heap, events: seq<Event>, key: string): nat {
    if events == [] then 0
    else
      var k := |events| - 1;
      Given(l, h, events[..k], key) + (if Gives(l, Exec(l, h, events[..k]), events[k], key) then 1 else 0)
  }

  predicate InTime(events: seq<Event>) {
    forall i, j :: 0 <= i < j < |events| ==> events[i].at <= events[j].at
  }

  /** A cleanup removes a bucket that a call has found and not yet used. */
  predicate Overtakes(l: Limiter, h: Heap, e: Event) {
    e.Sweep? && exists t :: t in h.holds && var hold := h.holds[t];
      hold.key in h.table && h.table[hold.key] == hold.id && hold.key !in AfterSweep(l, h, e.at).table
  }

  predicate Undisturbed(l: Limiter, h: Heap, events: seq<Event>) {
    events == [] ||
    var before := events[..|events| - 1];
    Undisturbed(l, h, before) && !Overtakes(l, Exec(l, h, before), events[|events| - 1])
  }

  /** The time from the first event of a window to the last. */
  function Span(window: seq<Event>): int
    requires window != []
  {
    window[|window| - 1].at - window[0].at
  }

  // ---------------------------------------------------------------------------------------------
  // Undisturbed calls are calls in one step

  /** Every key has a bucket of its own, and calls under way hold buckets of the table. */
  ghost predicate Tidy(h: Heap) {
    && (forall k :: k in h.table ==> h.table[k] < |h.buckets|)
    && (forall j, k :: j in h.table && k in h.table && j != k ==> h.table[j] != h.table[k])
    && (forall t :: t in h.holds ==> h.holds[t].key in h.table && h.table[h.holds[t].key] == h.holds[t].id)
  }

  /** The table's buckets are those of s, but for buckets that were made and not used yet. */
  ghost predicate Sim(l: Limiter, h: Heap, s: State, now: int) {
    && Tidy(h)
    && (forall k :: k in s.buckets ==> k in h.table && h.buckets[h.table[k]] == s.buckets[k])
    && (forall k :: k in h.table && k !in s.buckets ==> h.buckets[h.table[k]].tokens == l.full && h.buckets[h.table[k]].last <= now)
  }

  /** The call that a taking of a token is, in one step: a bucket not used yet counts as made by this call. */
  function AsCall(h: Heap, s: State, t: nat, at: int): Action
    requires Holds(h, t)
  {
    var key, last := h.holds[t].key, h.buckets[h.holds[t].id].last;
    if key in s.buckets || at < last then Allow(key, at, 0) else Allow(key, last, at - last)
  }

  lemma LookupTidy(l: Limiter, h: Heap, t: nat, key: string, at: int)
    requires Tidy(h)
    ensures Tidy(AfterLookup(l, h, t, key, at))
  {
    if key !in h.table {
      var h' := AfterLookup(l, h, t, key, at);
      forall k | k in h'.table ensures h'.table[k] == if k == key then |h.buckets| else h.table[k] {}
    }
  }

  lemma LookupSim(l: Limiter, h: Heap, s: State, now: int, t: nat, key: string, at: int)
    requires Sim(l, h, s, now) && now <= at
    ensures Sim(l, AfterLookup(l, h, t, key, at), s, at)
  {
    LookupTidy(l, h, t, key, at);
  }

  lemma TakeTidy(l: Limiter, h: Heap, t: nat, at: int)
    requires Tidy(h) && Holds(h, t)
    ensures Tidy(AfterTake(l, h, t, at))
    ensures var h' := AfterTake(l, h, t, at);
            forall k :: k in h.table ==>
              h'.buckets[h'.table[k]] == if k == h.holds[t].key then l.use(h.buckets[h.holds[t].id], at).bucket else h.buckets[h.table[k]]
  {
  }

  lemma TakeSim(l: Limiter, h: Heap, s: State, now: int, t: nat, at: int)
    requires Sim(l, h, s, now) && Holds(h, t) && now <= at
    ensures var a := AsCall(h, s, t, at);
            && End(a) == at && Sim(l, AfterTake(l, h, t, at), Apply(l, s, a), at)
            && forall key :: Gives(l, h, Take(t, at), key) <==> Takes(l, s, a, key)
  {
    var a, id := AsCall(h, s, t, at), h.holds[t].id;
    TakeTidy(l, h, t, at);
    assert BucketOf(l, s.buckets, a.key, a.at) == h.buckets[id];
  }

  lemma SweepSim(l: Limiter, h: Heap, s: State, now: int, at: int)
    requires Sim(l, h, s, now) && !Overtakes(l, h, Sweep(at)) && now <= at
    ensures Sim(l, AfterSweep(l, h, at), Apply(l, s, Cleanup(at)), at)
  {
  }

  /** One event, as one action or none. */
  lemma StepSim(l: Limiter, h: Heap, s: State, now: int, e: Event) returns (actions: seq<Action>)
    requires Sim(l, h, s, now) && !Overtakes(l, h, e) && now <= e.at
    ensures |actions| <= 1 && (actions != [] ==> End(actions[0]) == e.at)
    ensures Sim(l, Step(l, h, e), if actions == [] then s else Apply(l, s, actions[0]), e.at)
    ensures forall key :: Gives(l, h, e, key) <==> actions != [] && Takes(l, s, actions[0], key)
  {
    match e {
      case Lookup(t, key, at) =>
        LookupSim(l, h, s, now, t, key, at);
        actions := [];
      case Take(t, at) =>
        if Holds(h, t) {
          TakeSim(l, h, s, now, t, at);
          actions := [AsCall(h, s, t, at)];
        } else {
          actions := [];
        }
      case Sweep(at) =>
        SweepSim(l, h, s, now, at);
        actions := [Cleanup(at)];
    }
  }

  function TimeOf(events: seq<Event>, otherwise: int): int {
    if events == [] then otherwise else events[|events| - 1].at
  }

  /** Actions between two moments, in the order of time. */
  predicate Between(actions: seq<Action>, first: int, last: int) {
    Timed(actions) && first <= last && forall i :: 0 <= i < |actions| ==> first <= End(actions[i]) <= last
  }

  /** What a run of calls in one step has in common with these events. */
  ghost predicate Follows(l: Limiter, h: Heap, s: State, events: seq<Event>, now: int, actions: seq<Action>) {
    && Sim(l, Exec(l, h, events), RunFrom(l, s, actions), TimeOf(events, now))
    && Between(actions, now, TimeOf(events, now))
    && forall key :: Given(l, h, events, key) == Accepted(l, s, actions, key)
  }

  lemma ExecLast(l: Limiter, h: Heap, before: seq<Event>, e: Event, events: seq<Event>, key: string)
    requires events == before + [e]
    ensures Exec(l, h, events) == Step(l, Exec(l, h, before), e)
    ensures Undisturbed(l, h, events) <==> Undisturbed(l, h, before) && !Overtakes(l, Exec(l, h, before), e)
    ensures Given(l, h, events, key) == Given(l, h, before, key) + if Gives(l, Exec(l, h, before), e, key) then 1 else 0
  {
    assert events[..|before|] == before;
  }

  /** One more event, and the action it is. */
  lemma OneMoreGiven(l: Limiter, h: Heap, s: State, before: seq<Event>, e: Event, actions: seq<Action>, a: Action, key: string)
    requires Given(l, h, before, key) == Accepted(l, s, actions, key)
    requires Gives(l, Exec(l, h, before), e, key) <==> Takes(l, RunFrom(l, s, actions), a, key)
    ensures Given(l, h, before + [e], key) == Accepted(l, s, actions + [a], key)
  {
    ExecLast(l, h, before, e, before + [e], key);
    AcceptedLast(l, s, actions, a, key);
  }

  lemma OneMore(l: Limiter, h: Heap, s: State, before: seq<Event>, e: Event, now: int, actions: seq<Action>, a: Action)
    requires Follows(l, h, s, before, now, actions) && TimeOf(before, now) <= e.at == End(a)
    requires Sim(l, Step(l, Exec(l, h, before), e), Apply(l, RunFrom(l, s, actions), a), e.at)
    requires forall key :: Gives(l, Exec(l, h, before), e, key) <==> Takes(l, RunFrom(l, s, actions), a, key)
    ensures Follows(l, h, s, before + [e], now, actions + [a])
  {
    ExecLast(l, h, before, e, before + [e], "");
    Buckets.Step(l, s, actions, a);
    forall key ensures Given(l, h, before + [e], key) == Accepted(l, s, actions + [a], key) {
      OneMoreGiven(l, h, s, before, e, actions, a, key);
    }
  }

  /** One more event that is no action. */
  lemma NoneMore(l: Limiter, h: Heap, s: State, before: seq<Event>, e: Event, now: int, actions: seq<Action>)
    requires Follows(l, h, s, before, now, actions) && TimeOf(before, now) <= e.at
    requires Sim(l, Step(l, Exec(l, h, before), e), RunFrom(l, s, actions), e.at)
    requires forall key :: !Gives(l, Exec(l, h, before), e, key)
    ensures Follows(l, h, s, before + [e], now, actions)
  {
    ExecLast(l, h, before, e, before + [e], "");
    forall key ensures Given(l, h, before + [e], key) == Accepted(l, s, actions, key) {
      ExecLast(l, h, before, e, before + [e], key);
    }
  }

  /** Every undisturbed run gives as many tokens of each key as some run of calls in one step, at the same times. */
  lemma {:induction false} Simulated(l: Limiter, h: Heap, s: State, events: seq<Event>, now: int) returns (actions: seq<Action>)
    requires Sim(l, h, s, now) && InTime(events) && Undisturbed(l, h, events) && (events != [] ==> now <= events[0].at)
    ensures Follows(l, h, s, events, now, actions)
  {
    if events == [] {
      actions := [];
    } else {
      var before, e := events[..|events| - 1], events[|events| - 1];
      actions := Simulated(l, h, s, before, now);
      assert events == before + [e];
      actions := NextSimulated(l, h, s, before, e, now, actions);
    }
  }

  lemma NextSimulated(l: Limiter, h: Heap, s: State, before: seq<Event>, e: Event, now: int, actions: seq<Action>)
      returns (all: seq<Action>)
    requires Follows(l, h, s, before, now, actions) && TimeOf(before, now) <= e.at && !Overtakes(l, Exec(l, h, before), e)
    ensures Follows(l, h, s, before + [e], now, all)
  {
    var more := StepSim(l, Exec(l, h, before), RunFrom(l, s, actions), TimeOf(before, now), e);
    if more == [] {
      NoneMore(l, h, s, before, e, now, actions);
      all := actions;
    } else {
      OneMore(l, h, s, before, e, now, actions, more[0]);
      all := actions + [more[0]];
    }
  }

  lemma LastApart(a: seq<Event>, b: seq<Event>)
    requires b != []
    ensures a + b == a + b[..|b| - 1] + [b[|b| - 1]] && b == b[..|b| - 1] + [b[|b| - 1]]
  {
  }

  lemma {:induction false} ExecSplit(l: Limiter, h: Heap, a: seq<Event>, b: seq<Event>)
    ensures Exec(l, h, a + b) == Exec(l, Exec(l, h, a), b)
    ensures Undisturbed(l, h, a + b) <==> Undisturbed(l, h, a) && Undisturbed(l, Exec(l, h, a), b)
  {
    if b == [] {
      assert a + b == a;
    } else {
      var c, e := b[..|b| - 1], b[|b| - 1];
      ExecSplit(l, h, a, c);
      LastApart(a, b);
      ExecLast(l, h, a + c, e, a + b, "");
      ExecLast(l, Exec(l, h, a), c, e, b, "");
    }
  }

  lemma {:induction false} GivenSplit(l: Limiter, h: Heap, a: seq<Event>, b: seq<Event>, key: string)
    ensures Given(l, h, a + b, key) == Given(l, h, a, key) + Given(l, Exec(l, h, a), b, key)
  {
    if b == [] {
      assert a + b == a;
    } else {
      var c, e := b[..|b| - 1], b[|b| - 1];
      GivenSplit(l, h, a, c, key);
      ExecSplit(l, h, a, c);
      LastApart(a, b);
      ExecLast(l, h, a + c, e, a + b, key);
      ExecLast(l, Exec(l, h, a), c, e, b, key);
    }
  }

  lemma PartsInTime(a: seq<Event>, b: seq<Event>)
    requires InTime(a + b)
    ensures InTime(a) && InTime(b) && (a != [] && b != [] ==> a[0].at <= a[|a| - 1].at <= b[0].at)
  {
    var all := a + b;
    assert forall i :: 0 <= i < |a| ==> a[i] == all[i];
    assert forall i :: 0 <= i < |b| ==> b[i] == all[|a| + i];
  }

  /** The same for a window: what it gives is what a window of calls in one step accepts, and that one is no longer. */
  lemma SimulatedWindow(l: Limiter, before: seq<Event>, window: seq<Event>) returns (first: seq<Action>, rest: seq<Action>)
    requires InTime(before + window) && Undisturbed(l, START, before + window) && window != []
    ensures Timed(first + rest) && (rest != [] ==> Length(rest) <= Span(window))
    ensures forall key :: Given(l, Exec(l, START, before), window, key) == Accepted(l, Run(l, first), rest, key)
  {
    PartsInTime(before, window);
    ExecSplit(l, START, before, window);
    var now := if before == [] then window[0].at else before[0].at;
    first := Simulated(l, START, INIT, before, now);
    var h, s := Exec(l, START, before), RunFrom(l, INIT, first);
    assert Sim(l, h, s, window[0].at);
    rest := Simulated(l, h, s, window, window[0].at);
    JoinedTimed(first, rest, now, TimeOf(before, now), window[0].at, window[|window| - 1].at);
  }

  lemma JoinedTimed(first: seq<Action>, rest: seq<Action>, t1: int, t2: int, t3: int, t4: int)
    requires Between(first, t1, t2) && Between(rest, t3, t4) && t2 <= t3
    ensures Timed(first + rest)
  {
  }

  // ---------------------------------------------------------------------------------------------
  // Calls in one step are undisturbed calls

  /** No call is under way, and every bucket has been used. */
  ghost predicate Twin(l: Limiter, h: Heap, s: State, now: int) {
    Sim(l, h, s, now) && h.holds == map[] && h.table.Keys == s.buckets.Keys
  }

  /** An action without lag, in its parts. */
  function Parts(a: Action): seq<Event> {
    if a.Allow? then [Lookup(0, a.key, a.at), Take(0, a.at)] else [Sweep(a.at)]
  }

  function AllParts(actions: seq<Action>): seq<Event> {
    if actions == [] then [] else AllParts(actions[..|actions| - 1]) + Parts(actions[|actions| - 1])
  }

  lemma CallParts(l: Limiter, h: Heap, key: string, at: int, k: string)
    requires h.holds == map[]
    ensures var h1, events := AfterLookup(l, h, 0, key, at), [Lookup(0, key, at), Take(0, at)];
            && Exec(l, h, events) == Step(l, h1, Take(0, at)) && Undisturbed(l, h, events)
            && Given(l, h, events, k) == if Gives(l, h1, Take(0, at), k) then 1 else 0
  {
    var e1, e2 := Lookup(0, key, at), Take(0, at);
    ExecLast(l, h, [], e1, [e1], k);
    ExecLast(l, h, [e1], e2, [e1, e2], k);
  }

  lemma LookupTwin(l: Limiter, h: Heap, s: State, now: int, key: string, at: int)
    requires Twin(l, h, s, now)
    ensures var h1 := AfterLookup(l, h, 0, key, at);
            && Holds(h1, 0) && h1.holds - {0} == map[] && h1.table.Keys == s.buckets.Keys + {key}
            && AsCall(h1, s, 0, at) == Allow(key, at, 0)
  {
    assert AfterLookup(l, h, 0, key, at).holds - {0} == map[];
  }

  lemma CallTwin(l: Limiter, h: Heap, s: State, now: int, key: string, at: int)
    requires Twin(l, h, s, now) && now <= at
    ensures var h1 := AfterLookup(l, h, 0, key, at);
            && Holds(h1, 0) && Twin(l, AfterTake(l, h1, 0, at), Apply(l, s, Allow(key, at, 0)), at)
            && forall k :: Gives(l, h1, Take(0, at), k) <==> Takes(l, s, Allow(key, at, 0), k)
  {
    var h1 := AfterLookup(l, h, 0, key, at);
    LookupSim(l, h, s, now, 0, key, at);
    LookupTwin(l, h, s, now, key, at);
    FromSim(l, h1, s, key, at);
  }

  lemma FromSim(l: Limiter, h1: Heap, s: State, key: string, at: int)
    requires Sim(l, h1, s, at) && Holds(h1, 0) && h1.holds - {0} == map[] && h1.table.Keys == s.buckets.Keys + {key}
    requires AsCall(h1, s, 0, at) == Allow(key, at, 0)
    ensures Twin(l, AfterTake(l, h1, 0, at), Apply(l, s, Allow(key, at, 0)), at)
    ensures forall k :: Gives(l, h1, Take(0, at), k) <==> Takes(l, s, Allow(key, at, 0), k)
  {
    TakeSim(l, h1, s, at, 0, at);
  }

  lemma SweepTwin(l: Limiter, h: Heap, s: State, now: int, at: int, key: string)
    requires Twin(l, h, s, now) && now <= at
    ensures Twin(l, Exec(l, h, [Sweep(at)]), Apply(l, s, Cleanup(at)), at) && Undisturbed(l, h, [Sweep(at)])
    ensures Given(l, h, [Sweep(at)], key) == 0
  {
    ExecLast(l, h, [], Sweep(at), [Sweep(at)], key);
    SweepSim(l, h, s, now, at);
  }

  lemma StepTwin(l: Limiter, h: Heap, s: State, now: int, a: Action, key: string)
    requires Twin(l, h, s, now) && now <= a.at && (a.Allow? ==> a.lag == 0)
    ensures Twin(l, Exec(l, h, Parts(a)), Apply(l, s, a), a.at) && Undisturbed(l, h, Parts(a))
    ensures Given(l, h, Parts(a), key) == if Takes(l, s, a, key) then 1 else 0
  {
    if a.Allow? {
      CallParts(l, h, a.key, a.at, key);
      CallTwin(l, h, s, now, a.key, a.at);
    } else {
      SweepTwin(l, h, s, now, a.at, key);
    }
  }

  /** Actions without lag, in the order of time. */
  predicate Prompt(actions: seq<Action>) {
    Timed(actions) && forall i :: 0 <= i < |actions| && actions[i].Allow? ==> actions[i].lag == 0
  }

  lemma {:induction false} Twins(l: Limiter, actions: seq<Action>, now: int, key: string)
    requires Prompt(actions) && (actions != [] ==> now <= actions[0].at)
    ensures Twin(l, Exec(l, START, AllParts(actions)), Run(l, actions), Clock(actions, now)) && Undisturbed(l, START, AllParts(actions))
    ensures Given(l, START, AllParts(actions), key) == Accepted(l, INIT, actions, key)
  {
    if actions != [] {
      var before, a := actions[..|actions| - 1], actions[|actions| - 1];
      Twins(l, before, now, key);
      var h, s := Exec(l, START, AllParts(before)), Run(l, before);
      ExecSplit(l, START, AllParts(before), Parts(a));
      GivenSplit(l, START, AllParts(before), Parts(a), key);
      StepTwin(l, h, s, Clock(before, now), a, key);
    }
  }

  /** Events in the order of time, from one moment to another. */
  ghost predicate Lasts(events: seq<Event>, first: int, last: int) {
    events != [] && InTime(events) && events[0].at == first && events[|events| - 1].at == last
  }

  lemma {:induction false} PromptParts(actions: seq<Action>)
    requires Prompt(actions) && actions != []
    ensures Lasts(AllParts(actions), End(actions[0]), End(actions[|actions| - 1]))
  {
    var before, a := actions[..|actions| - 1], actions[|actions| - 1];
    assert Lasts(Parts(a), End(a), End(a));
    if before == [] {
      assert AllParts(before) + Parts(a) == Parts(a);
    } else {
      PromptParts(before);
      TwoInTime(AllParts(before), Parts(a));
    }
  }

  lemma TwoInTime(a: seq<Event>, b: seq<Event>)
    requires InTime(a) && InTime(b) && a != [] && b != [] && a[|a| - 1].at <= b[0].at
    ensures InTime(a + b)
  {
    assert forall i :: 0 <= i < |a| ==> a[i].at <= a[|a| - 1].at;
    assert forall i :: 0 <= i < |b| ==> b[0].at <= b[i].at;
  }

  // ---------------------------------------------------------------------------------------------
  // Calls that cleanups overtake

  /** When the j-th call looks its bucket up: each time the bucket of the one before has just become stale. */
  function Moment(l: Limiter, j: nat): int {
    if j == 0 then 0 else Moment(l, j - 1) + l.age + 1
  }

  /** Each of m calls holds a bucket of its own, of one key, and none of them is in the table. */
  ghost predicate Orphaned(l: Limiter, h: Heap, m: nat) {
    && |h.buckets| == m && h.table == map[]
    && (forall j :: 0 <= j < m ==> j in h.holds && h.holds[j] == Hold("", j) && h.buckets[j] == Bucket(l.full, Moment(l, j)))
    && (forall t :: t in h.holds ==> t < m)
  }

  lemma OneMoreOrphan(l: Limiter, h: Heap, m: nat)
    requires Orphaned(l, h, m)
    ensures Orphaned(l, Step(l, Step(l, h, Lookup(m, "", Moment(l, m))), Sweep(Moment(l, m + 1))), m + 1)
  {
    var h1 := AfterLookup(l, h, m, "", Moment(l, m));
    assert AfterSweep(l, h1, Moment(l, m + 1)).table == map[];
  }

  lemma LaterInTime(events: seq<Event>, e: Event, last: int)
    requires InTime(events) && (forall i :: 0 <= i < |events| ==> events[i].at <= last) && last <= e.at
    ensures InTime(events + [e]) && forall i :: 0 <= i < |events + [e]| ==> (events + [e])[i].at <= e.at
  {
  }

  lemma {:induction false} Abandon(l: Limiter, m: nat) returns (events: seq<Event>)
    ensures InTime(events) && (forall i :: 0 <= i < |events| ==> events[i].at <= Moment(l, m))
    ensures Orphaned(l, Exec(l, START, events), m)
  {
    if m == 0 {
      events := [];
    } else {
      var before := Abandon(l, m - 1);
      var e1, e2 := Lookup(m - 1, "", Moment(l, m - 1)), Sweep(Moment(l, m));
      OneMoreOrphan(l, Exec(l, START, before), m - 1);
      ExecLast(l, START, before, e1, before + [e1], "");
      ExecLast(l, START, before + [e1], e2, before + [e1] + [e2], "");
      LaterInTime(before, e1, Moment(l, m - 1));
      LaterInTime(before + [e1], e2, Moment(l, m - 1));
      events := before + [e1] + [e2];
    }
  }

  function TakeAll(m: nat, at: int): (events: seq<Event>)
    ensures |events| == m && forall i :: 0 <= i < m ==> events[i] == Take(i, at)
  {
    seq(m, i requires 0 <= i => Take(i, at))
  }

  /** After the first k of the calls have taken their tokens, the others still hold their buckets. */
  ghost predicate HalfTaken(l: Limiter, h: Heap, m: nat, k: nat) {
    |h.buckets| == m && forall j :: k <= j < m ==> j in h.holds && h.holds[j] == Hold("", j) && h.buckets[j] == Bucket(l.full, Moment(l, j))
  }

  lemma {:induction false} AllTaken(l: Limiter, h: Heap, m: nat, k: nat, at: int)
    requires Orphaned(l, h, m) && k <= m && forall j :: 0 <= j < m ==> l.use(Bucket(l.full, Moment(l, j)), at).ok
    ensures Given(l, h, TakeAll(k, at), "") == k && HalfTaken(l, Exec(l, h, TakeAll(k, at)), m, k)
  {
    if k > 0 {
      AllTaken(l, h, m, k - 1, at);
      assert TakeAll(k, at)[..k - 1] == TakeAll(k - 1, at);
    }
  }

  /** Calls that cleanups have overtaken each find a full bucket of their own, all of the same key. */
  lemma OvertakenCallsAllPass(l: Limiter, m: nat) returns (before: seq<Event>, window: seq<Event>)
    requires m > 0 && forall j :: 0 <= j < m ==> l.use(Bucket(l.full, Moment(l, j)), Moment(l, m)).ok
    ensures InTime(before + window) && window != [] && Span(window) == 0
    ensures Given(l, Exec(l, START, before), window, "") == m
  {
    before := Abandon(l, m);
    window := TakeAll(m, Moment(l, m));
    AllTaken(l, Exec(l, START, before), m, m, Moment(l, m));
  }

  lemma {:induction false} MomentGrows(l: Limiter, j: nat, m: nat)
    requires j <= m
    ensures Moment(l, j) + (m - j) * (l.age + 1) == Moment(l, m)
  {
    if j < m {
      MomentGrows(l, j, m - 1);
      assert (m - j) * (l.age + 1) == (m - 1 - j) * (l.age + 1) + (l.age + 1);
    }
  }

  // ---------------------------------------------------------------------------------------------
  // A limiter that never accepts

  ghost predicate AllAre(h: Heap, good: Bucket -> bool) {
    forall i :: 0 <= i < |h.buckets| ==> good(h.buckets[i])
  }

  lemma {:induction false} StayGood(l: Limiter, good: Bucket -> bool, h: Heap, events: seq<Event>, key: string)
    requires Refuses(l, good) && AllAre(h, good)
    ensures AllAre(Exec(l, h, events), good) && Given(l, h, events, key) == 0
  {
    if events != [] {
      StayGood(l, good, h, events[..|events| - 1], key);
      OneStaysGood(l, good, Exec(l, h, events[..|events| - 1]), events[|events| - 1], key);
    }
  }

  lemma OneStaysGood(l: Limiter, good: Bucket -> bool, h: Heap, e: Event, key: string)
    requires Refuses(l, good) && AllAre(h, good)
    ensures AllAre(Step(l, h, e), good) && !Gives(l, h, e, key)
  {
  }

  lemma NothingGiven(l: Limiter, good: Bucket -> bool, before: seq<Event>, window: seq<Event>, key: string)
    requires Refuses(l, good)
    ensures Given(l, Exec(l, START, before), window, key) == 0
  {
    StayGood(l, good, START, before, key);
    StayGood(l, good, Exec(l, START, before), window, key);
  }
}
