/**
 The advanced rate limiter (pkg/auth/ratelimiter_middleware.go): each call adds rate times the time since the last one,
 cut to whole tokens, up to burst. The product is taken exactly.
 */
module AdvancedLimiter {
  import opened Buckets
  import Calls = BucketCalls

  const TEN_MINUTES: nat := 600 * SECOND

  /** int(elapsed.Seconds() * rate), cut toward zero. */
  function Added(rate: int, elapsed: int): int {
    var p := elapsed * rate;
    if p >= 0 then p / SECOND else -(-p / SECOND)
  }

  function Topped(b: Bucket, more: int, burst: int, now: int): Bucket {
    Bucket(Min(b.tokens + more, burst), now)
  }

  function Taken(b: Bucket): Use {
    if b.tokens > 0 then Use(b.(tokens := b.tokens - 1), true) else Use(b, false)
  }

  function Consume(b: Bucket, rate: int, burst: int, now: int): Use {
    Taken(Topped(b, Added(rate, now - b.last), burst, now))
  }

  function Rules(rate: int, burst: int): Limiter {
    Limiter(burst, TEN_MINUTES, (b, now) => Consume(b, rate, burst, now))
  }

  class Limiting {
    const rate: int
    const burst: int
    var buckets: map<string, Bucket>

    constructor (rate: int, burst: int)
      ensures this.rate == rate && this.burst == burst && buckets == map[]
    {
      this.rate, this.burst, buckets := rate, burst, map[];
    }

    /** at and at + lag are the readings of the clock. */
    method Allow(key: string, at: int, lag: nat) returns (ok: bool)
      modifies this
      ensures forall answers :: Apply(Rules(rate, burst), State(old(buckets), answers), Buckets.Allow(key, at, lag))
                                == State(buckets, answers + [ok])
    {
      if key !in buckets {
        buckets := buckets[key := Bucket(burst, at)];
      }
      var b := buckets[key];
      var now := at + lag;
      b := b.(tokens := b.tokens + Added(rate, now - b.last));
      if b.tokens > burst {
        b := b.(tokens := burst);
      }
      b := b.(last := now);
      ok := b.tokens > 0;
      if ok {
        b := b.(tokens := b.tokens - 1);
      }
      buckets := buckets[key := b];
    }

    method CleanupStaleBuckets(now: int)
      modifies this
      ensures buckets == Kept(Rules(rate, burst), old(buckets), now)
    {
      var threshold := now - TEN_MINUTES;
      var todo := buckets.Keys;
      ghost var start := buckets;
      while todo != {}
        invariant todo <= start.Keys
        invariant buckets == map k | k in start && (k in todo || start[k].last >= threshold) :: start[k]
        decreases |todo|
      {
        var key :| key in todo;
        if buckets[key].last < threshold {
          buckets := buckets - {key};
        }
        todo := todo - {key};
      }
    }
  }

  // ---------------------------------------------------------------------------------------------
  // How many calls of a key are accepted

  /** Cut piece by piece, a product gives no more than cut once. */
  lemma AddedParts(rate: nat, x: nat, y: nat)
    ensures Added(rate, x) + Added(rate, y) <= Added(rate, x + y)
  {
  }

  lemma AddedGrows(rate: nat, x: nat, y: nat)
    requires x <= y
    ensures 0 <= Added(rate, x) <= Added(rate, y)
  {
    AddedParts(rate, x, y - x);
    assert (y - x) * rate >= 0;
  }

  lemma AddedAtMost(rate: int, x: nat)
    ensures Added(rate, x) <= Added(Max(rate, 0), x)
  {
  }

  /** What a call gives and leaves is no more than what was there and what it added, and no more than burst. */
  lemma CallGives(b: Bucket, burst: int, more: int, now: int)
    ensures var u := Taken(Topped(b, more, burst, now));
            var given := if u.ok then 1 else 0;
            && given + Max(u.bucket.tokens, 0) <= Max(b.tokens, 0) + Max(more, 0)
            && given + Max(u.bucket.tokens, 0) <= Max(burst, 0)
  {
  }

  /** Ten minutes and a nanosecond fill a bucket. */
  predicate FillsInTime(rate: int, burst: int) {
    burst <= 0 || Added(rate, TEN_MINUTES + 1) >= burst
  }

  /**
   Calls accepted in a window from first to now, and tokens left, fit burst and what the rate adds: either the key's
   bucket is older than the window and nothing was accepted, or the bucket's own last time bounds both. Without a
   bucket there is room for a new one.
   */
  ghost predicate Within(rate: int, burst: int, s: State, key: string, accepted: nat, first: int, now: int) {
    var r := Max(rate, 0);
    && first <= now
    && if key !in s.buckets then accepted <= Added(r, now - first)
       else
         var b := s.buckets[key];
         && b.last <= now
         && ((accepted == 0 && b.last <= first)
             || (first <= b.last && accepted + Max(b.tokens, 0) <= Max(burst, 0) + Added(r, b.last - first)))
  }

  lemma UseWithin(rate: int, burst: int, s: State, a: Action, accepted: nat, first: int, now: int)
    requires a.Allow? && a.key in s.buckets && Within(rate, burst, s, a.key, accepted, first, now) && now <= End(a)
    ensures Within(rate, burst, Apply(Rules(rate, burst), s, a), a.key,
                   accepted + (if Takes(Rules(rate, burst), s, a, a.key) then 1 else 0), first, End(a))
  {
    var b, r := s.buckets[a.key], Max(rate, 0);
    CallGives(b, burst, Added(rate, End(a) - b.last), End(a));
    AddedGrows(r, 0, End(a) - first);
    if b.last >= first {
      AddedAtMost(rate, End(a) - b.last);
      AddedGrows(r, 0, End(a) - b.last);
      AddedParts(r, b.last - first, End(a) - b.last);
    }
  }

  lemma MakeWithin(rate: int, burst: int, s: State, a: Action, accepted: nat, first: int, now: int)
    requires a.Allow? && a.key !in s.buckets && Within(rate, burst, s, a.key, accepted, first, now) && now <= End(a)
    ensures Within(rate, burst, Apply(Rules(rate, burst), s, a), a.key,
                   accepted + (if Takes(Rules(rate, burst), s, a, a.key) then 1 else 0), first, End(a))
  {
    CallGives(Bucket(burst, a.at), burst, Added(rate, a.lag), End(a));
    AddedGrows(Max(rate, 0), now - first, End(a) - first);
  }

  lemma SweepWithin(rate: int, burst: int, s: State, a: Action, key: string, accepted: nat, first: int, now: int)
    requires FillsInTime(rate, burst) && a.Cleanup? && Within(rate, burst, s, key, accepted, first, now) && now <= a.at
    ensures Within(rate, burst, Apply(Rules(rate, burst), s, a), key, accepted, first, a.at)
  {
    var r := Max(rate, 0);
    AddedGrows(r, now - first, a.at - first);
    if key in s.buckets && s.buckets[key].last < a.at - TEN_MINUTES && s.buckets[key].last >= first {
      var last := s.buckets[key].last;
      AddedAtMost(rate, TEN_MINUTES + 1);
      AddedGrows(r, TEN_MINUTES + 1, a.at - last);
      AddedParts(r, last - first, a.at - last);
    }
  }

  lemma StepWithin(rate: int, burst: int, s: State, a: Action, key: string, accepted: nat, first: int, now: int)
    requires FillsInTime(rate, burst) && Within(rate, burst, s, key, accepted, first, now) && now <= End(a)
    ensures Within(rate, burst, Apply(Rules(rate, burst), s, a), key,
                   accepted + (if Takes(Rules(rate, burst), s, a, key) then 1 else 0), first, End(a))
  {
    if a.Cleanup? {
      SweepWithin(rate, burst, s, a, key, accepted, first, now);
    } else if a.key != key {
      AddedGrows(Max(rate, 0), now - first, End(a) - first);
    } else if key in s.buckets {
      UseWithin(rate, burst, s, a, accepted, first, now);
    } else {
      MakeWithin(rate, burst, s, a, accepted, first, now);
    }
  }

  lemma {:induction false} WindowWithin(rate: int, burst: int, s: State, window: seq<Action>, key: string, first: int)
    requires FillsInTime(rate, burst) && Timed(window) && AllGood(s.buckets, AnyBucket(), first)
    requires forall i :: 0 <= i < |window| ==> first <= End(window[i])
    ensures Within(rate, burst, RunFrom(Rules(rate, burst), s, window), key, Accepted(Rules(rate, burst), s, window, key), first,
                   Clock(window, first))
  {
    if window == [] {
      AddedGrows(Max(rate, 0), 0, 0);
    } else {
      var before, a := window[..|window| - 1], window[|window| - 1];
      var l := Rules(rate, burst);
      WindowWithin(rate, burst, s, before, key, first);
      StepWithin(rate, burst, RunFrom(l, s, before), a, key, Accepted(l, s, before, key), first, Clock(before, first));
    }
  }

  function AnyBucket(): Bucket -> bool {
    (b: Bucket) => true
  }

  lemma RulesKeep(rate: int, burst: int)
    ensures Keeps(Rules(rate, burst), AnyBucket())
  {
  }

  /** The promised bound, for one window of a run. */
  predicate Bounded(rate: int, burst: int, before: seq<Action>, window: seq<Action>, key: string)
    requires window != []
  {
    Accepted(Rules(rate, burst), Run(Rules(rate, burst), before), window, key)
    <= Max(burst, 0) + Max(rate, 0) * Length(window) / SECOND
  }

  /**
   In every window of every run, with cleanups and with calls of any lag, at most burst calls of a key and what the rate
   adds over the window are accepted, if a bucket fills up before it is removed.
   */
  lemma BoundInWindow(rate: int, burst: int, before: seq<Action>, window: seq<Action>, key: string)
    requires FillsInTime(rate, burst) && Timed(before + window) && window != []
    ensures Bounded(rate, burst, before, window, key)
  {
    var first, now := End(window[0]), End(window[|window| - 1]);
    WindowTimed(before, window);
    RulesKeep(rate, burst);
    RunGood(Rules(rate, burst), AnyBucket(), before, first);
    WindowWithin(rate, burst, Run(Rules(rate, burst), before), window, key, first);
    FinalBound(rate, burst, RunFrom(Rules(rate, burst), Run(Rules(rate, burst), before), window), key,
               Accepted(Rules(rate, burst), Run(Rules(rate, burst), before), window, key), first, now);
  }

  lemma FinalBound(rate: int, burst: int, s: State, key: string, accepted: nat, first: int, now: int)
    requires Within(rate, burst, s, key, accepted, first, now)
    ensures accepted <= Max(burst, 0) + Max(rate, 0) * (now - first) / SECOND
  {
    var r := Max(rate, 0);
    AddedGrows(r, 0, now - first);
    if key in s.buckets && s.buckets[key].last >= first { AddedGrows(r, s.buckets[key].last - first, now - first); }
    assert (now - first) * r >= 0;
  }

  /** Each call follows the one before so soon that rate times the gap is below one token. */
  predicate Hasty(start: int, rate: nat, calls: seq<Action>) {
    calls == [] ||
    var before, now := calls[..|calls| - 1], End(calls[|calls| - 1]);
    Hasty(start, rate, before) && Clock(before, start) <= now && (now - Clock(before, start)) * rate < SECOND
  }

  lemma HastyCall(b: Bucket, rate: nat, burst: int, now: int)
    requires 0 <= b.tokens <= burst && b.last <= now && (now - b.last) * rate < SECOND
    ensures Consume(b, rate, burst, now) == Use(Bucket(Max(b.tokens - 1, 0), now), b.tokens > 0)
  {
  }

  /** A caller that hurries gets the tokens that are there and never another, for however long it goes on. */
  lemma {:induction false} HastyStarves(rate: nat, burst: int, s: State, b: Bucket, calls: seq<Action>, key: string)
    requires key in s.buckets && s.buckets[key] == b && 0 <= b.tokens <= burst
    requires Hasty(b.last, rate, calls) && forall i :: 0 <= i < |calls| ==> IsCall(calls[i], key)
    ensures Accepted(Rules(rate, burst), s, calls, key) == Min(b.tokens, |calls|)
    ensures var s' := RunFrom(Rules(rate, burst), s, calls);
            key in s'.buckets && s'.buckets[key] == Bucket(b.tokens - Min(b.tokens, |calls|), Clock(calls, b.last))
  {
    if calls != [] {
      var before := calls[..|calls| - 1];
      HastyStarves(rate, burst, s, b, before, key);
      HastyCall(RunFrom(Rules(rate, burst), s, before).buckets[key], rate, burst, End(calls[|calls| - 1]));
    }
  }

  // What comes back over a run of calls of one key

  /** Calls in the order of time, from start on. */
  predicate InOrder(start: int, calls: seq<Action>) {
    calls == [] ||
    var before := calls[..|calls| - 1];
    InOrder(start, before) && Clock(before, start) <= End(calls[|calls| - 1])
  }

  /** Whole tokens that the gaps are worth, each gap by itself. */
  function Gains(rate: nat, start: int, calls: seq<Action>): int {
    if calls == [] then 0
    else
      var before, now := calls[..|calls| - 1], End(calls[|calls| - 1]);
      Gains(rate, start, before) + Added(rate, now - Clock(before, start))
  }

  /** What cutting each gap to whole tokens throws away, in fractions of a token. */
  function Fractions(rate: nat, start: int, calls: seq<Action>): nat {
    if calls == [] then 0
    else
      var before, now := calls[..|calls| - 1], End(calls[|calls| - 1]);
      Fractions(rate, start, before) + (now - Clock(before, start)) * rate % SECOND
  }

  lemma OneGap(rate: nat, past: nat, gap: nat)
    ensures (past + gap) * rate == past * rate + gap * rate
    ensures gap * rate == Added(rate, gap) * SECOND + gap * rate % SECOND
  {
    assert gap * rate >= 0;
  }

  lemma {:induction false} GainsAndFractions(rate: nat, start: int, calls: seq<Action>)
    requires InOrder(start, calls)
    ensures Clock(calls, start) >= start
    ensures Gains(rate, start, calls) * SECOND + Fractions(rate, start, calls) == (Clock(calls, start) - start) * rate
  {
    if calls != [] {
      var before, now := calls[..|calls| - 1], End(calls[|calls| - 1]);
      GainsAndFractions(rate, start, before);
      OneGap(rate, Clock(before, start) - start, now - Clock(before, start));
    }
  }

  /** Gap by gap the gains fall short of the whole time's worth by the whole tokens among the fractions. */
  lemma CutExactly(rate: nat, start: int, calls: seq<Action>)
    requires InOrder(start, calls)
    ensures Gains(rate, start, calls) + Fractions(rate, start, calls) / SECOND == Added(rate, Clock(calls, start) - start)
  {
    GainsAndFractions(rate, start, calls);
    var worth := Worth(rate, Clock(calls, start) - start);
    Quotient(worth, Gains(rate, start, calls), Fractions(rate, start, calls));
  }

  lemma Worth(rate: nat, elapsed: nat) returns (worth: nat)
    ensures worth == elapsed * rate && Added(rate, elapsed) == worth / SECOND
  {
    assert elapsed * rate >= 0;
    worth := elapsed * rate;
  }

  lemma Quotient(p: nat, whole: int, parts: nat)
    requires p == whole * SECOND + parts
    ensures p / SECOND == whole + parts / SECOND
  {
  }

  /** Tokens that did not fit into the bucket. */
  function Spilled(rate: nat, burst: int, s: State, calls: seq<Action>, key: string): nat {
    if calls == [] then 0
    else
      var before, a := calls[..|calls| - 1], calls[|calls| - 1];
      var b := BucketOf(Rules(rate, burst), RunFrom(Rules(rate, burst), s, before).buckets, key, a.at);
      Spilled(rate, burst, s, before, key) + Max(b.tokens + Added(rate, End(a) - b.last) - burst, 0)
  }

  lemma OneUse(b: Bucket, rate: nat, burst: int, now: int)
    requires 0 <= b.tokens <= burst && b.last <= now
    ensures var u, more := Consume(b, rate, burst, now), Added(rate, now - b.last);
            && more >= 0 && 0 <= u.bucket.tokens <= burst && u.bucket.last == now
            && (if u.ok then 1 else 0) + u.bucket.tokens + Max(b.tokens + more - burst, 0) == b.tokens + more
  {
    assert (now - b.last) * rate >= 0;
  }

  /** A bucket that is there, within its bounds, and calls of its key in order. */
  ghost predicate CallsOf(burst: int, s: State, b: Bucket, calls: seq<Action>, key: string) {
    && key in s.buckets && s.buckets[key] == b && 0 <= b.tokens <= burst
    && InOrder(b.last, calls) && forall i :: 0 <= i < |calls| ==> IsCall(calls[i], key)
  }

  /** Tokens that a run of calls takes, leaves in the bucket and spills. */
  function Had(rate: nat, burst: int, s: State, calls: seq<Action>, key: string): int {
    Accepted(Rules(rate, burst), s, calls, key)
    + BucketOf(Rules(rate, burst), RunFrom(Rules(rate, burst), s, calls).buckets, key, 0).tokens
    + Spilled(rate, burst, s, calls, key)
  }

  lemma {:induction false} Conserved(rate: nat, burst: int, s: State, b: Bucket, calls: seq<Action>, key: string)
    requires CallsOf(burst, s, b, calls, key)
    ensures var s' := RunFrom(Rules(rate, burst), s, calls);
            && key in s'.buckets && 0 <= s'.buckets[key].tokens <= burst && s'.buckets[key].last == Clock(calls, b.last)
            && Had(rate, burst, s, calls, key) == b.tokens + Gains(rate, b.last, calls)
  {
    if calls != [] {
      var before, a := calls[..|calls| - 1], calls[|calls| - 1];
      var s' := RunFrom(Rules(rate, burst), s, before);
      Conserved(rate, burst, s, b, before, key);
      OneUse(s'.buckets[key], rate, burst, End(a));
      assert Spilled(rate, burst, s, calls, key) == Spilled(rate, burst, s, before, key)
             + Max(s'.buckets[key].tokens + Added(rate, End(a) - s'.buckets[key].last) - burst, 0);
    }
  }

  /**
   Where every token goes: those a run of calls takes, leaves in the bucket and spills, and the whole tokens among the
   fractions that the calls cut off, are those that were there and what the rate adds over the whole time.
   */
  lemma TokensAccounted(rate: nat, burst: int, s: State, b: Bucket, calls: seq<Action>, key: string)
    requires CallsOf(burst, s, b, calls, key)
    ensures Had(rate, burst, s, calls, key) + Fractions(rate, b.last, calls) / SECOND
            == b.tokens + Added(rate, Clock(calls, b.last) - b.last)
  {
    Conserved(rate, burst, s, b, calls, key);
    CutExactly(rate, b.last, calls);
  }

  /** All that the rate adds over the time of the calls can be had, or has spilled. */
  ghost predicate BackAtRate(rate: nat, burst: int, s: State, b: Bucket, calls: seq<Action>, key: string) {
    Had(rate, burst, s, calls, key) == b.tokens + Added(rate, Clock(calls, b.last) - b.last)
  }

  /** Tokens come back at the rate exactly if the fractions that the calls cut off are together worth less than one. */
  lemma BackAtRateExactly(rate: nat, burst: int, s: State, b: Bucket, calls: seq<Action>, key: string)
    requires CallsOf(burst, s, b, calls, key)
    ensures BackAtRate(rate, burst, s, b, calls, key) <==> Fractions(rate, b.last, calls) < SECOND
  {
    TokensAccounted(rate, burst, s, b, calls, key);
  }

  /** From an empty bucket a run of calls gets nothing exactly if each follows the one before within a token's worth. */
  lemma {:induction false} StarvesExactly(rate: nat, burst: int, s: State, b: Bucket, calls: seq<Action>, key: string)
    requires CallsOf(burst, s, b, calls, key) && b.tokens == 0 < burst
    ensures Accepted(Rules(rate, burst), s, calls, key) == 0 <==> Hasty(b.last, rate, calls)
  {
    if calls != [] {
      var before, a := calls[..|calls| - 1], calls[|calls| - 1];
      StarvesExactly(rate, burst, s, b, before, key);
      if Hasty(b.last, rate, before) {
        HastyStarves(rate, burst, s, b, before, key);
        WorthAToken(RunFrom(Rules(rate, burst), s, before).buckets[key], rate, burst, End(a));
      }
    }
  }

  lemma WorthAToken(b: Bucket, rate: nat, burst: int, now: int)
    requires b.tokens == 0 < burst && b.last <= now
    ensures Consume(b, rate, burst, now).ok <==> (now - b.last) * rate >= SECOND
  {
  }

  // ---------------------------------------------------------------------------------------------
  // Cleaning up

  function InBounds(burst: int): Bucket -> bool {
    (b: Bucket) => 0 <= b.tokens <= burst
  }

  function NoTokens(): Bucket -> bool {
    (b: Bucket) => b.tokens <= 0
  }

  function Any(): nat -> bool {
    (lag: nat) => true
  }

  lemma StaleIsFull(b: Bucket, rate: int, burst: int, at: int, lag: nat)
    requires burst > 0 && FillsInTime(rate, burst) && 0 <= b.tokens <= burst && b.last < at - TEN_MINUTES
    ensures Consume(b, rate, burst, at + lag) == Consume(Bucket(burst, at), rate, burst, at + lag)
  {
    AddedGrows(rate, TEN_MINUTES + 1, at + lag - b.last);
    AddedGrows(rate, 0, lag);
  }

  lemma RulesForget(rate: int, burst: int)
    requires burst > 0 && FillsInTime(rate, burst)
    ensures Keeps(Rules(rate, burst), InBounds(burst)) && Forgets(Rules(rate, burst), InBounds(burst), Any())
  {
    var l, good := Rules(rate, burst), InBounds(burst);
    forall b, now | good(b) && b.last <= now ensures good(l.use(b, now).bucket) && l.use(b, now).bucket.last <= now {
      AddedGrows(rate, 0, now - b.last);
    }
    forall b, at, lag | good(b) && Any()(lag) && b.last < at - l.age ensures AsNew(l, b, at, lag) {
      StaleIsFull(b, rate, burst, at, lag);
    }
  }

  lemma CleanupUnobservable(rate: int, burst: int, actions: seq<Action>)
    requires FillsInTime(rate, burst) && Ordered(actions)
    ensures Run(Rules(rate, burst), actions).answers == Run(Rules(rate, burst), WithoutCleanups(actions)).answers
  {
    if burst > 0 {
      RulesForget(rate, burst);
      CleanupInvisible(Rules(rate, burst), InBounds(burst), Any(), actions);
    } else {
      RefusalInvisible(Rules(rate, burst), NoTokens(), actions);
    }
  }

  // A run that shows a cleanup of a bucket that had not filled up

  const SWEEP: nat := TEN_MINUTES + 1

  lemma InstantSpends(rate: int, burst: int, b: Bucket)
    requires b.tokens <= burst
    ensures Spends(Rules(rate, burst), b, b.last)
  {
    forall tokens | 0 < tokens <= b.tokens
      ensures Consume(Bucket(tokens, b.last), rate, burst, b.last) == Use(Bucket(tokens - 1, b.last), true)
    {
      assert Added(rate, 0) == 0;
    }
  }

  /** Calls at one instant, the first of which leaves this bucket. */
  lemma Instant(rate: int, burst: int, s: State, at: int, tokens: nat, n: nat)
    requires tokens < burst && n <= tokens
    requires Consume(BucketOf(Rules(rate, burst), s.buckets, "", at), rate, burst, at) == Use(Bucket(tokens, at), true)
    ensures var s' := RunFrom(Rules(rate, burst), s, Repeat(Buckets.Allow("", at, 0), n + 1));
            && "" in s'.buckets && s'.buckets[""] == Bucket(tokens - n, at)
            && s'.answers == s.answers + [true] + Trues(n)
    ensures Accepted(Rules(rate, burst), s, Repeat(Buckets.Allow("", at, 0), n + 1), "") == n + 1
  {
    var l, a := Rules(rate, burst), Buckets.Allow("", at, 0);
    InstantSpends(rate, burst, Bucket(tokens, at));
    SpendMany(l, Apply(l, s, a), Bucket(tokens, at), a, n);
    FirstThen(l, s, a, Repeat(a, n), "");
    assert Repeat(a, n + 1) == [a] + Repeat(a, n);
  }

  /** Tokens the old bucket has gained by the sweep. */
  function Gained(rate: int): nat {
    Max(Added(rate, SWEEP), 0)
  }

  /** The old bucket at the sweep gives its gain and no more. */
  lemma OldBucket(rate: int, burst: int)
    requires !FillsInTime(rate, burst)
    ensures Gained(rate) == 0 ==> !Consume(Bucket(0, 0), rate, burst, SWEEP).ok
    ensures Gained(rate) > 0 ==>
              Gained(rate) < burst && Consume(Bucket(0, 0), rate, burst, SWEEP) == Use(Bucket(Gained(rate) - 1, SWEEP), true)
    ensures !Consume(Bucket(0, SWEEP), rate, burst, SWEEP).ok
  {
  }

  lemma Drained(rate: int, burst: int, s: State)
    requires !FillsInTime(rate, burst) && "" in s.buckets && s.buckets[""] == Bucket(0, 0)
    ensures var s' := RunFrom(Rules(rate, burst), s, Repeat(Buckets.Allow("", SWEEP, 0), Gained(rate)));
            && |s'.answers| == |s.answers| + Gained(rate)
            && "" in s'.buckets && !Consume(s'.buckets[""], rate, burst, SWEEP).ok
  {
    OldBucket(rate, burst);
    var k := Gained(rate);
    if k > 0 {
      Instant(rate, burst, s, SWEEP, k - 1, k - 1);
    } else {
      assert Repeat(Buckets.Allow("", SWEEP, 0), k) == [];
    }
  }

  lemma LastRefused(rate: int, burst: int, s: State)
    requires !FillsInTime(rate, burst) && "" in s.buckets && s.buckets[""] == Bucket(0, 0)
    ensures var answers := RunFrom(Rules(rate, burst), s, After(rate)).answers;
            |answers| == |s.answers| + Gained(rate) + 1 && !answers[|answers| - 1]
  {
    var a, k := Buckets.Allow("", SWEEP, 0), Gained(rate);
    Drained(rate, burst, s);
    assert Repeat(a, k + 1) == Repeat(a, k) + [a];
    Step(Rules(rate, burst), s, Repeat(a, k), a);
  }

  function First(burst: nat): seq<Action> {
    Repeat(Buckets.Allow("", 0, 0), burst)
  }

  function After(rate: int): seq<Action> {
    Repeat(Buckets.Allow("", SWEEP, 0), Gained(rate) + 1)
  }

  /** All the tokens at time 0; after the cleanup, as many calls as the old bucket has gained tokens, and one more. */
  function Telltale(rate: int, burst: nat): seq<Action> {
    First(burst) + [Buckets.Cleanup(SWEEP)] + After(rate)
  }

  lemma FreshBucket(rate: int, burst: int, at: int)
    requires burst > 0
    ensures Consume(Bucket(burst, at), rate, burst, at) == Use(Bucket(burst - 1, at), true)
  {
  }

  lemma Emptied(rate: int, burst: nat)
    requires burst > 0
    ensures var s := Run(Rules(rate, burst), First(burst)); "" in s.buckets && s.buckets[""] == Bucket(0, 0)
    ensures Accepted(Rules(rate, burst), INIT, First(burst), "") == burst
  {
    FreshBucket(rate, burst, 0);
    Instant(rate, burst, INIT, 0, burst - 1, burst - 1);
  }

  lemma LastAccepted(rate: int, burst: int, s: State)
    requires !FillsInTime(rate, burst) && "" !in s.buckets
    ensures var answers := RunFrom(Rules(rate, burst), s, After(rate)).answers;
            |answers| == |s.answers| + Gained(rate) + 1 && answers[|answers| - 1]
  {
    FreshBucket(rate, burst, SWEEP);
    Instant(rate, burst, s, SWEEP, burst - 1, Gained(rate));
    assert (s.answers + [true] + Trues(Gained(rate)))[|s.answers| + Gained(rate)];
  }

  lemma SweepShows(rate: int, burst: nat)
    requires !FillsInTime(rate, burst)
    ensures Run(Rules(rate, burst), Telltale(rate, burst)).answers != Run(Rules(rate, burst), WithoutCleanups(Telltale(rate, burst))).answers
  {
    var l, s := Rules(rate, burst), Run(Rules(rate, burst), First(burst));
    WithAndWithout(l, First(burst), Buckets.Cleanup(SWEEP), After(rate));
    Emptied(rate, burst);
    LastRefused(rate, burst, s);
    LastAccepted(rate, burst, Apply(l, s, Buckets.Cleanup(SWEEP)));
  }

  lemma TelltaleOrdered(rate: int, burst: nat)
    ensures Ordered(Telltale(rate, burst))
  {
  }

  /** Cleanups change no answer of any run exactly if ten minutes and a nanosecond fill a bucket. */
  lemma CleanupExactly(rate: int, burst: int)
    ensures (forall actions :: Ordered(actions) ==>
               Run(Rules(rate, burst), actions).answers == Run(Rules(rate, burst), WithoutCleanups(actions)).answers)
            <==> FillsInTime(rate, burst)
  {
    if FillsInTime(rate, burst) {
      forall actions | Ordered(actions)
        ensures Run(Rules(rate, burst), actions).answers == Run(Rules(rate, burst), WithoutCleanups(actions)).answers
      {
        CleanupUnobservable(rate, burst, actions);
      }
    } else {
      TelltaleOrdered(rate, burst);
      SweepShows(rate, burst);
    }
  }

  /** All the tokens at time 0 and, past the cleanup, all the tokens of a new bucket. */
  function Doubled(burst: nat): seq<Action> {
    First(burst) + ([Buckets.Cleanup(SWEEP)] + Repeat(Buckets.Allow("", SWEEP, 0), burst))
  }

  lemma DoubledTimed(burst: nat)
    requires burst > 0
    ensures Timed(Doubled(burst)) && Doubled(burst) != [] && Length(Doubled(burst)) == SWEEP
  {
  }

  /** Past the cleanup a whole new bucket is spent. */
  lemma SecondBucket(rate: int, burst: nat, s: State)
    requires burst > 0 && "" in s.buckets && s.buckets[""] == Bucket(0, 0)
    ensures Accepted(Rules(rate, burst), s, [Buckets.Cleanup(SWEEP)] + Repeat(Buckets.Allow("", SWEEP, 0), burst), "") == burst
  {
    var l, sweep, calls := Rules(rate, burst), Buckets.Cleanup(SWEEP), Repeat(Buckets.Allow("", SWEEP, 0), burst);
    FirstThen(l, s, sweep, calls, "");
    FreshBucket(rate, burst, SWEEP);
    Instant(rate, burst, Apply(l, s, sweep), SWEEP, burst - 1, burst - 1);
  }

  lemma DoubledAccepted(rate: int, burst: nat)
    requires burst > 0
    ensures Accepted(Rules(rate, burst), INIT, Doubled(burst), "") == 2 * burst
  {
    Emptied(rate, burst);
    SecondBucket(rate, burst, Run(Rules(rate, burst), First(burst)));
    AcceptedSplit(Rules(rate, burst), INIT, First(burst), [Buckets.Cleanup(SWEEP)] + Repeat(Buckets.Allow("", SWEEP, 0), burst), "");
  }

  lemma TooMany(rate: int, burst: nat)
    requires !FillsInTime(rate, burst)
    ensures 2 * burst > Max(burst, 0) + Max(rate, 0) * SWEEP / SECOND
  {
  }

  /** A bucket removed before it has filled up lets twice burst calls through, more than the bound. */
  lemma CleanupBreaksBound(rate: int, burst: nat)
    requires !FillsInTime(rate, burst)
    ensures Timed([] + Doubled(burst)) && Doubled(burst) != []
    ensures Accepted(Rules(rate, burst), Run(Rules(rate, burst), []), Doubled(burst), "") == 2 * burst
    ensures !Bounded(rate, burst, [], Doubled(burst), "")
  {
    assert [] + Doubled(burst) == Doubled(burst);
    DoubledTimed(burst);
    DoubledAccepted(rate, burst);
    TooMany(rate, burst);
  }

  /** Every window of every run keeps the bound exactly if ten minutes and a nanosecond fill a bucket. */
  lemma BoundExactly(rate: int, burst: int)
    ensures (forall before, window, key ::
               Timed(before + window) && window != [] ==> Bounded(rate, burst, before, window, key))
            <==> FillsInTime(rate, burst)
  {
    if FillsInTime(rate, burst) {
      forall before, window, key | Timed(before + window) && window != [] ensures Bounded(rate, burst, before, window, key) {
        BoundInWindow(rate, burst, before, window, key);
      }
    } else {
      CleanupBreaksBound(rate, burst);
    }
  }

  // ---------------------------------------------------------------------------------------------
  // Calls broken up where they let go of the limiter's mutex

  /** The promised bound, for one window of a run of such calls. */
  predicate CallsBounded(rate: int, burst: int, before: seq<Calls.Event>, window: seq<Calls.Event>, key: string)
    requires window != []
  {
    Calls.Given(Rules(rate, burst), Calls.Exec(Rules(rate, burst), Calls.START, before), window, key)
    <= Max(burst, 0) + Max(rate, 0) * Calls.Span(window) / SECOND
  }

  ghost predicate WindowOf(before: seq<Calls.Event>, window: seq<Calls.Event>) {
    Calls.InTime(before + window) && window != []
  }

  lemma LongerWindow(rate: nat, x: nat, y: nat)
    requires x <= y
    ensures 0 <= rate * x / SECOND <= rate * y / SECOND
  {
    AddedGrows(rate, x, y);
    assert x * rate >= 0 && y * rate >= 0;
  }

  lemma SpanNotNegative(before: seq<Calls.Event>, window: seq<Calls.Event>)
    requires WindowOf(before, window)
    ensures Calls.Span(window) >= 0
  {
    Calls.PartsInTime(before, window);
  }

  /** The bound holds on every run in which no cleanup overtakes a call, if a bucket fills up before it is removed. */
  lemma UndisturbedBound(rate: int, burst: int, before: seq<Calls.Event>, window: seq<Calls.Event>, key: string)
    requires FillsInTime(rate, burst) && WindowOf(before, window)
    requires Calls.Undisturbed(Rules(rate, burst), Calls.START, before + window)
    ensures CallsBounded(rate, burst, before, window, key)
  {
    var first, rest := Calls.SimulatedWindow(Rules(rate, burst), before, window);
    SpanNotNegative(before, window);
    if rest == [] {
      LongerWindow(Max(rate, 0), 0, Calls.Span(window));
    } else {
      BoundInWindow(rate, burst, first, rest, key);
      WindowTimed(first, rest);
      LongerWindow(Max(rate, 0), Length(rest), Calls.Span(window));
    }
  }

  /** The run that breaks the bound across a cleanup, call by call: nothing overtakes a call in it. */
  lemma UndisturbedBreak(rate: int, burst: nat) returns (window: seq<Calls.Event>)
    requires !FillsInTime(rate, burst)
    ensures WindowOf([], window) && Calls.Undisturbed(Rules(rate, burst), Calls.START, [] + window)
    ensures !CallsBounded(rate, burst, [], window, "")
  {
    var actions := Doubled(burst);
    window := Calls.AllParts(actions);
    assert [] + window == window;
    DoubledTimed(burst);
    DoubledAccepted(rate, burst);
    TooMany(rate, burst);
    Calls.Twins(Rules(rate, burst), actions, 0, "");
    Calls.PromptParts(actions);
  }

  /** Without overtaking, the bound holds on every run exactly if ten minutes and a nanosecond fill a bucket. */
  lemma UndisturbedExactly(rate: int, burst: int)
    ensures (forall before, window, key ::
               WindowOf(before, window) && Calls.Undisturbed(Rules(rate, burst), Calls.START, before + window)
               ==> CallsBounded(rate, burst, before, window, key))
            <==> FillsInTime(rate, burst)
  {
    if FillsInTime(rate, burst) {
      forall before, window, key | WindowOf(before, window) && Calls.Undisturbed(Rules(rate, burst), Calls.START, before + window)
        ensures CallsBounded(rate, burst, before, window, key)
      {
        UndisturbedBound(rate, burst, before, window, key);
      }
    } else {
      var window := UndisturbedBreak(rate, burst);
    }
  }

  /** One call more than burst at one instant, each overtaken by a cleanup. */
  lemma OvertakenBreak(rate: int, burst: nat) returns (before: seq<Calls.Event>, window: seq<Calls.Event>)
    requires burst > 0 && FillsInTime(rate, burst)
    ensures WindowOf(before, window) && !CallsBounded(rate, burst, before, window, "")
  {
    var l, m := Rules(rate, burst), burst + 1;
    forall j | 0 <= j < m ensures l.use(Bucket(l.full, Calls.Moment(l, j)), Calls.Moment(l, m)).ok {
      Calls.MomentGrows(l, j, m);
      StillFull(rate, burst, Calls.Moment(l, j), Calls.Moment(l, m));
    }
    before, window := Calls.OvertakenCallsAllPass(l, m);
  }

  lemma StillFull(rate: int, burst: nat, last: int, now: int)
    requires burst > 0 && FillsInTime(rate, burst) && last <= now
    ensures Consume(Bucket(burst, last), rate, burst, now).ok
  {
    assert rate >= 0;
    AddedGrows(rate, 0, now - last);
  }

  lemma RulesRefuse(rate: int, burst: int)
    requires burst <= 0
    ensures Refuses(Rules(rate, burst), NoTokens())
  {
  }

  /** With overtaking the bound holds on every run only if nothing is ever accepted. */
  lemma OvertakenExactly(rate: int, burst: int)
    ensures (forall before, window, key :: WindowOf(before, window) ==> CallsBounded(rate, burst, before, window, key)) <==> burst <= 0
  {
    if burst <= 0 {
      RulesRefuse(rate, burst);
      forall before, window, key | WindowOf(before, window) ensures CallsBounded(rate, burst, before, window, key) {
        Calls.NothingGiven(Rules(rate, burst), NoTokens(), before, window, key);
        SpanNotNegative(before, window);
        LongerWindow(Max(rate, 0), 0, Calls.Span(window));
      }
    } else if FillsInTime(rate, burst) {
      var before, window := OvertakenBreak(rate, burst);
    } else {
      var window := UndisturbedBreak(rate, burst);
    }
  }
}
