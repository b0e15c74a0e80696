/** The simple rate limiter (pkg/auth/ratelimiter.go): a bucket of R tokens, filled up after each whole second. */
module RateLimiter {
  import opened Buckets
  import Calls = BucketCalls

  const FIVE_MINUTES: nat := 300 * SECOND

  /** int(elapsed.Seconds()), cut toward zero. */
  function WholeSeconds(elapsed: int): int {
    if elapsed >= 0 then elapsed / SECOND else -(-elapsed / SECOND)
  }

  function Refilled(b: Bucket, rate: int, now: int): Bucket {
    var more := WholeSeconds(now - b.last) * rate;
    if more > 0 then Bucket(Min(b.tokens + more, rate), now) else b
  }

  function Consume(b: Bucket, rate: int, now: int): Use {
    var r := Refilled(b, rate, now);
    if r.tokens > 0 then Use(r.(tokens := r.tokens - 1), true) else Use(r, false)
  }

  function Rules(rate: int): Limiter {
    Limiter(rate, FIVE_MINUTES, (b, now) => Consume(b, rate, now))
  }

  class Limiting {
    const rate: int
    var buckets: map<string, Bucket>

    constructor (rate: int)
      ensures this.rate == rate && buckets == map[]
    {
      this.rate, buckets := rate, map[];
    }

    /** at and at + lag are the readings of the clock. */
    method Allow(client: string, at: int, lag: nat) returns (ok: bool)
      modifies this
      ensures forall answers :: Apply(Rules(rate), State(old(buckets), answers), Buckets.Allow(client, at, lag))
                                == State(buckets, answers + [ok])
    {
      if client !in buckets {
        buckets := buckets[client := Bucket(rate, at)];
      }
      var b := buckets[client];
      var now := at + lag;
      var more := WholeSeconds(now - b.last) * rate;
      if more > 0 {
        b := b.(tokens := b.tokens + more);
        if b.tokens > rate {
          b := b.(tokens := rate);
        }
        b := b.(last := now);
      }
      ok := b.tokens > 0;
      if ok {
        b := b.(tokens := b.tokens - 1);
      }
      buckets := buckets[client := b];
    }

    method Cleanup(now: int)
      modifies this
      ensures buckets == Kept(Rules(rate), old(buckets), now)
    {
      var cutoff := now - FIVE_MINUTES;
      var todo := buckets.Keys;
      ghost var start := buckets;
      while todo != {}
        invariant todo <= start.Keys
        invariant buckets == map k | k in start && (k in todo || start[k].last >= cutoff) :: start[k]
        decreases |todo|
      {
        var client :| client in todo;
        if buckets[client].last < cutoff {
          buckets := buckets - {client};
        }
        todo := todo - {client};
      }
    }
  }

  // ---------------------------------------------------------------------------------------------
  // How many calls of a key are accepted

  function InBounds(rate: int): Bucket -> bool {
    (b: Bucket) => 0 <= b.tokens <= rate
  }

  function NoTokens(): Bucket -> bool {
    (b: Bucket) => b.tokens <= 0
  }

  lemma OneCall(b: Bucket, rate: nat, now: int)
    requires 0 <= b.tokens <= rate && b.last <= now
    ensures var r, filled := Refilled(b, rate, now), WholeSeconds(now - b.last) * rate > 0;
            && 0 <= r.tokens <= rate
            && (filled ==> r.last == now && now >= b.last + SECOND)
            && (!filled ==> r == b)
  {
  }

  lemma RulesKeep(rate: nat)
    ensures Keeps(Rules(rate), InBounds(rate))
  {
  }

  lemma RulesRefuse(rate: int)
    requires rate <= 0
    ensures Refuses(Rules(rate), NoTokens())
  {
  }

  /**
   The books of a key over a window: its bucket was made or filled so many times, each at least a second after the
   time before and the first not before base; held says whether there was a bucket to begin with.
   */
  datatype Books = Books(fills: nat, held: bool, base: int)

  function Supply(rate: nat, k: Books): nat {
    Product(rate, if k.held then k.fills + 1 else k.fills)
  }

  /** rate * n, by adding. */
  function Product(rate: nat, n: nat): nat {
    if n == 0 then 0 else Product(rate, n - 1) + rate
  }

  lemma {:induction false} ProductIs(rate: nat, n: nat)
    ensures Product(rate, n) == rate * n
  {
    if n > 0 { ProductIs(rate, n - 1); }
  }

  lemma {:induction false} ProductGrows(rate: nat, m: nat, n: nat)
    requires m <= n
    ensures Product(rate, m) <= Product(rate, n)
  {
    if m < n { ProductGrows(rate, m, n - 1); }
  }

  lemma SupplyAtMost(rate: nat, k: Books, n: nat)
    requires (if k.held then k.fills + 1 else k.fills) <= n
    ensures Supply(rate, k) <= rate * n
  {
    ProductGrows(rate, if k.held then k.fills + 1 else k.fills, n);
    ProductIs(rate, n);
  }

  lemma OneMoreFill(rate: nat, k: Books)
    ensures Supply(rate, k.(fills := k.fills + 1)) == Supply(rate, k) + rate
  {
  }

  /** The books fit the state: a bucket held from the start that was never filled is old, or was not used yet. */
  ghost predicate Fits(rate: nat, s: State, key: string, accepted: nat, k: Books, now: int) {
    if key in s.buckets then
      var b := s.buckets[key];
      && 0 <= b.tokens <= rate && b.last <= now
      && accepted + b.tokens <= Supply(rate, k)
      && (if k.fills == 0 then k.held && (accepted == 0 || k.base - SECOND < b.last) else k.base + (k.fills - 1) * SECOND <= b.last)
    else
      && accepted <= Supply(rate, k)
      && (k.fills > 0 || k.held ==> k.base + (k.fills + 1) * SECOND <= now)
  }

  /** When a bucket that this call makes counts as filled. */
  function Made(a: Action): int
    requires a.Allow?
  {
    if a.lag >= SECOND then End(a) else a.at
  }

  lemma UseFits(rate: nat, s: State, a: Action, accepted: nat, k: Books, now: int) returns (k': Books)
    requires rate > 0 && a.Allow? && a.key in s.buckets && Fits(rate, s, a.key, accepted, k, now) && now <= End(a)
    requires k.fills == 0 ==> k.base <= End(a)
    ensures k'.held == k.held && k'.base == k.base && k.fills <= k'.fills
    ensures Fits(rate, Apply(Rules(rate), s, a), a.key, accepted + (if Takes(Rules(rate), s, a, a.key) then 1 else 0), k', End(a))
  {
    var b := s.buckets[a.key];
    OneCall(b, rate, End(a));
    OneMoreFill(rate, k);
    k' := if WholeSeconds(End(a) - b.last) * rate > 0 then k.(fills := k.fills + 1) else k;
  }

  lemma MakeFits(rate: nat, s: State, a: Action, accepted: nat, k: Books, now: int) returns (k': Books)
    requires rate > 0 && a.Allow? && a.key !in s.buckets && Fits(rate, s, a.key, accepted, k, now) && now <= End(a)
    requires k.fills == 0 && !k.held ==> k.base <= Made(a)
    ensures k' == k.(fills := k.fills + 1)
    ensures Fits(rate, Apply(Rules(rate), s, a), a.key, accepted + (if Takes(Rules(rate), s, a, a.key) then 1 else 0), k', End(a))
  {
    NewBucket(rate, a);
    OneMoreFill(rate, k);
    k' := k.(fills := k.fills + 1);
  }

  lemma NewBucket(rate: nat, a: Action)
    requires rate > 0 && a.Allow?
    ensures Consume(Bucket(rate, a.at), rate, End(a)) == Use(Bucket(rate - 1, Made(a)), true)
  {
  }

  /** The books without a bucket to begin with, when the one there was goes unused. */
  function Unheld(k: Books): Books {
    Books(0, false, k.base - SECOND + 1)
  }

  /** A cleanup that removes the bucket comes long after it was filled, or nothing was accepted yet. */
  lemma SweepFits(rate: nat, s: State, a: Action, key: string, accepted: nat, k: Books, now: int) returns (k': Books)
    requires Fits(rate, s, key, accepted, k, now) && now <= End(a) && a.Cleanup? && k.base <= a.at
    ensures k' == k || (k' == Unheld(k) && k.held && k.fills == 0)
    ensures Fits(rate, Apply(Rules(rate), s, a), key, accepted, k', a.at)
  {
    k' := if key in s.buckets && s.buckets[key].last < a.at - FIVE_MINUTES && accepted == 0 && k.fills == 0 then Unheld(k) else k;
  }

  lemma OtherFits(rate: nat, s: State, a: Action, key: string, accepted: nat, k: Books, now: int)
    requires Fits(rate, s, key, accepted, k, now) && now <= End(a) && a.Allow? && a.key != key
    ensures Fits(rate, Apply(Rules(rate), s, a), key, accepted, k, End(a))
  {
  }

  /** How the books k0 of the start of a window may have become k. */
  ghost predicate From(k0: Books, k: Books) {
    (k.held == k0.held && k.base == k0.base) || (k0.held && !k.held && k.base == Unheld(k0).base)
  }

  /** No action ends before base, and the bucket that the first call makes, if it has to, is made not before base. */
  ghost predicate Based(window: seq<Action>, key: string, k: Books) {
    && (forall i :: 0 <= i < |window| ==> k.base <= End(window[i]))
    && (k.held || forall i :: 0 <= i < |window| && IsCall(window[i], key) && NoCall(window[..i], key) ==> k.base <= Made(window[i]))
  }

  predicate NoCall(window: seq<Action>, key: string) {
    forall i :: 0 <= i < |window| ==> !IsCall(window[i], key)
  }

  /** One action of the window. */
  lemma StepFits(rate: nat, s: State, a: Action, key: string, accepted: nat, k0: Books, k: Books, now: int)
      returns (k': Books)
    requires rate > 0 && Fits(rate, s, key, accepted, k, now) && now <= End(a) && From(k0, k) && k0.base <= End(a)
    requires IsCall(a, key) && k.fills == 0 && !k.held ==> k.base <= Made(a)
    ensures From(k0, k')
    ensures k'.fills == 0 && !k0.held ==> k.fills == 0 && !IsCall(a, key)
    ensures Fits(rate, Apply(Rules(rate), s, a), key, accepted + (if Takes(Rules(rate), s, a, key) then 1 else 0), k', End(a))
  {
    if a.Cleanup? {
      k' := SweepFits(rate, s, a, key, accepted, k, now);
    } else if a.key != key {
      OtherFits(rate, s, a, key, accepted, k, now);
      k' := k;
    } else if key in s.buckets {
      k' := UseFits(rate, s, a, accepted, k, now);
    } else {
      k' := MakeFits(rate, s, a, accepted, k, now);
    }
  }

  /** The books fit after the whole window. */
  ghost predicate WindowFits(rate: nat, s: State, window: seq<Action>, key: string, k: Books, now: int) {
    Fits(rate, RunFrom(Rules(rate), s, window), key, Accepted(Rules(rate), s, window, key), k, Clock(window, now))
  }

  lemma NextFits(rate: nat, s: State, before: seq<Action>, a: Action, key: string, k0: Books, k: Books, now: int)
      returns (k': Books)
    requires rate > 0 && WindowFits(rate, s, before, key, k, now)
    requires Clock(before, now) <= End(a) && From(k0, k) && k0.base <= End(a)
    requires IsCall(a, key) && k.fills == 0 && !k.held ==> k.base <= Made(a)
    ensures From(k0, k')
    ensures k'.fills == 0 && !k0.held ==> k.fills == 0 && !IsCall(a, key)
    ensures WindowFits(rate, s, before + [a], key, k', now)
  {
    var l := Rules(rate);
    k' := StepFits(rate, RunFrom(l, s, before), a, key, Accepted(l, s, before, key), k0, k, Clock(before, now));
    Step(l, s, before, a);
    AcceptedLast(l, s, before, a, key);
  }

  lemma BasedPrefix(window: seq<Action>, a: Action, key: string, k: Books)
    requires Based(window + [a], key, k)
    ensures Based(window, key, k) && k.base <= End(a)
    ensures IsCall(a, key) && NoCall(window, key) && !k.held ==> k.base <= Made(a)
  {
    var all := window + [a];
    forall i | 0 <= i < |window| ensures all[i] == window[i] && all[..i] == window[..i] {}
    assert all[|window|] == a && all[..|window|] == window;
  }

  /** A window that comes no earlier than now, with room to make the bucket from base on. */
  ghost predicate Window(window: seq<Action>, key: string, k: Books, now: int) {
    && Timed(window) && Based(window, key, k)
    && (forall i :: 0 <= i < |window| ==> now <= End(window[i]))
  }

  lemma WindowPrefix(window: seq<Action>, a: Action, key: string, k: Books, now: int)
    requires Window(window + [a], key, k, now)
    ensures Window(window, key, k, now)
    ensures Clock(window, now) <= End(a) && k.base <= End(a)
    ensures IsCall(a, key) && NoCall(window, key) && !k.held ==> k.base <= Made(a)
  {
    var all := window + [a];
    assert all[|window|] == a && forall i :: 0 <= i < |window| ==> all[i] == window[i];
    BasedPrefix(window, a, key, k);
  }

  lemma StartFits(rate: nat, s: State, key: string, k: Books, now: int)
    requires AllGood(s.buckets, InBounds(rate), now) && k.fills == 0 && (k.held <==> key in s.buckets)
    ensures Fits(rate, s, key, 0, k, now)
  {
    assert Product(rate, 0) == 0 && Product(rate, 1) == rate;
  }

  /** A bucket made after an unused one was removed. */
  lemma MadeInTime(a: Action, k0: Books, k: Books)
    requires a.Allow? && From(k0, k) && k0.held && !k.held && k0.base <= End(a)
    ensures k.base <= Made(a)
  {
  }

  lemma {:induction false} BooksFit(rate: nat, s: State, window: seq<Action>, key: string, k0: Books, now: int)
      returns (k: Books)
    requires rate > 0 && Window(window, key, k0, now) && AllGood(s.buckets, InBounds(rate), now)
    requires k0.fills == 0 && (k0.held <==> key in s.buckets)
    ensures From(k0, k) && WindowFits(rate, s, window, key, k, now)
    ensures k.fills == 0 && !k0.held ==> NoCall(window, key)
  {
    if window == [] {
      k := k0;
      StartFits(rate, s, key, k, now);
    } else {
      var before, a := window[..|window| - 1], window[|window| - 1];
      assert window == before + [a];
      WindowPrefix(before, a, key, k0, now);
      var k1 := BooksFit(rate, s, before, key, k0, now);
      if IsCall(a, key) && k0.held && !k1.held { MadeInTime(a, k0, k1); }
      k := NextFits(rate, s, before, a, key, k0, k1, now);
    }
  }

  /** A limiter without a positive rate accepts nothing. */
  lemma NothingAccepted(rate: int, before: seq<Action>, window: seq<Action>, key: string)
    requires rate <= 0
    ensures Accepted(Rules(rate), Run(Rules(rate), before), window, key) == 0
  {
    RulesRefuse(rate);
    AllRefused(Rules(rate), NoTokens(), before);
    NoneAccepted(Rules(rate), NoTokens(), Run(Rules(rate), before), window, key);
  }

  lemma FillsAtMost(fills: nat, base: int, last: int)
    requires base <= last && (fills > 0 ==> base + (fills - 1) * SECOND <= last)
    ensures fills <= 1 + (last - base) / SECOND
  {
  }

  lemma WindowBooks(rate: nat, before: seq<Action>, window: seq<Action>, key: string, base: int) returns (k: Books)
    requires rate > 0 && Timed(before + window) && window != []
    requires Based(window, key, Books(0, key in Run(Rules(rate), before).buckets, base))
    ensures From(Books(0, key in Run(Rules(rate), before).buckets, base), k)
    ensures Accepted(Rules(rate), Run(Rules(rate), before), window, key) <= Supply(rate, k)
    ensures k.fills > 0 ==> k.base + (k.fills - 1) * SECOND <= End(window[|window| - 1])
  {
    var s := Run(Rules(rate), before);
    WindowTimed(before, window);
    RulesKeep(rate);
    RunGood(Rules(rate), InBounds(rate), before, End(window[0]));
    k := BooksFit(rate, s, window, key, Books(0, key in s.buckets, base), End(window[0]));
  }

  /**
   In every window of every run, with cleanups and with calls of any lag, at most R(2 + whole seconds) calls of a key
   are accepted.
   */
  lemma BoundInWindow(rate: int, before: seq<Action>, window: seq<Action>, key: string)
    requires Timed(before + window) && window != []
    ensures Length(window) >= 0
    ensures Accepted(Rules(rate), Run(Rules(rate), before), window, key) <= Max(rate, 0) * (2 + Length(window) / SECOND)
  {
    WindowTimed(before, window);
    if rate <= 0 {
      NothingAccepted(rate, before, window, key);
    } else {
      var held, first, seconds := key in Run(Rules(rate), before).buckets, End(window[0]), Length(window) / SECOND;
      var k := WindowBooks(rate, before, window, key, if held then first else first - SECOND + 1);
      FillsAtMost(k.fills, k.base, End(window[|window| - 1]));
      SupplyAtMost(rate, k, 2 + seconds);
    }
  }

  lemma BasedAtFirst(window: seq<Action>, key: string)
    requires Timed(window) && window != [] && IsCall(window[0], key)
    ensures Based(window, key, Books(0, false, window[0].at))
  {
  }

  lemma CreationBooks(rate: nat, before: seq<Action>, window: seq<Action>, key: string) returns (k: Books)
    requires rate > 0 && Timed(before + window) && window != []
    requires IsCall(window[0], key) && key !in Run(Rules(rate), before).buckets
    ensures Accepted(Rules(rate), Run(Rules(rate), before), window, key) <= Supply(rate, k)
    ensures !k.held && k.fills <= 1 + (End(window[|window| - 1]) - window[0].at) / SECOND
  {
    WindowTimed(before, window);
    BasedAtFirst(window, key);
    k := WindowBooks(rate, before, window, key, window[0].at);
    FillsAtMost(k.fills, k.base, End(window[|window| - 1]));
  }

  /** From the call on that makes a key's bucket, at most R(1 + whole seconds) are accepted. */
  lemma BoundFromCreation(rate: int, before: seq<Action>, window: seq<Action>, key: string)
    requires Timed(before + window) && window != []
    requires IsCall(window[0], key) && key !in Run(Rules(rate), before).buckets
    ensures Accepted(Rules(rate), Run(Rules(rate), before), window, key)
            <= Max(rate, 0) * (1 + (End(window[|window| - 1]) - window[0].at) / SECOND)
  {
    WindowTimed(before, window);
    if rate <= 0 {
      NothingAccepted(rate, before, window, key);
    } else {
      var k := CreationBooks(rate, before, window, key);
      SupplyAtMost(rate, k, 1 + (End(window[|window| - 1]) - window[0].at) / SECOND);
    }
  }

  /** When the n-th round of calls takes its tokens. */
  function RoundEnd(n: nat): int {
    if n == 0 then SECOND - 1 else n * SECOND
  }

  /** Rounds of R calls, the first just before a second is over and then one as each second begins. */
  ghost predicate InRounds(window: seq<Action>, n: nat) {
    && Timed(window) && CallsOnly(window) && window != []
    && End(window[0]) == SECOND - 1 && End(window[|window| - 1]) == RoundEnd(n)
    && (forall i :: 0 <= i < |window| ==> End(window[i]) <= RoundEnd(n))
  }

  /** All of them accepted, and the bucket empty. */
  ghost predicate AllThrough(rate: nat, window: seq<Action>, n: nat) {
    && Accepted(Rules(rate), INIT, window, "") == Product(rate, n + 1)
    && var s := RunFrom(Rules(rate), INIT, window); "" in s.buckets && s.buckets[""] == Bucket(0, n * SECOND)
  }

  lemma NextInRounds(window: seq<Action>, n: nat, a: Action, rate: nat)
    requires InRounds(window, n) && rate > 0 && a == Buckets.Allow("", (n + 1) * SECOND, 0)
    ensures InRounds(window + Repeat(a, rate), n + 1)
  {
  }

  /** R calls at once, the first of which leaves the bucket with all tokens but its own. */
  lemma OneRound(rate: nat, s: State, a: Action, last: int)
    requires rate > 0 && a.Allow? && last <= End(a) < last + SECOND
    requires Consume(BucketOf(Rules(rate), s.buckets, a.key, a.at), rate, End(a)) == Use(Bucket(rate - 1, last), true)
    ensures var s' := RunFrom(Rules(rate), s, Repeat(a, rate)); a.key in s'.buckets && s'.buckets[a.key] == Bucket(0, last)
    ensures Accepted(Rules(rate), s, Repeat(a, rate), a.key) == rate
  {
    var l, b := Rules(rate), Bucket(rate - 1, last);
    SpendsQuickly(rate, b, End(a));
    SpendMany(l, Apply(l, s, a), b, a, rate - 1);
    FirstThen(l, s, a, Repeat(a, rate - 1), a.key);
    assert Repeat(a, rate) == [a] + Repeat(a, rate - 1);
  }

  lemma FirstRound(rate: nat) returns (window: seq<Action>)
    requires rate > 0
    ensures InRounds(window, 0) && AllThrough(rate, window, 0)
  {
    var a := Buckets.Allow("", 0, SECOND - 1);
    window := Repeat(a, rate);
    NewBucket(rate, a);
    OneRound(rate, INIT, a, 0);
  }

  /** A round that is accepted whole and empties the bucket. */
  ghost predicate WholeRound(rate: nat, s: State, round: seq<Action>, last: int) {
    && Accepted(Rules(rate), s, round, "") == rate
    && var s' := RunFrom(Rules(rate), s, round); "" in s'.buckets && s'.buckets[""] == Bucket(0, last)
  }

  lemma NextRound(rate: nat, s: State, a: Action, last: int)
    requires rate > 0 && a == Buckets.Allow("", last + SECOND, 0) && "" in s.buckets && s.buckets[""] == Bucket(0, last)
    ensures WholeRound(rate, s, Repeat(a, rate), last + SECOND)
  {
    OneRound(rate, s, a, last + SECOND);
  }

  lemma NextThrough(rate: nat, window: seq<Action>, s: State, round: seq<Action>, n: nat)
    requires AllThrough(rate, window, n) && s == RunFrom(Rules(rate), INIT, window) && WholeRound(rate, s, round, (n + 1) * SECOND)
    ensures AllThrough(rate, window + round, n + 1)
  {
    RunSplit(Rules(rate), INIT, window, round);
    AcceptedSplit(Rules(rate), INIT, window, round, "");
  }

  lemma OneMoreRound(rate: nat, before: seq<Action>, n: nat) returns (window: seq<Action>)
    requires rate > 0 && InRounds(before, n) && AllThrough(rate, before, n)
    ensures InRounds(window, n + 1) && AllThrough(rate, window, n + 1)
  {
    var a, s := Buckets.Allow("", (n + 1) * SECOND, 0), RunFrom(Rules(rate), INIT, before);
    var round := Repeat(a, rate);
    NextInRounds(before, n, a, rate);
    NextRound(rate, s, a, n * SECOND);
    window := before + round;
    NextThrough(rate, before, s, round, n);
  }

  lemma {:induction false} Rounds(rate: nat, n: nat) returns (window: seq<Action>)
    requires rate > 0
    ensures InRounds(window, n) && AllThrough(rate, window, n)
  {
    if n == 0 {
      window := FirstRound(rate);
    } else {
      var before := Rounds(rate, n - 1);
      window := OneMoreRound(rate, before, n - 1);
    }
  }

  /** The window's bound is reached, for every number of whole seconds. */
  lemma BoundReached(rate: nat, seconds: nat) returns (window: seq<Action>)
    requires rate > 0
    ensures Timed([] + window) && window != [] && Length(window) == seconds * SECOND + 1
    ensures Length(window) / SECOND == seconds
    ensures Accepted(Rules(rate), Run(Rules(rate), []), window, "") == rate * (2 + seconds)
  {
    window := Rounds(rate, seconds + 1);
    ProductIs(rate, 2 + seconds);
    RoundLength(seconds);
    assert [] + window == window;
  }

  lemma RoundLength(seconds: nat)
    ensures RoundEnd(seconds + 1) - (SECOND - 1) == seconds * SECOND + 1
    ensures (seconds * SECOND + 1) / SECOND == seconds
  {
  }

  /** At most R calls of the key in this window. */
  predicate AtMostRate(rate: int, before: seq<Action>, window: seq<Action>, key: string) {
    Accepted(Rules(rate), Run(Rules(rate), before), window, key) <= Max(rate, 0)
  }

  /** "At most R within a second" is kept by every run exactly if the rate admits nothing. */
  lemma RatePerSecondExactly(rate: int)
    ensures (forall before, window, key ::
               Timed(before + window) && window != [] && Length(window) < SECOND ==> AtMostRate(rate, before, window, key))
            <==> rate <= 0
  {
    if rate > 0 {
      var window := BoundReached(rate, 0);
      assert !AtMostRate(rate, [], window, "");
    } else {
      forall before, window, key ensures AtMostRate(rate, before, window, key) {
        NothingAccepted(rate, before, window, key);
      }
    }
  }

  // ---------------------------------------------------------------------------------------------
  // Cleaning up

  /** Both readings of the clock agree, or lie a second apart. */
  predicate Fine(lag: nat) {
    lag == 0 || lag >= SECOND
  }

  lemma StaleIsFull(b: Bucket, rate: int, at: int, lag: nat)
    requires rate > 0 && 0 <= b.tokens <= rate && b.last < at - FIVE_MINUTES && Fine(lag)
    ensures Consume(b, rate, at + lag) == Consume(Bucket(rate, at), rate, at + lag) == Use(Bucket(rate - 1, at + lag), true)
  {
  }

  lemma RulesForget(rate: int)
    requires rate > 0
    ensures Keeps(Rules(rate), InBounds(rate)) && Forgets(Rules(rate), InBounds(rate), Fine)
  {
    var l, good := Rules(rate), InBounds(rate);
    forall b, now | good(b) && b.last <= now ensures good(l.use(b, now).bucket) && l.use(b, now).bucket.last <= now {
      OneCall(b, rate, now);
    }
    forall b, at, lag | good(b) && Fine(lag) && b.last < at - l.age ensures AsNew(l, b, at, lag) {
      StaleIsFull(b, rate, at, lag);
    }
  }

  /** With any rate, cleanups change no answer, given that each call's two readings of the clock are fine. */
  lemma CleanupUnobservable(rate: int, actions: seq<Action>)
    requires Ordered(actions) && (rate <= 0 || AllFine(actions, Fine))
    ensures Run(Rules(rate), actions).answers == Run(Rules(rate), WithoutCleanups(actions)).answers
  {
    if rate > 0 {
      RulesForget(rate);
      CleanupInvisible(Rules(rate), InBounds(rate), Fine, actions);
    } else {
      RulesRefuse(rate);
      RefusalInvisible(Rules(rate), NoTokens(), actions);
    }
  }

  const SWEEP: nat := FIVE_MINUTES + 1

  /** Calls past the cleanup: all in one instant but the last, a second after they began. */
  function After(rate: nat, lag: nat): seq<Action> {
    Repeat(Buckets.Allow("", SWEEP, lag), rate) + [Buckets.Allow("", SWEEP + SECOND - lag, lag)]
  }

  /** A run that shows a cleanup: the readings of the clock lie apart, by less than a second. */
  function Telltale(rate: nat, lag: nat): seq<Action> {
    [Buckets.Allow("", 0, lag)] + [Buckets.Cleanup(SWEEP)] + After(rate, lag)
  }

  function HasLag(lag: nat): nat -> bool {
    (n: nat) => n == lag
  }

  lemma TelltaleOrdered(rate: nat, lag: nat)
    requires 0 < lag < SECOND
    ensures Ordered(Telltale(rate, lag)) && AllFine(Telltale(rate, lag), HasLag(lag))
  {
  }

  lemma SpendsQuickly(rate: int, b: Bucket, now: int)
    requires b.last <= now < b.last + SECOND
    ensures Spends(Rules(rate), b, now)
  {
  }

  /** The last call: at now, after all tokens are spent. */
  lemma LastCall(rate: nat, last: int, now: int)
    requires rate > 0 && last <= now <= last + SECOND
    ensures Consume(Bucket(0, last), rate, now).ok <==> now == last + SECOND
  {
  }

  /** The calls past the cleanup, from where the bucket stands after the first of them. */
  lemma TelltaleEnd(rate: nat, lag: nat, s: State, last: int)
    requires 0 < lag < SECOND && "" in s.buckets && s.buckets[""] == Bucket(rate, last) && SWEEP <= last <= SWEEP + lag
    ensures RunFrom(Rules(rate + 1), s, After(rate, lag)).answers == s.answers + Trues(rate) + [last == SWEEP]
  {
    var l, call, final := Rules(rate + 1), Buckets.Allow("", SWEEP, lag), Buckets.Allow("", SWEEP + SECOND - lag, lag);
    SpendsQuickly(rate + 1, Bucket(rate, last), SWEEP + lag);
    SpendMany(l, s, Bucket(rate, last), call, rate);
    Step(l, s, Repeat(call, rate), final);
    LastCall(rate + 1, last, SWEEP + SECOND);
  }

  /** The same, with that first one. */
  lemma TelltaleAll(rate: nat, lag: nat, s: State, last: int)
    requires 0 < lag < SECOND && SWEEP <= last <= SWEEP + lag
    requires Apply(Rules(rate + 1), s, Buckets.Allow("", SWEEP, lag)) == State(map["" := Bucket(rate, last)], [true, true])
    ensures RunFrom(Rules(rate + 1), s, After(rate + 1, lag)).answers == [true, true] + Trues(rate) + [last == SWEEP]
  {
    var l, call := Rules(rate + 1), Buckets.Allow("", SWEEP, lag);
    assert After(rate + 1, lag) == [call] + After(rate, lag);
    FirstThen(l, s, call, After(rate, lag), "");
    TelltaleEnd(rate, lag, Apply(l, s, call), last);
  }

  lemma FirstCall(rate: nat, lag: nat)
    requires rate > 0 && 0 < lag < SECOND
    ensures Run(Rules(rate), [Buckets.Allow("", 0, lag)]) == State(map["" := Bucket(rate - 1, 0)], [true])
  {
    var first := Buckets.Allow("", 0, lag);
    assert [] + [first] == [first];
    Step(Rules(rate), INIT, [], first);
    assert [] + [true] == [true];
  }

  /** The first call past the cleanup makes a new bucket, or fills the old one. */
  lemma NextCall(rate: nat, lag: nat)
    requires rate > 0 && 0 < lag < SECOND
    ensures var l, call, start := Rules(rate), Buckets.Allow("", SWEEP, lag), State(map["" := Bucket(rate - 1, 0)], [true]);
            && Apply(l, Apply(l, start, Buckets.Cleanup(SWEEP)), call) == State(map["" := Bucket(rate - 1, SWEEP)], [true, true])
            && Apply(l, start, call) == State(map["" := Bucket(rate - 1, SWEEP + lag)], [true, true])
  {
  }

  lemma TelltaleShows(rate: nat, lag: nat)
    requires rate > 0 && 0 < lag < SECOND
    ensures Run(Rules(rate), Telltale(rate, lag)).answers != Run(Rules(rate), WithoutCleanups(Telltale(rate, lag))).answers
  {
    var l, first := Rules(rate), [Buckets.Allow("", 0, lag)];
    WithAndWithout(l, first, Buckets.Cleanup(SWEEP), After(rate, lag));
    FirstCall(rate, lag);
    NextCall(rate, lag);
    TelltaleAll(rate - 1, lag, Apply(l, Run(l, first), Buckets.Cleanup(SWEEP)), SWEEP);
    TelltaleAll(rate - 1, lag, Run(l, first), SWEEP + lag);
    assert ([true, true] + Trues(rate - 1) + [true])[rate + 1] != ([true, true] + Trues(rate - 1) + [false])[rate + 1];
  }

  /** Whether cleanups show, for calls of a given lag: never exactly if the rate admits nothing or the lag is fine. */
  lemma LagExactly(rate: int, lag: nat)
    ensures (forall actions :: Ordered(actions) && AllFine(actions, HasLag(lag)) ==>
               Run(Rules(rate), actions).answers == Run(Rules(rate), WithoutCleanups(actions)).answers)
            <==> rate <= 0 || Fine(lag)
  {
    if rate <= 0 || Fine(lag) {
      forall actions | Ordered(actions) && AllFine(actions, HasLag(lag))
        ensures Run(Rules(rate), actions).answers == Run(Rules(rate), WithoutCleanups(actions)).answers
      {
        CleanupUnobservable(rate, actions);
      }
    } else {
      TelltaleOrdered(rate, lag);
      TelltaleShows(rate, lag);
    }
  }

  // ---------------------------------------------------------------------------------------------
  // Calls broken up where they let go of the limiter's mutex

  /** The bound R(2 + whole seconds), for one window of a run of such calls. */
  predicate CallsBounded(rate: int, before: seq<Calls.Event>, window: seq<Calls.Event>, key: string)
    requires window != []
  {
    Calls.Given(Rules(rate), Calls.Exec(Rules(rate), Calls.START, before), window, key)
    <= Max(rate, 0) * (2 + Calls.Span(window) / SECOND)
  }

  ghost predicate WindowOf(before: seq<Calls.Event>, window: seq<Calls.Event>) {
    Calls.InTime(before + window) && window != []
  }

  lemma BoundAsProduct(rate: int, before: seq<Action>, window: seq<Action>, key: string)
    requires Timed(before + window) && window != []
    ensures Length(window) >= 0
    ensures Accepted(Rules(rate), Run(Rules(rate), before), window, key) <= Product(Max(rate, 0), 2 + Length(window) / SECOND)
  {
    BoundInWindow(rate, before, window, key);
    ProductIs(Max(rate, 0), 2 + Length(window) / SECOND);
  }

  lemma MoreSeconds(rate: nat, x: nat, y: nat)
    requires x <= y
    ensures Product(rate, 2 + x / SECOND) <= Product(rate, 2 + y / SECOND)
  {
    ProductGrows(rate, 2 + x / SECOND, 2 + y / SECOND);
  }

  /** The bound holds on every run in which no cleanup overtakes a call. */
  lemma UndisturbedBound(rate: int, before: seq<Calls.Event>, window: seq<Calls.Event>, key: string)
    requires WindowOf(before, window) && Calls.Undisturbed(Rules(rate), Calls.START, before + window)
    ensures CallsBounded(rate, before, window, key)
  {
    Calls.PartsInTime(before, window);
    UndisturbedProduct(rate, before, window, key);
    ProductIs(Max(rate, 0), 2 + Calls.Span(window) / SECOND);
  }

  lemma UndisturbedProduct(rate: int, before: seq<Calls.Event>, window: seq<Calls.Event>, key: string)
    requires WindowOf(before, window) && Calls.Span(window) >= 0 && Calls.Undisturbed(Rules(rate), Calls.START, before + window)
    ensures Calls.Given(Rules(rate), Calls.Exec(Rules(rate), Calls.START, before), window, key)
            <= Product(Max(rate, 0), 2 + Calls.Span(window) / SECOND)
  {
    var first, rest := Calls.SimulatedWindow(Rules(rate), before, window);
    if rest != [] {
      BoundAsProduct(rate, first, rest, key);
      MoreSeconds(Max(rate, 0), Length(rest), Calls.Span(window));
    }
  }

  /** 2R + 1 calls at one instant, each overtaken by a cleanup. */
  lemma OvertakenBreak(rate: nat) returns (before: seq<Calls.Event>, window: seq<Calls.Event>)
    requires rate > 0
    ensures WindowOf(before, window) && !CallsBounded(rate, before, window, "")
  {
    var l, m := Rules(rate), 2 * rate + 1;
    forall j | 0 <= j < m ensures l.use(Bucket(l.full, Calls.Moment(l, j)), Calls.Moment(l, m)).ok {
      Calls.MomentGrows(l, j, m);
      StillFull(rate, Calls.Moment(l, j), Calls.Moment(l, m));
    }
    before, window := Calls.OvertakenCallsAllPass(l, m);
  }

  lemma StillFull(rate: nat, last: int, now: int)
    requires rate > 0 && last <= now
    ensures Consume(Bucket(rate, last), rate, now).ok
  {
    OneCall(Bucket(rate, last), rate, now);
  }

  /** With overtaking the bound holds on every run only if nothing is ever accepted. */
  lemma OvertakenExactly(rate: int)
    ensures (forall before, window, key :: WindowOf(before, window) ==> CallsBounded(rate, before, window, key)) <==> rate <= 0
  {
    if rate <= 0 {
      RulesRefuse(rate);
      forall before, window, key | WindowOf(before, window) ensures CallsBounded(rate, before, window, key) {
        Calls.NothingGiven(Rules(rate), NoTokens(), before, window, key);
      }
    } else {
      var before, window := OvertakenBreak(rate);
    }
  }
}
