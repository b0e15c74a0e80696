/**
 Token buckets by key, made on first use and removed when stale: what the two rate limiters have in common. The clock
 counts nanoseconds. A call reads it up to twice: at its start, for a new bucket, and lag later, when it takes a token.
 */
module Buckets {

  const SECOND: nat := 1_000_000_000

  function Min(x: int, y: int): int {
    if x < y then x else y
  }

  function Max(x: int, y: int): int {
    if x > y then x else y
  }

  datatype Bucket = Bucket(tokens: int, last: int)

  datatype Use = Use(bucket: Bucket, ok: bool)

  /** A limiter's rules: tokens of a new bucket, the age beyond which a bucket is stale, and one use of a bucket. */
  datatype Limiter = Limiter(full: int, age: nat, use: (Bucket, int) -> Use)

  datatype Action = Allow(key: string, at: int, lag: nat) | Cleanup(at: int)

  /** answers is history. */
  datatype State = State(buckets: map<string, Bucket>, answers: seq<bool>)

  function End(a: Action): int {
    if a.Allow? then a.at + a.lag else a.at
  }

  function BucketOf(l: Limiter, buckets: map<string, Bucket>, key: string, at: int): Bucket {
    if key in buckets then buckets[key] else Bucket(l.full, at)
  }

  function Kept(l: Limiter, buckets: map<string, Bucket>, now: int): map<string, Bucket> {
    map k | k in buckets && buckets[k].last >= now - l.age :: buckets[k]
  }

  function Apply(l: Limiter, s: State, a: Action): State {
    match a
    case Allow(key, at, lag) =>
      var u := l.use(BucketOf(l, s.buckets, key, at), at + lag);
      State(s.buckets[key := u.bucket], s.answers + [u.ok])
    case Cleanup(at) => s.(buckets := Kept(l, s.buckets, at))
  }

  const INIT := State(map[], [])

  function RunFrom(l: Limiter, s: State, actions: seq<Action>): State {
    if actions == [] then s
    else Apply(l, RunFrom(l, s, actions[..|actions| - 1]), actions[|actions| - 1])
  }

  function Run(l: Limiter, actions: seq<Action>): State {
    RunFrom(l, INIT, actions)
  }

  lemma Step(l: Limiter, s: State, actions: seq<Action>, a: Action)
    ensures RunFrom(l, s, actions + [a]) == Apply(l, RunFrom(l, s, actions), a)
  {
  }

  lemma {:induction false} RunSplit(l: Limiter, s: State, a: seq<Action>, b: seq<Action>)
    ensures RunFrom(l, s, a + b) == RunFrom(l, RunFrom(l, s, a), b)
  {
    if b == [] {
      assert a + b == a;
    } else {
      RunSplit(l, s, a, b[..|b| - 1]);
      assert (a + b)[..|a| + |b| - 1] == a + b[..|b| - 1];
    }
  }

  /** Tokens are taken, and buckets removed, in the order of the actions. */
  predicate Timed(actions: seq<Action>) {
    forall i, j :: 0 <= i < j < |actions| ==> End(actions[i]) <= End(actions[j])
  }

  /** Besides, no call starts before an earlier cleanup. */
  predicate Ordered(actions: seq<Action>) {
    forall i, j :: 0 <= i < j < |actions| ==>
      End(actions[i]) <= End(actions[j]) && (actions[i].Cleanup? ==> actions[i].at <= actions[j].at)
  }

  /** The run without its cleanups. */
  function WithoutCleanups(actions: seq<Action>): seq<Action> {
    if actions == [] then []
    else
      var others, a := WithoutCleanups(actions[..|actions| - 1]), actions[|actions| - 1];
      if a.Cleanup? then others else others + [a]
  }

  // ---------------------------------------------------------------------------------------------
  // When forgetting a stale bucket changes nothing

  ghost predicate Keeps(l: Limiter, good: Bucket -> bool) {
    && (forall now :: good(Bucket(l.full, now)))
    && (forall b, now :: good(b) && b.last <= now ==> good(l.use(b, now).bucket) && l.use(b, now).bucket.last <= now)
  }

  /** To this call the bucket is as good as a new one. */
  predicate AsNew(l: Limiter, b: Bucket, at: int, lag: nat) {
    l.use(b, at + lag) == l.use(Bucket(l.full, at), at + lag)
  }

  /** Stale buckets are as good as new, to calls of such a lag. */
  ghost predicate Forgets(l: Limiter, good: Bucket -> bool, fine: nat -> bool) {
    forall b, at, lag :: good(b) && fine(lag) && b.last < at - l.age ==> AsNew(l, b, at, lag)
  }

  predicate AllFine(actions: seq<Action>, fine: nat -> bool) {
    forall i :: 0 <= i < |actions| && actions[i].Allow? ==> fine(actions[i].lag)
  }

  ghost predicate AllGood(buckets: map<string, Bucket>, good: Bucket -> bool, now: int) {
    forall k :: k in buckets ==> good(buckets[k]) && buckets[k].last <= now
  }

  /** The buckets kept are the same; those removed are stale. */
  ghost predicate Related(l: Limiter, s: State, plain: State, swept: int) {
    && s.answers == plain.answers
    && (forall k :: k in s.buckets ==> k in plain.buckets && s.buckets[k] == plain.buckets[k])
    && (forall k :: k in plain.buckets && k !in s.buckets ==> plain.buckets[k].last < swept - l.age)
  }

  lemma AllowRelated(
    l: Limiter, good: Bucket -> bool, fine: nat -> bool, s: State, plain: State, swept: int, clock: int, a: Action)
    requires Keeps(l, good) && Forgets(l, good, fine) && a.Allow? && fine(a.lag)
    requires Related(l, s, plain, swept) && AllGood(plain.buckets, good, clock)
    requires clock <= End(a) && swept <= a.at
    ensures Related(l, Apply(l, s, a), Apply(l, plain, a), swept)
    ensures AllGood(Apply(l, plain, a).buckets, good, End(a))
  {
    var b, p := BucketOf(l, s.buckets, a.key, a.at), BucketOf(l, plain.buckets, a.key, a.at);
    assert good(p) && p.last <= End(a);
    if b != p { assert AsNew(l, p, a.at, a.lag); }
  }

  function Clock(actions: seq<Action>, otherwise: int): int {
    if actions == [] then otherwise else End(actions[|actions| - 1])
  }

  /** The time of the latest cleanup. */
  function Swept(actions: seq<Action>, otherwise: int): int {
    if actions == [] then otherwise
    else if actions[|actions| - 1].Cleanup? then actions[|actions| - 1].at
    else Swept(actions[..|actions| - 1], otherwise)
  }

  lemma {:induction false} SweptBefore(actions: seq<Action>, a: Action, otherwise: int)
    requires Ordered(actions + [a])
    ensures Swept(actions, otherwise) == otherwise || Swept(actions, otherwise) <= a.at
  {
    if actions != [] {
      var k := |actions| - 1;
      assert (actions + [a])[k] == actions[k] && (actions + [a])[k + 1] == a;
      if !actions[k].Cleanup? {
        forall i, j | 0 <= i < j < |actions[..k] + [a]|
          ensures var x := actions[..k] + [a]; End(x[i]) <= End(x[j]) && (x[i].Cleanup? ==> x[i].at <= x[j].at)
        {
          assert (actions[..k] + [a])[i] == (actions + [a])[i];
          assert (actions[..k] + [a])[j] == (actions + [a])[if j == k then k + 1 else j];
        }
        SweptBefore(actions[..k], a, otherwise);
      }
    }
  }

  predicate NotBefore(actions: seq<Action>, start: int) {
    forall i :: 0 <= i < |actions| ==> start <= actions[i].at
  }

  lemma StepRelated(
    l: Limiter, good: Bucket -> bool, fine: nat -> bool, s: State, plain: State, swept: int, clock: int, a: Action)
    requires Keeps(l, good) && Forgets(l, good, fine) && (a.Allow? ==> fine(a.lag))
    requires Related(l, s, plain, swept) && AllGood(plain.buckets, good, clock)
    requires clock <= End(a) && swept <= a.at
    ensures Related(l, Apply(l, s, a), if a.Allow? then Apply(l, plain, a) else plain, if a.Allow? then swept else a.at)
    ensures AllGood(if a.Allow? then Apply(l, plain, a).buckets else plain.buckets, good, End(a))
  {
    if a.Allow? { AllowRelated(l, good, fine, s, plain, swept, clock, a); }
  }

  lemma {:induction false} RunRelated(l: Limiter, good: Bucket -> bool, fine: nat -> bool, actions: seq<Action>, start: int)
    requires Keeps(l, good) && Forgets(l, good, fine)
    requires Ordered(actions) && AllFine(actions, fine) && NotBefore(actions, start)
    ensures Related(l, Run(l, actions), Run(l, WithoutCleanups(actions)), Swept(actions, start))
    ensures AllGood(Run(l, WithoutCleanups(actions)).buckets, good, Clock(actions, start))
  {
    if actions != [] {
      var k := |actions| - 1;
      var before, a := actions[..k], actions[k];
      var others := WithoutCleanups(before);
      RunRelated(l, good, fine, before, start);
      assert actions == before + [a];
      SweptBefore(before, a, start);
      StepRelated(l, good, fine, Run(l, before), Run(l, others), Swept(before, start), Clock(before, start), a);
      Step(l, INIT, before, a);
      Step(l, INIT, others, a);
    }
  }

  lemma {:induction false} Earliest(actions: seq<Action>) returns (start: int)
    ensures NotBefore(actions, start)
  {
    if actions == [] {
      start := 0;
    } else {
      var k := |actions| - 1;
      start := Earliest(actions[..k]);
      if actions[k].at < start { start := actions[k].at; }
    }
  }

  /** The answers of a run are those of the run without its cleanups. */
  lemma CleanupInvisible(l: Limiter, good: Bucket -> bool, fine: nat -> bool, actions: seq<Action>)
    requires Keeps(l, good) && Forgets(l, good, fine) && Ordered(actions) && AllFine(actions, fine)
    ensures Run(l, actions).answers == Run(l, WithoutCleanups(actions)).answers
  {
    var start := Earliest(actions);
    RunRelated(l, good, fine, actions, start);
  }

  // ---------------------------------------------------------------------------------------------
  // A limiter that never accepts

  ghost predicate Refuses(l: Limiter, good: Bucket -> bool) {
    && (forall now :: good(Bucket(l.full, now)))
    && (forall b, now :: good(b) ==> good(l.use(b, now).bucket) && !l.use(b, now).ok)
  }

  lemma {:induction false} AllRefused(l: Limiter, good: Bucket -> bool, actions: seq<Action>)
    requires Refuses(l, good)
    ensures var s := Run(l, actions);
            && (forall k :: k in s.buckets ==> good(s.buckets[k]))
            && s.answers == seq(|WithoutCleanups(actions)|, _ => false)
  {
    if actions != [] { AllRefused(l, good, actions[..|actions| - 1]); }
  }

  lemma {:induction false} CleanedTwice(actions: seq<Action>)
    ensures WithoutCleanups(WithoutCleanups(actions)) == WithoutCleanups(actions)
  {
    if actions != [] {
      var others, a := WithoutCleanups(actions[..|actions| - 1]), actions[|actions| - 1];
      CleanedTwice(actions[..|actions| - 1]);
      if !a.Cleanup? { assert (others + [a])[..|others|] == others; }
    }
  }

  lemma RefusalInvisible(l: Limiter, good: Bucket -> bool, actions: seq<Action>)
    requires Refuses(l, good)
    ensures Run(l, actions).answers == Run(l, WithoutCleanups(actions)).answers
  {
    AllRefused(l, good, actions);
    AllRefused(l, good, WithoutCleanups(actions));
    CleanedTwice(actions);
  }

  predicate CallsOnly(actions: seq<Action>) {
    forall i :: 0 <= i < |actions| ==> actions[i].Allow?
  }

  lemma {:induction false} OnlyCalls(actions: seq<Action>)
    requires CallsOnly(actions)
    ensures WithoutCleanups(actions) == actions
  {
    if actions != [] { OnlyCalls(actions[..|actions| - 1]); }
  }

  lemma {:induction false} CleanedParts(a: seq<Action>, b: seq<Action>)
    ensures WithoutCleanups(a + b) == WithoutCleanups(a) + WithoutCleanups(b)
  {
    if b == [] {
      assert a + b == a;
    } else {
      CleanedParts(a, b[..|b| - 1]);
      assert (a + b)[..|a| + |b| - 1] == a + b[..|b| - 1];
    }
  }

  /** A run of calls with one cleanup in it, and the same run without. */
  lemma WithAndWithout(l: Limiter, first: seq<Action>, cleanup: Action, rest: seq<Action>)
    requires cleanup.Cleanup? && CallsOnly(first) && CallsOnly(rest)
    ensures Run(l, first + [cleanup] + rest) == RunFrom(l, Apply(l, Run(l, first), cleanup), rest)
    ensures Run(l, WithoutCleanups(first + [cleanup] + rest)) == RunFrom(l, Run(l, first), rest)
  {
    RunSplit(l, INIT, first + [cleanup], rest);
    Step(l, INIT, first, cleanup);
    CleanedParts(first + [cleanup], rest);
    assert (first + [cleanup])[..|first|] == first;
    OnlyCalls(first);
    OnlyCalls(rest);
    RunSplit(l, INIT, first, rest);
  }

  // ---------------------------------------------------------------------------------------------
  // How many calls of a key are accepted in a window of a run

  predicate IsCall(a: Action, key: string) {
    a.Allow? && a.key == key
  }

  predicate Takes(l: Limiter, s: State, a: Action, key: string) {
    IsCall(a, key) && l.use(BucketOf(l, s.buckets, key, a.at), End(a)).ok
  }

  function Accepted(l: Limiter, s: State, actions: seq<Action>, key: string): nat {
    if actions == [] then 0
    else
      var k := |actions| - 1;
      Accepted(l, s, actions[..k], key) + (if Takes(l, RunFrom(l, s, actions[..k]), actions[k], key) then 1 else 0)
  }

  /** The time from the first token of a window to the last. */
  function Length(window: seq<Action>): int
    requires window != []
  {
    End(window[|window| - 1]) - End(window[0])
  }

  lemma AcceptedLast(l: Limiter, s: State, actions: seq<Action>, a: Action, key: string)
    ensures Accepted(l, s, actions + [a], key)
            == Accepted(l, s, actions, key) + (if Takes(l, RunFrom(l, s, actions), a, key) then 1 else 0)
  {
  }

  lemma {:induction false} AcceptedSplit(l: Limiter, s: State, a: seq<Action>, b: seq<Action>, key: string)
    ensures Accepted(l, s, a + b, key) == Accepted(l, s, a, key) + Accepted(l, RunFrom(l, s, a), b, key)
  {
    if b == [] {
      assert a + b == a;
    } else {
      var k := |b| - 1;
      AcceptedSplit(l, s, a, b[..k], key);
      RunSplit(l, s, a, b[..k]);
      assert (a + b)[..|a| + k] == a + b[..k];
    }
  }

  /** A run from its first action on. */
  lemma FirstThen(l: Limiter, s: State, a: Action, rest: seq<Action>, key: string)
    ensures RunFrom(l, s, [a] + rest) == RunFrom(l, Apply(l, s, a), rest)
    ensures Accepted(l, s, [a] + rest, key) == (if Takes(l, s, a, key) then 1 else 0) + Accepted(l, Apply(l, s, a), rest, key)
  {
    assert [] + [a] == [a];
    Step(l, s, [], a);
    AcceptedLast(l, s, [], a, key);
    RunSplit(l, s, [a], rest);
    AcceptedSplit(l, s, [a], rest, key);
  }

  lemma {:induction false} NoneAccepted(l: Limiter, good: Bucket -> bool, s: State, actions: seq<Action>, key: string)
    requires Refuses(l, good) && forall k :: k in s.buckets ==> good(s.buckets[k])
    ensures Accepted(l, s, actions, key) == 0 && forall k :: k in RunFrom(l, s, actions).buckets ==> good(RunFrom(l, s, actions).buckets[k])
  {
    if actions != [] { NoneAccepted(l, good, s, actions[..|actions| - 1], key); }
  }

  lemma {:induction false} RunGood(l: Limiter, good: Bucket -> bool, actions: seq<Action>, now: int)
    requires Keeps(l, good) && Timed(actions) && (actions != [] ==> End(actions[|actions| - 1]) <= now)
    ensures AllGood(Run(l, actions).buckets, good, now)
  {
    if actions != [] {
      var k := |actions| - 1;
      RunGood(l, good, actions[..k], End(actions[k]));
    }
  }

  /** A window follows what is before it. */
  lemma WindowTimed(before: seq<Action>, window: seq<Action>)
    requires Timed(before + window) && window != []
    ensures Timed(before) && Timed(window)
    ensures before != [] ==> End(before[|before| - 1]) <= End(window[0])
  {
    var all := before + window;
    assert forall i :: 0 <= i < |before| ==> before[i] == all[i];
    assert forall i :: 0 <= i < |window| ==> window[i] == all[|before| + i];
  }

  // ---------------------------------------------------------------------------------------------
  // The same call again and again

  function Repeat(a: Action, n: nat): (actions: seq<Action>)
    ensures |actions| == n && forall i :: 0 <= i < n ==> actions[i] == a
  {
    seq(n, _ => a)
  }

  function Trues(n: nat): seq<bool> {
    seq(n, _ => true)
  }

  /** While tokens last and time stands still, a bucket gives one for each call. */
  ghost predicate Spends(l: Limiter, b: Bucket, now: int) {
    forall tokens :: 0 < tokens <= b.tokens ==> l.use(Bucket(tokens, b.last), now) == Use(Bucket(tokens - 1, b.last), true)
  }

  lemma {:induction false} SpendMany(l: Limiter, s: State, b: Bucket, a: Action, n: nat)
    requires a.Allow? && a.key in s.buckets && s.buckets[a.key] == b && Spends(l, b, End(a)) && n <= b.tokens
    ensures var s' := RunFrom(l, s, Repeat(a, n));
            && a.key in s'.buckets && s'.buckets[a.key] == Bucket(b.tokens - n, b.last)
            && s'.answers == s.answers + Trues(n)
    ensures Accepted(l, s, Repeat(a, n), a.key) == n
  {
    if n == 0 {
      assert s.answers + Trues(0) == s.answers;
    } else {
      SpendMany(l, s, b, a, n - 1);
      assert Repeat(a, n)[..n - 1] == Repeat(a, n - 1);
      assert Trues(n) == Trues(n - 1) + [true];
    }
  }
}
