/** Reading a byte stream one item at a time until the first error, against writing items one after another. */
module Streams {
  import opened Endian

  datatype Step<T, E> = Got(item: T, rest: Bytes) | Failed(error: E)

  datatype Outcome<T, E> = Outcome(items: seq<T>, error: E)

  ghost predicate Consumes<T(!new), E(!new)>(read: Bytes -> Step<T, E>) {
    forall bs :: read(bs).Got? ==> |read(bs).rest| < |bs|
  }

  function ReadAll<T(!new), E(!new)>(read: Bytes -> Step<T, E>, input: Bytes): Outcome<T, E>
    requires Consumes(read)
    decreases |input|
  {
    match read(input)
    case Failed(e) => Outcome([], e)
    case Got(item, rest) =>
      var others := ReadAll(read, rest);
      Outcome([item] + others.items, others.error)
  }

  function WriteAll<T>(write: T -> Bytes, items: seq<T>): Bytes {
    if items == [] then [] else write(items[0]) + WriteAll(write, items[1..])
  }

  /** How many of the items end within the first k bytes. */
  function Whole<T>(write: T -> Bytes, items: seq<T>, k: nat): (n: nat)
    ensures n <= |items|
  {
    if items == [] || k < |write(items[0])| then 0 else 1 + Whole(write, items[1..], k - |write(items[0])|)
  }

  /** What is written is read back, and what is cut short is refused. */
  ghost predicate Inverse<T(!new), E(!new)>(read: Bytes -> Step<T, E>, write: T -> Bytes, ok: T -> bool) {
    && (forall x, rest :: ok(x) ==> read(write(x) + rest) == Got(x, rest))
    && (forall x, k :: ok(x) && 0 <= k < |write(x)| ==> read(write(x)[..k]).Failed?)
    && read([]).Failed?
  }

  lemma {:induction false} StreamRoundTrip<T(!new), E(!new)>(
    read: Bytes -> Step<T, E>, write: T -> Bytes, ok: T -> bool, items: seq<T>)
    requires Consumes(read) && Inverse(read, write, ok) && forall i :: 0 <= i < |items| ==> ok(items[i])
    ensures ReadAll(read, WriteAll(write, items)) == Outcome(items, read([]).error)
  {
    if items != [] {
      StreamRoundTrip(read, write, ok, items[1..]);
      assert ok(items[0]);
    }
  }

  /** A stream cut anywhere yields exactly the items that end before the cut. */
  lemma {:induction false} CutStream<T(!new), E(!new)>(
    read: Bytes -> Step<T, E>, write: T -> Bytes, ok: T -> bool, items: seq<T>, k: nat)
    requires Consumes(read) && Inverse(read, write, ok) && forall i :: 0 <= i < |items| ==> ok(items[i])
    requires k <= |WriteAll(write, items)|
    ensures ReadAll(read, WriteAll(write, items)[..k]).items == items[..Whole(write, items, k)]
  {
    var bytes := WriteAll(write, items);
    if items != [] {
      var w := write(items[0]);
      assert ok(items[0]);
      if k < |w| {
        assert bytes[..k] == w[..k];
      } else {
        CutStream(read, write, ok, items[1..], k - |w|);
        assert bytes[..k] == w + WriteAll(write, items[1..])[..k - |w|];
        assert [items[0]] + items[1..][..Whole(write, items[1..], k - |w|)] == items[..Whole(write, items, k)];
      }
    }
  }

  // ---------------------------------------------------------------------------------------------
  // A loop that goes on after an error

  /** hear says what a round comes to, left what it leaves to be read. */
  ghost predicate Shrinks(left: Bytes -> Bytes) {
    forall bs :: bs != [] ==> |left(bs)| < |bs|
  }

  /** The rounds while there is something to read. */
  function Rounds<T>(hear: Bytes -> T, left: Bytes -> Bytes, input: Bytes): seq<T>
    requires Shrinks(left)
    decreases |input|
  {
    if input == [] then [] else [hear(input)] + Rounds(hear, left, left(input))
  }

  function Each<T, U>(f: T -> U, items: seq<T>): (r: seq<U>)
    ensures |r| == |items|
  {
    if items == [] then [] else [f(items[0])] + Each(f, items[1..])
  }

  /** A round reads one written item, whatever follows, and makes of it what judge says; of an item cut short it leaves nothing. */
  ghost predicate InStep<T(!new), U(!new)>(
    hear: Bytes -> U, left: Bytes -> Bytes, write: T -> Bytes, ok: T -> bool, judge: T -> U, cut: U -> bool)
  {
    && (forall x, rest :: ok(x) ==> write(x) != [] && hear(write(x) + rest) == judge(x) && left(write(x) + rest) == rest)
    && (forall x, k :: ok(x) && 0 < k < |write(x)| ==> cut(hear(write(x)[..k])) && left(write(x)[..k]) == [])
  }

  lemma {:induction false} RoundsRead<T(!new), U(!new)>(
    hear: Bytes -> U, left: Bytes -> Bytes, write: T -> Bytes, ok: T -> bool, judge: T -> U, cut: U -> bool, items: seq<T>)
    requires Shrinks(left) && InStep(hear, left, write, ok, judge, cut) && forall i :: 0 <= i < |items| ==> ok(items[i])
    ensures Rounds(hear, left, WriteAll(write, items)) == Each(judge, items)
  {
    if items != [] {
      RoundsRead(hear, left, write, ok, judge, cut, items[1..]);
      assert ok(items[0]);
    }
  }

  /** A stream cut anywhere: the items that end before the cut, and at most one round more. */
  lemma {:induction false} RoundsCut<T(!new), U(!new)>(
    hear: Bytes -> U, left: Bytes -> Bytes, write: T -> Bytes, ok: T -> bool, judge: T -> U, cut: U -> bool, items: seq<T>, k: nat)
      returns (end: seq<U>)
    requires Shrinks(left) && InStep(hear, left, write, ok, judge, cut) && forall i :: 0 <= i < |items| ==> ok(items[i])
    requires k <= |WriteAll(write, items)|
    ensures |end| <= 1 && forall i :: 0 <= i < |end| ==> cut(end[i])
    ensures Rounds(hear, left, WriteAll(write, items)[..k]) == Each(judge, items[..Whole(write, items, k)]) + end
  {
    if items == [] {
      end := [];
    } else {
      var w, bytes := write(items[0]), WriteAll(write, items);
      assert ok(items[0]);
      if k < |w| {
        assert bytes[..k] == w[..k];
        end := if k == 0 then [] else [hear(w[..k])];
      } else {
        var rest, n := WriteAll(write, items[1..])[..k - |w|], Whole(write, items[1..], k - |w|);
        end := RoundsCut(hear, left, write, ok, judge, cut, items[1..], k - |w|);
        assert bytes[..k] == w + rest;
        assert items[..n + 1][1..] == items[1..][..n];
        assert Rounds(hear, left, w + rest) == [judge(items[0])] + Rounds(hear, left, rest);
      }
    }
  }

  /** The loop after n rounds, with nothing to stop it: what is left to be read, and what the rounds came to. */
  datatype Endless<T> = Endless(rest: Bytes, heard: seq<T>)

  function AfterRounds<T>(hear: Bytes -> T, left: Bytes -> Bytes, input: Bytes, n: nat): (r: Endless<T>)
    ensures |r.heard| == n
  {
    if n == 0 then Endless(input, [])
    else
      var r := AfterRounds(hear, left, input, n - 1);
      Endless(left(r.rest), r.heard + [hear(r.rest)])
  }

  lemma {:induction false} RoundsThenNothing<T>(hear: Bytes -> T, left: Bytes -> Bytes, input: Bytes, n: nat)
    requires Shrinks(left) && left([]) == []
    ensures var r, rounds := AfterRounds(hear, left, input, n), Rounds(hear, left, input);
            if n <= |rounds| then r.heard + Rounds(hear, left, r.rest) == rounds
            else r.rest == [] && r.heard[..|rounds|] == rounds && forall i :: |rounds| <= i < n ==> r.heard[i] == hear([])
  {
    if n > 0 {
      RoundsThenNothing(hear, left, input, n - 1);
      var r, rounds := AfterRounds(hear, left, input, n - 1), Rounds(hear, left, input);
      if n <= |rounds| {
        assert r.heard + ([hear(r.rest)] + Rounds(hear, left, left(r.rest))) == r.heard + [hear(r.rest)] + Rounds(hear, left, left(r.rest));
      } else if n == |rounds| + 1 {
        assert Rounds(hear, left, r.rest) == [];
        assert r.heard + [] == r.heard;
      }
    }
  }
}
