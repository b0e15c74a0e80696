/**
 The batch writer (pkg/processor/batch_writer.go) over the two kinds of store it is used with: one that stores a
 batch whole or not at all, and the per-message adapter (pkg/kafka/processor_bridge.go) that stops at the first
 error with part of the batch stored. Every method but Stop is one stretch under the writer's mutex, so a run is any
 sequence of calls; Stop is two such stretches, and other calls may come between them.
 */
module BatchWriter {

  type Message = nat

  // ---------------------------------------------------------------------------------------------
  // Stores

  /** Where batches go; every call may fail at will. */
  class Store {
    const perMessage: bool
    var log: seq<Message>

    constructor (perMessage: bool)
      ensures this.perMessage == perMessage && log == []
    {
      this.perMessage := perMessage;
      log := [];
    }

    method ProduceMessage(msg: Message) returns (ok: bool)
      modifies this
      ensures log == if ok then old(log) + [msg] else old(log)
    {
      if * {
        log := log + [msg];
        ok := true;
      } else {
        ok := false;
      }
    }

    /** n of the batch's messages were stored. */
    method StoreBatch(batch: seq<Message>) returns (ok: bool, n: nat)
      requires batch != []
      modifies this
      ensures n <= |batch| && (ok <==> n == |batch|) && log == old(log) + batch[..n]
      ensures !perMessage && !ok ==> n == 0
    {
      if !perMessage {
        if * {
          log := log + batch;
          assert batch[..|batch|] == batch;
          return true, |batch|;
        } else {
          assert log + batch[..0] == log;
          return false, 0;
        }
      }
      n := 0;
      while n < |batch|
        invariant n <= |batch| && log == old(log) + batch[..n]
      {
        ok := ProduceMessage(batch[n]);
        if !ok { return false, n; }
        assert batch[..n + 1] == batch[..n] + [batch[n]];
        n := n + 1;
      }
      return true, n;
    }
  }

  // ---------------------------------------------------------------------------------------------
  // Flushes

  /** The leftovers of failed attempts: the first parts[0], then the first parts[1], ... messages of the batch. */
  function Leftovers(batch: seq<Message>, parts: seq<nat>): seq<Message> {
    if parts == [] then []
    else
      var n := parts[|parts| - 1];
      Leftovers(batch, parts[..|parts| - 1]) + (if n <= |batch| then batch[..n] else batch)
  }

  /** One finished flush: its batch, the lengths its failed attempts stored, and whether it ended in success. */
  datatype Flush = Flush(batch: seq<Message>, parts: seq<nat>, ok: bool)

  ghost predicate ValidFlush(f: Flush, maxRetries: int, perMessage: bool) {
    && f.batch != []
    && (if maxRetries < 0 then f.ok && f.parts == []
        else if f.ok then |f.parts| <= maxRetries
        else |f.parts| == maxRetries + 1)
    && (forall i :: 0 <= i < |f.parts| ==> f.parts[i] < |f.batch| && (!perMessage ==> f.parts[i] == 0))
  }

  /** What a flush appends to the store. With a negative bound the loop makes no attempt and still ends without error. */
  function Appended(f: Flush, maxRetries: int): seq<Message> {
    Leftovers(f.batch, f.parts) + (if f.ok && maxRetries >= 0 then f.batch else [])
  }

  function Replay(fs: seq<Flush>, maxRetries: int): seq<Message> {
    if fs == [] then [] else Replay(fs[..|fs| - 1], maxRetries) + Appended(fs[|fs| - 1], maxRetries)
  }

  /** The batches of the flushes that reported success, joined up. */
  function Delivered(fs: seq<Flush>): seq<Message> {
    if fs == [] then []
    else Delivered(fs[..|fs| - 1]) + (if fs[|fs| - 1].ok then fs[|fs| - 1].batch else [])
  }

  /** A batch that was not delivered stays in the buffer, so the flush after it begins with that batch. */
  ghost predicate Chained(fs: seq<Flush>, buffer: seq<Message>) {
    && (forall i :: 0 <= i < |fs| - 1 && !fs[i].ok ==> fs[i].batch <= fs[i + 1].batch)
    && (fs != [] && !fs[|fs| - 1].ok ==> fs[|fs| - 1].batch <= buffer)
  }

  /** The store holds exactly what the flushes appended, and nothing written is missing. */
  ghost predicate Books(
    log: seq<Message>, fs: seq<Flush>, written: seq<Message>, buffer: seq<Message>, maxRetries: int, perMessage: bool)
  {
    && log == Replay(fs, maxRetries)
    && written == Delivered(fs) + buffer
    && (forall i :: 0 <= i < |fs| ==> ValidFlush(fs[i], maxRetries, perMessage))
    && Chained(fs, buffer)
  }

  lemma HistoryStep(fs: seq<Flush>, f: Flush, maxRetries: int)
    ensures Replay(fs + [f], maxRetries) == Replay(fs, maxRetries) + Appended(f, maxRetries)
    ensures Delivered(fs + [f]) == if f.ok then Delivered(fs) + f.batch else Delivered(fs)
  {
    assert (fs + [f])[..|fs|] == fs;
  }

  lemma NothingMore(a: seq<Message>)
    ensures a + [] == a
  {
  }

  /** A message joins the buffer. */
  lemma Buffered(
    log: seq<Message>, fs: seq<Flush>, written: seq<Message>, buffer: seq<Message>, maxRetries: int, perMessage: bool, m: Message)
    requires Books(log, fs, written, buffer, maxRetries, perMessage)
    ensures Books(log, fs, written + [m], buffer + [m], maxRetries, perMessage)
  {
    assert written + [m] == Delivered(fs) + (buffer + [m]);
  }

  /** The buffer is flushed. */
  lemma Flushed(
    log: seq<Message>, fs: seq<Flush>, written: seq<Message>, maxRetries: int, perMessage: bool, f: Flush)
    requires Books(log, fs, written, f.batch, maxRetries, perMessage) && ValidFlush(f, maxRetries, perMessage)
    ensures Books(log + Appended(f, maxRetries), fs + [f], written, if f.ok then [] else f.batch, maxRetries, perMessage)
  {
    HistoryStep(fs, f, maxRetries);
    NothingMore(written);
  }

  /** One flush of a buffer: nothing if it is empty, otherwise one more flush of all of it, cleared on success. */
  ghost predicate FlushEffect(
    buffer: seq<Message>, fs: seq<Flush>, count: nat, buffer': seq<Message>, fs': seq<Flush>, count': nat, ok: bool)
  {
    if buffer == [] then ok && buffer' == [] && fs' == fs && count' == count
    else
      && |fs'| == |fs| + 1 && fs'[..|fs|] == fs && fs'[|fs|].batch == buffer && fs'[|fs|].ok == ok
      && buffer' == (if ok then [] else buffer)
      && count' == (if ok then count + 1 else count)
  }

  // ---------------------------------------------------------------------------------------------
  // The writer

  class Writer {
    const store: Store
    const batchSize: int
    const maxRetries: int
    var buffer: seq<Message>
    var messageCount: nat
    var batchCount: nat
    var running: bool
    /** Every message ever written, and every flush that reached the store, in order. */
    ghost var written: seq<Message>
    ghost var flushes: seq<Flush>

    /** The store is this writer's own. */
    ghost predicate Valid()
      reads this, store
    {
      Books(store.log, flushes, written, buffer, maxRetries, store.perMessage) && messageCount == |written|
    }

    constructor (store: Store, batchSize: int, maxRetries: int)
      requires store.log == []
      ensures Valid() && this.store == store && this.batchSize == batchSize && this.maxRetries == maxRetries
      ensures written == [] && flushes == [] && !running
    {
      this.store := store;
      this.batchSize := batchSize;
      this.maxRetries := maxRetries;
      buffer, messageCount, batchCount, running, written, flushes := [], 0, 0, false, [], [];
    }

    method Start() returns (ok: bool)
      requires Valid()
      modifies this`running
      ensures Valid() && ok == !old(running) && running
    {
      if running { return false; }
      running := true;
      return true;
    }

    method Write(msg: Message) returns (ok: bool)
      requires Valid()
      modifies this, store
      ensures Valid() && written == old(written) + [msg] && running == old(running)
      ensures if old(|buffer|) + 1 < batchSize
              then ok && buffer == old(buffer) + [msg] && flushes == old(flushes) && batchCount == old(batchCount)
              else FlushEffect(old(buffer) + [msg], old(flushes), old(batchCount), buffer, flushes, batchCount, ok)
    {
      Buffered(store.log, flushes, written, buffer, maxRetries, store.perMessage, msg);
      buffer := buffer + [msg];
      messageCount := messageCount + 1;
      written := written + [msg];
      if |buffer| >= batchSize {
        ok := FlushLocked();
        return ok;
      }
      return true;
    }

    /** A tick of the flush loop; its outcome is ignored there. */
    method Tick()
      requires Valid()
      modifies this, store
      ensures Valid() && written == old(written) && running == old(running)
      ensures exists ok :: FlushEffect(old(buffer), old(flushes), old(batchCount), buffer, flushes, batchCount, ok)
    {
      if |buffer| > 0 {
        var ok := FlushLocked();
      } else {
        assert FlushEffect(old(buffer), old(flushes), old(batchCount), buffer, flushes, batchCount, true);
      }
    }

    /** Stop begins: the flag is cleared; was tells whether it was set. */
    method BeginStop() returns (was: bool)
      requires Valid()
      modifies this`running
      ensures Valid() && !running && was == old(running)
    {
      was := running;
      running := false;
    }

    /** Stop ends, once the flush loop has: the final flush, of whatever is buffered by then. */
    method FinalFlush() returns (ok: bool)
      requires Valid()
      modifies this`buffer, this`batchCount, this`flushes, store
      ensures Valid() && written == old(written)
      ensures FlushEffect(old(buffer), old(flushes), old(batchCount), buffer, flushes, batchCount, ok)
      ensures ok ==> Delivered(flushes) == written
    {
      ok := FlushLocked();
      if ok { assert written == Delivered(flushes) + [] == Delivered(flushes); }
    }

    /** The whole of Stop when nothing comes between. */
    method Stop() returns (ok: bool)
      requires Valid()
      modifies this, store
      ensures Valid() && written == old(written) && !running
      ensures !old(running) ==> ok && buffer == old(buffer) && flushes == old(flushes) && batchCount == old(batchCount)
      ensures old(running) ==> FlushEffect(old(buffer), old(flushes), old(batchCount), buffer, flushes, batchCount, ok)
      ensures old(running) && ok ==> Delivered(flushes) == written
    {
      var was := BeginStop();
      if !was { return true; }
      ok := FinalFlush();
    }

    method FlushLocked() returns (ok: bool)
      requires Valid()
      modifies this`buffer, this`batchCount, this`flushes, store
      ensures Valid() && written == old(written)
      ensures FlushEffect(old(buffer), old(flushes), old(batchCount), buffer, flushes, batchCount, ok)
    {
      if |buffer| == 0 { return true; }
      ghost var log, parts := store.log, [];
      ok, parts := StoreWithRetries(buffer);
      Flushed(log, flushes, written, maxRetries, store.perMessage, Flush(buffer, parts, ok));
      flushes := flushes + [Flush(buffer, parts, ok)];
      if !ok {
        return false;
      }
      batchCount := batchCount + 1;
      buffer := [];
      return true;
    }

    /** The retry loop of flushLocked: the error of the last attempt decides, and no attempt means no error. */
    method StoreWithRetries(batch: seq<Message>) returns (ok: bool, ghost parts: seq<nat>)
      requires batch != []
      modifies store
      ensures ValidFlush(Flush(batch, parts, ok), maxRetries, store.perMessage)
      ensures store.log == old(store.log) + Appended(Flush(batch, parts, ok), maxRetries)
    {
      parts := [];
      ok := true;
      ghost var start := store.log;
      var attempt := 0;
      while attempt <= maxRetries
        invariant 0 <= attempt && (maxRetries < 0 ==> attempt == 0) && (0 <= maxRetries ==> attempt <= maxRetries + 1)
        invariant |parts| == attempt && ok == (attempt == 0)
        invariant forall i :: 0 <= i < |parts| ==> parts[i] < |batch| && (!store.perMessage ==> parts[i] == 0)
        invariant store.log == start + Leftovers(batch, parts)
        decreases maxRetries + 1 - attempt
      {
        var n;
        ok, n := store.StoreBatch(batch);
        Regroup(start, Leftovers(batch, parts), batch[..n]);
        OneMorePart(batch, parts, n);
        if ok {
          assert batch[..n] == batch;
          return;
        }
        parts := parts + [n];
        attempt := attempt + 1;
      }
      assert Appended(Flush(batch, parts, ok), maxRetries) == Leftovers(batch, parts);
    }
  }

  lemma Regroup(a: seq<Message>, b: seq<Message>, c: seq<Message>)
    ensures a + b + c == a + (b + c)
  {
  }

  lemma OneMorePart(batch: seq<Message>, parts: seq<nat>, n: nat)
    requires n <= |batch|
    ensures Leftovers(batch, parts + [n]) == Leftovers(batch, parts) + batch[..n]
  {
    assert (parts + [n])[..|parts|] == parts;
  }

  // ---------------------------------------------------------------------------------------------
  // What the histories say

  lemma {:induction false} NoLeftovers(batch: seq<Message>, parts: seq<nat>)
    requires forall i :: 0 <= i < |parts| ==> parts[i] == 0
    ensures Leftovers(batch, parts) == []
  {
    if parts != [] {
      NoLeftovers(batch, parts[..|parts| - 1]);
    }
  }

  /**
   With an all-or-nothing store and a retry bound that is not negative, the store is exactly what was delivered: with
   the buffer, exactly what was written, in order. With a negative bound it stays empty whatever is delivered.
   */
  lemma {:induction false} AtomicExactlyOnce(fs: seq<Flush>, maxRetries: int)
    requires forall i :: 0 <= i < |fs| ==> ValidFlush(fs[i], maxRetries, false)
    ensures Replay(fs, maxRetries) == if maxRetries >= 0 then Delivered(fs) else []
  {
    if fs != [] {
      var k := |fs| - 1;
      AtomicExactlyOnce(fs[..k], maxRetries);
      NoLeftovers(fs[k].batch, fs[k].parts);
      assert ValidFlush(fs[k], maxRetries, false);
      assert [] + fs[k].batch == fs[k].batch;
    }
  }

  /** At every moment between calls, with such a store and bound, stored and buffered messages are those written. */
  lemma StoredAndBuffered(w: Writer)
    requires w.Valid() && !w.store.perMessage && w.maxRetries >= 0
    ensures w.store.log + w.buffer == w.written
  {
    AtomicExactlyOnce(w.flushes, w.maxRetries);
  }

  /** How often a message is among the first n of the batch, at most as often as in the batch. */
  lemma PrefixCount(batch: seq<Message>, n: nat, m: Message)
    requires n <= |batch|
    ensures multiset(batch[..n])[m] <= multiset(batch)[m]
  {
    assert batch == batch[..n] + batch[n..];
  }

  lemma {:induction false} LeftoverCount(batch: seq<Message>, parts: seq<nat>, m: Message)
    requires forall i :: 0 <= i < |parts| ==> parts[i] <= |batch|
    ensures multiset(Leftovers(batch, parts))[m] <= |parts| * multiset(batch)[m]
  {
    if parts != [] {
      var k := |parts| - 1;
      LeftoverCount(batch, parts[..k], m);
      PrefixCount(batch, parts[k], m);
      OneMorePart(batch, parts[..k], parts[k]);
      assert parts == parts[..k] + [parts[k]];
      OneMore(k, multiset(batch)[m]);
    }
  }

  lemma OneMore(k: nat, c: nat)
    ensures k * c + c == (k + 1) * c
  {
  }

  /**
   Whichever way the attempts of a successful flush failed before: it ends with the whole batch in order, and each
   message of the batch is stored between once and MaxRetries+1 times as often as it is in the batch.
   */
  lemma FlushStoresAll(f: Flush, maxRetries: nat, perMessage: bool, m: Message)
    requires ValidFlush(f, maxRetries, perMessage) && f.ok
    ensures var a := Appended(f, maxRetries); |f.batch| <= |a| && a[|a| - |f.batch|..] == f.batch
    ensures multiset(f.batch)[m] <= multiset(Appended(f, maxRetries))[m] <= (maxRetries + 1) * multiset(f.batch)[m]
  {
    LeftoverCount(f.batch, f.parts, m);
    assert multiset(Appended(f, maxRetries))[m] == multiset(Leftovers(f.batch, f.parts))[m] + multiset(f.batch)[m];
    Times(|f.parts|, maxRetries, multiset(f.batch)[m]);
  }

  lemma {:induction false} Times(a: nat, b: nat, k: nat)
    requires a <= b
    ensures a * k + k <= (b + 1) * k
    decreases b - a
  {
  }

  /** What a successful flush of this batch stores is the batch, once. */
  ghost predicate StoredOnce(f: Flush, batch: seq<Message>, maxRetries: int, perMessage: bool) {
    ValidFlush(f, maxRetries, perMessage) && f.ok && f.batch == batch ==> Appended(f, maxRetries) == batch
  }

  /** One failed attempt that got one message through doubles that message. */
  lemma RetryDoubles(batch: seq<Message>, maxRetries: int)
    requires |batch| >= 2 && maxRetries >= 1
    ensures var f := Flush(batch, [1], true);
            && ValidFlush(f, maxRetries, true) && Appended(f, maxRetries) == [batch[0]] + batch
            && !StoredOnce(f, batch, maxRetries, true)
  {
    assert [1][..0] == [];
    assert Leftovers(batch, [1]) == [] + batch[..1] == [batch[0]];
  }

  /** With a negative bound the flush succeeds and stores nothing. */
  lemma NothingStored(batch: seq<Message>, maxRetries: int, perMessage: bool)
    requires batch != [] && maxRetries < 0
    ensures !StoredOnce(Flush(batch, [], true), batch, maxRetries, perMessage)
  {
  }

  lemma NoPartsLeft(f: Flush, maxRetries: nat, perMessage: bool)
    requires ValidFlush(f, maxRetries, perMessage) && f.ok && (!perMessage || maxRetries == 0 || |f.batch| == 1)
    ensures Appended(f, maxRetries) == f.batch
  {
    assert forall i :: 0 <= i < |f.parts| ==> f.parts[i] == 0;
    NoLeftovers(f.batch, f.parts);
    assert [] + f.batch == f.batch;
  }

  /**
   Every successful flush of a batch stores it exactly once if and only if the bound is not negative and either the
   store is all-or-nothing, or there are no retries, or the batch is a single message.
   */
  lemma StoredOnceExactly(batch: seq<Message>, maxRetries: int, perMessage: bool)
    requires batch != []
    ensures (forall f :: StoredOnce(f, batch, maxRetries, perMessage))
            <==> maxRetries >= 0 && (!perMessage || maxRetries == 0 || |batch| == 1)
  {
    if maxRetries < 0 {
      NothingStored(batch, maxRetries, perMessage);
    } else if perMessage && maxRetries > 0 && |batch| > 1 {
      RetryDoubles(batch, maxRetries);
    } else {
      forall f ensures StoredOnce(f, batch, maxRetries, perMessage) {
        if ValidFlush(f, maxRetries, perMessage) && f.ok && f.batch == batch { NoPartsLeft(f, maxRetries, perMessage); }
      }
    }
  }

  /** Any history of a writer over such a store whose last flush succeeded. */
  ghost predicate Finished(fs: seq<Flush>, maxRetries: int, perMessage: bool) {
    (forall i :: 0 <= i < |fs| ==> ValidFlush(fs[i], maxRetries, perMessage)) && Chained(fs, [])
  }

  function Repeated(n: nat): (parts: seq<nat>)
    ensures |parts| == n && forall i :: 0 <= i < n ==> parts[i] == 1
  {
    seq(n, _ => 1)
  }

  lemma {:induction false} LeftoverLength(batch: seq<Message>, n: nat)
    requires batch != []
    ensures |Leftovers(batch, Repeated(n))| == n
  {
    if n > 0 {
      LeftoverLength(batch, n - 1);
      assert Repeated(n)[..n - 1] == Repeated(n - 1);
    }
  }

  /**
   A flush whose every attempt gets one message through and fails, and the flush after it, which succeeds at once:
   the first message is there once for every attempt of the first flush and once more, with or without retries.
   */
  lemma KeptBatchDoubles(a: Message, b: Message, maxRetries: nat)
    ensures var fs := [Flush([a, b], Repeated(maxRetries + 1), false), Flush([a, b], [], true)];
            && Finished(fs, maxRetries, true) && Delivered(fs) == [a, b]
            && |Replay(fs, maxRetries)| == maxRetries + 3
  {
    var failed, done := Flush([a, b], Repeated(maxRetries + 1), false), Flush([a, b], [], true);
    assert [failed, done] == [] + [failed] + [done];
    HistoryStep([], failed, maxRetries);
    HistoryStep([] + [failed], done, maxRetries);
    LeftoverLength([a, b], maxRetries + 1);
    assert Leftovers([a, b], []) + [a, b] == [a, b] && Delivered([]) + [] + [a, b] == [a, b];
  }

  /** With a negative bound a delivered message is not stored. */
  lemma NegativeBoundLoses(a: Message, maxRetries: int, perMessage: bool)
    requires maxRetries < 0
    ensures var fs := [Flush([a], [], true)];
            Finished(fs, maxRetries, perMessage) && Delivered(fs) == [a] && Replay(fs, maxRetries) == []
  {
    assert [Flush([a], [], true)] == [] + [Flush([a], [], true)];
    HistoryStep([], Flush([a], [], true), maxRetries);
  }

  /**
   Over whole histories: after a flush that succeeded, the store holds exactly what was delivered, each message once and
   in order, if and only if the bound is not negative and the store is all-or-nothing.
   */
  lemma ExactlyOnceExactly(maxRetries: int, perMessage: bool)
    ensures (forall fs :: Finished(fs, maxRetries, perMessage) ==> Replay(fs, maxRetries) == Delivered(fs))
            <==> maxRetries >= 0 && !perMessage
  {
    if maxRetries < 0 {
      NegativeBoundLoses(0, maxRetries, perMessage);
    } else if perMessage {
      KeptBatchDoubles(0, 1, maxRetries);
    } else {
      forall fs | Finished(fs, maxRetries, perMessage) ensures Replay(fs, maxRetries) == Delivered(fs) {
        AtomicExactlyOnce(fs, maxRetries);
      }
    }
  }

  /** xs can be found in ys in order: xs[i] at position at[i]. */
  ghost predicate Embeds(xs: seq<Message>, ys: seq<Message>, at: seq<nat>) {
    && |at| == |xs|
    && (forall i :: 0 <= i < |at| ==> at[i] < |ys| && ys[at[i]] == xs[i])
    && (forall i, j :: 0 <= i < j < |at| ==> at[i] < at[j])
  }

  function Indices(from: nat, n: nat): (at: seq<nat>)
    ensures |at| == n && forall i :: 0 <= i < n ==> at[i] == from + i
  {
    seq(n, i requires 0 <= i => from + i)
  }

  /** Whatever fails in between, the delivered messages are in the store in the order they were written. */
  lemma {:induction false} DeliveredInOrder(fs: seq<Flush>, maxRetries: nat) returns (at: seq<nat>)
    ensures Embeds(Delivered(fs), Replay(fs, maxRetries), at)
  {
    if fs == [] {
      at := [];
    } else {
      var k := |fs| - 1;
      var gap := Leftovers(fs[k].batch, fs[k].parts);
      var batch := if fs[k].ok then fs[k].batch else [];
      at := DeliveredInOrder(fs[..k], maxRetries);
      assert Delivered(fs) == Delivered(fs[..k]) + batch;
      assert Replay(fs, maxRetries) == Replay(fs[..k], maxRetries) + (gap + batch);
      at := at + Indices(|Replay(fs[..k], maxRetries)| + |gap|, |batch|);
    }
  }
}
