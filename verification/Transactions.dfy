/**
 The transactional producer (pkg/kafka/transactions.go): the manager's life cycle, the coordinator's records, and the
 batches and sequence numbers of the producer. The machine at the end interleaves their calls, each broken up where
 another object's mutex comes in.
 */
module Transactions {
  import opened Ints

  datatype TxnState = Empty | Ongoing | PrepareCommit | PrepareAbort | CompleteCommit | CompleteAbort

  datatype TopicPartition = TopicPartition(topic: string, partition: int)

  /** txn, the number of the transaction a message was sent in, is history. */
  datatype Message = Message(value: int, sequence: int, txn: int)

  datatype Batch = Batch(messages: seq<Message>, first: int, last: int)

  /** A coordinator's record; txn, the number of the transaction, is history. */
  datatype Record = Record(state: TxnState, partitions: map<string, Partitions>, updated: int, txn: nat)

  /** The partitions of one topic. */
  datatype Partitions = Partitions(list: seq<int>)

  datatype Error = AlreadyInProgress | NotOngoing | NothingToAbort | NotFound

  datatype Result = Ok | Err(error: Error)

  // ---------------------------------------------------------------------------------------------
  // Merging partition lists

  /** The first occurrences. */
  function Unique(xs: seq<int>): seq<int> {
    if xs == [] then []
    else
      var k := |xs| - 1;
      if xs[k] in xs[..k] then Unique(xs[..k]) else Unique(xs[..k]) + [xs[k]]
  }

  predicate Distinct(xs: seq<int>) {
    forall i, j :: 0 <= i < j < |xs| ==> xs[i] != xs[j]
  }

  /** The loop over the merged list, with its set of what was seen. */
  method Dedup(merged: seq<int>) returns (unique: seq<int>)
    ensures unique == Unique(merged)
  {
    unique := [];
    var seen := {};
    for i := 0 to |merged|
      invariant unique == Unique(merged[..i])
      invariant forall x :: x in seen <==> x in merged[..i]
    {
      var p := merged[i];
      assert merged[..i + 1][..i] == merged[..i];
      if p !in seen {
        unique := unique + [p];
        seen := seen + {p};
      }
    }
    assert merged[..|merged|] == merged;
  }

  /** Every number of the list, once. */
  lemma {:induction false} UniqueExactly(xs: seq<int>)
    ensures Distinct(Unique(xs)) && forall x :: x in Unique(xs) <==> x in xs
  {
    if xs != [] {
      var k := |xs| - 1;
      UniqueExactly(xs[..k]);
      assert xs == xs[..k] + [xs[k]];
    }
  }

  /** A topic that is there already gets what is new; a topic that is not gets the list as it is. */
  function MergedTopic(old_: map<string, Partitions>, t: string, more: Partitions): Partitions {
    if t in old_ then Partitions(Unique(old_[t].list + more.list)) else more
  }

  function Merged(old_: map<string, Partitions>, more: map<string, Partitions>): map<string, Partitions> {
    map t | t in old_.Keys + more.Keys :: if t in more then MergedTopic(old_, t, more[t]) else old_[t]
  }

  /** After merging, a topic has the partitions of both; a new topic may repeat some, exactly as its list did. */
  lemma MergedExactly(old_: map<string, Partitions>, more: map<string, Partitions>, t: string, p: int)
    requires t in more
    ensures t in Merged(old_, more)
    ensures p in Merged(old_, more)[t].list <==> (t in old_ && p in old_[t].list) || p in more[t].list
    ensures Distinct(Merged(old_, more)[t].list) <==> t in old_ || Distinct(more[t].list)
  {
    if t in old_ { UniqueExactly(old_[t].list + more[t].list); }
  }

  // ---------------------------------------------------------------------------------------------
  // Calls on the manager and its coordinator

  /** The manager and its coordinator; begun counts transactions begun and is history. */
  datatype Core = Core(id: string, state: TxnState, records: map<string, Record>, begun: nat)

  function BeginResult(c: Core): Result {
    if c.state.Empty? then Ok else Err(AlreadyInProgress)
  }

  function AfterBegin(c: Core, now: int): Core {
    if c.state.Empty?
    then c.(state := Ongoing, records := c.records[c.id := Record(Ongoing, map[], now, c.begun)], begun := c.begun + 1)
    else c
  }

  function AddResult(c: Core): Result {
    if !c.state.Ongoing? then Err(NotOngoing) else if c.id !in c.records then Err(NotFound) else Ok
  }

  function AfterAdd(c: Core, more: map<string, Partitions>, now: int): Core {
    if AddResult(c).Ok? && c.id in c.records then
      var r := c.records[c.id];
      c.(records := c.records[c.id := r.(partitions := Merged(r.partitions, more), updated := now)])
    else c
  }

  /** EndTransaction, on the coordinator. */
  function Ended(records: map<string, Record>, id: string, commit: bool, now: int): map<string, Record> {
    if id in records
    then records[id := records[id].(state := if commit then CompleteCommit else CompleteAbort, updated := now)]
    else records
  }

  function CommitResult(c: Core): Result {
    if !c.state.Ongoing? then Err(NotOngoing) else if c.id !in c.records then Err(NotFound) else Ok
  }

  function AfterCommit(c: Core, now: int): Core {
    if CommitResult(c).Ok? then c.(state := Empty, records := Ended(c.records, c.id, true, now)) else c
  }

  function AbortResult(c: Core): Result {
    if !c.state.Ongoing? && !c.state.PrepareCommit? then Err(NothingToAbort)
    else if c.id !in c.records then Err(NotFound)
    else Ok
  }

  /** An abort that finds no record leaves the manager in PrepareAbort. */
  function AfterAbort(c: Core, now: int): Core {
    match AbortResult(c)
    case Ok => c.(state := Empty, records := Ended(c.records, c.id, false, now))
    case Err(NotFound) => c.(state := PrepareAbort)
    case _ => c
  }

  function Unexpired(records: map<string, Record>, now: int, maxAge: int): map<string, Record> {
    map id | id in records && now - records[id].updated <= maxAge :: records[id]
  }

  class TransactionManager {
    const id: string
    var state: TxnState
    var records: map<string, Record>
    var begun: nat

    function View(): Core
      reads this
    {
      Core(id, state, records, begun)
    }

    constructor (id: string)
      ensures View() == Core(id, Empty, map[], 0)
    {
      this.id, state, records, begun := id, Empty, map[], 0;
    }

    method BeginTransaction(now: int) returns (r: Result)
      modifies this
      ensures r == BeginResult(old(View())) && View() == AfterBegin(old(View()), now)
    {
      if state != Empty {
        return Err(AlreadyInProgress);
      }
      records := records[id := Record(Ongoing, map[], now, begun)];
      state := Ongoing;
      begun := begun + 1;
      return Ok;
    }

    method AddPartitionsToTxn(more: map<string, Partitions>, now: int) returns (r: Result)
      modifies this
      ensures r == AddResult(old(View())) && View() == AfterAdd(old(View()), more, now)
    {
      if state != Ongoing {
        return Err(NotOngoing);
      }
      if id !in records {
        return Err(NotFound);
      }
      var merged := MergePartitions(records[id].partitions, more);
      records := records[id := records[id].(partitions := merged, updated := now)];
      return Ok;
    }

    static method MergePartitions(start: map<string, Partitions>, more: map<string, Partitions>) returns (all: map<string, Partitions>)
      ensures all == Merged(start, more)
    {
      all := start;
      var todo := more.Keys;
      ghost var done: map<string, Partitions> := map[];
      while todo != {}
        invariant all == Merged(start, done)
        invariant todo <= more.Keys && done.Keys == more.Keys - todo
        invariant forall t :: t in done ==> done[t] == more[t]
        decreases |todo|
      {
        var topic :| topic in todo;
        var merged := MergeTopic(all, topic, more[topic]);
        all := all[topic := merged];
        done := done[topic := more[topic]];
        todo := todo - {topic};
      }
      assert done == more;
    }

    static method MergeTopic(all: map<string, Partitions>, topic: string, more: Partitions) returns (merged: Partitions)
      ensures merged == MergedTopic(all, topic, more)
    {
      if topic in all {
        var list := Dedup(all[topic].list + more.list);
        merged := Partitions(list);
      } else {
        merged := more;
      }
    }

    method EndTransaction(commit: bool, now: int) returns (r: Result)
      modifies this`records
      ensures r == (if id in old(records) then Ok else Err(NotFound))
      ensures records == Ended(old(records), id, commit, now)
    {
      if id !in records {
        return Err(NotFound);
      }
      if commit {
        records := records[id := records[id].(state := CompleteCommit)];
      } else {
        records := records[id := records[id].(state := CompleteAbort)];
      }
      records := records[id := records[id].(updated := now)];
      return Ok;
    }

    method CommitTransaction(now: int) returns (r: Result)
      modifies this
      ensures r == CommitResult(old(View())) && View() == AfterCommit(old(View()), now)
    {
      if state != Ongoing {
        return Err(NotOngoing);
      }
      state := PrepareCommit;
      var ended := EndTransaction(true, now);
      if ended.Err? {
        state := Ongoing;
        return ended;
      }
      state := Empty;
      return Ok;
    }

    method AbortTransaction(now: int) returns (r: Result)
      modifies this
      ensures r == AbortResult(old(View())) && View() == AfterAbort(old(View()), now)
    {
      if state != Ongoing && state != PrepareCommit {
        return Err(NothingToAbort);
      }
      state := PrepareAbort;
      var ended := EndTransaction(false, now);
      if ended.Err? {
        return ended;
      }
      state := Empty;
      return Ok;
    }

    method CleanupExpiredTransactions(now: int, maxAge: int)
      modifies this`records
      ensures records == Unexpired(old(records), now, maxAge)
    {
      var todo := records.Keys;
      ghost var start := records;
      while todo != {}
        invariant todo <= start.Keys
        invariant records == map i | i in start && (i in todo || now - start[i].updated <= maxAge) :: start[i]
        decreases |todo|
      {
        var i :| i in todo;
        if now - records[i].updated > maxAge {
          records := records - {i};
        }
        todo := todo - {i};
      }
    }
  }

  // ---------------------------------------------------------------------------------------------
  // Sequence numbers and batches of one partition

  datatype Option<T> = None | Some(value: T)

  /**
   What the producer holds for a partition: the batch it fills and the next sequence number. sent, every message that
   was given a number, and flushed, every batch that was sent off, are history.
   */
  datatype Lane = Lane(batch: Option<Batch>, next: int, sent: seq<Message>, flushed: seq<Batch>)

  const NEW_LANE := Lane(None, 0, [], [])

  function Appended(l: Lane, value: int, txn: int): Lane {
    var b := if l.batch.Some? then l.batch.value else Batch([], l.next, 0);
    var m := Message(value, l.next, txn);
    Lane(Some(Batch(b.messages + [m], b.first, l.next)), Int32(l.next + 1), l.sent + [m], l.flushed)
  }

  function Flushed(l: Lane): Lane {
    if l.batch.None? then l else Lane(None, l.next, l.sent, l.flushed + [l.batch.value])
  }

  function Joined(batches: seq<Batch>): seq<Message> {
    if batches == [] then [] else Joined(batches[..|batches| - 1]) + batches[|batches| - 1].messages
  }

  /** A batch numbered from start on. */
  predicate Numbered(b: Batch, start: nat) {
    && b.messages != []
    && b.first == Int32(start) && b.last == Int32(start + |b.messages| - 1)
    && (forall i :: 0 <= i < |b.messages| ==> b.messages[i].sequence == Int32(start + i))
  }

  /** Batches numbered one after another from 0 on. */
  predicate AllNumbered(batches: seq<Batch>) {
    batches == [] ||
    (AllNumbered(batches[..|batches| - 1]) && Numbered(batches[|batches| - 1], |Joined(batches[..|batches| - 1])|))
  }

  ghost predicate LaneInv(l: Lane) {
    && l.next == Int32(|l.sent|)
    && l.sent == Joined(l.flushed) + (if l.batch.Some? then l.batch.value.messages else [])
    && AllNumbered(l.flushed)
    && (l.batch.Some? ==> Numbered(l.batch.value, |Joined(l.flushed)|))
  }

  lemma AppendedInv(l: Lane, value: int, txn: int)
    requires LaneInv(l)
    ensures LaneInv(Appended(l, value, txn))
  {
    Int32Plus(|l.sent|, 1);
    var m, before := Message(value, l.next, txn), if l.batch.Some? then l.batch.value.messages else [];
    assert Joined(l.flushed) + (before + [m]) == Joined(l.flushed) + before + [m];
  }

  /** The number of a message in its batch is the batch's first and its place, in 32 bits. */
  lemma NumberedFromFirst(b: Batch, start: nat)
    requires Numbered(b, start)
    ensures FromFirst(b)
  {
    Int32Plus(start, |b.messages| - 1);
    forall i | 0 <= i < |b.messages| ensures b.messages[i].sequence == Int32(b.first + i) { Int32Plus(start, i); }
  }

  lemma {:induction false} FlushedFromFirst(batches: seq<Batch>, b: nat)
    requires AllNumbered(batches) && b < |batches|
    ensures FromFirst(batches[b])
  {
    var k := |batches| - 1;
    if b < k {
      FlushedFromFirst(batches[..k], b);
      assert batches[..k][b] == batches[b];
    } else {
      NumberedFromFirst(batches[k], |Joined(batches[..k])|);
    }
  }

  /** Over all its batches, the n-th message of a partition has number n, in 32 bits. */
  lemma {:induction false} NumberedFromZero(batches: seq<Batch>, n: nat)
    requires AllNumbered(batches) && n < |Joined(batches)|
    ensures Joined(batches)[n].sequence == Int32(n)
  {
    var k := |batches| - 1;
    var before := |Joined(batches[..k])|;
    if n < before {
      NumberedFromZero(batches[..k], n);
    } else {
      assert Joined(batches)[n] == batches[k].messages[n - before];
    }
  }

  /** Contiguous from 0 across flushed batches and the one being filled. */
  lemma SentNumbers(l: Lane, n: nat)
    requires LaneInv(l) && n < |l.sent|
    ensures l.sent[n].sequence == Int32(n)
  {
    var before := |Joined(l.flushed)|;
    if n < before {
      NumberedFromZero(l.flushed, n);
    } else {
      assert l.sent[n] == l.batch.value.messages[n - before];
    }
  }

  class TransactionalProducer {
    const manager: TransactionManager
    var batches: map<TopicPartition, Batch>
    var sequenceNumbers: map<TopicPartition, int>
    ghost var history: map<TopicPartition, Lane>

    /** The lane of a partition; its history is kept apart. */
    ghost function LaneOf(tp: TopicPartition): Lane
      reads this
    {
      Lane(if tp in batches then Some(batches[tp]) else None, if tp in sequenceNumbers then sequenceNumbers[tp] else 0,
           HistoryOf(tp).sent, HistoryOf(tp).flushed)
    }

    ghost function HistoryOf(tp: TopicPartition): Lane
      reads this`history
    {
      if tp in history then history[tp] else NEW_LANE
    }

    constructor (id: string)
      ensures fresh(manager) && manager.View() == Core(id, Empty, map[], 0)
      ensures forall tp :: LaneOf(tp) == NEW_LANE
    {
      manager := new TransactionManager(id);
      batches, sequenceNumbers, history := map[], map[], map[];
    }

    /** A send with nothing between its two halves. */
    method SendToTransaction(tp: TopicPartition, value: int, now: int) returns (r: Result)
      modifies this, manager
      ensures !old(manager.state).Ongoing? ==>
                r == Err(NotOngoing) && manager.View() == old(manager.View()) && forall o :: LaneOf(o) == old(LaneOf(o))
      ensures old(manager.state).Ongoing? ==>
                && r == AddResult(old(manager.View()))
                && manager.View() == AfterAdd(old(manager.View()), Single(tp), now)
                && LaneOf(tp) == Appended(old(LaneOf(tp)), value, old(manager.begun) - 1)
                && (forall o :: o != tp ==> LaneOf(o) == old(LaneOf(o)))
    {
      if manager.state != Ongoing {
        return Err(NotOngoing);
      }
      Append(tp, value, manager.begun - 1);
      r := manager.AddPartitionsToTxn(map[tp.topic := Partitions([tp.partition])], now);
    }

    method Append(tp: TopicPartition, value: int, txn: int)
      modifies this
      ensures LaneOf(tp) == Appended(old(LaneOf(tp)), value, txn)
      ensures forall o :: o != tp ==> LaneOf(o) == old(LaneOf(o))
    {
      var sequence := if tp in sequenceNumbers then sequenceNumbers[tp] else 0;
      if tp !in batches {
        batches := batches[tp := Batch([], sequence, 0)];
      }
      var message := Message(value, sequence, txn);
      sequenceNumbers := sequenceNumbers[tp := Int32(sequence + 1)];
      var batch := batches[tp];
      batches := batches[tp := Batch(batch.messages + [message], batch.first, message.sequence)];
      history := history[tp := HistoryOf(tp).(sent := HistoryOf(tp).sent + [message])];
    }

    method FlushTransaction()
      modifies this
      ensures forall tp :: LaneOf(tp) == Flushed(old(LaneOf(tp)))
    {
      var todo := batches.Keys;
      while todo != {}
        modifies this`history
        invariant todo <= batches.Keys
        invariant forall tp :: HistoryOf(tp).sent == old(HistoryOf(tp)).sent
        invariant forall tp :: HistoryOf(tp).flushed
                               == if tp in batches.Keys - todo then old(HistoryOf(tp)).flushed + [batches[tp]] else old(HistoryOf(tp)).flushed
        decreases |todo|
      {
        var tp :| tp in todo;
        SendBatch(tp, batches[tp]);
        todo := todo - {tp};
      }
      batches := map[];
    }

    /** The source's sending is an empty body that never fails. */
    ghost method SendBatch(tp: TopicPartition, batch: Batch)
      modifies this`history
      ensures HistoryOf(tp) == old(HistoryOf(tp)).(flushed := old(HistoryOf(tp)).flushed + [batch])
      ensures forall o :: o != tp ==> HistoryOf(o) == old(HistoryOf(o))
    {
      history := history[tp := HistoryOf(tp).(flushed := HistoryOf(tp).flushed + [batch])];
    }
  }

  function Single(tp: TopicPartition): map<string, Partitions> {
    map[tp.topic := Partitions([tp.partition])]
  }

  // ---------------------------------------------------------------------------------------------
  // The machine: one producer, its manager and coordinator, and calls from any number of threads

  /** Who holds the manager's mutex across a call on the coordinator. */
  datatype Holder = Free | Committing | Aborting

  datatype Outcome = Outcome(txn: nat, committed: bool)

  /**
   sending is the partition of a send between its two halves, which holds the producer's mutex. ended, the outcomes in
   order, and registered, the partitions whose send in this transaction succeeded, are history.
   */
  datatype State = State(
    core: Core, holder: Holder, lanes: map<TopicPartition, Lane>, sending: Option<TopicPartition>,
    ended: seq<Outcome>, registered: set<TopicPartition>)

  datatype Action =
    | Begin(now: int)
    | AddPartitions(more: map<string, Partitions>, now: int)
    | StartCommit
    | FinishCommit(now: int)
    | StartAbort
    | FinishAbort(now: int)
    | StartSend(tp: TopicPartition, value: int)
    | FinishSend(now: int)
    | Flush
    | Cleanup(now: int, maxAge: int)

  function LaneAt(s: State, tp: TopicPartition): Lane {
    if tp in s.lanes then s.lanes[tp] else NEW_LANE
  }

  function Finish(s: State, commit: bool, now: int): State {
    var c := s.core;
    if c.id in c.records then
      s.(core := c.(state := Empty, records := Ended(c.records, c.id, commit, now)), holder := Free,
         ended := s.ended + [Outcome(c.records[c.id].txn, commit)])
    else if commit then s.(core := c.(state := Ongoing), holder := Free)
    else s.(holder := Free)
  }

  function FinishedSend(s: State, tp: TopicPartition, now: int): State {
    s.(core := AfterAdd(s.core, Single(tp), now), sending := None,
       registered := if AddResult(s.core).Ok? then s.registered + {tp} else s.registered)
  }

  function Apply(s: State, a: Action): State {
    match a
    case Begin(now) =>
      if s.holder.Free? && s.core.state.Empty? then s.(core := AfterBegin(s.core, now), registered := {}) else s
    case AddPartitions(more, now) => if s.holder.Free? then s.(core := AfterAdd(s.core, more, now)) else s
    case StartCommit =>
      if s.holder.Free? && s.core.state.Ongoing? then s.(core := s.core.(state := PrepareCommit), holder := Committing) else s
    case FinishCommit(now) => if s.holder.Committing? then Finish(s, true, now) else s
    case StartAbort =>
      if s.holder.Free? && (s.core.state.Ongoing? || s.core.state.PrepareCommit?)
      then s.(core := s.core.(state := PrepareAbort), holder := Aborting) else s
    case FinishAbort(now) => if s.holder.Aborting? then Finish(s, false, now) else s
    case StartSend(tp, value) =>
      if s.sending.None? && s.core.state.Ongoing?
      then s.(lanes := s.lanes[tp := Appended(LaneAt(s, tp), value, s.core.begun - 1)], sending := Some(tp)) else s
    case FinishSend(now) =>
      if s.sending.Some? && s.holder.Free? then FinishedSend(s, s.sending.value, now) else s
    case Flush => if s.sending.None? then s.(lanes := map tp | tp in s.lanes :: Flushed(s.lanes[tp])) else s
    case Cleanup(now, maxAge) => s.(core := s.core.(records := Unexpired(s.core.records, now, maxAge)))
  }

  function Init(id: string): State {
    State(Core(id, Empty, map[], 0), Free, map[], None, [], {})
  }

  function RunFrom(s: State, actions: seq<Action>): State {
    if actions == [] then s else Apply(RunFrom(s, actions[..|actions| - 1]), actions[|actions| - 1])
  }

  function Run(id: string, actions: seq<Action>): State {
    RunFrom(Init(id), actions)
  }

  // Numbers

  lemma {:induction false} RunLanes(id: string, actions: seq<Action>, tp: TopicPartition)
    ensures LaneInv(LaneAt(Run(id, actions), tp))
  {
    if actions != [] {
      var k := |actions| - 1;
      RunLanes(id, actions[..k], tp);
      StepLane(Run(id, actions[..k]), actions[k], tp);
    }
  }

  lemma StepLane(s: State, a: Action, tp: TopicPartition)
    requires LaneInv(LaneAt(s, tp))
    ensures LaneInv(LaneAt(Apply(s, a), tp))
  {
    var l := LaneAt(s, tp);
    if a.StartSend? { AppendedInv(l, a.value, s.core.begun - 1); }
  }

  /** Numbers 0, 1, 2, ... in 32 bits over all batches, and every batch from its first number to its last. */
  ghost predicate Contiguous(l: Lane) {
    && l.sent == Joined(l.flushed) + (if l.batch.Some? then l.batch.value.messages else [])
    && (forall n :: 0 <= n < |l.sent| ==> l.sent[n].sequence == Int32(n))
    && (forall b :: 0 <= b < |l.flushed| ==> FromFirst(l.flushed[b]))
    && (l.batch.Some? ==> FromFirst(l.batch.value))
  }

  /** A batch whose messages are numbered from its first number on, up to its last. */
  predicate FromFirst(b: Batch) {
    && b.messages != [] && b.last == Int32(b.first + |b.messages| - 1)
    && (forall i :: 0 <= i < |b.messages| ==> b.messages[i].sequence == Int32(b.first + i))
  }

  lemma LaneNumbers(l: Lane)
    requires LaneInv(l)
    ensures Contiguous(l)
  {
    forall n | 0 <= n < |l.sent| ensures l.sent[n].sequence == Int32(n) { SentNumbers(l, n); }
    forall b | 0 <= b < |l.flushed| ensures FromFirst(l.flushed[b]) { FlushedFromFirst(l.flushed, b); }
    if l.batch.Some? { NumberedFromFirst(l.batch.value, |Joined(l.flushed)|); }
  }

  /** In every run each partition's sequence numbers are contiguous from 0, across batches and transactions. */
  lemma SequencesContiguous(id: string, actions: seq<Action>, tp: TopicPartition)
    ensures Contiguous(LaneAt(Run(id, actions), tp))
  {
    RunLanes(id, actions, tp);
    LaneNumbers(LaneAt(Run(id, actions), tp));
  }

  // Life cycle

  /** A transaction is under way. */
  predicate Live(s: State) {
    s.core.state.Ongoing? || !s.holder.Free?
  }

  ghost predicate PhaseInv(s: State) {
    match s.holder
    case Free => s.core.state.Empty? || s.core.state.Ongoing? || (s.core.state.PrepareAbort? && s.core.id !in s.core.records)
    case Committing => s.core.state.PrepareCommit?
    case Aborting => s.core.state.PrepareAbort?
  }

  ghost predicate RecordInv(s: State) {
    Live(s) && s.core.id in s.core.records ==>
      var r := s.core.records[s.core.id];
      && r.state.Ongoing? && r.txn == s.core.begun - 1
      && (forall tp :: tp in s.registered ==> tp.topic in r.partitions && tp.partition in r.partitions[tp.topic].list)
  }

  ghost predicate EndedInv(s: State) {
    && (forall i, j :: 0 <= i < j < |s.ended| ==> s.ended[i].txn < s.ended[j].txn)
    && (forall i :: 0 <= i < |s.ended| ==> s.ended[i].txn < if Live(s) then s.core.begun - 1 else s.core.begun)
    && (Live(s) ==> s.core.begun > 0)
  }

  lemma StepPhase(s: State, a: Action)
    requires PhaseInv(s)
    ensures PhaseInv(Apply(s, a))
  {
  }

  lemma StepEnded(s: State, a: Action)
    requires PhaseInv(s) && RecordInv(s) && EndedInv(s)
    ensures EndedInv(Apply(s, a))
  {
  }

  lemma AddKeeps(s: State, more: map<string, Partitions>, now: int, tp: TopicPartition)
    requires s.core.id in s.core.records && AddResult(s.core).Ok?
    requires var p := s.core.records[s.core.id].partitions;
             (tp.topic in p && tp.partition in p[tp.topic].list) || (tp.topic in more && tp.partition in more[tp.topic].list)
    ensures var p := AfterAdd(s.core, more, now).records[s.core.id].partitions;
            tp.topic in p && tp.partition in p[tp.topic].list
  {
    var p := s.core.records[s.core.id].partitions;
    if tp.topic in more { MergedExactly(p, more, tp.topic, tp.partition); }
  }

  lemma StepRecord(s: State, a: Action)
    requires PhaseInv(s) && RecordInv(s)
    ensures RecordInv(Apply(s, a))
  {
    var s' := Apply(s, a);
    if Live(s') && s'.core.id in s'.core.records && (a.AddPartitions? || a.FinishSend?) && s' != s && AddResult(s.core).Ok? {
      var more := if a.AddPartitions? then a.more else Single(s.sending.value);
      forall tp | tp in s'.registered
        ensures var p := s'.core.records[s.core.id].partitions; tp.topic in p && tp.partition in p[tp.topic].list
      {
        AddKeeps(s, more, a.now, tp);
      }
    }
  }

  lemma {:induction false} RunLife(id: string, actions: seq<Action>)
    ensures var s := Run(id, actions); PhaseInv(s) && RecordInv(s) && EndedInv(s)
  {
    if actions != [] {
      var k := |actions| - 1;
      RunLife(id, actions[..k]);
      var s := Run(id, actions[..k]);
      StepPhase(s, actions[k]);
      StepRecord(s, actions[k]);
      StepEnded(s, actions[k]);
    }
  }

  /**
   In every run: with the manager's mutex free it is Empty, Ongoing or PrepareAbort; no transaction ends twice, so none
   is both committed and aborted; and while a transaction's record stands it names every partition sent to.
   */
  lemma LifeCycle(id: string, actions: seq<Action>)
    ensures var s := Run(id, actions);
            && (s.holder.Free? ==> s.core.state in {Empty, Ongoing, PrepareAbort})
            && (forall i, j :: 0 <= i < j < |s.ended| ==> s.ended[i].txn != s.ended[j].txn)
            && (forall i :: 0 <= i < |s.ended| ==> s.ended[i].txn < s.core.begun)
            && (s.core.state.Ongoing? && id in s.core.records ==>
                  forall tp :: tp in s.registered ==>
                    && tp.topic in s.core.records[id].partitions
                    && tp.partition in s.core.records[id].partitions[tp.topic].list)
  {
    RunLife(id, actions);
    SameId(id, actions);
  }

  lemma {:induction false} SameId(id: string, actions: seq<Action>)
    ensures Run(id, actions).core.id == id
  {
    if actions != [] { SameId(id, actions[..|actions| - 1]); }
  }

  ghost predicate Stuck(s: State) {
    s.holder.Free? && s.core.state.PrepareAbort? && s.core.id !in s.core.records
  }

  lemma StuckStep(s: State, a: Action)
    requires Stuck(s)
    ensures var s' := Apply(s, a);
            Stuck(s') && s'.ended == s.ended && s'.core.begun == s.core.begun && forall tp :: LaneAt(s', tp).sent == LaneAt(s, tp).sent
  {
  }

  /** Once an abort has found no record, nothing is begun, sent or ended any more. */
  lemma {:induction false} StuckForever(s: State, actions: seq<Action>)
    requires Stuck(s)
    ensures var s' := RunFrom(s, actions);
            Stuck(s') && s'.ended == s.ended && s'.core.begun == s.core.begun && forall tp :: LaneAt(s', tp).sent == LaneAt(s, tp).sent
  {
    if actions != [] {
      var k := |actions| - 1;
      StuckForever(s, actions[..k]);
      StuckStep(RunFrom(s, actions[..k]), actions[k]);
    }
  }

  ghost predicate HasRecord(s: State) {
    (Live(s) ==> s.core.id in s.core.records) && (s.holder.Free? ==> s.core.state.Empty? || s.core.state.Ongoing?)
  }

  lemma StepHasRecord(s: State, a: Action)
    requires PhaseInv(s) && HasRecord(s) && !a.Cleanup?
    ensures HasRecord(Apply(s, a))
  {
  }

  /** Without cleanups no record is ever missing, and PrepareAbort does not outlast the abort. */
  lemma {:induction false} StuckOnlyByCleanup(id: string, actions: seq<Action>)
    requires forall i :: 0 <= i < |actions| ==> !actions[i].Cleanup?
    ensures HasRecord(Run(id, actions)) && !Stuck(Run(id, actions))
  {
    if actions != [] {
      var k := |actions| - 1;
      StuckOnlyByCleanup(id, actions[..k]);
      RunLife(id, actions[..k]);
      StepHasRecord(Run(id, actions[..k]), actions[k]);
    }
  }

  lemma Then(id: string, actions: seq<Action>, a: Action)
    ensures Run(id, actions + [a]) == Apply(Run(id, actions), a)
  {
  }

  /** A run that gets stuck: the record expires before the abort. */
  lemma StuckReached(id: string)
    ensures Stuck(Run(id, [] + [Begin(0)] + [Cleanup(1, 0)] + [StartAbort] + [FinishAbort(1)]))
  {
    Then(id, [], Begin(0));
    Then(id, [] + [Begin(0)], Cleanup(1, 0));
    Then(id, [] + [Begin(0)] + [Cleanup(1, 0)], StartAbort);
    Then(id, [] + [Begin(0)] + [Cleanup(1, 0)] + [StartAbort], FinishAbort(1));
  }

  // ---------------------------------------------------------------------------------------------
  // Which transactions' messages are sent off

  predicate Has(messages: seq<Message>, txn: int) {
    exists i :: 0 <= i < |messages| && messages[i].txn == txn
  }

  /** The action sends a message to tp in that transaction. */
  predicate Sends(s: State, a: Action, tp: TopicPartition, txn: int) {
    a.StartSend? && a.tp == tp && s.sending.None? && s.core.state.Ongoing? && s.core.begun - 1 == txn
  }

  /** The action flushes, and is not kept waiting by a send. */
  predicate Flushes(s: State, a: Action) {
    a.Flush? && s.sending.None?
  }

  predicate SendsAt(id: string, actions: seq<Action>, i: nat, tp: TopicPartition, txn: int) {
    i < |actions| && Sends(Run(id, actions[..i]), actions[i], tp, txn)
  }

  predicate FlushesAt(id: string, actions: seq<Action>, j: nat) {
    j < |actions| && Flushes(Run(id, actions[..j]), actions[j])
  }

  lemma HasJoined(a: seq<Message>, b: seq<Message>, txn: int)
    ensures Has(a + b, txn) <==> Has(a, txn) || Has(b, txn)
  {
    assert forall i :: 0 <= i < |a| ==> (a + b)[i] == a[i];
    assert forall i :: 0 <= i < |b| ==> (a + b)[|a| + i] == b[i];
  }

  lemma StepSent(s: State, a: Action, tp: TopicPartition, txn: int)
    ensures Has(LaneAt(Apply(s, a), tp).sent, txn) <==> Has(LaneAt(s, tp).sent, txn) || Sends(s, a, tp, txn)
  {
    if a.StartSend? && a.tp == tp && s.sending.None? && s.core.state.Ongoing? {
      var l, m := LaneAt(s, tp), Message(a.value, LaneAt(s, tp).next, s.core.begun - 1);
      HasJoined(l.sent, [m], txn);
      assert [m][0] == m;
    }
  }

  /** A flush sends off everything sent so far, and nothing else does. */
  lemma StepSentOff(s: State, a: Action, tp: TopicPartition, txn: int)
    requires LaneInv(LaneAt(s, tp))
    ensures var l, l' := LaneAt(s, tp), LaneAt(Apply(s, a), tp);
            Has(Joined(l'.flushed), txn) <==> Has(Joined(l.flushed), txn) || (Flushes(s, a) && Has(l.sent, txn))
  {
    var l := LaneAt(s, tp);
    HasJoined(Joined(l.flushed), if l.batch.Some? then l.batch.value.messages else [], txn);
    if Flushes(s, a) && l.batch.Some? {
      assert (l.flushed + [l.batch.value])[..|l.flushed|] == l.flushed;
    }
  }

  /** There is a send to tp in that transaction. */
  predicate SomeSend(id: string, actions: seq<Action>, tp: TopicPartition, txn: int) {
    exists i :: 0 <= i < |actions| && SendsAt(id, actions, i, tp, txn)
  }

  /** There is one, and a flush after it. */
  predicate SomeSendFlushed(id: string, actions: seq<Action>, tp: TopicPartition, txn: int) {
    exists i, j :: 0 <= i < j < |actions| && SendsAt(id, actions, i, tp, txn) && FlushesAt(id, actions, j)
  }

  lemma SamePast(id: string, before: seq<Action>, a: Action, tp: TopicPartition, txn: int)
    ensures forall i :: 0 <= i < |before| ==> SendsAt(id, before + [a], i, tp, txn) == SendsAt(id, before, i, tp, txn)
    ensures forall i :: 0 <= i < |before| ==> FlushesAt(id, before + [a], i) == FlushesAt(id, before, i)
    ensures SendsAt(id, before + [a], |before|, tp, txn) == Sends(Run(id, before), a, tp, txn)
    ensures FlushesAt(id, before + [a], |before|) == Flushes(Run(id, before), a)
  {
    assert forall i :: 0 <= i <= |before| ==> (before + [a])[..i] == before[..i];
    assert before[..|before|] == before;
  }

  lemma OneMoreSend(id: string, before: seq<Action>, a: Action, tp: TopicPartition, txn: int)
    ensures SomeSend(id, before + [a], tp, txn) <==> SomeSend(id, before, tp, txn) || Sends(Run(id, before), a, tp, txn)
  {
    SamePast(id, before, a, tp, txn);
  }

  lemma OneMoreFlush(id: string, before: seq<Action>, a: Action, tp: TopicPartition, txn: int)
    ensures SomeSendFlushed(id, before + [a], tp, txn)
            <==> SomeSendFlushed(id, before, tp, txn) || (SomeSend(id, before, tp, txn) && Flushes(Run(id, before), a))
  {
    SamePast(id, before, a, tp, txn);
  }

  lemma {:induction false} SentExactly(id: string, actions: seq<Action>, tp: TopicPartition, txn: int)
    ensures Has(LaneAt(Run(id, actions), tp).sent, txn) <==> SomeSend(id, actions, tp, txn)
  {
    if actions != [] {
      var before, a := actions[..|actions| - 1], actions[|actions| - 1];
      assert actions == before + [a];
      SentExactly(id, before, tp, txn);
      StepSent(Run(id, before), a, tp, txn);
      OneMoreSend(id, before, a, tp, txn);
    }
  }

  /** Messages of a transaction are among those sent off to a partition exactly if a flush followed a send. */
  lemma {:induction false} SentOffExactly(id: string, actions: seq<Action>, tp: TopicPartition, txn: int)
    ensures Has(Joined(LaneAt(Run(id, actions), tp).flushed), txn) <==> SomeSendFlushed(id, actions, tp, txn)
  {
    if actions != [] {
      var before, a := actions[..|actions| - 1], actions[|actions| - 1];
      assert actions == before + [a];
      SentOffExactly(id, before, tp, txn);
      SentExactly(id, before, tp, txn);
      RunLanes(id, before, tp);
      StepSentOff(Run(id, before), a, tp, txn);
      OneMoreFlush(id, before, a, tp, txn);
    }
  }

  /**
   An abort keeps its transaction's messages back exactly if nothing was sent to the partition in it or no flush
   followed, before the abort or after it.
   */
  lemma AbortKeepsBackExactly(id: string, actions: seq<Action>, tp: TopicPartition, txn: nat)
    requires Outcome(txn, false) in Run(id, actions).ended
    ensures (forall m :: m in Joined(LaneAt(Run(id, actions), tp).flushed) ==> m.txn != txn)
            <==> (forall i, j :: 0 <= i < j < |actions| && SendsAt(id, actions, i, tp, txn) ==> !FlushesAt(id, actions, j))
  {
    SentOffExactly(id, actions, tp, txn);
    var out := Joined(LaneAt(Run(id, actions), tp).flushed);
    assert Has(out, txn) <==> exists m :: m in out && m.txn == txn;
  }

  /** A flush has come after the n-th send to tp. */
  predicate FlushedSince(id: string, actions: seq<Action>, tp: TopicPartition, n: nat) {
    exists j :: 0 <= j < |actions| && FlushesAt(id, actions, j) && n < |LaneAt(Run(id, actions[..j]), tp).sent|
  }

  lemma OneMoreSince(id: string, before: seq<Action>, a: Action, tp: TopicPartition, n: nat)
    ensures FlushedSince(id, before + [a], tp, n)
            <==> FlushedSince(id, before, tp, n) || (Flushes(Run(id, before), a) && n < |LaneAt(Run(id, before), tp).sent|)
  {
    SamePast(id, before, a, tp, 0);
    assert forall i :: 0 <= i <= |before| ==> (before + [a])[..i] == before[..i];
    assert before[..|before|] == before;
  }

  lemma StepFlushedCount(s: State, a: Action, tp: TopicPartition)
    requires LaneInv(LaneAt(s, tp))
    ensures var l, l' := LaneAt(s, tp), LaneAt(Apply(s, a), tp);
            |Joined(l'.flushed)| == if Flushes(s, a) then |l.sent| else |Joined(l.flushed)|
  {
    var l := LaneAt(s, tp);
    if Flushes(s, a) && l.batch.Some? {
      assert (l.flushed + [l.batch.value])[..|l.flushed|] == l.flushed;
    }
  }

  /** Message by message, whatever its transaction came to: the n-th is sent off exactly if a flush followed its send. */
  lemma {:induction false} MessageSentOffExactly(id: string, actions: seq<Action>, tp: TopicPartition, n: nat)
    ensures var l := LaneAt(Run(id, actions), tp);
            && Joined(l.flushed) <= l.sent
            && (n < |Joined(l.flushed)| <==> FlushedSince(id, actions, tp, n))
  {
    RunLanes(id, actions, tp);
    if actions != [] {
      var before, a := actions[..|actions| - 1], actions[|actions| - 1];
      assert actions == before + [a];
      MessageSentOffExactly(id, before, tp, n);
      RunLanes(id, before, tp);
      StepFlushedCount(Run(id, before), a, tp);
      OneMoreSince(id, before, a, tp, n);
    }
  }

  /** One message sent in the first transaction. */
  function OneSent(id: string, tp: TopicPartition, value: int): State {
    var m := Message(value, 0, 0);
    State(Core(id, Ongoing, map[id := Record(Ongoing, Single(tp), 0, 0)], 1), Free,
          map[tp := Lane(Some(Batch([m], 0, 0)), 1, [m], [])], None, [], {tp})
  }

  lemma OneSentReached(id: string, tp: TopicPartition, value: int)
    ensures Run(id, [] + [Begin(0)] + [StartSend(tp, value)] + [FinishSend(0)]) == OneSent(id, tp, value)
  {
    Then(id, [], Begin(0));
    Then(id, [] + [Begin(0)], StartSend(tp, value));
    Then(id, [] + [Begin(0)] + [StartSend(tp, value)], FinishSend(0));
    assert Merged(map[], Single(tp)) == Single(tp);
    assert [] + [Message(value, 0, 0)] == [Message(value, 0, 0)];
  }

  /** A message whose transaction is aborted is sent off by a flush before the abort, and by one after it. */
  lemma AbortedStillSent(id: string, tp: TopicPartition, value: int, flushFirst: bool) returns (actions: seq<Action>)
    ensures Run(id, actions).ended == [Outcome(0, false)]
    ensures LaneAt(Run(id, actions), tp).flushed == [Batch([Message(value, 0, 0)], 0, 0)]
  {
    var sent := [] + [Begin(0)] + [StartSend(tp, value)] + [FinishSend(0)];
    var x, y, z := if flushFirst then Flush else StartAbort, if flushFirst then StartAbort else FinishAbort(0),
                   if flushFirst then FinishAbort(0) else Flush;
    OneSentReached(id, tp, value);
    Then(id, sent, x);
    Then(id, sent + [x], y);
    Then(id, sent + [x] + [y], z);
    actions := sent + [x] + [y] + [z];
    assert [] + [Outcome(0, false)] == [Outcome(0, false)];
    var b := Batch([Message(value, 0, 0)], 0, 0);
    assert [] + [b] == [b];
  }

  /** A send overtaken by a commit fails, yet its message keeps its number and stays in the batch. */
  lemma LateSend(s: State, tp: TopicPartition, value: int, now: int)
    requires s.holder.Free? && s.core.state.Ongoing? && s.core.id in s.core.records && s.sending.None?
    ensures var s1 := Apply(Apply(Apply(s, StartSend(tp, value)), StartCommit), FinishCommit(now));
            var s2 := Apply(s1, FinishSend(now));
            && AddResult(s1.core) == Err(NotOngoing)
            && s2.registered == s.registered
            && s2.ended == s.ended + [Outcome(s.core.records[s.core.id].txn, true)]
            && LaneAt(s2, tp) == Appended(LaneAt(s, tp), value, s.core.begun - 1)
  {
  }
}
