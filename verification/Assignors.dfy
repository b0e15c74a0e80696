/**
 The four partition assignors: round-robin and range, giving flat lists (pkg/kafka/consumer_groups.go) or lists grouped
 by topic (pkg/kafka/group_coordinator.go). Members and topics come in the order in which the maps are iterated.
 */
module Assignors {
  import opened Division
  import opened Sums

  datatype TopicPartition = TopicPartition(topic: string, partition: int)

  datatype Topic = Topic(name: string, parts: seq<int>)

  /** A member's partitions. */
  datatype Flat = Flat(list: seq<TopicPartition>)

  datatype Group = Group(topic: string, parts: seq<int>)

  datatype Groups = Groups(list: seq<Group>)

  predicate Distinct(names: seq<string>) {
    forall i, j :: 0 <= i < j < |names| ==> names[i] != names[j]
  }

  function Tagged(topic: string, parts: seq<int>): (list: seq<TopicPartition>)
    ensures |list| == |parts|
  {
    seq(|parts|, i requires 0 <= i < |parts| => TopicPartition(topic, parts[i]))
  }

  // ---------------------------------------------------------------------------------------------
  // Round-robin

  function AllOf(topics: seq<Topic>): seq<TopicPartition> {
    if topics == [] then []
    else AllOf(topics[..|topics| - 1]) + Tagged(topics[|topics| - 1].name, topics[|topics| - 1].parts)
  }

  /** Every n-th partition, from the k-th on. */
  function Dealt(all: seq<TopicPartition>, n: nat, k: nat): seq<TopicPartition>
    requires k < n
  {
    if all == [] then []
    else
      var m := |all| - 1;
      Dealt(all[..m], n, k) + (if m % n == k then [all[m]] else [])
  }

  method Collect(topics: seq<Topic>) returns (all: seq<TopicPartition>)
    ensures all == AllOf(topics)
  {
    all := [];
    for t := 0 to |topics|
      invariant all == AllOf(topics[..t])
    {
      ghost var before := all;
      var name, parts := topics[t].name, topics[t].parts;
      for i := 0 to |parts|
        invariant all == before + Tagged(name, parts[..i])
      {
        all := all + [TopicPartition(name, parts[i])];
        assert Tagged(name, parts[..i + 1]) == Tagged(name, parts[..i]) + [TopicPartition(name, parts[i])];
      }
      assert parts[..|parts|] == parts;
      assert topics[..t + 1][..t] == topics[..t];
    }
    assert topics[..|topics|] == topics;
  }

  method NoneYet(members: seq<string>) returns (assignments: map<string, Flat>)
    ensures assignments.Keys == set m | m in members
    ensures forall m :: m in assignments ==> assignments[m] == Flat([])
  {
    assignments := map[];
    for i := 0 to |members|
      invariant assignments.Keys == set m | m in members[..i]
      invariant forall m :: m in assignments ==> assignments[m] == Flat([])
    {
      assignments := assignments[members[i] := Flat([])];
      assert members[..i + 1] == members[..i] + [members[i]];
    }
    assert members[..|members|] == members;
  }

  /** RoundRobinAssignor.Assign */
  method AssignRoundRobin(members: seq<string>, topics: seq<Topic>) returns (assignments: map<string, Flat>)
    requires Distinct(members)
    ensures assignments.Keys == set m | m in members
    ensures forall k :: 0 <= k < |members| ==> assignments[members[k]] == Flat(Dealt(AllOf(topics), |members|, k))
  {
    assignments := NoneYet(members);
    var all := Collect(topics);
    var n := |members|;
    if n == 0 {
      return;
    }
    for i := 0 to |all|
      invariant assignments.Keys == set m | m in members
      invariant forall k :: 0 <= k < n ==> assignments[members[k]] == Flat(Dealt(all[..i], n, k))
    {
      var member := members[i % n];
      assignments := assignments[member := Flat(assignments[member].list + [all[i]])];
      assert all[..i + 1][..i] == all[..i];
    }
    assert all[..|all|] == all;
  }

  /** How often a partition is dealt to each of n members. */
  function DealtCounts(all: seq<TopicPartition>, n: nat, x: TopicPartition): nat -> nat {
    (k: nat) => if k < n then multiset(Dealt(all, n, k))[x] else 0
  }

  /** How often the last partition alone is dealt to each member. */
  function LastCounts(all: seq<TopicPartition>, n: nat, x: TopicPartition): nat -> nat
    requires all != []
  {
    (k: nat) => if k < n && (|all| - 1) % n == k && all[|all| - 1] == x then 1 else 0
  }

  lemma CountLast(all: seq<TopicPartition>, x: TopicPartition)
    requires all != []
    ensures multiset(all)[x] == multiset(all[..|all| - 1])[x] + (if all[|all| - 1] == x then 1 else 0)
  {
    assert all == all[..|all| - 1] + [all[|all| - 1]];
  }

  lemma OneMoreDealt(all: seq<TopicPartition>, n: nat, x: TopicPartition)
    requires all != [] && n > 0
    ensures Total(DealtCounts(all, n, x), n)
            == Total(DealtCounts(all[..|all| - 1], n, x), n) + (if all[|all| - 1] == x then 1 else 0)
  {
    var m := |all| - 1;
    TotalAdds(DealtCounts(all, n, x), DealtCounts(all[..m], n, x), LastCounts(all, n, x), n);
    TotalSingle(LastCounts(all, n, x), m % n, n);
  }

  /** Every partition goes to one member, as often as it is there. */
  lemma {:induction false} RoundRobinCovers(all: seq<TopicPartition>, n: nat, x: TopicPartition)
    requires n > 0
    ensures Total(DealtCounts(all, n, x), n) == multiset(all)[x]
  {
    if all == [] {
      TotalNothing(DealtCounts([], n, x), n);
    } else {
      RoundRobinCovers(all[..|all| - 1], n, x);
      OneMoreDealt(all, n, x);
      CountLast(all, x);
    }
  }

  lemma NextQuotient(m: nat, n: nat)
    requires n > 0
    ensures m % n == n - 1 ==> (m + 1) / n == m / n + 1 && (m + 1) % n == 0
    ensures m % n < n - 1 ==> (m + 1) / n == m / n && (m + 1) % n == m % n + 1
  {
    var q, r := m / n, m % n;
    assert m + 1 == ((m + 1) / n) * n + (m + 1) % n;
    if r == n - 1 {
      assert m + 1 == (q + 1) * n + 0;
      RemaindersAgree(n, q + 1, 0, (m + 1) / n, (m + 1) % n);
    } else {
      RemaindersAgree(n, q, r + 1, (m + 1) / n, (m + 1) % n);
    }
  }

  /** A fair share of len things among n: loads differ by at most one, the first members have the larger ones. */
  function Fair(len: nat, n: nat, k: nat): nat
    requires k < n
  {
    len / n + (if k < len % n then 1 else 0)
  }

  lemma {:induction false} DealtFairly(all: seq<TopicPartition>, n: nat, k: nat)
    requires k < n
    ensures |Dealt(all, n, k)| == Fair(|all|, n, k)
  {
    if all == [] {
      RemaindersAgree(n, 0, 0, 0 / n, 0 % n);
    } else {
      DealtFairly(all[..|all| - 1], n, k);
      NextQuotient(|all| - 1, n);
    }
  }

  /** Loads differ by at most one. */
  lemma RoundRobinFair(all: seq<TopicPartition>, n: nat, j: nat, k: nat)
    requires j < n && k < n
    ensures |Dealt(all, n, j)| <= |Dealt(all, n, k)| + 1
  {
    DealtFairly(all, n, j);
    DealtFairly(all, n, k);
  }

  // ---------------------------------------------------------------------------------------------
  // Range

  /** Where the k-th share of a topic's partitions begins. */
  function Start(len: nat, n: nat, k: nat): nat
    requires k <= n
  {
    if k == 0 then 0 else Start(len, n, k - 1) + Fair(len, n, k - 1)
  }

  lemma {:induction false} StartIs(len: nat, n: nat, k: nat)
    requires k <= n && n > 0
    ensures Start(len, n, k) == k * (len / n) + (if k < len % n then k else len % n)
  {
    if k > 0 { StartIs(len, n, k - 1); }
  }

  lemma {:induction false} StartRises(len: nat, n: nat, j: nat, k: nat)
    requires j <= k <= n
    ensures Start(len, n, j) <= Start(len, n, k)
  {
    if j < k { StartRises(len, n, j, k - 1); }
  }

  lemma StartWithin(len: nat, n: nat, k: nat)
    requires k <= n && n > 0
    ensures Start(len, n, k) <= Start(len, n, n) == len
  {
    StartRises(len, n, k, n);
    StartIs(len, n, n);
    assert n * (len / n) + len % n == len;
  }

  /** The k-th share: consecutive partitions. */
  function Share(parts: seq<int>, n: nat, k: nat): (share: seq<int>)
    requires k < n
    ensures |share| == Fair(|parts|, n, k)
  {
    StartWithin(|parts|, n, k + 1);
    parts[Start(|parts|, n, k)..Start(|parts|, n, k + 1)]
  }

  function FirstShares(parts: seq<int>, n: nat, k: nat): seq<int>
    requires k <= n
  {
    if k == 0 then [] else FirstShares(parts, n, k - 1) + Share(parts, n, k - 1)
  }

  lemma {:induction false} SharesJoin(parts: seq<int>, n: nat, k: nat)
    requires k <= n && n > 0
    ensures Start(|parts|, n, k) <= |parts| && FirstShares(parts, n, k) == parts[..Start(|parts|, n, k)]
  {
    StartWithin(|parts|, n, k);
    if k > 0 { SharesJoin(parts, n, k - 1); }
  }

  /** The shares of a topic, in order, are its partitions. */
  lemma SharesCover(parts: seq<int>, n: nat)
    requires n > 0
    ensures FirstShares(parts, n, n) == parts
  {
    SharesJoin(parts, n, n);
    StartWithin(|parts|, n, n);
  }

  /** The innermost loop: up to count partitions from start on. */
  method Take(topic: Topic, start: nat, count: nat, list: seq<TopicPartition>) returns (more: seq<TopicPartition>, current: nat)
    requires start + count <= |topic.parts|
    ensures current == start + count && more == list + Tagged(topic.name, topic.parts[start..current])
  {
    more, current := list, start;
    var j := 0;
    while j < count && current < |topic.parts|
      invariant j <= count && current == start + j
      invariant more == list + Tagged(topic.name, topic.parts[start..current])
    {
      more := more + [TopicPartition(topic.name, topic.parts[current])];
      current, j := current + 1, j + 1;
    }
  }

  function WithShare(flat: Flat, topic: Topic, n: nat, k: nat): Flat
    requires k < n
  {
    Flat(flat.list + Tagged(topic.name, Share(topic.parts, n, k)))
  }

  function Ranged(topics: seq<Topic>, n: nat, k: nat): Flat
    requires k < n
  {
    if topics == [] then Flat([])
    else WithShare(Ranged(topics[..|topics| - 1], n, k), topics[|topics| - 1], n, k)
  }

  method GiveShare(topic: Topic, n: nat, i: nat, start: nat, before: Flat) returns (flat: Flat, current: nat)
    requires i < n && start == Start(|topic.parts|, n, i)
    ensures flat == WithShare(before, topic, n, i) && current == Start(|topic.parts|, n, i + 1)
  {
    var each, remainder := |topic.parts| / n, |topic.parts| % n;
    var count := if i < remainder then each + 1 else each;
    StartWithin(|topic.parts|, n, i + 1);
    var list;
    list, current := Take(topic, start, count, before.list);
    flat := Flat(list);
  }

  method AssignTopic(members: seq<string>, topic: Topic, before: map<string, Flat>) returns (assignments: map<string, Flat>)
    requires Distinct(members) && members != [] && before.Keys == set m | m in members
    ensures assignments.Keys == before.Keys
    ensures forall k :: 0 <= k < |members| ==> assignments[members[k]] == WithShare(before[members[k]], topic, |members|, k)
  {
    assignments := before;
    var current := 0;
    for i := 0 to |members|
      invariant current == Start(|topic.parts|, |members|, i) && assignments.Keys == before.Keys
      invariant forall k :: 0 <= k < i ==> assignments[members[k]] == WithShare(before[members[k]], topic, |members|, k)
      invariant forall k :: i <= k < |members| ==> assignments[members[k]] == before[members[k]]
    {
      var flat;
      flat, current := GiveShare(topic, |members|, i, current, assignments[members[i]]);
      assignments := assignments[members[i] := flat];
    }
  }

  /** RangeAssignor.Assign */
  method AssignRange(members: seq<string>, topics: seq<Topic>) returns (assignments: map<string, Flat>)
    requires Distinct(members)
    ensures assignments.Keys == set m | m in members
    ensures forall k :: 0 <= k < |members| ==> assignments[members[k]] == Ranged(topics, |members|, k)
  {
    assignments := NoneYet(members);
    var n := |members|;
    if n == 0 {
      return;
    }
    for t := 0 to |topics|
      invariant assignments.Keys == set m | m in members
      invariant forall k :: 0 <= k < n ==> assignments[members[k]] == Ranged(topics[..t], n, k)
    {
      assignments := AssignTopic(members, topics[t], assignments);
      assert topics[..t + 1][..t] == topics[..t];
    }
    assert topics[..|topics|] == topics;
  }

  // ---------------------------------------------------------------------------------------------
  // Grouped by topic

  function Ungrouped(groups: seq<Group>): seq<TopicPartition> {
    if groups == [] then [] else Tagged(groups[0].topic, groups[0].parts) + Ungrouped(groups[1..])
  }

  /** One more partition, in its topic's group. */
  function Added(groups: seq<Group>, x: TopicPartition): seq<Group> {
    if groups == [] then [Group(x.topic, [x.partition])]
    else if groups[0].topic == x.topic then [Group(x.topic, groups[0].parts + [x.partition])] + groups[1..]
    else [groups[0]] + Added(groups[1..], x)
  }

  function Grouped(list: seq<TopicPartition>): seq<Group> {
    if list == [] then [] else Added(Grouped(list[..|list| - 1]), list[|list| - 1])
  }

  /** Added, by the place of the topic's group. */
  lemma {:induction false} AddedAt(groups: seq<Group>, x: TopicPartition, j: nat)
    requires j <= |groups| && forall i :: 0 <= i < j ==> groups[i].topic != x.topic
    requires j < |groups| ==> groups[j].topic == x.topic
    ensures Added(groups, x) == if j < |groups| then groups[j := Group(x.topic, groups[j].parts + [x.partition])]
                                else groups + [Group(x.topic, [x.partition])]
  {
    if j > 0 { AddedAt(groups[1..], x, j - 1); }
  }

  /** The search for the topic's group. */
  method AddPartition(groups: seq<Group>, x: TopicPartition) returns (r: seq<Group>)
    ensures r == Added(groups, x)
  {
    for j := 0 to |groups|
      invariant forall i :: 0 <= i < j ==> groups[i].topic != x.topic
    {
      if groups[j].topic == x.topic {
        AddedAt(groups, x, j);
        return groups[j := Group(x.topic, groups[j].parts + [x.partition])];
      }
    }
    AddedAt(groups, x, |groups|);
    return groups + [Group(x.topic, [x.partition])];
  }

  method NoGroupsYet(members: seq<string>) returns (assignments: map<string, Groups>)
    ensures assignments.Keys == set m | m in members
    ensures forall m :: m in assignments ==> assignments[m] == Groups([])
  {
    assignments := map[];
    for i := 0 to |members|
      invariant assignments.Keys == set m | m in members[..i]
      invariant forall m :: m in assignments ==> assignments[m] == Groups([])
    {
      assignments := assignments[members[i] := Groups([])];
      assert members[..i + 1] == members[..i] + [members[i]];
    }
    assert members[..|members|] == members;
  }

  /** RoundRobinRebalancePolicy.Assign, which divides by the number of members if there is a partition. */
  method RebalanceRoundRobin(members: seq<string>, topics: seq<Topic>) returns (assignments: map<string, Groups>)
    requires Distinct(members) && (members != [] || AllOf(topics) == [])
    ensures assignments.Keys == set m | m in members
    ensures forall k :: 0 <= k < |members| ==> assignments[members[k]] == Groups(Grouped(Dealt(AllOf(topics), |members|, k)))
  {
    assignments := NoGroupsYet(members);
    var all := Collect(topics);
    var n := |members|;
    for i := 0 to |all|
      invariant assignments.Keys == set m | m in members
      invariant forall k :: 0 <= k < n ==> assignments[members[k]] == Groups(Grouped(Dealt(all[..i], n, k)))
    {
      var member := members[i % n];
      var groups := AddPartition(assignments[member].list, all[i]);
      DealNext(all, n, i);
      assignments := assignments[member := Groups(groups)];
    }
    assert all[..|all|] == all;
  }

  lemma DealNext(all: seq<TopicPartition>, n: nat, i: nat)
    requires i < |all| && n > 0
    ensures Grouped(Dealt(all[..i + 1], n, i % n)) == Added(Grouped(Dealt(all[..i], n, i % n)), all[i])
    ensures forall k :: 0 <= k < n && k != i % n ==> Dealt(all[..i + 1], n, k) == Dealt(all[..i], n, k)
  {
    assert all[..i + 1][..i] == all[..i];
    var before := Dealt(all[..i], n, i % n);
    assert Dealt(all[..i + 1], n, i % n) == before + [all[i]];
    assert (before + [all[i]])[..|before|] == before;
  }

  /** A member's groups, with its share of one more topic unless that is empty. */
  function WithGroup(groups: Groups, topic: Topic, n: nat, k: nat): Groups
    requires k < n
  {
    var share := Share(topic.parts, n, k);
    if share == [] then groups else Groups(groups.list + [Group(topic.name, share)])
  }

  function RangeGroups(topics: seq<Topic>, n: nat, k: nat): Groups
    requires k < n
  {
    if topics == [] then Groups([])
    else WithGroup(RangeGroups(topics[..|topics| - 1], n, k), topics[|topics| - 1], n, k)
  }

  method GiveGroup(topic: Topic, n: nat, i: nat, start: nat, before: Groups) returns (groups: Groups, index: nat)
    requires i < n && start == Start(|topic.parts|, n, i)
    ensures groups == WithGroup(before, topic, n, i) && index == Start(|topic.parts|, n, i + 1)
  {
    groups, index := before, start;
    var each, remainder := |topic.parts| / n, |topic.parts| % n;
    var count := if i < remainder then each + 1 else each;
    StartWithin(|topic.parts|, n, i + 1);
    if count > 0 {
      var given := topic.parts[index..index + count];
      groups := Groups(groups.list + [Group(topic.name, given)]);
      index := index + count;
    }
  }

  method RebalanceTopic(members: seq<string>, topic: Topic, before: map<string, Groups>) returns (assignments: map<string, Groups>)
    requires Distinct(members) && members != [] && before.Keys == set m | m in members
    ensures assignments.Keys == before.Keys
    ensures forall k :: 0 <= k < |members| ==> assignments[members[k]] == WithGroup(before[members[k]], topic, |members|, k)
  {
    assignments := before;
    var index := 0;
    for i := 0 to |members|
      invariant index == Start(|topic.parts|, |members|, i) && assignments.Keys == before.Keys
      invariant forall k :: 0 <= k < i ==> assignments[members[k]] == WithGroup(before[members[k]], topic, |members|, k)
      invariant forall k :: i <= k < |members| ==> assignments[members[k]] == before[members[k]]
    {
      var groups;
      groups, index := GiveGroup(topic, |members|, i, index, assignments[members[i]]);
      assignments := assignments[members[i] := groups];
    }
  }

  /** RangeRebalancePolicy.Assign, which divides by the number of members if there is a topic. */
  method RebalanceRange(members: seq<string>, topics: seq<Topic>) returns (assignments: map<string, Groups>)
    requires Distinct(members) && (members != [] || topics == [])
    ensures assignments.Keys == set m | m in members
    ensures forall k :: 0 <= k < |members| ==> assignments[members[k]] == RangeGroups(topics, |members|, k)
  {
    assignments := NoGroupsYet(members);
    var n := |members|;
    for t := 0 to |topics|
      invariant assignments.Keys == set m | m in members
      invariant forall k :: 0 <= k < n ==> assignments[members[k]] == RangeGroups(topics[..t], n, k)
    {
      assignments := RebalanceTopic(members, topics[t], assignments);
      assert topics[..t + 1][..t] == topics[..t];
    }
    assert topics[..|topics|] == topics;
  }

  // ---------------------------------------------------------------------------------------------
  // The two forms agree

  lemma {:induction false} UngroupedLast(groups: seq<Group>, g: Group)
    ensures Ungrouped(groups + [g]) == Ungrouped(groups) + Tagged(g.topic, g.parts)
  {
    if groups == [] {
      assert [g][1..] == [];
    } else {
      UngroupedLast(groups[1..], g);
      assert (groups + [g])[1..] == groups[1..] + [g];
    }
  }

  /** Range: the groups, taken apart, are the flat list. */
  lemma {:induction false} RangesAgree(topics: seq<Topic>, n: nat, k: nat)
    requires k < n
    ensures Ungrouped(RangeGroups(topics, n, k).list) == Ranged(topics, n, k).list
  {
    if topics != [] {
      var t := |topics| - 1;
      RangesAgree(topics[..t], n, k);
      var share := Share(topics[t].parts, n, k);
      if share != [] {
        UngroupedLast(RangeGroups(topics[..t], n, k).list, Group(topics[t].name, share));
      }
    }
  }

  /** The partitions of one topic in a list, in order. */
  function Of(list: seq<TopicPartition>, topic: string): seq<int> {
    if list == [] then []
    else Of(list[..|list| - 1], topic) + (if list[|list| - 1].topic == topic then [list[|list| - 1].partition] else [])
  }

  /** The partitions of one topic in groups. */
  function In(groups: seq<Group>, topic: string): seq<int> {
    if groups == [] then [] else (if groups[0].topic == topic then groups[0].parts else []) + In(groups[1..], topic)
  }

  predicate HasTopic(groups: seq<Group>, topic: string) {
    groups != [] && (groups[0].topic == topic || HasTopic(groups[1..], topic))
  }

  /** No topic has two groups. */
  predicate OneEach(groups: seq<Group>) {
    groups == [] || (!HasTopic(groups[1..], groups[0].topic) && OneEach(groups[1..]))
  }

  lemma {:induction false} AddedTopics(groups: seq<Group>, x: TopicPartition, topic: string)
    ensures HasTopic(Added(groups, x), topic) <==> topic == x.topic || HasTopic(groups, topic)
  {
    if groups != [] && groups[0].topic != x.topic {
      AddedTopics(groups[1..], x, topic);
      assert ([groups[0]] + Added(groups[1..], x))[1..] == Added(groups[1..], x);
    }
  }

  lemma {:induction false} AddedOnce(groups: seq<Group>, x: TopicPartition)
    requires OneEach(groups)
    ensures OneEach(Added(groups, x))
  {
    if groups != [] && groups[0].topic != x.topic {
      AddedOnce(groups[1..], x);
      AddedTopics(groups[1..], x, groups[0].topic);
      assert ([groups[0]] + Added(groups[1..], x))[1..] == Added(groups[1..], x);
    }
  }

  lemma {:induction false} NotIn(groups: seq<Group>, topic: string)
    requires !HasTopic(groups, topic)
    ensures In(groups, topic) == []
  {
    if groups != [] { NotIn(groups[1..], topic); }
  }

  lemma {:induction false} AddedIn(groups: seq<Group>, x: TopicPartition, topic: string)
    requires OneEach(groups)
    ensures In(Added(groups, x), topic) == In(groups, topic) + (if x.topic == topic then [x.partition] else [])
  {
    if groups != [] {
      var g, others := groups[0], groups[1..];
      if g.topic == x.topic {
        NotIn(others, g.topic);
        assert ([Group(x.topic, g.parts + [x.partition])] + others)[1..] == others;
      } else {
        AddedIn(others, x, topic);
        assert ([g] + Added(others, x))[1..] == Added(others, x);
      }
    }
  }

  /** Grouping keeps each topic's partitions and their order, in one group. */
  lemma {:induction false} GroupedIn(list: seq<TopicPartition>, topic: string)
    ensures OneEach(Grouped(list)) && In(Grouped(list), topic) == Of(list, topic)
  {
    if list != [] {
      var m := |list| - 1;
      GroupedIn(list[..m], topic);
      AddedOnce(Grouped(list[..m]), list[m]);
      AddedIn(Grouped(list[..m]), list[m], topic);
    }
  }

  lemma {:induction false} OfJoined(a: seq<TopicPartition>, b: seq<TopicPartition>, topic: string)
    ensures Of(a + b, topic) == Of(a, topic) + Of(b, topic)
  {
    if b == [] {
      assert a + b == a;
    } else {
      OfJoined(a, b[..|b| - 1], topic);
      assert (a + b)[..|a| + |b| - 1] == a + b[..|b| - 1];
    }
  }

  lemma {:induction false} OfTagged(name: string, parts: seq<int>, topic: string)
    ensures Of(Tagged(name, parts), topic) == if name == topic then parts else []
  {
    if parts != [] {
      var m := |parts| - 1;
      OfTagged(name, parts[..m], topic);
      assert Tagged(name, parts)[..m] == Tagged(name, parts[..m]);
      assert parts == parts[..m] + [parts[m]];
    }
  }

  lemma {:induction false} OfUngrouped(groups: seq<Group>, topic: string)
    ensures Of(Ungrouped(groups), topic) == In(groups, topic)
  {
    if groups != [] {
      OfUngrouped(groups[1..], topic);
      OfJoined(Tagged(groups[0].topic, groups[0].parts), Ungrouped(groups[1..]), topic);
      OfTagged(groups[0].topic, groups[0].parts, topic);
    }
  }

  /** Round-robin: the groups, taken apart, are the flat list, each topic's partitions in the same order. */
  lemma RoundRobinsAgree(all: seq<TopicPartition>, n: nat, k: nat, topic: string)
    requires k < n
    ensures OneEach(Grouped(Dealt(all, n, k)))
    ensures Of(Ungrouped(Grouped(Dealt(all, n, k))), topic) == Of(Dealt(all, n, k), topic)
  {
    GroupedIn(Dealt(all, n, k), topic);
    OfUngrouped(Grouped(Dealt(all, n, k)), topic);
  }

  lemma {:induction false} CountOf(list: seq<TopicPartition>, x: TopicPartition)
    ensures multiset(list)[x] == multiset(Of(list, x.topic))[x.partition]
  {
    if list != [] {
      var m := |list| - 1;
      CountOf(list[..m], x);
      CountLast(list, x);
    }
  }

  /** Grouping loses and repeats nothing. */
  lemma GroupedCovers(list: seq<TopicPartition>, x: TopicPartition)
    ensures multiset(Ungrouped(Grouped(list)))[x] == multiset(list)[x]
  {
    GroupedIn(list, x.topic);
    OfUngrouped(Grouped(list), x.topic);
    CountOf(list, x);
    CountOf(Ungrouped(Grouped(list)), x);
  }

  // ---------------------------------------------------------------------------------------------
  // Range covers every partition once

  /** How often a partition is given to each of n members. */
  function RangedCounts(topics: seq<Topic>, n: nat, x: TopicPartition): nat -> nat {
    (k: nat) => if k < n then multiset(Ranged(topics, n, k).list)[x] else 0
  }

  /** How often it is in each share of one topic. */
  function ShareCounts(t: Topic, n: nat, x: TopicPartition): nat -> nat {
    (k: nat) => if k < n then multiset(Tagged(t.name, Share(t.parts, n, k)))[x] else 0
  }

  lemma TaggedJoined(name: string, a: seq<int>, b: seq<int>, x: TopicPartition)
    ensures multiset(Tagged(name, a + b))[x] == multiset(Tagged(name, a))[x] + multiset(Tagged(name, b))[x]
  {
    assert Tagged(name, a + b) == Tagged(name, a) + Tagged(name, b);
  }

  /** How often it is in the first k shares together. */
  function SharedCount(t: Topic, n: nat, k: nat, x: TopicPartition): nat
    requires k <= n
  {
    multiset(Tagged(t.name, FirstShares(t.parts, n, k)))[x]
  }

  lemma OneMoreShare(t: Topic, n: nat, k: nat, x: TopicPartition)
    requires k < n
    ensures SharedCount(t, n, k + 1, x) == SharedCount(t, n, k, x) + ShareCounts(t, n, x)(k)
  {
    TaggedJoined(t.name, FirstShares(t.parts, n, k), Share(t.parts, n, k), x);
  }

  lemma {:induction false} SharesTotal(t: Topic, n: nat, k: nat, x: TopicPartition)
    requires k <= n
    ensures Total(ShareCounts(t, n, x), k) == SharedCount(t, n, k, x)
  {
    if k > 0 {
      SharesTotal(t, n, k - 1, x);
      OneMoreShare(t, n, k - 1, x);
    }
  }

  lemma OneMoreTopic(topics: seq<Topic>, n: nat, x: TopicPartition)
    requires topics != [] && n > 0
    ensures var t := topics[|topics| - 1];
            Total(RangedCounts(topics, n, x), n)
            == Total(RangedCounts(topics[..|topics| - 1], n, x), n) + multiset(Tagged(t.name, t.parts))[x]
  {
    var t := topics[|topics| - 1];
    TotalAdds(RangedCounts(topics, n, x), RangedCounts(topics[..|topics| - 1], n, x), ShareCounts(t, n, x), n);
    SharesTotal(t, n, n, x);
    SharesCover(t.parts, n);
  }

  /** Every partition of every topic goes to one member, as often as it is there. */
  lemma {:induction false} RangeCovers(topics: seq<Topic>, n: nat, x: TopicPartition)
    requires n > 0
    ensures Total(RangedCounts(topics, n, x), n) == multiset(AllOf(topics))[x]
  {
    if topics == [] {
      TotalNothing(RangedCounts([], n, x), n);
    } else {
      RangeCovers(topics[..|topics| - 1], n, x);
      OneMoreTopic(topics, n, x);
    }
  }

  // ---------------------------------------------------------------------------------------------
  // The grouped forms cover every partition once, too

  function GroupedCounts(all: seq<TopicPartition>, n: nat, x: TopicPartition): nat -> nat {
    (k: nat) => if k < n then multiset(Ungrouped(Grouped(Dealt(all, n, k))))[x] else 0
  }

  function GroupedRangeCounts(topics: seq<Topic>, n: nat, x: TopicPartition): nat -> nat {
    (k: nat) => if k < n then multiset(Ungrouped(RangeGroups(topics, n, k).list))[x] else 0
  }

  lemma RebalanceRoundRobinCovers(all: seq<TopicPartition>, n: nat, x: TopicPartition)
    requires n > 0
    ensures Total(GroupedCounts(all, n, x), n) == multiset(all)[x]
  {
    RoundRobinCovers(all, n, x);
    forall k | 0 <= k < n ensures GroupedCounts(all, n, x)(k) == DealtCounts(all, n, x)(k) {
      GroupedCovers(Dealt(all, n, k), x);
    }
    TotalSame(GroupedCounts(all, n, x), DealtCounts(all, n, x), n);
  }

  lemma RebalanceRangeCovers(topics: seq<Topic>, n: nat, x: TopicPartition)
    requires n > 0
    ensures Total(GroupedRangeCounts(topics, n, x), n) == multiset(AllOf(topics))[x]
  {
    RangeCovers(topics, n, x);
    forall k | 0 <= k < n ensures GroupedRangeCounts(topics, n, x)(k) == RangedCounts(topics, n, x)(k) {
      RangesAgree(topics, n, k);
    }
    TotalSame(GroupedRangeCounts(topics, n, x), RangedCounts(topics, n, x), n);
  }

  /** Shares of one topic are consecutive partitions, in member order, and differ by at most one. */
  lemma RangeFair(parts: seq<int>, n: nat, j: nat, k: nat)
    requires j < n && k < n
    ensures |Share(parts, n, j)| <= |Share(parts, n, k)| + 1
    ensures j <= k ==> |Share(parts, n, k)| <= |Share(parts, n, j)|
    ensures Start(|parts|, n, k) + |Share(parts, n, k)| <= |parts|
    ensures Share(parts, n, k) == parts[Start(|parts|, n, k)..Start(|parts|, n, k) + |Share(parts, n, k)|]
  {
    StartWithin(|parts|, n, k + 1);
  }
}
