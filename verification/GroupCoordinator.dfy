/**
 Consumer-group membership (pkg/kafka/group_coordinator.go): one group as a state machine whose steps are the
 calls that hold its mutex, the coordinator class that carries them out, and what every run of a group keeps.
 */
module GroupCoordinator {
  import opened Ints

  type Blob = seq<nat>

  datatype Phase = Empty | PreparingRebalance | AwaitingSync | Stable

  /** The fields of a member that joining, syncing and expiry read or write; times in nanoseconds. */
  datatype Member = Member(sessionTimeout: int, rebalanceTimeout: int, lastHeartbeat: int, metadata: Blob)

  /**
   A consumer group. epoch counts the generation bumps since the group was last empty; no step reads it, it is the
   unbounded number of which generation is the 32-bit image.
   */
  datatype Group = Group(members: map<string, Member>, leader: string, phase: Phase, generation: int, epoch: nat)

  datatype Error = GroupNotFound | GenerationMismatch | MemberNotFound

  datatype Result<T> = Ok(value: T) | Err(error: Error)

  /** The answer to a join; members are listed for the leader only. */
  datatype JoinAnswer = JoinAnswer(generation: int, leader: string, member: string, members: map<string, Blob>)

  const EMPTY_GROUP := Group(map[], "", Empty, 0, 0)

  // ---------------------------------------------------------------------------------------------
  // Steps

  function Bumped(g: Group): Group {
    g.(generation := Int32(g.generation + 1), epoch := g.epoch + 1)
  }

  function AfterJoin(g: Group, id: string, m: Member): Group {
    var bumped := if g.phase.Stable? then Bumped(g) else g;
    bumped.(members := g.members[id := m],
            leader := if g.members == map[] then id else g.leader,
            phase := AwaitingSync)
  }

  function JoinAnswerOf(g: Group, id: string): JoinAnswer {
    JoinAnswer(g.generation, g.leader, id,
               if id == g.leader then map i | i in g.members :: g.members[i].metadata else map[])
  }

  /** A sync or heartbeat must carry the current generation and name a member. */
  function Refusal(g: Group, id: string, generation: int): Result<()> {
    if g.generation != generation then Err(GenerationMismatch)
    else if id !in g.members then Err(MemberNotFound)
    else Ok(())
  }

  function Assigned(members: map<string, Member>, assignments: map<string, Blob>): map<string, Member> {
    map i | i in members :: if i in assignments then members[i].(metadata := assignments[i]) else members[i]
  }

  function AfterSync(g: Group, id: string, generation: int, assignments: map<string, Blob>): Group {
    if Refusal(g, id, generation).Ok? && id == g.leader && assignments != map[] then
      g.(members := Assigned(g.members, assignments), phase := Stable)
    else g
  }

  function SyncAnswerOf(g: Group, id: string, generation: int, assignments: map<string, Blob>): Result<Blob> {
    match Refusal(g, id, generation)
    case Err(e) => Err(e)
    case Ok(_) =>
      var g' := AfterSync(g, id, generation, assignments);
      if id in g'.members then Ok(g'.members[id].metadata) else Err(MemberNotFound)
  }

  function AfterHeartbeat(g: Group, id: string, generation: int, now: int): Group {
    if Refusal(g, id, generation).Ok? && id in g.members
    then g.(members := g.members[id := g.members[id].(lastHeartbeat := now)]) else g
  }

  /** What is left of a group after members go: nothing, or a rebalance under a leader who is still there. */
  ghost predicate Shrunk(g: Group, rest: map<string, Member>, g': Group) {
    if rest == map[] then g' == EMPTY_GROUP
    else
      && g'.leader in rest && (g.leader in rest ==> g'.leader == g.leader)
      && g' == Bumped(g).(members := rest, leader := g'.leader, phase := PreparingRebalance)
  }

  predicate Expired(m: Member, now: int) {
    now - m.lastHeartbeat > m.sessionTimeout
  }

  function Survivors(members: map<string, Member>, now: int): map<string, Member> {
    map i | i in members && !Expired(members[i], now) :: members[i]
  }

  datatype Label =
    | Join(id: string, member: Member)
    | Sync(id: string, generation: int, assignments: map<string, Blob>)
    | Heartbeat(id: string, generation: int, now: int)
    | Leave(id: string)
    | Tick(now: int)

  /** One step of a group. A new leader may be any remaining member: the source takes the first of a map iteration. */
  ghost predicate Step(g: Group, l: Label, g': Group) {
    match l
    case Join(id, m) => id != "" && g' == AfterJoin(g, id, m)
    case Sync(id, gen, assignments) => g' == AfterSync(g, id, gen, assignments)
    case Heartbeat(id, gen, now) => g' == AfterHeartbeat(g, id, gen, now)
    case Leave(id) => Shrunk(g, g.members - {id}, g')
    case Tick(now) =>
      var rest := Survivors(g.members, now);
      if rest == g.members then g' == g else Shrunk(g, rest, g')
  }

  // ---------------------------------------------------------------------------------------------
  // The coordinator

  class Coordinator {
    var groups: map<string, Group>

    ghost predicate Valid()
      reads this
    {
      forall id :: id in groups ==> Inv(groups[id])
    }

    constructor ()
      ensures Valid() && groups == map[]
    {
      groups := map[];
    }

    /** The group as a join finds it: created on demand. */
    ghost function GroupOf(id: string): Group
      reads this
    {
      if id in groups then groups[id] else EMPTY_GROUP
    }

    /** generated stands for the id made up from client, host and clock when the caller brings none. */
    method JoinGroup(groupId: string, memberId: string, generated: string, sessionTimeout: int, rebalanceTimeout: int,
                     metadata: Blob, now: int) returns (answer: JoinAnswer)
      requires Valid() && generated != ""
      modifies this
      ensures Valid()
      ensures var id := if memberId == "" then generated else memberId;
              && groups.Keys == old(groups.Keys) + {groupId}
              && (forall o :: o in old(groups) && o != groupId ==> groups[o] == old(groups[o]))
              && Step(old(GroupOf(groupId)), Join(id, Member(sessionTimeout, rebalanceTimeout, now, metadata)), groups[groupId])
              && answer == JoinAnswerOf(groups[groupId], id)
    {
      var group := if groupId in groups then groups[groupId] else EMPTY_GROUP;
      var id := if memberId == "" then generated else memberId;
      var joined;
      joined, answer := Admit(group, id, sessionTimeout, rebalanceTimeout, metadata, now);
      StepInv(group, Join(id, Member(sessionTimeout, rebalanceTimeout, now, metadata)), joined);
      groups := groups[groupId := joined];
    }

    method SyncGroup(groupId: string, memberId: string, generationId: int, assignments: map<string, Blob>)
        returns (answer: Result<Blob>)
      requires Valid()
      modifies this
      ensures Valid()
      ensures groupId !in old(groups) ==> answer == Err(GroupNotFound) && groups == old(groups)
      ensures groupId in old(groups) ==>
                && groups.Keys == old(groups.Keys)
                && groups == old(groups)[groupId := groups[groupId]]
                && Step(old(groups[groupId]), Sync(memberId, generationId, assignments), groups[groupId])
                && answer == SyncAnswerOf(old(groups[groupId]), memberId, generationId, assignments)
    {
      if groupId !in groups {
        return Err(GroupNotFound);
      }
      var group := groups[groupId];
      if group.generation != generationId {
        return Err(GenerationMismatch);
      }
      if memberId !in group.members {
        return Err(MemberNotFound);
      }
      if memberId == group.leader && |assignments| > 0 {
        var members := Distribute(group.members, assignments);
        group := group.(members := members, phase := Stable);
      }
      StepInv(groups[groupId], Sync(memberId, generationId, assignments), group);
      groups := groups[groupId := group];
      return Ok(group.members[memberId].metadata);
    }

    method HeartbeatGroup(groupId: string, memberId: string, generationId: int, now: int) returns (answer: Result<()>)
      requires Valid()
      modifies this
      ensures Valid()
      ensures groupId !in old(groups) ==> answer == Err(GroupNotFound) && groups == old(groups)
      ensures groupId in old(groups) ==>
                && groups.Keys == old(groups.Keys)
                && groups == old(groups)[groupId := groups[groupId]]
                && Step(old(groups[groupId]), Heartbeat(memberId, generationId, now), groups[groupId])
                && answer == Refusal(old(groups[groupId]), memberId, generationId)
    {
      if groupId !in groups {
        return Err(GroupNotFound);
      }
      var group := groups[groupId];
      if group.generation != generationId {
        return Err(GenerationMismatch);
      }
      if memberId !in group.members {
        return Err(MemberNotFound);
      }
      var member := group.members[memberId];
      member := member.(lastHeartbeat := now);
      group := group.(members := group.members[memberId := member]);
      StepInv(groups[groupId], Heartbeat(memberId, generationId, now), group);
      groups := groups[groupId := group];
      return Ok(());
    }

    method LeaveGroup(groupId: string, memberId: string) returns (answer: Result<()>)
      requires Valid()
      modifies this
      ensures Valid()
      ensures groupId !in old(groups) ==> answer == Err(GroupNotFound) && groups == old(groups)
      ensures groupId in old(groups) ==>
                && answer == Ok(())
                && groups.Keys == old(groups.Keys)
                && groups == old(groups)[groupId := groups[groupId]]
                && Step(old(groups[groupId]), Leave(memberId), groups[groupId])
    {
      if groupId !in groups {
        return Err(GroupNotFound);
      }
      var group := groups[groupId];
      group := group.(members := group.members - {memberId});
      if |group.members| == 0 {
        group := group.(phase := Empty, leader := "", generation := 0, epoch := 0);
      } else {
        group := group.(phase := PreparingRebalance, generation := Int32(group.generation + 1), epoch := group.epoch + 1);
        if memberId == group.leader {
          var id :| id in group.members;
          group := group.(leader := id);
        }
      }
      StepInv(groups[groupId], Leave(memberId), group);
      groups := groups[groupId := group];
      return Ok(());
    }

    /** One tick of the heartbeat checker, over every group. */
    method CheckHeartbeats(now: int)
      requires Valid()
      modifies this
      ensures Valid()
      ensures groups.Keys == old(groups.Keys)
      ensures forall id :: id in groups ==> Step(old(groups[id]), Tick(now), groups[id])
    {
      var pending := groups.Keys;
      while pending != {}
        invariant HalfTicked(old(groups), groups, pending, now)
        decreases |pending|
      {
        var id :| id in pending;
        var g := CheckGroup(groups[id], now);
        OneMoreTicked(old(groups), groups, pending, now, id, g);
        groups := groups[id := g];
        pending := pending - {id};
      }
    }
  }

  /** A tick has come to all groups but those pending. */
  ghost predicate HalfTicked(start: map<string, Group>, groups: map<string, Group>, pending: set<string>, now: int) {
    && groups.Keys == start.Keys && pending <= groups.Keys
    && (forall id :: id in groups ==> Inv(groups[id]))
    && (forall id :: id in pending ==> groups[id] == start[id])
    && (forall id :: id in groups && id !in pending ==> Step(start[id], Tick(now), groups[id]))
  }

  lemma OneMoreTicked(
    start: map<string, Group>, groups: map<string, Group>, pending: set<string>, now: int, id: string, g: Group)
    requires HalfTicked(start, groups, pending, now) && id in pending && Step(groups[id], Tick(now), g) && Inv(g)
    ensures HalfTicked(start, groups[id := g], pending - {id}, now)
  {
  }

  /** The leader's assignments, member by member. */
  method Distribute(members: map<string, Member>, assignments: map<string, Blob>) returns (r: map<string, Member>)
    ensures r == Assigned(members, assignments)
  {
    r := members;
    var pending := assignments.Keys;
    while pending != {}
      invariant pending <= assignments.Keys
      invariant r == Assigned(members, map i | i in assignments && i !in pending :: assignments[i])
      decreases |pending|
    {
      var id :| id in pending;
      if id in r {
        r := r[id := r[id].(metadata := assignments[id])];
      }
      pending := pending - {id};
    }
    assert (map i | i in assignments && i !in pending :: assignments[i]) == assignments;
  }

  /** The part of JoinGroup that runs under the group's mutex. */
  method Admit(group: Group, id: string, sessionTimeout: int, rebalanceTimeout: int, metadata: Blob, now: int)
      returns (joined: Group, answer: JoinAnswer)
    ensures joined == AfterJoin(group, id, Member(sessionTimeout, rebalanceTimeout, now, metadata))
    ensures answer == JoinAnswerOf(joined, id)
  {
    joined := group;
    if id in group.members {
      var existing := group.members[id];
      existing := existing.(lastHeartbeat := now, sessionTimeout := sessionTimeout);
      existing := existing.(rebalanceTimeout := rebalanceTimeout, metadata := metadata);
      joined := joined.(members := group.members[id := existing]);
    } else {
      if |group.members| == 0 {
        joined := joined.(leader := id);
      }
      joined := joined.(members := group.members[id := Member(sessionTimeout, rebalanceTimeout, now, metadata)]);
    }
    if joined.phase == Stable {
      joined := joined.(phase := PreparingRebalance, generation := Int32(joined.generation + 1), epoch := joined.epoch + 1);
    }
    var listed: map<string, Blob> := map[];
    if id == joined.leader {
      listed := map i | i in joined.members :: joined.members[i].metadata;
    }
    answer := JoinAnswer(joined.generation, joined.leader, id, listed);
    joined := joined.(phase := AwaitingSync);
  }

  method CheckGroup(group: Group, now: int) returns (g: Group)
    requires Inv(group)
    ensures Step(group, Tick(now), g) && Inv(g)
  {
    g := ExpireMembers(group, now);
    StepInv(group, Tick(now), g);
  }

  method ExpireMembers(group: Group, now: int) returns (g: Group)
    requires Inv(group)
    ensures Step(group, Tick(now), g)
  {
    var expired: set<string> := {};
    var pending := group.members.Keys;
    while pending != {}
      invariant pending <= group.members.Keys
      invariant expired == set i | i in group.members && i !in pending && Expired(group.members[i], now)
      decreases |pending|
    {
      var id :| id in pending;
      pending := pending - {id};
      if now - group.members[id].lastHeartbeat > group.members[id].sessionTimeout {
        expired := expired + {id};
      }
    }
    g := group;
    var members := group.members - expired;
    assert members == Survivors(group.members, now);
    if |expired| > 0 {
      var gone :| gone in expired;
      assert gone in group.members && gone !in members;
      if |members| == 0 {
        g := Group(members, "", Empty, 0, 0);
      } else {
        g := Group(members, group.leader, PreparingRebalance, Int32(group.generation + 1), group.epoch + 1);
        if !(g.leader != "" && g.leader in members) {
          var id :| id in members;
          g := g.(leader := id);
        }
      }
    } else {
      assert members == group.members;
    }
  }

  // ---------------------------------------------------------------------------------------------
  // What every state keeps

  ghost predicate Inv(g: Group) {
    && (g.members == map[] <==> g.phase.Empty?)
    && (g.members == map[] ==> g == EMPTY_GROUP)
    && (g.members != map[] ==> g.leader in g.members)
    && "" !in g.members
    && g.generation == Int32(g.epoch)
  }

  lemma StepInv(g: Group, l: Label, g': Group)
    requires Inv(g) && Step(g, l, g')
    ensures Inv(g')
  {
  }

  /** A run of one group: states, and the labels of the steps between them. */
  datatype Run = Run(states: seq<Group>, labels: seq<Label>)

  ghost predicate IsRun(r: Run) {
    && |r.states| == |r.labels| + 1
    && Inv(r.states[0])
    && forall i :: 0 <= i < |r.labels| ==> Step(r.states[i], r.labels[i], r.states[i + 1])
  }

  /** In every reachable state: no members exactly in phase Empty, and then no leader and generation 0; otherwise the leader is a member. */
  lemma {:induction false} EveryStateInv(r: Run, i: nat)
    requires IsRun(r) && i < |r.states|
    ensures Inv(r.states[i])
  {
    if i > 0 {
      EveryStateInv(r, i - 1);
      StepInv(r.states[i - 1], r.labels[i - 1], r.states[i]);
    }
  }

  /** The group is empty nowhere from state i to state j. */
  ghost predicate Alive(r: Run, i: nat, j: nat) {
    i <= j < |r.states| && forall k {:trigger r.states[k]} :: i <= k <= j ==> !r.states[k].phase.Empty?
  }

  /** One step that leaves the group alive: the epoch does not fall, and it rises if a member goes or Stable is left. */
  lemma StepEpoch(g: Group, l: Label, g': Group)
    requires Inv(g) && Step(g, l, g') && !g'.phase.Empty?
    ensures g.epoch <= g'.epoch <= g.epoch + 1
    ensures g.phase.Stable? && !g'.phase.Stable? ==> g'.epoch == g.epoch + 1
    ensures g.phase.Stable? && g'.phase.Stable? ==> g'.epoch == g.epoch && g'.members.Keys == g.members.Keys && g'.leader == g.leader
    ensures !(g.members.Keys <= g'.members.Keys) ==> g'.epoch == g.epoch + 1
    ensures l.Leave? || (l.Tick? && g' != g) ==> g'.epoch == g.epoch + 1
  {
  }

  /** Epochs never fall while the group is alive. */
  lemma {:induction false} EpochMonotone(r: Run, i: nat, j: nat)
    requires IsRun(r) && Alive(r, i, j)
    ensures r.states[i].epoch <= r.states[j].epoch <= r.states[i].epoch + (j - i)
    decreases j - i
  {
    if i < j {
      EpochMonotone(r, i, j - 1);
      EveryStateInv(r, j - 1);
      StepEpoch(r.states[j - 1], r.labels[j - 1], r.states[j]);
    }
  }

  /**
   One Stable period per generation: if two states of a living stretch are Stable with the same epoch, the group was
   Stable, with the same members and leader, in every state between them.
   */
  lemma {:induction false} OneStablePeriod(r: Run, i: nat, j: nat)
    requires IsRun(r) && Alive(r, i, j)
    requires r.states[i].phase.Stable? && r.states[j].phase.Stable? && r.states[i].epoch == r.states[j].epoch
    ensures forall k :: i <= k <= j ==>
              && r.states[k].phase.Stable? && r.states[k].epoch == r.states[i].epoch
              && r.states[k].members.Keys == r.states[i].members.Keys && r.states[k].leader == r.states[i].leader
    decreases j - i
  {
    if i < j {
      EveryStateInv(r, i);
      StepEpoch(r.states[i], r.labels[i], r.states[i + 1]);
      EpochMonotone(r, i + 1, j);
      OneStablePeriod(r, i + 1, j);
    }
  }

  /** The same seen through the 32-bit generations the members see, over stretches of fewer than 2^32 steps. */
  lemma OneStablePeriodPerGeneration(r: Run, i: nat, j: nat)
    requires IsRun(r) && Alive(r, i, j) && j - i < TWO_TO_THE_32
    requires r.states[i].phase.Stable? && r.states[j].phase.Stable? && r.states[i].generation == r.states[j].generation
    ensures forall k :: i <= k <= j ==>
              r.states[k].phase.Stable? && r.states[k].members.Keys == r.states[i].members.Keys && r.states[k].leader == r.states[i].leader
  {
    EveryStateInv(r, i);
    EveryStateInv(r, j);
    EpochMonotone(r, i, j);
    OneStablePeriod(r, i, j);
  }

  /**
   Fencing: after a member left or expired at step i of a living stretch, a sync or heartbeat carrying any generation
   issued in that stretch up to then is refused in every later state j, exactly until 2^32 bumps have brought
   the number round again.
   */
  lemma Fencing(r: Run, k: nat, i: nat, j: nat, id: string)
    requires IsRun(r) && k <= i < j && Alive(r, k, j)
    requires r.labels[i].Leave? || (r.labels[i].Tick? && r.states[i + 1] != r.states[i])
    ensures r.states[k].epoch < r.states[j].epoch
    ensures Refusal(r.states[j], id, r.states[k].generation) == Err(GenerationMismatch)
            <==> (r.states[j].epoch - r.states[k].epoch) % TWO_TO_THE_32 != 0
    ensures j - k < TWO_TO_THE_32 ==> Refusal(r.states[j], id, r.states[k].generation) == Err(GenerationMismatch)
  {
    EveryStateInv(r, k);
    EveryStateInv(r, i);
    EveryStateInv(r, j);
    EpochMonotone(r, k, i);
    StepEpoch(r.states[i], r.labels[i], r.states[i + 1]);
    EpochMonotone(r, i + 1, j);
    EpochMonotone(r, k, j);
    ImagesApart(r.states[k].epoch, r.states[j].epoch);
  }

  lemma ImagesApart(a: nat, b: nat)
    requires a < b
    ensures Int32(a) != Int32(b) <==> (b - a) % TWO_TO_THE_32 != 0
    ensures b - a < TWO_TO_THE_32 ==> Int32(a) != Int32(b)
  {
  }

  /** Emptying forgets: the group restarts at generation 0, and a sync from the member's earlier life is accepted. */
  lemma EmptyingReopensGenerations(id: string, m: Member, work: map<string, Blob>)
    requires id != "" && work != map[]
    ensures exists r: Run ::
              && IsRun(r) && |r.states| == 5
              && r.labels == [Join(id, m), Sync(id, 0, work), Leave(id), Join(id, m)]
              && r.states[2].phase.Stable? && r.states[3] == EMPTY_GROUP
              && Refusal(r.states[4], id, r.states[2].generation).Ok?
  {
    var s1 := AfterJoin(EMPTY_GROUP, id, m);
    var s2 := AfterSync(s1, id, 0, work);
    var s4 := AfterJoin(EMPTY_GROUP, id, m);
    assert s2.members.Keys == {id};
    assert s2.members - {id} == map[];
    var r := Run([EMPTY_GROUP, s1, s2, EMPTY_GROUP, s4], [Join(id, m), Sync(id, 0, work), Leave(id), Join(id, m)]);
    assert IsRun(r);
  }

  // ---------------------------------------------------------------------------------------------
  // Assignments

  /** Steps that do not touch assignments: heartbeats, and syncs that do not come from the leader with work in hand. */
  ghost predicate Passive(g: Group, l: Label) {
    l.Heartbeat? || (l.Sync? && (l.id != g.leader || l.assignments == map[]))
  }

  lemma PassiveStep(g: Group, l: Label, g': Group)
    requires Step(g, l, g') && Passive(g, l)
    ensures g'.generation == g.generation && g'.leader == g.leader && g'.members.Keys == g.members.Keys && g'.phase == g.phase
    ensures forall i :: i in g.members ==> g'.members[i].metadata == g.members[i].metadata
  {
  }

  /**
   The assignment protocol: after the leader has synced with the work, every member, at any later point of the same
   period, gets exactly the share the leader gave it; a member the leader left out gets its own join metadata back.
   */
  lemma {:induction false} AssignmentDelivered(r: Run, work: map<string, Blob>, id: string, j: nat)
    requires IsRun(r) && j < |r.labels| && work != map[]
    requires var g := r.states[0];
             r.labels[0] == Sync(g.leader, g.generation, work) && g.leader in g.members && id in g.members
    requires forall k :: 0 < k <= j ==> Passive(r.states[k], r.labels[k])
    ensures r.states[j + 1].phase.Stable? && r.states[j + 1].generation == r.states[0].generation
    ensures SyncAnswerOf(r.states[j + 1], id, r.states[0].generation, map[])
            == Ok(if id in work then work[id] else r.states[0].members[id].metadata)
    ensures id in r.states[j + 1].members && r.states[j + 1].leader == r.states[0].leader
  {
    if j > 0 {
      AssignmentDelivered(r, work, id, j - 1);
      PassiveStep(r.states[j], r.labels[j], r.states[j + 1]);
    }
  }
}
