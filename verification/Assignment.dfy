/**
  A consumer group sharing a topic's partitions: every join, leave, expired member or added partition
  triggers a rebalance, which deals the partitions out afresh in contiguous ranges.

  Assumed: ranges go to members in the order they joined, the first ones getting one more when the
  partitions do not divide evenly. A crashed member keeps its share until its session expires.
  */
module Assignment {

  // ---- dealing n partitions to m members ----

  // How many partitions the i-th member gets.
  function Load(n: nat, m: nat, i: nat): nat
    requires m > 0
  {
    n / m + if i < n % m then 1 else 0
  }

  // The first partition of the i-th member; its share ends where the next one starts.
  function ShareStart(n: nat, m: nat, i: nat): nat
    requires m > 0
  {
    if i == 0 then 0 else ShareStart(n, m, i - 1) + Load(n, m, i - 1)
  }

  predicate Owns(n: nat, m: nat, i: nat, p: nat)
    requires m > 0
  {
    ShareStart(n, m, i) <= p < ShareStart(n, m, i + 1)
  }

  lemma {:induction false} ShareStartClosed(n: nat, m: nat, i: nat)
    requires m > 0 && i <= m
    ensures ShareStart(n, m, i) == i * (n / m) + if i < n % m then i else n % m
    decreases i
  {
    if i > 0 {
      ShareStartClosed(n, m, i - 1);
      assert i * (n / m) == (i - 1) * (n / m) + n / m;
    }
  }

  // The shares add up to the topic.
  lemma {:induction false} SharesCoverAll(n: nat, m: nat)
    requires m > 0
    ensures ShareStart(n, m, m) == n
  {
    ShareStartClosed(n, m, m);
    assert m * (n / m) + n % m == n;
  }

  lemma {:induction false} ShareStartMonotone(n: nat, m: nat, i: nat, j: nat)
    requires m > 0 && i <= j
    ensures ShareStart(n, m, i) <= ShareStart(n, m, j)
    decreases j
  {
    if i < j {
      ShareStartMonotone(n, m, i, j - 1);
    }
  }

  lemma {:induction false} SomeOwner(n: nat, m: nat, p: nat, k: nat) returns (i: nat)
    requires m > 0 && p < ShareStart(n, m, k)
    ensures i < k && Owns(n, m, i, p)
    decreases k
  {
    if ShareStart(n, m, k - 1) <= p {
      i := k - 1;
    } else {
      i := SomeOwner(n, m, p, k - 1);
    }
  }

  // Every partition has exactly one owner.
  lemma {:induction false} ExactlyOneOwner(n: nat, m: nat, p: nat) returns (i: nat)
    requires m > 0 && p < n
    ensures i < m && Owns(n, m, i, p)
    ensures forall j: nat :: Owns(n, m, j, p) ==> j == i
  {
    SharesCoverAll(n, m);
    i := SomeOwner(n, m, p, m);
    forall j: nat | Owns(n, m, j, p)
      ensures j == i
    {
      if j < i {
        ShareStartMonotone(n, m, j + 1, i);
      } else if i < j {
        ShareStartMonotone(n, m, i + 1, j);
      }
    }
  }

  // Loads differ by at most one, and a member has work exactly if it is among the first
  // min(partitions, members): partitions are the ceiling on parallelism.
  lemma {:induction false} BalancedAndCapped(n: nat, m: nat, i: nat, j: nat)
    requires i < m && j < m
    ensures Load(n, m, i) <= Load(n, m, j) + 1
    ensures Load(n, m, i) > 0 <==> i < n
  {
    if n < m {
      assert n / m == 0 && n % m == n;
    } else {
      assert n / m >= 1;
    }
  }

  // ---- the group ----

  datatype State = State(
    partitions: nat,
    members: seq<nat>,     // in the group, in joining order
    crashed: set<nat>,     // members that no longer send heartbeats
    shares: seq<Share>     // the assignment of the last rebalance, one share a member
  )

  // Partitions from `first` up to, not including, `end`.
  datatype Share = Share(member: nat, first: nat, end: nat)

  datatype Event =
    | Join(member: nat)
    | Leave(member: nat)
    | Crash(member: nat)
    | Expire(member: nat)
    | AddPartitions(more: nat)

  function Deal(n: nat, members: seq<nat>): seq<Share> {
    seq(|members|, i requires 0 <= i < |members| =>
      Share(members[i], ShareStart(n, |members|, i), ShareStart(n, |members|, i + 1)))
  }

  function Rebalance(s: State): State {
    s.(shares := Deal(s.partitions, s.members))
  }

  function Remove(members: seq<nat>, member: nat): (r: seq<nat>)
    ensures forall x :: x in r <==> x in members && x != member
  {
    if members == [] then []
    else if members[0] == member then Remove(members[1..], member)
    else [members[0]] + Remove(members[1..], member)
  }

  ghost predicate Distinct(members: seq<nat>) {
    forall i, j :: 0 <= i < j < |members| ==> members[i] != members[j]
  }

  lemma {:induction false} RemoveDistinct(members: seq<nat>, member: nat)
    requires Distinct(members)
    ensures Distinct(Remove(members, member))
    decreases |members|
  {
    if members != [] {
      RemoveDistinct(members[1..], member);
      var rest := Remove(members[1..], member);
      assert members[0] !in rest;
    }
  }

  function Step(s: State, e: Event): State {
    match e
    case Join(x) =>
      if x in s.members then s else Rebalance(s.(members := s.members + [x]))
    case Leave(x) =>
      if x !in s.members || x in s.crashed then s else Rebalance(s.(members := Remove(s.members, x)))
    case Crash(x) =>
      if x in s.members then s.(crashed := s.crashed + {x}) else s
    case Expire(x) =>
      if x !in s.crashed then s
      else Rebalance(s.(members := Remove(s.members, x), crashed := s.crashed - {x}))
    case AddPartitions(more) => Rebalance(s.(partitions := s.partitions + more))
  }

  function Reach(partitions: nat, events: seq<Event>): State {
    if events == [] then State(partitions, [], {}, [])
    else Step(Reach(partitions, events[..|events| - 1]), events[|events| - 1])
  }

  ghost predicate Settled(s: State) {
    && Distinct(s.members)
    && (forall x :: x in s.crashed ==> x in s.members)
    && s.shares == Deal(s.partitions, s.members)
  }

  lemma {:induction false} AlwaysSettled(partitions: nat, events: seq<Event>)
    ensures Settled(Reach(partitions, events))
    decreases |events|
  {
    if events != [] {
      var before, e := Reach(partitions, events[..|events| - 1]), events[|events| - 1];
      AlwaysSettled(partitions, events[..|events| - 1]);
      if e.Leave? || e.Expire? {
        RemoveDistinct(before.members, e.member);
      }
    }
  }

  predicate Holds(share: Share, p: nat) {
    share.first <= p < share.end
  }

  // Members that still send heartbeats.
  function Live(s: State): set<nat> {
    set x | x in s.members && x !in s.crashed
  }

  // The share that holds a partition, and the only one.
  ghost predicate SoleOwner(s: State, i: nat, p: nat) {
    && i < |s.shares| == |s.members| && Holds(s.shares[i], p)
    && s.shares[i].member in s.members
    && (forall j :: 0 <= j < |s.shares| && j != i ==>
          !Holds(s.shares[j], p) && s.shares[j].member != s.shares[i].member)
  }

  lemma {:induction false} DealtOnce(s: State, p: nat) returns (i: nat)
    requires Settled(s) && p < s.partitions && s.members != []
    ensures SoleOwner(s, i, p)
  {
    i := ExactlyOneOwner(s.partitions, |s.members|, p);
    forall j | 0 <= j < |s.shares| && j != i
      ensures !Holds(s.shares[j], p)
    {
      assert !Owns(s.partitions, |s.members|, j, p);
    }
    assert s.shares[i].member == s.members[i];
  }

  // At every point of every run of joins, leaves, crashes and expiries: each partition belongs to
  // exactly one member of the group.
  lemma {:induction false} OneOwnerAlways(partitions: nat, events: seq<Event>, p: nat) returns (i: nat)
    requires var s := Reach(partitions, events);
             p < s.partitions && s.members != []
    ensures SoleOwner(Reach(partitions, events), i, p)
  {
    AlwaysSettled(partitions, events);
    i := DealtOnce(Reach(partitions, events), p);
  }

  lemma {:induction false} ExpiryKeepsLive(s: State, x: nat)
    ensures var t := Step(s, Expire(x));
            Live(t) == Live(s) && t.crashed == s.crashed - {x} && t.partitions == s.partitions
  {
  }

  // Expiring crashed members, in any order and any number of times, takes away nobody else.
  lemma {:induction false} ExpiriesKeepLive(partitions: nat, events: seq<Event>, expiries: seq<Event>)
    requires forall e :: e in expiries ==> e.Expire?
    ensures var s, t := Reach(partitions, events), Reach(partitions, events + expiries);
            && Live(t) == Live(s) && t.partitions == s.partitions
            && t.crashed <= s.crashed
            && (forall x :: x in t.crashed ==> Expire(x) !in expiries)
    decreases |expiries|
  {
    if expiries == [] {
      assert events + expiries == events;
    } else {
      var n := |expiries| - 1;
      assert (events + expiries)[..|events + expiries| - 1] == events + expiries[..n];
      ExpiriesKeepLive(partitions, events, expiries[..n]);
      ExpiryKeepsLive(Reach(partitions, events + expiries[..n]), expiries[n].member);
      assert expiries == expiries[..n] + [expiries[n]];
    }
  }

  // Whoever has crashed: once all of them have expired, every partition has a live owner, as long as
  // one member is left.
  lemma {:induction false} LiveOwnerAfterExpiry(partitions: nat, events: seq<Event>, expiries: seq<Event>, p: nat)
    returns (i: nat)
    requires var s := Reach(partitions, events);
             && p < s.partitions && Live(s) != {}
             && (forall x :: x in s.crashed ==> Expire(x) in expiries)
    requires forall e :: e in expiries ==> e.Expire?
    ensures var t := Reach(partitions, events + expiries);
            SoleOwner(t, i, p) && t.shares[i].member in Live(Reach(partitions, events))
  {
    ExpiriesKeepLive(partitions, events, expiries);
    var t := Reach(partitions, events + expiries);
    var x :| x in Live(t);
    i := OneOwnerAlways(partitions, events + expiries, p);
    assert t.shares[i].member in Live(t);
  }

  // A crashed member's expiry hands its partitions to the others.
  lemma {:induction false} ExpiryFreesPartitions(partitions: nat, events: seq<Event>, x: nat)
    requires x in Reach(partitions, events).crashed
    ensures var s := Reach(partitions, events + [Expire(x)]);
            forall j :: 0 <= j < |s.shares| ==> s.shares[j].member != x
  {
    assert (events + [Expire(x)])[..|events|] == events;
    AlwaysSettled(partitions, events);
  }

  lemma {:induction false} RemoveLast(members: seq<nat>, member: nat)
    requires member !in members
    ensures Remove(members + [member], member) == members
    decreases |members|
  {
    var more := members + [member];
    if members == [] {
      assert more[1..] == [];
    } else {
      assert more[1..] == members[1..] + [member];
      RemoveLast(members[1..], member);
    }
  }

  // A newcomer that leaves again, or crashes and expires, leaves the group as it was.
  lemma {:induction false} NewcomerLeavesNoTrace(partitions: nat, events: seq<Event>, x: nat)
    requires x !in Reach(partitions, events).members
    ensures var s := Reach(partitions, events);
            var joined := Step(s, Join(x));
            Step(joined, Leave(x)) == s == Step(Step(joined, Crash(x)), Expire(x))
  {
    var s := Reach(partitions, events);
    AlwaysSettled(partitions, events);
    RemoveLast(s.members, x);
    assert s.crashed + {x} - {x} == s.crashed;
  }

  // Members with at least one partition, crashed but unexpired ones included, among the first k.
  function Active(shares: seq<Share>, k: nat): nat
    requires k <= |shares|
  {
    if k == 0 then 0 else Active(shares, k - 1) + if shares[k - 1].first < shares[k - 1].end then 1 else 0
  }

  lemma {:induction false} ActiveCount(n: nat, members: seq<nat>, k: nat)
    requires k <= |members|
    ensures Active(Deal(n, members), k) == if k <= n then k else n
    decreases k
  {
    if k > 0 {
      var i := k - 1;
      ActiveCount(n, members, i);
      BalancedAndCapped(n, |members|, i, i);
      SharesAre(n, members, i);
    }
  }

  lemma {:induction false} SharesAre(n: nat, members: seq<nat>, i: nat)
    requires i < |members|
    ensures var share := Deal(n, members)[i];
            share.end == share.first + Load(n, |members|, i)
  {
  }

  // The partition ceiling, in every reachable state: exactly min(partitions, members) members hold a
  // share, and any two shares differ by at most one partition.
  lemma {:induction false} PartitionCeiling(partitions: nat, events: seq<Event>, i: nat, j: nat)
    requires i < |Reach(partitions, events).shares| && j < |Reach(partitions, events).shares|
    ensures var s := Reach(partitions, events);
            && Active(s.shares, |s.shares|) == (if |s.members| <= s.partitions then |s.members| else s.partitions)
            && s.shares[i].end - s.shares[i].first <= s.shares[j].end - s.shares[j].first + 1
  {
    var s := Reach(partitions, events);
    AlwaysSettled(partitions, events);
    ActiveCount(s.partitions, s.members, |s.members|);
    BalancedAndCapped(s.partitions, |s.members|, i, j);
    SharesAre(s.partitions, s.members, i);
    SharesAre(s.partitions, s.members, j);
  }
}
