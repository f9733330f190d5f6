// What each change of a consumer group's membership does to the assignment.
module Rebalancing {
  import opened Assignment

  // A joining member is in, nobody is put out, and it has work as long as there are enough partitions.
  lemma {:induction false} JoinTakesEffect(partitions: nat, events: seq<Event>, x: nat)
    ensures var s, t := Reach(partitions, events), Reach(partitions, events + [Join(x)]);
            && x in t.members && t.partitions == s.partitions
            && (forall y :: y in s.members ==> y in t.members)
            && (x !in s.members && |t.members| <= t.partitions ==>
                  exists i :: 0 <= i < |t.shares| && t.shares[i].member == x && t.shares[i].first < t.shares[i].end)
  {
    var s, t := Reach(partitions, events), Reach(partitions, events + [Join(x)]);
    assert (events + [Join(x)])[..|events|] == events;
    AlwaysSettled(partitions, events + [Join(x)]);
    if x !in s.members && |t.members| <= t.partitions {
      var i := |s.members|;
      SharesAre(t.partitions, t.members, i);
      BalancedAndCapped(t.partitions, |t.members|, i, i);
      assert t.shares[i].member == x;
    }
  }

  // A leaving member is out and owns nothing; all others stay.
  lemma {:induction false} LeaveTakesEffect(partitions: nat, events: seq<Event>, x: nat)
    requires x !in Reach(partitions, events).crashed
    ensures var s, t := Reach(partitions, events), Reach(partitions, events + [Leave(x)]);
            && x !in t.members && t.partitions == s.partitions && Live(t) == Live(s) - {x}
            && (forall y :: y in s.members && y != x ==> y in t.members)
            && (forall i :: 0 <= i < |t.shares| ==> t.shares[i].member != x)
  {
    assert (events + [Leave(x)])[..|events|] == events;
    AlwaysSettled(partitions, events);
    AlwaysSettled(partitions, events + [Leave(x)]);
  }

  // A crash alone moves no partition: until the session expires the dead member's share stays with it.
  lemma {:induction false} CrashMovesNothing(partitions: nat, events: seq<Event>, x: nat)
    ensures var s, t := Reach(partitions, events), Reach(partitions, events + [Crash(x)]);
            && t.shares == s.shares && t.members == s.members && t.partitions == s.partitions
            && Live(t) == Live(s) - {x}
  {
    assert (events + [Crash(x)])[..|events|] == events;
  }

  // Added partitions are there, and each of them has exactly one owner if there is any member.
  lemma {:induction false} AddedAreOwned(partitions: nat, events: seq<Event>, more: nat, p: nat) returns (i: nat)
    requires p < Reach(partitions, events).partitions + more && Reach(partitions, events).members != []
    ensures var s, t := Reach(partitions, events), Reach(partitions, events + [AddPartitions(more)]);
            && t.partitions == s.partitions + more && t.members == s.members && t.crashed == s.crashed
            && SoleOwner(t, i, p)
  {
    assert (events + [AddPartitions(more)])[..|events|] == events;
    i := OneOwnerAlways(partitions, events + [AddPartitions(more)], p);
  }
}
