// Runs spelled out state by state.
module Traces {
  import opened Replication

  // A run given by all the states it passes through.
  lemma {:induction false} Trace(c: Config, states: seq<State>, events: seq<Event>)
    requires |states| == |events| + 1
    requires forall i :: 0 <= i < |events| ==> states[i + 1] == Step(c, states[i], events[i])
    ensures Run(c, states[0], events) == states[|events|]
    decreases |events|
  {
    if events != [] {
      var n := |events| - 1;
      Trace(c, states[..n + 1], events[..n]);
      assert states[n + 1] == Step(c, states[n], events[n]);
    }
  }
}
