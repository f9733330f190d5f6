// What the other modules share.
module Basics {

  datatype Option<+T> = None | Some(value: T)

  // A counter kept per key; a key never counted stands at zero.
  function Tally(m: map<nat, nat>, key: nat): nat {
    if key in m then m[key] else 0
  }

  // The naturals from lo up to, not including, hi.
  function Range(lo: nat, hi: nat): (r: set<nat>)
    ensures forall o: nat :: o in r <==> lo <= o < hi
    decreases hi - lo
  {
    if lo >= hi then {} else {lo} + Range(lo + 1, hi)
  }
}
