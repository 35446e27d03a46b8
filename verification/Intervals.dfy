/** Runs of consecutive block or frame numbers, as sets. */
module Intervals {

  ghost function Run(start: nat, len: nat): (r: set<nat>)
    ensures forall b :: b in r <==> start <= b < start + len
  {
    if len == 0 then {} else Run(start, len - 1) + {start + len - 1}
  }
}
