/** The sweep every timestamp table of the program runs: delete what was last seen before a cutoff. */
module Sweeping {
  function Kept(seen: map<string, int>, cutoff: int): map<string, int> {
    map k | k in seen && !(seen[k] < cutoff) :: seen[k]
  }

  /** A loop over the map, in any order, that deletes from the map it loops over. */
  method Expire(seen: map<string, int>, cutoff: int) returns (kept: map<string, int>)
    ensures kept == Kept(seen, cutoff)
  {
    kept := seen;
    var rest := seen.Keys;
    while rest != {}
      invariant rest <= kept.Keys
      invariant kept == map k | k in seen && (k in rest || !(seen[k] < cutoff)) :: seen[k]
    {
      var key :| key in rest;
      rest := rest - {key};
      if kept[key] < cutoff {
        kept := kept - {key};
      }
    }
  }
}
