/**
 * The wall clock seen by the limiters.  Reading it and sleeping are the only ways in which
 * time passes; both may take arbitrarily longer than asked, but time never runs backwards.
 */
module Clocks {
  import opened Prelude

  class Clock {
    var now: real

    constructor (start: real)
      ensures now == start
    {
      now := start;
    }

    method Read() returns (t: real)
      modifies this
      ensures t == now >= old(now)
    {
      var reading: real := *;
      now := Max(now, reading);
      t := now;
    }

    method Sleep(seconds: real)
      requires 0.0 <= seconds
      modifies this
      ensures now >= old(now) + seconds
    {
      var wakeUp: real := *;
      now := Max(now + seconds, wakeUp);
    }
  }
}
