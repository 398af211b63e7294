/** The process clock. */
module Clocks {

  class Clock {
    var now: int

    constructor (start: int)
      ensures now == start
    {
      now := start;
    }

    /** A clock reading: any time not before the previous one. */
    method Read() returns (t: int)
      modifies this
      ensures t == now >= old(now)
    {
      var elapsed: int :| 0 <= elapsed;
      now := now + elapsed;
      t := now;
    }
  }
}
