// The wall clock in whole seconds, `time.Now().Unix()`. It may move on by any amount
// between two readings and never moves back.

module WallClock {
  class Clock {
    var now: int

    constructor (start: int)
      ensures now == start
    {
      now := start;
    }

    method Now() returns (t: int)
      modifies this
      ensures old(now) <= now == t
    {
      t :| now <= t;
      now := t;
    }
  }
}
