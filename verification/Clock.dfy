/** `time(NULL)` as a nondecreasing input. */
module Clocks {
  import opened Events

  /** The wall clock: it never goes back, and after the last recorded reading it holds still. */
  class Clock {
    const readings: seq<Time>
    var pos: nat
    ghost var last: Time

    ghost predicate Valid()
      reads this
    {
      && pos < |readings|
      && (forall i, j :: 0 <= i <= j < |readings| ==> 0 <= readings[i] <= readings[j])
      && last <= readings[pos]
    }

    ghost function Final(): Time
      requires |readings| > 0
    {
      readings[|readings| - 1]
    }

    constructor (readings: seq<Time>)
      requires readings != [] && forall i, j :: 0 <= i <= j < |readings| ==> 0 <= readings[i] <= readings[j]
      ensures Valid() && this.readings == readings && pos == 0
    {
      this.readings := readings;
      pos := 0;
      last := 0;
    }

    method Now() returns (t: Time)
      requires Valid()
      modifies this
      ensures Valid() && last == t && old(last) <= t && 0 <= t
      ensures t == readings[old(pos)]
      ensures pos == if old(pos) + 1 < |readings| then old(pos) + 1 else old(pos)
    {
      t := readings[pos];
      last := t;
      if pos + 1 < |readings| { pos := pos + 1; }
    }
  }
}
