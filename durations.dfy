/**
  The part of Rust's `std::time::Duration` the bot relies on: whole seconds plus a
  nanosecond remainder, `as_secs` (which drops the remainder), `from_secs`, and
  subtraction, which panics when the result would be negative.
*/
module Durations {
  import opened Wrappers
  import opened Decimal

  const NANOS_PER_SEC: nat := 1_000_000_000

  datatype Duration = Duration(secs: nat, nanos: nat) {

    /** A `Duration` holds a `u64` of seconds and fewer than a second's nanoseconds. */
    predicate Valid() {
      secs <= U64_MAX && nanos < NANOS_PER_SEC
    }

    function TotalNanos(): nat {
      secs * NANOS_PER_SEC + nanos
    }

    /** `Duration::as_secs`: whole seconds, the sub-second part dropped. */
    function AsSecs(): (s: nat)
      ensures Valid() ==> s == TotalNanos() / NANOS_PER_SEC
    {
      secs
    }
  }

  /** `Duration::new(0, 0)`, the default the bot substitutes for a missing duration. */
  const ZERO: Duration := Duration(0, 0)

  /** `Duration::from_secs`. */
  function FromSecs(s: nat): (d: Duration)
    requires s <= U64_MAX
    ensures d.Valid() && d.AsSecs() == s && d.TotalNanos() == s * NANOS_PER_SEC
  {
    Duration(s, 0)
  }

  /** `Duration::checked_sub`, borrowing a second when the nanoseconds do not suffice.
      `a - b` is this followed by a panic on `None`. */
  function CheckedSub(a: Duration, b: Duration): (r: Option<Duration>)
    requires a.Valid() && b.Valid()
    ensures r.Some? <==> b.TotalNanos() <= a.TotalNanos()
    ensures r.Some? ==> r.value.Valid() && r.value.TotalNanos() == a.TotalNanos() - b.TotalNanos()
  {
    if a.secs < b.secs then None
    else
      var secs := a.secs - b.secs;
      if a.nanos >= b.nanos then Some(Duration(secs, a.nanos - b.nanos))
      else if secs == 0 then None
      else Some(Duration(secs - 1, a.nanos + NANOS_PER_SEC - b.nanos))
  }

  /** Ordering by total length decides the whole seconds too: a shorter duration never
      shows more seconds than a longer one. */
  lemma {:induction false} ShorterHasFewerSecs(a: Duration, b: Duration)
    requires a.Valid() && b.Valid()
    requires b.TotalNanos() <= a.TotalNanos()
    ensures b.AsSecs() <= a.AsSecs()
  {
  }
}
