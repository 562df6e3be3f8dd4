/** The limiter that spaces AcoustID lookup starts at least 334 milliseconds apart. */
module LookupLimiter {
  import opened Basics

  // Nanoseconds.
  const SECOND: nat := 1_000_000_000
  const INTERVAL: nat := 334_000_000

  datatype Wait = Granted(at: nat) | Cancelled | ClockOverflow | StillWaiting

  /** The i-th reading of a clock. */
  function Reading(clock: nat -> nat, i: nat): nat {
    clock(i)
  }

  /** The readings of a clock that never goes back. */
  ghost predicate Monotone(clock: nat -> nat) {
    forall i, j :: i <= j ==> Reading(clock, i) <= Reading(clock, j)
  }

  /** Lookups start at later and later readings, and every two neighbours are an interval apart. */
  ghost predicate Spaced(clock: nat -> nat, starts: seq<nat>) {
    forall i :: 0 <= i < |starts| - 1 ==>
      starts[i] < starts[i + 1] && Reading(clock, starts[i]) + INTERVAL <= Reading(clock, starts[i + 1])
  }

  /** Every reading from position `lo` up to `hi` came before the instant. */
  ghost predicate Before(clock: nat -> nat, lo: nat, hi: int, instant: nat) {
    forall k :: lo <= k < hi ==> Reading(clock, k) < instant
  }

  lemma BeforeLess(clock: nat -> nat, lo: nat, hi: nat, less: int, instant: nat)
    requires Before(clock, lo, hi, instant) && less <= hi
    ensures Before(clock, lo, less, instant)
  {
  }

  lemma BeforeNext(clock: nat -> nat, lo: nat, hi: nat, instant: nat)
    requires Before(clock, lo, hi, instant) && Reading(clock, hi) < instant
    ensures Before(clock, lo, hi + 1, instant)
  {
  }

  lemma Onward(clock: nat -> nat, i: nat, j: nat)
    requires Monotone(clock) && i <= j
    ensures Reading(clock, i) <= Reading(clock, j)
  {
  }

  lemma SpacedNext(clock: nat -> nat, starts: seq<nat>, next: nat)
    requires Spaced(clock, starts)
    requires starts != [] ==> starts[|starts| - 1] < next && Reading(clock, starts[|starts| - 1]) + INTERVAL <= Reading(clock, next)
    ensures Spaced(clock, starts + [next])
  {
  }

  /** The limiter owns its clock: `clock` gives each reading, `ticks` is how many were made. */
  class Limiter {
    const clock: nat -> nat
    var ticks: nat
    var last: Option<nat>
    /** The readings at which lookups started. */
    ghost var starts: seq<nat>

    ghost predicate Valid()
      reads this
    {
      && Monotone(clock) && Spaced(clock, starts)
      && (forall i :: 0 <= i < |starts| ==> starts[i] < ticks)
      && last == if starts == [] then None else Some(Reading(clock, starts[|starts| - 1]))
    }

    constructor (clock: nat -> nat)
      requires Monotone(clock)
      ensures Valid() && this.clock == clock && ticks == 0 && starts == []
    {
      this.clock := clock;
      ticks, last, starts := 0, None, [];
    }

    /**
     The loop of a wait: `None` when the interval has passed, else why it ended before that. `cancelled`
     are the looks that find the cancellation flag set, `looks` is how many were made, `maximum` is the
     largest instant, and after `rounds` rounds the wait is no longer observed.
     */
    method AwaitTurn(cancelled: set<nat>, maximum: nat, rounds: nat) returns (early: Option<Wait>, looks: nat)
      requires Valid()
      modifies this`ticks
      ensures Valid()
      ensures 0 < looks <= rounds + 1 && forall k: nat :: k < looks - 1 ==> k !in cancelled
      ensures early == Some(Cancelled) <==> looks - 1 in cancelled
      ensures early == Some(ClockOverflow) <==> 0 !in cancelled && last.Some? && last.value + INTERVAL > maximum
      ensures early == Some(ClockOverflow) || (early.Some? && last.None?) ==> looks == 1
      ensures early.Some? ==>
        && early.value in {Cancelled, ClockOverflow, StillWaiting} && ticks == old(ticks) + looks - 1
        && (last.Some? ==> Before(clock, old(ticks), ticks, last.value + INTERVAL))
        && (early.value.StillWaiting? ==> looks == rounds + 1 && last.Some?)
      ensures early.None? && last.None? ==> looks == 1 && ticks == old(ticks)
      ensures early.None? && last.Some? ==>
        && ticks == old(ticks) + looks
        && last.value + INTERVAL <= Reading(clock, ticks - 1)
        && Before(clock, old(ticks), ticks - 1, last.value + INTERVAL)
    {
      assert last.Some? ==> Before(clock, ticks, ticks, last.value + INTERVAL);
      hide Monotone, Spaced, Before, Reading;
      looks := 0;
      while true
        invariant looks <= rounds && ticks == old(ticks) + looks
        invariant forall k: nat :: k < looks ==> k !in cancelled
        invariant looks > 0 ==> last.Some? && last.value + INTERVAL <= maximum
        invariant last.Some? ==> Before(clock, old(ticks), ticks, last.value + INTERVAL)
        decreases rounds - looks
      {
        looks := looks + 1;
        if looks - 1 in cancelled {
          return Some(Cancelled), looks;
        }
        if last.None? {
          return None, looks;
        }
        if last.value + INTERVAL > maximum {
          return Some(ClockOverflow), looks;
        }
        if looks > rounds {
          return Some(StillWaiting), looks;
        }
        var now := Reading(clock, ticks);
        ticks := ticks + 1;
        if now >= last.value + INTERVAL {
          return None, looks;
        }
        BeforeNext(clock, old(ticks), ticks - 1, last.value + INTERVAL);
      }
    }

    /**
     One wait for a lookup slot. A slot is granted at the last reading made, right after a look that
     found no cancellation, and at the first chance: of the readings before it, only the very last came
     an interval or more after the lookup before.
     */
    method WaitForSlot(cancelled: set<nat>, maximum: nat, rounds: nat) returns (w: Wait, looks: nat)
      requires Valid()
      modifies this
      ensures Valid()
      ensures 0 < looks <= rounds + 2 && forall k: nat :: k < looks - 1 ==> k !in cancelled
      ensures w.Cancelled? <==> looks - 1 in cancelled
      ensures w.ClockOverflow? <==> 0 !in cancelled && old(last).Some? && old(last).value + INTERVAL > maximum
      ensures w.ClockOverflow? ==> looks == 1
      ensures w.StillWaiting? ==>
        && looks == rounds + 1 && old(last).Some?
        && Before(clock, old(ticks), ticks, old(last).value + INTERVAL)
      ensures w.Cancelled? && old(last).Some? ==> Before(clock, old(ticks), ticks - 1, old(last).value + INTERVAL)
      ensures !w.Granted? ==> starts == old(starts) && last == old(last)
      ensures !w.Granted? ==> ticks == old(ticks) + if old(last).None? then 0 else looks - 1
      ensures old(last).None? ==> looks <= 2
      ensures w.Granted? ==>
        && ticks == old(ticks) + (if old(last).None? then 0 else looks - 1) + 1
        && starts == old(starts) + [ticks - 1]
        && w.at == Reading(clock, ticks - 1) && last == Some(w.at)
      ensures w.Granted? && old(last).None? ==> looks == 2
      ensures w.Granted? && old(last).Some? ==>
        && looks > 1 && old(last).value + INTERVAL <= Reading(clock, ticks - 2) <= w.at
        && Before(clock, old(ticks), ticks - 2, old(last).value + INTERVAL)
    {
      hide Monotone, Spaced, Before, Reading;
      var early;
      early, looks := AwaitTurn(cancelled, maximum, rounds);
      if early.Some? {
        if last.Some? {
          BeforeLess(clock, old(ticks), ticks, ticks - 1, last.value + INTERVAL);
        }
        return early.value, looks;
      }
      looks := looks + 1;
      if looks - 1 in cancelled {
        return Cancelled, looks;
      }
      var now := Reading(clock, ticks);
      if last.Some? {
        Onward(clock, ticks - 1, ticks);
      }
      SpacedNext(clock, starts, ticks);
      starts := starts + [ticks];
      ticks := ticks + 1;
      last := Some(now);
      w := Granted(now);
    }
  }

  lemma {:induction false} SpacedFar(clock: nat -> nat, starts: seq<nat>, i: nat, j: nat)
    requires Spaced(clock, starts) && i <= j < |starts|
    ensures Reading(clock, starts[i]) + (j - i) * INTERVAL <= Reading(clock, starts[j])
    decreases j - i
  {
    if i < j {
      SpacedFar(clock, starts, i, j - 1);
    }
  }

  /** The lookups that started within one second of `from`, both ends included. */
  ghost function InWindow(clock: nat -> nat, starts: seq<nat>, from: nat): set<nat> {
    set i: nat | i < |starts| && from <= Reading(clock, starts[i]) <= from + SECOND
  }

  /**
   However many waits a limiter has granted, at most three of them started at readings of its clock
   within any one second.
   */
  lemma ThreePerSecond(clock: nat -> nat, starts: seq<nat>, from: nat)
    requires Spaced(clock, starts)
    ensures |InWindow(clock, starts, from)| <= 3
  {
    var w := InWindow(clock, starts, from);
    if w != {} {
      var first := Least(w);
      forall i | i in w
        ensures i in {first, first + 1, first + 2}
      {
        SpacedFar(clock, starts, first, i);
      }
      SubsetSize(w, {first, first + 1, first + 2});
    }
  }

  lemma {:induction false} Least(s: set<nat>) returns (m: nat)
    requires s != {}
    ensures m in s && forall x :: x in s ==> m <= x
    decreases s
  {
    var x :| x in s;
    m := x;
    if s != {x} {
      var n := Least(s - {x});
      if n < x {
        m := n;
      }
      assert forall y :: y in s ==> y == x || y in s - {x};
    }
  }
}
