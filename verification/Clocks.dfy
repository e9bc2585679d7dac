/** Hybrid logical clocks (collab/src/clock.rs).

  A `Stamp` is the immutable timestamp carried by an operation; a `HybridClock`
  is the mutable clock of one replica, which issues stamps.
*/
module Clocks {
  type ReplicaId = nat

  /** Largest value of the source's 64-bit unsigned counters. */
  const U64_MAX: nat := 0xFFFF_FFFF_FFFF_FFFF

  datatype Stamp = Stamp(wallMs: nat, lamport: nat, replica: ReplicaId)

  datatype Ordering = Before | Same | After

  function CompareNat(a: nat, b: nat): Ordering {
    if a < b then Before else if a == b then Same else After
  }

  /** Wall clock first, then the Lamport counter, then the replica id. */
  function Compare(a: Stamp, b: Stamp): Ordering {
    match CompareNat(a.wallMs, b.wallMs)
    case Before => Before
    case After => After
    case Same =>
      match CompareNat(a.lamport, b.lamport)
      case Before => Before
      case After => After
      case Same => CompareNat(a.replica, b.replica)
  }

  predicate Less(a: Stamp, b: Stamp) {
    Compare(a, b) == Before
  }

  /** `Compare` is a strict total order, whatever the three stamps are. */
  lemma CompareIsTotalOrder(a: Stamp, b: Stamp, c: Stamp)
    ensures Compare(a, b) == Same <==> a == b
    ensures Compare(a, b) == Before <==> Compare(b, a) == After
    ensures Less(a, b) && Less(b, c) ==> Less(a, c)
    ensures !Less(a, b) && !Less(b, c) ==> !Less(a, c)
  {
  }

  function Max(a: nat, b: nat): nat {
    if a < b then b else a
  }

  /** The clock state after a local event that read `wallMs`; also the stamp issued. */
  function Ticked(clock: Stamp, wallMs: nat): (next: Stamp)
    ensures Less(clock, next)
    ensures next.lamport == clock.lamport + 1 && next.replica == clock.replica
    ensures clock.wallMs <= next.wallMs && wallMs <= next.wallMs && next.wallMs in {clock.wallMs, wallMs}
  {
    Stamp(Max(clock.wallMs, wallMs), clock.lamport + 1, clock.replica)
  }

  /** The clock state after seeing a remote stamp. */
  function Observed(clock: Stamp, other: Stamp): (next: Stamp)
    ensures next.replica == clock.replica
    ensures clock.lamport <= next.lamport && other.lamport <= next.lamport && next.lamport in {clock.lamport, other.lamport}
    ensures clock.wallMs <= next.wallMs && other.wallMs <= next.wallMs && next.wallMs in {clock.wallMs, other.wallMs}
  {
    clock.(lamport := Max(clock.lamport, other.lamport), wallMs := Max(clock.wallMs, other.wallMs))
  }

  /** True when every stamp the clock can issue from now on is above `stamp`. */
  predicate Dominates(clock: Stamp, stamp: Stamp) {
    stamp.wallMs <= clock.wallMs && stamp.lamport <= clock.lamport
  }

  /** What happens to a clock: it issues a stamp at a wall time, or sees a remote stamp. */
  datatype Event = Issue(wallMs: nat) | See(stamp: Stamp)

  function AfterEvent(clock: Stamp, event: Event): Stamp {
    match event
    case Issue(wallMs) => Ticked(clock, wallMs)
    case See(stamp) => Observed(clock, stamp)
  }

  function AfterAll(clock: Stamp, events: seq<Event>): Stamp
    decreases |events|
  {
    if events == [] then clock else AfterAll(AfterEvent(clock, events[0]), events[1..])
  }

  /** Once a clock dominates a stamp, every stamp it issues later is above it, through any ticks and observations. */
  lemma {:induction false} DominanceIsForever(clock: Stamp, events: seq<Event>, stamp: Stamp, wallMs: nat)
    requires Dominates(clock, stamp)
    ensures Dominates(AfterAll(clock, events), stamp)
    ensures Less(stamp, Ticked(AfterAll(clock, events), wallMs))
    decreases |events|
  {
    if events != [] {
      DominanceIsForever(AfterEvent(clock, events[0]), events[1..], stamp, wallMs);
    }
  }

  class HybridClock {
    const replica: ReplicaId
    var wallMs: nat
    var lamport: nat

    function State(): Stamp
      reads this
    {
      Stamp(wallMs, lamport, replica)
    }

    constructor (replica: ReplicaId)
      ensures State() == Stamp(0, 0, replica)
    {
      this.replica := replica;
      wallMs, lamport := 0, 0;
    }

    /** Issue the stamp of a local event. */
    method Tick(wall: nat) returns (stamp: Stamp)
      requires lamport < U64_MAX
      modifies this
      ensures stamp == State() == Ticked(old(State()), wall)
    {
      lamport := lamport + 1;
      if wallMs < wall {
        wallMs := wall;
      }
      stamp := Stamp(wallMs, lamport, replica);
    }

    /** Fold in a remote stamp. */
    method Observe(other: Stamp)
      modifies this
      ensures State() == Observed(old(State()), other)
    {
      if lamport < other.lamport {
        lamport := other.lamport;
      }
      if wallMs < other.wallMs {
        wallMs := other.wallMs;
      }
    }
  }
}
