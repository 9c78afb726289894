/** The tick generator of arangod/VocBase/vocbase.c: a 64-bit tick carries a
    16-bit server identifier in its low bits and a counter above them. */
module Ticks {

  /** 2^64: `uint64_t` arithmetic wraps modulo this value. */
  const WordRange: nat := 0x1_0000_0000_0000_0000
  /** 2^16: the range of the `uint16_t` server identifier. */
  const ServerRange: nat := 0x1_0000
  /** 2^48: the counter values a tick can carry. */
  const CounterRange: nat := 0x1_0000_0000_0000

  /** `serverId | (counter << 16)` on `uint64_t`: the shift drops the counter's
      top 16 bits, and the low 16 bits it leaves free hold the server. */
  function PackTick(counter: nat, serverId: nat): (tick: nat)
    requires counter < WordRange && serverId < ServerRange
    ensures tick < WordRange
  {
    ShiftWraps(counter);
    (counter * ServerRange) % WordRange + serverId
  }

  /** `tick >> 16`. */
  function CounterOf(tick: nat): nat { tick / ServerRange }

  /** `tick & 0xFFFF`. */
  function ServerOf(tick: nat): nat { tick % ServerRange }

  lemma ShiftWraps(counter: nat)
    ensures (counter * ServerRange) % WordRange == (counter % CounterRange) * ServerRange
  {
    var q := counter / CounterRange;
    var r := counter % CounterRange;
    assert counter == q * CounterRange + r;
    assert counter * ServerRange == q * WordRange + r * ServerRange;
  }

  /** A tick splits back into the counter (modulo 2^48) and the server. */
  lemma PackUnpack(counter: nat, serverId: nat)
    requires counter < WordRange && serverId < ServerRange
    ensures CounterOf(PackTick(counter, serverId)) == counter % CounterRange
    ensures ServerOf(PackTick(counter, serverId)) == serverId
  {
    ShiftWraps(counter);
  }

  /** Ticks are distinct for distinct (counter mod 2^48, server) pairs. */
  lemma PackInjective(c1: nat, s1: nat, c2: nat, s2: nat)
    requires c1 < WordRange && s1 < ServerRange && c2 < WordRange && s2 < ServerRange
    requires PackTick(c1, s1) == PackTick(c2, s2)
    ensures c1 % CounterRange == c2 % CounterRange && s1 == s2
  {
    PackUnpack(c1, s1);
    PackUnpack(c2, s2);
  }

  /** Below 2^48 a larger counter gives a larger tick, for the same server. */
  lemma PackMonotonic(c1: nat, c2: nat, serverId: nat)
    requires c1 < c2 < CounterRange && serverId < ServerRange
    ensures PackTick(c1, serverId) < PackTick(c2, serverId)
  {
    ShiftWraps(c1);
    ShiftWraps(c2);
  }

  /** The purpose of TRI_UpdateTickVocBase: once the counter has reached the
      counter part of an observed tick `t`, the next tick handed out is
      larger than `t`, as long as the counter stays below 2^48. */
  lemma NextTickExceedsObserved(counter: nat, t: nat, serverId: nat)
    requires t < WordRange && serverId < ServerRange
    requires CounterOf(t) <= counter && counter + 1 < CounterRange
    ensures PackTick(counter + 1, serverId) > t
  {
    ShiftWraps(counter + 1);
    assert t < (CounterOf(t) + 1) * ServerRange;
  }

  /** `ServerIdentifier` and `CurrentTick`, guarded by the tick spin lock. */
  class TickGenerator {
    const serverId: nat
    var current: nat

    ghost predicate Valid()
      reads this
    {
      serverId < ServerRange && current < WordRange
    }

    /** The identifier is drawn at random by the server; here it is given. */
    constructor (serverId: nat)
      requires serverId < ServerRange
      ensures Valid() && this.serverId == serverId && current == 0
    {
      this.serverId := serverId;
      current := 0;
    }

    /** TRI_NewTickVocBase: pre-increments the counter (wrapping at 2^64) and
        packs it with the server identifier. */
    method NewTick() returns (tick: nat)
      requires Valid()
      modifies this
      ensures Valid()
      ensures current == (old(current) + 1) % WordRange
      ensures tick == PackTick(current, serverId)
      ensures ServerOf(tick) == serverId && CounterOf(tick) == current % CounterRange
    {
      current := (current + 1) % WordRange;
      tick := (current * ServerRange) % WordRange + serverId;
      PackUnpack(current, serverId);
    }

    /** TRI_UpdateTickVocBase: raises the counter to the counter part of an
        observed tick; it never lowers it. */
    method UpdateTick(tick: nat)
      requires Valid() && tick < WordRange
      modifies this
      ensures Valid()
      ensures current == if old(current) < CounterOf(tick) then CounterOf(tick) else old(current)
      ensures current >= old(current) && current >= CounterOf(tick)
    {
      var s := tick / ServerRange;
      if current < s {
        current := s;
      }
    }
  }
}
