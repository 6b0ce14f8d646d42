/** 32-bit TCP sequence arithmetic (section 3.4 of RFC 9293) over unbounded stream positions. */
module SequenceNumbers {
  import opened Octets

  const MOD: int := 0x1_0000_0000
  const HALF: int := 0x8000_0000

  /** The sequence number of a position. */
  function Wrap(x: int): u32 { x % MOD }

  function Minus(a: u32, b: u32): u32 { (a - b) % MOD }

  function Plus(a: u32, n: nat): u32 { (a + n) % MOD }

  /** The 32 bits read as a signed number. */
  function Signed(x: u32): int { if x < HALF then x else x - MOD }

  predicate Before(a: u32, b: u32) { Signed(Minus(a, b)) < 0 }

  lemma WrapShift(x: int, k: int)
    ensures (x + k * MOD) % MOD == x % MOD
  {}

  lemma SmallMod(x: int)
    requires 0 <= x < MOD
    ensures x % MOD == x
  {}

  lemma PlusWrap(p: int, n: nat)
    ensures Plus(Wrap(p), n) == Wrap(p + n)
  {
    WrapShift(Wrap(p) + n, p / MOD);
  }

  lemma MinusWrap(p: int, q: int)
    ensures Minus(Wrap(p), Wrap(q)) == Wrap(p - q)
  {
    WrapShift(Wrap(p) - Wrap(q), p / MOD - q / MOD);
  }

  /** Positions less than half the space apart keep their distance. */
  lemma Apart(p: int, q: int)
    requires -HALF <= p - q < HALF
    ensures Signed(Minus(Wrap(p), Wrap(q))) == p - q
  {
    MinusWrap(p, q);
    if p - q >= 0 {
      SmallMod(p - q);
    } else {
      WrapShift(p - q, 1);
      SmallMod(p - q + MOD);
    }
  }

  /** Every sequence number is that of a position at or after `p`. */
  lemma From(p: int, a: u32)
    ensures a == Wrap(p + Minus(a, Wrap(p)))
  {
    WrapShift(p + Minus(a, Wrap(p)), -(p / MOD));
    var d := a - Wrap(p);
    WrapShift(Wrap(p) + Minus(a, Wrap(p)), d / MOD);
    SmallMod(a);
  }

  /** An acknowledgement that is neither past `p + flight` nor before `p` is that of a position in between. */
  lemma Acknowledged(p: int, flight: nat, ack: u32)
    requires flight < HALF
    requires !Before(Wrap(p + flight), ack) && !Before(ack, Wrap(p))
    ensures Minus(ack, Wrap(p)) <= flight && ack == Wrap(p + Minus(ack, Wrap(p)))
    ensures Before(Wrap(p), ack) <==> Minus(ack, Wrap(p)) > 0
    ensures ack == Wrap(p + flight) <==> Minus(ack, Wrap(p)) == flight
  {
    hide Wrap, Minus;
    var d := Minus(ack, Wrap(p));
    From(p, ack);
    Apart(p + flight, p + d);
    Apart(p, p + d);
    Apart(p + flight, p);
  }
}
