/** Bytes and machine words as bounded integers. */
module Octets {
  type octet = x: int | 0 <= x < 256
  type u32 = x: int | 0 <= x < 0x1_0000_0000
  type u64 = x: int | 0 <= x < 0x1_0000_0000_0000_0000

  const TWO64: nat := 0x1_0000_0000_0000_0000

  function Blank(n: nat): seq<octet> { seq(n, _ => 0) }

  function Power(k: nat): (p: nat)
    ensures p > 0
  {
    if k == 0 then 1 else 256 * Power(k - 1)
  }

  /** The value of bytes stored low byte first. */
  function Little(bytes: seq<octet>): nat {
    if bytes == [] then 0 else bytes[0] + 256 * Little(bytes[1..])
  }

  /** The low `n` bytes of a value, low byte first. */
  function Spread(value: nat, n: nat): (bytes: seq<octet>)
    ensures |bytes| == n
  {
    if n == 0 then [] else [value % 256] + Spread(value / 256, n - 1)
  }

  lemma {:induction false} LittleBelow(bytes: seq<octet>)
    ensures Little(bytes) < Power(|bytes|)
  {
    if bytes != [] { LittleBelow(bytes[1..]); }
  }

  lemma {:induction false} SpreadLittle(value: nat, n: nat)
    requires value < Power(n)
    ensures Little(Spread(value, n)) == value
  {
    if n > 0 {
      SpreadLittle(value / 256, n - 1);
      assert Spread(value, n)[1..] == Spread(value / 256, n - 1);
    }
  }
}
