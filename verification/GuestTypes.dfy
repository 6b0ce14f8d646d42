/** Values shared by the models; the guest memory ones are of runtime/GuestMemory.h. */
module GuestTypes {

  const PAGE: nat := 16384
  const U64_MAX: nat := 0xFFFF_FFFF_FFFF_FFFF

  type byte = bv8

  /** Protection bits, as the C `unsigned` the callers pass. */
  type Prot = bv32
  const READ: Prot := 1
  const WRITE: Prot := 2
  const EXEC: Prot := 4

  datatype Status = Ok | Invalid | Overlap | Unmapped | Protection | NoMem

  function Lesser(a: int, b: int): int { if a < b then a else b }
  function Greater(a: int, b: int): int { if a > b then a else b }

  datatype Option<+T> = None | Some(value: T)

  predicate Allows(prot: Prot, permission: Prot) {
    prot & permission == permission
  }

  /** `prot` asks for a bit that `maxprot` lacks. */
  predicate Exceeds(prot: Prot, maxprot: Prot) {
    prot & !maxprot != 0
  }

  function Offset(x: nat): (o: nat)
    ensures o < PAGE
  {
    x % PAGE
  }

  function PageBase(x: nat): (p: nat)
    ensures p <= x < p + PAGE && p == x - Offset(x)
  {
    x - x % PAGE
  }

  /** How much of the next `n` bytes from `x` lies in the page of `x`. */
  function Chunk(x: nat, n: nat): (c: nat)
    ensures n > 0 ==> 0 < c <= n
    ensures Offset(x) + c <= PAGE
  {
    if n < PAGE - Offset(x) then n else PAGE - Offset(x)
  }

  /** A nonempty page-aligned range that does not wrap 64 bits. */
  predicate Aligned(a: nat, n: nat) {
    n != 0 && a % PAGE == 0 && n % PAGE == 0 && n <= U64_MAX - a
  }

  lemma NextPage(a: nat, b: nat)
    requires a % PAGE == 0 && b % PAGE == 0 && a < b
    ensures a + PAGE <= b
  {
  }

  function Zeros(n: nat): seq<byte> {
    seq(n, _ => 0)
  }
}
