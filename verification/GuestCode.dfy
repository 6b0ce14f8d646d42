/**
 The instructions the interpreter knows: decoding, flags and register execution
 (runtime/GuestCPU.c:4-144). Words are integers; shifts, rotations and additions
 are the arithmetic they stand for, bitwise operations on registers go through
 bit vectors.
 */
module GuestCode {
  import opened GuestTypes
  import opened Octets

  datatype Op =
    | INVALID | NOP | WIDE | ADD_IMM | ADD_REG | LOGIC | MADD | BRANCH | BRANCH_REG
    | COND | CBZ | ADDRESS | LOAD | STORE | LOGIC_IMM | TBZ | SELECT

  datatype Decoded = Decoded(
    pc: u64, immediate: u64, instruction: nat, op: Op, rd: nat, rn: nat, rm: nat, ra: nat,
    width: nat, shift: nat, amount: nat, flags: nat, valid: bool)

  const NOTHING: Decoded := Decoded(0, 0, 0, INVALID, 0, 0, 0, 0, 0, 0, 0, 0, false)

  datatype Registers = Registers(x: seq<u64>, sp: u64, pc: u64, nzcv: nat)

  predicate GoodRegisters(c: Registers) {
    |c.x| == 31
  }

  function Two(k: nat): (p: nat)
    ensures p > 0
  {
    if k == 0 then 1 else 2 * Two(k - 1)
  }

  function Wrap64(x: int): u64 { x % TWO64 }

  function SignExtend(x: nat, bits: nat): int
    requires bits > 0
  {
    if x < Two(bits - 1) then x else x - Two(bits)
  }

  function And(a: u64, b: u64): u64 { ((a as bv64) & (b as bv64)) as int }
  function Or(a: u64, b: u64): u64 { ((a as bv64) | (b as bv64)) as int }
  function Xor(a: u64, b: u64): u64 { ((a as bv64) ^ (b as bv64)) as int }
  function Not(a: u64): u64 { TWO64 - 1 - a }

  // ----- registers -----

  function Reg(c: Registers, r: nat, sp: bool): u64
    requires GoodRegisters(c)
  {
    if r < 31 then c.x[r] else if sp then c.sp else 0
  }

  function Narrow(value: u64, width: nat): u64 {
    if width == 64 then value else value % 0x1_0000_0000
  }

  function Put(c: Registers, r: nat, value: u64, width: nat, sp: bool): Registers
    requires GoodRegisters(c)
  {
    var v := Narrow(value, width);
    if r < 31 then c.(x := c.x[r := v]) else if sp then c.(sp := v) else c
  }

  function Shifted(value: u64, kind: nat, amount: nat, width: nat): u64 {
    var v := Narrow(value, width);
    var low := Two(amount);
    if amount == 0 || amount >= width then v
    else if kind == 0 then Narrow(Wrap64(v * low), width)
    else if kind == 1 then Wrap64(v / low)
    else if kind == 2 then Wrap64(v / low + if v >= Two(width - 1) then Two(width) - Two(width - amount) else 0)
    else Narrow(Wrap64(v / low + v % low * Two(width - amount)), width)
  }

  // ----- flags -----

  function Bit(b: bool, weight: nat): nat { if b then weight else 0 }

  function Flag(nzcv: nat, weight: nat): bool
    requires weight > 0
  {
    nzcv / weight % 2 == 1
  }

  function Condition(nzcv: nat, cond: nat): bool {
    var n, z, c, v := Flag(nzcv, 8), Flag(nzcv, 4), Flag(nzcv, 2), Flag(nzcv, 1);
    if cond / 2 >= 7 then true
    else
      var result :=
        match cond / 2
        case 0 => z
        case 1 => c
        case 2 => n
        case 3 => v
        case 4 => c && !z
        case 5 => n == v
        case _ => !z && n == v;
      if cond % 2 == 1 then !result else result
  }

  function Size(width: nat): nat { if width == 64 then TWO64 else 0x1_0000_0000 }

  function Sum(a: u64, b: u64, sub: bool, width: nat): u64 {
    var x, y := Narrow(a, width), Narrow(b, width);
    Narrow(Wrap64(if sub then x - y else x + y), width)
  }

  predicate Negative(x: nat, width: nat) { x >= Size(width) / 2 }

  function SumFlags(a: u64, b: u64, sub: bool, width: nat): nat {
    var x, y, r := Narrow(a, width), Narrow(b, width), Sum(a, b, sub, width);
    var carry := if sub then x >= y else r < x;
    var overflow := (Negative(x, width) != Negative(y, width)) == sub && Negative(x, width) != Negative(r, width);
    Bit(Negative(r, width), 8) + Bit(r == 0, 4) + Bit(carry, 2) + Bit(overflow, 1)
  }

  function Signed(x: nat, width: nat): int {
    if Negative(x, width) then x - Size(width) else x
  }

  /** After a subtraction that sets the flags, the conditions compare the operands. */
  lemma CompareMeans(a: u64, b: u64, width: nat)
    requires width == 32 || width == 64
    ensures var f, x, y := SumFlags(a, b, true, width), Narrow(a, width), Narrow(b, width);
      (Condition(f, 0) <==> x == y) && (Condition(f, 1) <==> x != y)
      && (Condition(f, 2) <==> x >= y) && (Condition(f, 3) <==> x < y)
      && (Condition(f, 8) <==> x > y) && (Condition(f, 9) <==> x <= y)
      && (Condition(f, 10) <==> Signed(x, width) >= Signed(y, width))
      && (Condition(f, 11) <==> Signed(x, width) < Signed(y, width))
      && (Condition(f, 12) <==> Signed(x, width) > Signed(y, width))
      && (Condition(f, 13) <==> Signed(x, width) <= Signed(y, width))
  {
    var x, y, r := Narrow(a, width), Narrow(b, width), Sum(a, b, true, width);
    DifferenceMeans(a, b, width);
    FlagsRead(Negative(r, width), r == 0, x >= y, SumFlagsOverflow(x, y, r, true, width));
  }

  predicate SumFlagsOverflow(x: nat, y: nat, r: nat, sub: bool, width: nat) {
    (Negative(x, width) != Negative(y, width)) == sub && Negative(x, width) != Negative(r, width)
  }

  lemma DifferenceMeans(a: u64, b: u64, width: nat)
    requires width == 32 || width == 64
    ensures var x, y, r := Narrow(a, width), Narrow(b, width), Sum(a, b, true, width);
      x < Size(width) && y < Size(width) && r == if x >= y then x - y else x - y + Size(width)
  {
  }

  lemma SumMeans(a: u64, b: u64, width: nat)
    requires width == 32 || width == 64
    ensures var x, y, r := Narrow(a, width), Narrow(b, width), Sum(a, b, false, width);
      x < Size(width) && y < Size(width) && r == if x + y >= Size(width) then x + y - Size(width) else x + y
  {
  }

  lemma FlagsRead(n: bool, z: bool, c: bool, v: bool)
    ensures var f := Bit(n, 8) + Bit(z, 4) + Bit(c, 2) + Bit(v, 1);
      Flag(f, 8) == n && Flag(f, 4) == z && Flag(f, 2) == c && Flag(f, 1) == v
  {
  }

  /** The carry of an addition is the sum leaving the unsigned range, the overflow its leaving the signed range. */
  lemma AddMeans(a: u64, b: u64, width: nat)
    requires width == 32 || width == 64
    ensures var f, x, y := SumFlags(a, b, false, width), Narrow(a, width), Narrow(b, width);
      (Flag(f, 2) <==> x + y >= Size(width))
      && (Flag(f, 1) <==> !(0 - Size(width) / 2 <= Signed(x, width) + Signed(y, width) < Size(width) / 2))
  {
    var x, y, r := Narrow(a, width), Narrow(b, width), Sum(a, b, false, width);
    SumMeans(a, b, width);
    hide Sum, Narrow, Flag, Bit;
    FlagsRead(Negative(r, width), r == 0, r < x, SumFlagsOverflow(x, y, r, false, width));
  }

  // ----- bits -----

  function BitAt(x: nat, j: nat): bool { if j == 0 then x % 2 == 1 else BitAt(x / 2, j - 1) }

  /** `x >> k`. */
  function Down(x: nat, k: nat): nat { if k == 0 then x else Down(x / 2, k - 1) }

  /** `x << k`, with no width to fall out of. */
  function Up(x: nat, k: nat): nat { if k == 0 then x else 2 * Up(x, k - 1) }

  /** `x & ((1 << n) - 1)`. */
  function Low(x: nat, n: nat): (r: nat)
    ensures r < Two(n)
  {
    if n == 0 then 0 else x % 2 + 2 * Low(x / 2, n - 1)
  }

  /** `x | y`. */
  function Join(x: nat, y: nat): nat
    decreases x + y
  {
    if x == 0 then y else (if x % 2 == 1 || y % 2 == 1 then 1 else 0) + 2 * Join(x / 2, y / 2)
  }

  lemma {:induction false} ZeroBit(j: nat)
    ensures !BitAt(0, j)
  {
    if j > 0 { ZeroBit(j - 1); }
  }

  lemma {:induction false} DownBit(x: nat, k: nat, j: nat)
    ensures BitAt(Down(x, k), j) == BitAt(x, j + k)
    decreases k
  {
    if k > 0 { DownBit(x / 2, k - 1, j); }
  }

  lemma {:induction false} UpBit(x: nat, k: nat, j: nat)
    ensures BitAt(Up(x, k), j) <==> j >= k && BitAt(x, j - k)
    decreases k
  {
    if k > 0 && j > 0 { UpBit(x, k - 1, j - 1); }
  }

  lemma {:induction false} LowBit(x: nat, n: nat, j: nat)
    ensures BitAt(Low(x, n), j) <==> j < n && BitAt(x, j)
    decreases n
  {
    if n == 0 { ZeroBit(j); } else if j > 0 { LowBit(x / 2, n - 1, j - 1); }
  }

  lemma {:induction false} JoinBit(x: nat, y: nat, j: nat)
    ensures BitAt(Join(x, y), j) <==> BitAt(x, j) || BitAt(y, j)
    decreases j
  {
    if x == 0 { ZeroBit(j); } else if j > 0 { JoinBit(x / 2, y / 2, j - 1); }
  }

  lemma {:induction false} OnesBit(k: nat, j: nat)
    ensures BitAt(Two(k) - 1, j) <==> j < k
    decreases k
  {
    if k == 0 { ZeroBit(j); } else if j > 0 { assert (Two(k) - 1) / 2 == Two(k - 1) - 1; OnesBit(k - 1, j - 1); }
  }

  /** A number is its bits. */
  lemma {:induction false} SameBits(x: nat, y: nat)
    requires forall j: nat :: BitAt(x, j) == BitAt(y, j)
    ensures x == y
    decreases x + y
  {
    assert BitAt(x, 0) == BitAt(y, 0);
    if x + y > 0 {
      forall j: nat ensures BitAt(x / 2, j) == BitAt(y / 2, j) { assert BitAt(x, j + 1) == BitAt(y, j + 1); }
      SameBits(x / 2, y / 2);
    }
  }

  lemma {:induction false} TwoMonotone(a: nat, b: nat)
    requires a <= b
    ensures Two(a) <= Two(b)
    decreases b
  {
    if a < b { TwoMonotone(a, b - 1); }
  }

  lemma TwoWords()
    ensures Two(5) == 32 && Two(6) == 64 && Two(32) == 0x1_0000_0000 && Two(64) == TWO64
  {
    assert Two(6) == 64 by { assert Two(3) == 8; }
    assert Two(16) == 65536 by { assert Two(9) == 512 && Two(12) == 4096; }
    assert Two(32) == 0x1_0000_0000 by {
      assert Two(20) == 16 * Two(16);
      assert Two(24) == 16 * Two(20);
      assert Two(28) == 16 * Two(24);
    }
    assert Two(48) == 65536 * Two(32) by {
      assert Two(36) == 16 * Two(32);
      assert Two(40) == 16 * Two(36);
      assert Two(44) == 16 * Two(40);
    }
    assert Two(64) == 65536 * Two(48) by {
      assert Two(52) == 16 * Two(48);
      assert Two(56) == 16 * Two(52);
      assert Two(60) == 16 * Two(56);
    }
  }

  // ----- decoding -----

  /** `count` bits of the word from bit `low` on. */
  function Part(word: nat, low: nat, count: nat): (p: nat)
    ensures p < Two(count)
  {
    Low(Down(word, low), count)
  }

  /** The highest bit from `bit` down to 1 that is set, or 0. */
  function Highest(encoded: nat, bit: nat): (h: nat)
    ensures h <= bit
  {
    if bit == 0 then 0 else if BitAt(encoded, bit) then bit else Highest(encoded, bit - 1)
  }

  /** Bit `j` of a run of `s + 1` ones in each `bits` bits, rotated right by `r`. */
  predicate Lit(bits: nat, s: nat, r: nat, j: nat)
    requires bits > 0
  {
    (j + r) % bits <= s
  }

  /** `n` bits of that pattern from bit `at` on, as a number. */
  function Pattern(bits: nat, s: nat, r: nat, at: nat, n: nat): (p: nat)
    requires bits > 0
    ensures p < Two(n)
    decreases n
  {
    if n == 0 then 0 else (if Lit(bits, s, r, at) then 1 else 0) + 2 * Pattern(bits, s, r, at + 1, n - 1)
  }

  lemma {:induction false} PatternBit(bits: nat, s: nat, r: nat, at: nat, n: nat, j: nat)
    requires bits > 0
    ensures BitAt(Pattern(bits, s, r, at, n), j) <==> j < n && Lit(bits, s, r, at + j)
    decreases n
  {
    hide Lit;
    if n == 0 { ZeroBit(j); } else if j > 0 { PatternBit(bits, s, r, at + 1, n - 1, j - 1); }
  }

  /** One element the way the decoder computes it: a run of ones, rotated, cut to its bits. */
  function Element(bits: nat, s: nat, r: nat): nat
    requires s + 1 < bits && r < bits
  {
    var run := Two(s + 1) - 1;
    Low(if r == 0 then run else Join(Down(run, r), Up(run, bits - r)), bits)
  }

  lemma ElementBit(bits: nat, s: nat, r: nat, j: nat)
    requires s + 1 < bits && r < bits
    ensures BitAt(Element(bits, s, r), j) <==> j < bits && Lit(bits, s, r, j)
  {
    hide BitAt, Low, Join, Down, Up, Two;
    var run := Two(s + 1) - 1;
    LowBit(if r == 0 then run else Join(Down(run, r), Up(run, bits - r)), bits, j);
    if j < bits { Around(j + r, bits); }
    if r == 0 {
      OnesBit(s + 1, j);
    } else {
      JoinBit(Down(run, r), Up(run, bits - r), j);
      DownBit(run, r, j);
      UpBit(run, bits - r, j);
      OnesBit(s + 1, j + r);
      if j >= bits - r { OnesBit(s + 1, j - (bits - r)); }
    }
  }

  lemma Around(x: nat, bits: nat)
    requires bits > 0
    ensures x < bits ==> x % bits == x
    ensures bits <= x < 2 * bits ==> x % bits == x - bits
  {
    assert x == x / bits * bits + x % bits;
    if bits <= x < 2 * bits {
      assert x / bits == 1;
    }
  }

  /** `k` elements. */
  function Elements(k: nat, bits: nat): nat { if k == 0 then 0 else Elements(k - 1, bits) + bits }

  lemma {:induction false} LitAgain(bits: nat, s: nat, r: nat, k: nat, j: nat)
    requires bits > 0
    ensures Lit(bits, s, r, Elements(k, bits) + j) == Lit(bits, s, r, j)
    decreases k
  {
    if k > 0 {
      LitAgain(bits, s, r, k - 1, j);
      OneMore(Elements(k - 1, bits) + j + r, bits);
    }
  }

  lemma OneMore(x: nat, bits: nat)
    requires bits > 0
    ensures (x + bits) % bits == x % bits
  {
    OneRemainder((x + bits) / bits, x / bits, bits, x % bits, (x + bits) % bits);
  }

  lemma OneRemainder(p: int, q: int, d: int, m: int, n: int)
    requires d > 0 && 0 <= m < d && 0 <= n < d && p * d + n == q * d + m + d
    ensures n == m
  {
    var k := p - q - 1;
    assert k * d == p * d - q * d - d;
    if k >= 1 {
      AtLeast(k, d);
    } else if k <= -1 {
      assert (0 - k) * d == 0 - k * d;
      AtLeast(0 - k, d);
    }
  }

  lemma AtLeast(k: int, d: int)
    requires k >= 1 && d > 0
    ensures k * d >= d
  {}

  lemma {:induction false} ElementsSum(k: nat, l: nat, bits: nat)
    ensures Elements(k + l, bits) == Elements(k, bits) + Elements(l, bits)
    decreases l
  {
    if l > 0 { ElementsSum(k, l - 1, bits); }
  }

  /** Sizes are powers of two, so elements fill a wider word exactly. */
  lemma {:induction false} ElementsFill(a: nat, b: nat)
    ensures Elements(Two(a), Two(b)) == Two(a + b)
    decreases a
  {
    if a == 0 {
      assert Elements(1, Two(b)) == Elements(0, Two(b)) + Two(b);
    } else {
      ElementsFill(a - 1, b);
      ElementsSum(Two(a - 1), Two(a - 1), Two(b));
    }
  }

  lemma {:induction false} ElementsGrow(k: nat, l: nat, bits: nat)
    requires bits > 0
    ensures k < l ==> Elements(k, bits) + bits <= Elements(l, bits)
    ensures k <= l ==> Elements(k, bits) <= Elements(l, bits)
    decreases l
  {
    if k < l { ElementsGrow(k, l - 1, bits); }
  }

  /** Lines 42-55: a bitmask is a rotated run of ones, repeated; the run may not fill its element. */
  function LogicalImmediate(word: nat, width: nat): (pattern: Option<u64>)
    requires width <= 64
    ensures pattern.Some? ==> pattern.value < Two(width)
  {
    var n, immr, imms := Part(word, 22, 1), Part(word, 16, 6), Part(word, 10, 6);
    var length := ElementLength(n, imms);
    if length == 0 || (width == 32 && n != 0) then None
    else
      var bits, s, r := Two(length), Low(imms, length), Low(immr, length);
      if bits > width || s == bits - 1 then None
      else
        TwoMonotone(width, 64);
        TwoWords();
        Some(Pattern(bits, s, r, 0, width))
  }

  /** The logarithm of the element size: the highest bit of `n : ~imms` above the lowest. */
  function ElementLength(n: nat, imms: nat): (length: nat)
    ensures length <= 6
  {
    Highest(64 * n + 63 - Low(imms, 6), 6)
  }

  /** Bit by bit what a logical immediate is, and that it is neither all zeros nor all ones. */
  lemma LogicalMeans(word: nat, width: nat)
    requires (width == 32 || width == 64) && LogicalImmediate(word, width).Some?
    ensures var v, length := LogicalImmediate(word, width).value, ElementLength(Part(word, 22, 1), Part(word, 10, 6));
            var s, r := Low(Part(word, 10, 6), length), Low(Part(word, 16, 6), length);
            && (forall j: nat :: j < width ==> (BitAt(v, j) <==> (j + r) % Two(length) <= s))
            && 0 < v < Two(width) - 1
  {
    hide Part, Highest, Pattern, Low, BitAt, Two;
    var v, length := LogicalImmediate(word, width).value, ElementLength(Part(word, 22, 1), Part(word, 10, 6));
    var bits, s, r := Two(length), Low(Part(word, 10, 6), length), Low(Part(word, 16, 6), length);
    forall j: nat | j < width ensures BitAt(v, j) <==> (j + r) % bits <= s { PatternBit(bits, s, r, 0, width, j); }
    PatternMixed(bits, s, r, width);
  }

  /** A run that is neither empty nor the whole element leaves a one and a zero. */
  lemma PatternMixed(bits: nat, s: nat, r: nat, n: nat)
    requires s + 1 < bits <= n && r < bits
    ensures 0 < Pattern(bits, s, r, 0, n) < Two(n) - 1
  {
    hide Pattern, Two, BitAt;
    var one, zero := (if r == 0 then 0 else bits - r), (if r == 0 then bits - 1 else bits - r - 1);
    Around(one + r, bits);
    Around(zero + r, bits);
    PatternBit(bits, s, r, 0, n, one);
    PatternBit(bits, s, r, 0, n, zero);
    ZeroBit(one);
    OnesBit(n, zero);
  }

  /** Line 45: the last bit from 1 to 6 that is set. */
  method FindHighest(encoded: nat) returns (length: nat)
    ensures length == Highest(encoded, 6)
  {
    hide BitAt;
    length := 0;
    for bit := 1 to 7
      invariant length == Highest(encoded, bit - 1)
    {
      if BitAt(encoded, bit) { length := bit; }
    }
  }

  /** The pattern computed the way the decoder does, with loops over its locals. */
  method ExpandLogical(word: nat, width: nat) returns (pattern: Option<u64>)
    requires width == 32 || width == 64
    ensures pattern == LogicalImmediate(word, width)
  {
    hide Part, Pattern, Low, Highest, Two, Elements;
    var n, immr, imms := Part(word, 22, 1), Part(word, 16, 6), Part(word, 10, 6);
    TwoWords();
    var length := FindHighest(64 * n + 63 - Low(imms, 6));
    if length == 0 || (width == 32 && n != 0) { return None; }
    var bits, s, r := Two(length), Low(imms, length), Low(immr, length);
    if bits > width || s == bits - 1 { return None; }
    ghost var whole := if width == 32 then 5 else 6;
    assert length <= whole;
    ElementsFill(whole - length, length);
    var value := Replicate(bits, s, r, width, Two(whole - length));
    TwoMonotone(width, 64);
    return Some(value);
  }

  method Replicate(bits: nat, s: nat, r: nat, width: nat, ghost times: nat) returns (value: nat)
    requires s + 1 < bits && r < bits && Elements(times, bits) == width
    ensures value == Pattern(bits, s, r, 0, width)
  {
    hide Lit, Two, BitAt, Element, Pattern, Join, Up;
    var element := Element(bits, s, r);
    value := 0;
    var at := 0;
    ghost var k := 0;
    forall j ensures !BitAt(0, j) { ZeroBit(j); }
    while at < width
      invariant k <= times && at == Elements(k, bits)
      invariant forall j: nat :: BitAt(value, j) <==> j < at && Lit(bits, s, r, j)
      decreases width - at
    {
      ElementsGrow(k, times, bits);
      forall j: nat ensures BitAt(Join(value, Up(element, at)), j) <==> j < at + bits && Lit(bits, s, r, j) {
        JoinBit(value, Up(element, at), j);
        UpBit(element, at, j);
        if j >= at {
          ElementBit(bits, s, r, j - at);
          LitAgain(bits, s, r, k, j - at);
        }
      }
      value := Join(value, Up(element, at));
      at := at + bits;
      k := k + 1;
    }
    ElementsGrow(k, times, bits);
    forall j: nat ensures BitAt(value, j) == BitAt(Pattern(bits, s, r, 0, width), j) {
      PatternBit(bits, s, r, 0, width, j);
    }
    SameBits(value, Pattern(bits, s, r, 0, width));
  }

  function Target(pc: u64, words: int): u64 { Wrap64(pc + words * 4) }

  function Decode(pc: u64, word: nat): Decoded
    requires word < 0x1_0000_0000
  {
    DecodeWith(pc, word, LogicalImmediate(word, Width(word)))
  }

  function Width(word: nat): nat { if Part(word, 31, 1) == 1 then 64 else 32 }

  /** `(word & mask) == value`. */
  predicate Match(word: nat, mask: bv32, value: bv32)
    requires word < 0x1_0000_0000
  {
    (word as bv32) & mask == value
  }

  /** Lines 56-98, given what the word is as a logical immediate. */
  function DecodeWith(pc: u64, word: nat, logical: Option<u64>): Decoded
    requires word < 0x1_0000_0000
  {
    var d := Decoded(pc, 0, word, INVALID, Part(word, 0, 5), Part(word, 5, 5), Part(word, 16, 5), Part(word, 10, 5),
                     Width(word), 0, 0, 0, true);
    if word == 0xd503201f then d.(op := NOP)
    else if Match(word, 0x1f800000, 0x12800000) then
      var e := d.(flags := Part(word, 29, 2), amount := Part(word, 21, 2) * 16);
      if e.flags != 1 && e.amount < e.width
      then e.(op := WIDE, immediate := Wrap64(Part(word, 5, 16) * Two(e.amount)))
      else e
    else if Match(word, 0x1f800000, 0x11000000) then
      d.(op := ADD_IMM, flags := Part(word, 29, 2),
         immediate := Wrap64(Part(word, 10, 12) * if Part(word, 22, 1) == 1 then 4096 else 1))
    else if Match(word, 0x1f200000, 0x0b000000) then
      var e := d.(shift := Part(word, 22, 2), amount := Part(word, 10, 6), flags := Part(word, 29, 2));
      if e.shift != 3 && e.amount < e.width then e.(op := ADD_REG) else e
    else if Match(word, 0x1f000000, 0x0a000000) then
      var e := d.(shift := Part(word, 22, 2), amount := Part(word, 10, 6),
                  flags := Part(word, 29, 2) + 4 * Part(word, 21, 1));
      if e.amount < e.width then e.(op := LOGIC) else e
    else if Match(word, 0x1f800000, 0x12000000) then
      var e := d.(flags := Part(word, 29, 2));
      if logical.Some? then e.(op := LOGIC_IMM, immediate := logical.value) else e
    else if Match(word, 0x3fe00800, 0x1a800000) then
      d.(op := SELECT, shift := Part(word, 12, 4), flags := 2 * Part(word, 30, 1) + Part(word, 10, 1))
    else if Match(word, 0x7fe00000, 0x1b000000) then d.(op := MADD, flags := Part(word, 15, 1))
    else if Match(word, 0x7c000000, 0x14000000) then
      d.(op := BRANCH, flags := Part(word, 31, 1), immediate := Target(pc, SignExtend(Part(word, 0, 26), 26)))
    else if Match(word, 0xfffffc1f, 0xd61f0000) || Match(word, 0xfffffc1f, 0xd63f0000)
            || Match(word, 0xfffffc1f, 0xd65f0000) then
      d.(op := BRANCH_REG, flags := if Match(word, 0xfffffc1f, 0xd63f0000) then 1 else 0)
    else if Match(word, 0xff000010, 0x54000000) then
      d.(op := COND, flags := Part(word, 0, 4), immediate := Target(pc, SignExtend(Part(word, 5, 19), 19)))
    else if Match(word, 0x7e000000, 0x34000000) then
      d.(op := CBZ, flags := Part(word, 24, 1), immediate := Target(pc, SignExtend(Part(word, 5, 19), 19)))
    else if Match(word, 0x7e000000, 0x36000000) then
      d.(op := TBZ, flags := Part(word, 24, 1), amount := 32 * Part(word, 31, 1) + Part(word, 19, 5),
         immediate := Target(pc, SignExtend(Part(word, 5, 14), 14)))
    else if Match(word, 0x1f000000, 0x10000000) then
      var offset := SignExtend(Part(word, 5, 19) * 4 + Part(word, 29, 2), 21);
      d.(op := ADDRESS, width := 64,
         immediate := if Part(word, 31, 1) == 1 then Wrap64(pc - pc % 4096 + offset * 4096) else Wrap64(pc + offset))
    else if Match(word, 0x3b000000, 0x39000000) && Match(word, 0x04000000, 0) then
      var opc, amount := Part(word, 22, 2), Two(Part(word, 30, 2));
      if opc <= 1 then
        d.(op := if opc == 1 then LOAD else STORE, amount := amount, width := if amount == 8 then 64 else 32,
           immediate := Wrap64(Part(word, 10, 12) * amount))
      else d
    else d
  }

  /** Decoding with the bitmask expanded where it is needed. */
  method DecodeWord(pc: u64, word: nat) returns (d: Decoded)
    requires word < 0x1_0000_0000
    ensures d == Decode(pc, word)
  {
    hide DecodeWith, LogicalImmediate, Part, Match;
    var logical: Option<u64> := None;
    if Match(word, 0x1f800000, 0x12000000) {
      logical := ExpandLogical(word, Width(word));
    } else {
      Unneeded(pc, word, LogicalImmediate(word, Width(word)));
    }
    d := DecodeWith(pc, word, logical);
  }

  lemma Unneeded(pc: u64, word: nat, logical: Option<u64>)
    requires word < 0x1_0000_0000 && !Match(word, 0x1f800000, 0x12000000)
    ensures DecodeWith(pc, word, logical) == DecodeWith(pc, word, None)
  {
    hide Part, Target, SignExtend, Wrap64, Two, Match;
  }

  /**
   What every decoded instruction satisfies: it remembers where and what it was;
   shifts stay within the operand; branches from an aligned instruction lead to
   aligned ones; a load or store moves 1, 2, 4 or 8 bytes at a multiple of that;
   a bitmask is neither empty nor full.
   */
  lemma DecodeMeans(pc: u64, word: nat)
    requires word < 0x1_0000_0000
    ensures var d := Decode(pc, word);
            Shape(pc, word, d) && ShiftsWithin(d) && LeadsAligned(pc, d) && MovesBytes(d) && MasksMixed(d)
  {
    hide DecodeWith, Decode;
    DecodeShape(pc, word);
    DecodeShifts(pc, word);
    DecodeTargets(pc, word);
    DecodeAccess(pc, word);
    DecodeMask(pc, word);
  }

  predicate Shape(pc: u64, word: nat, d: Decoded) {
    && d.valid && d.pc == pc && d.instruction == word
    && d.rd < 32 && d.rn < 32 && d.rm < 32 && d.ra < 32 && (d.width == 32 || d.width == 64)
  }

  predicate ShiftsWithin(d: Decoded) {
    && (d.op == WIDE || d.op == ADD_REG || d.op == LOGIC ==> d.amount < d.width)
    && (d.op == WIDE ==> d.flags != 1) && (d.op == ADD_REG ==> d.shift != 3) && (d.op == TBZ ==> d.amount < 64)
  }

  predicate LeadsAligned(pc: u64, d: Decoded) {
    pc % 4 == 0 && (d.op == BRANCH || d.op == COND || d.op == CBZ || d.op == TBZ) ==> d.immediate % 4 == 0
  }

  predicate MovesBytes(d: Decoded) {
    d.op == LOAD || d.op == STORE ==>
      (d.amount == 1 || d.amount == 2 || d.amount == 4 || d.amount == 8) && d.immediate % d.amount == 0
  }

  predicate MasksMixed(d: Decoded) {
    d.op == LOGIC_IMM ==> 0 < d.immediate < Two(d.width) - 1
  }

  lemma DecodeShape(pc: u64, word: nat)
    requires word < 0x1_0000_0000
    ensures Shape(pc, word, Decode(pc, word))
  {
    hide LogicalImmediate, Target, SignExtend, Wrap64, Two, Part, Match;
    Fields(word);
  }

  lemma DecodeShifts(pc: u64, word: nat)
    requires word < 0x1_0000_0000
    ensures ShiftsWithin(Decode(pc, word))
  {
    hide LogicalImmediate, Target, SignExtend, Wrap64, Two, Part, Match;
    Fields(word);
  }

  lemma DecodeTargets(pc: u64, word: nat)
    requires word < 0x1_0000_0000
    ensures LeadsAligned(pc, Decode(pc, word))
  {
    hide LogicalImmediate, Target, SignExtend, Wrap64, Two, Part, Match;
    Targets(pc);
  }

  lemma DecodeAccess(pc: u64, word: nat)
    requires word < 0x1_0000_0000
    ensures MovesBytes(Decode(pc, word))
  {
    hide LogicalImmediate, Target, SignExtend, Wrap64, Two, Part, Match;
    AccessSize(word);
  }

  lemma DecodeMask(pc: u64, word: nat)
    requires word < 0x1_0000_0000
    ensures MasksMixed(Decode(pc, word))
  {
    hide LogicalImmediate, Target, SignExtend, Wrap64, Two, Part, Match;
    LogicalMixed(word);
  }

  lemma LogicalMixed(word: nat)
    ensures var v := LogicalImmediate(word, Width(word)); v.Some? ==> 0 < v.value < Two(Width(word)) - 1
  {
    hide LogicalImmediate, Two, Part;
    if LogicalImmediate(word, Width(word)).Some? { LogicalMeans(word, Width(word)); }
  }

  lemma Targets(pc: u64)
    ensures pc % 4 == 0 ==> forall words :: Target(pc, words) % 4 == 0
  {}

  lemma Fields(word: nat)
    ensures Part(word, 0, 5) < 32 && Part(word, 5, 5) < 32 && Part(word, 16, 5) < 32 && Part(word, 10, 5) < 32
    ensures Part(word, 31, 1) < 2 && Part(word, 19, 5) < 32
  {
    hide Low, Down;
    assert Two(1) == 2 && Two(5) == 32 by { assert Two(3) == 8; }
  }

  lemma AccessSize(word: nat)
    ensures var amount := Two(Part(word, 30, 2));
            && (amount == 1 || amount == 2 || amount == 4 || amount == 8)
            && Wrap64(Part(word, 10, 12) * amount) % amount == 0
  {
    hide Low, Down, Part;
    var k := Part(word, 30, 2);
    assert Two(0) == 1 && Two(1) == 2 && Two(2) == 4 && Two(3) == 8;
    assert k < Two(2);
    var n := Part(word, 10, 12);
    if k == 1 {
      assert n * Two(k) == n * 2;
    } else if k == 2 {
      assert n * Two(k) == n * 4;
    } else if k == 3 {
      assert n * Two(k) == n * 8;
    }
  }

  // ----- execution -----

  /** One register or control-flow instruction; `None` when it is not one. */
  function Execute(c: Registers, d: Decoded): (r: Option<Registers>)
    requires GoodRegisters(c)
    ensures r.Some? ==> GoodRegisters(r.value)
  {
    var next := Wrap64(c.pc + 4);
    match d.op
    case NOP => Some(c.(pc := next))
    case WIDE =>
      var value :=
        if d.flags == 0 then Not(d.immediate)
        else if d.flags == 2 then d.immediate
        else Or(And(Reg(c, d.rd, false), Not(Wrap64(65535 * Two(d.amount)))), d.immediate);
      Some(Put(c, d.rd, value, d.width, false).(pc := next))
    case ADD_IMM => Some(Add(c, d, Reg(c, d.rn, true), d.immediate, d.flags % 2 == 0).(pc := next))
    case ADD_REG =>
      Some(Add(c, d, Reg(c, d.rn, false), Shifted(Reg(c, d.rm, false), d.shift, d.amount, d.width), false).(pc := next))
    case LOGIC =>
      var b := Shifted(Reg(c, d.rm, false), d.shift, d.amount, d.width);
      Some(Logic(c, d, if d.flags >= 4 then Not(b) else b, false).(pc := next))
    case LOGIC_IMM => Some(Logic(c, d, d.immediate, d.flags % 4 != 3).(pc := next))
    case SELECT =>
      var b := Reg(c, d.rm, false);
      var value :=
        if Condition(c.nzcv, d.shift) then Reg(c, d.rn, false)
        else if d.flags == 0 then b
        else if d.flags == 1 then Wrap64(b + 1)
        else if d.flags == 2 then Not(b)
        else Wrap64(0 - b);
      Some(Put(c, d.rd, value, d.width, false).(pc := next))
    case MADD =>
      var product := Reg(c, d.rn, false) * Reg(c, d.rm, false);
      var value := if d.flags != 0 then Reg(c, d.ra, false) - product else Reg(c, d.ra, false) + product;
      Some(Put(c, d.rd, Wrap64(value), d.width, false).(pc := next))
    case BRANCH => Some(Link(c, d).(pc := d.immediate))
    case BRANCH_REG => Some(Link(c, d).(pc := Reg(c, d.rn, false)))
    case COND => Some(c.(pc := if Condition(c.nzcv, d.flags) then d.immediate else next))
    case CBZ =>
      Some(c.(pc := if (Narrow(Reg(c, d.rd, false), d.width) != 0) == (d.flags != 0) then d.immediate else next))
    case TBZ => Some(c.(pc := if Reg(c, d.rd, false) / Two(d.amount) % 2 == d.flags then d.immediate else next))
    case ADDRESS => Some(Put(c, d.rd, d.immediate, d.width, false).(pc := next))
    case _ => None
  }

  function Link(c: Registers, d: Decoded): Registers
    requires GoodRegisters(c)
  {
    if d.flags != 0 then c.(x := c.x[30 := Wrap64(c.pc + 4)]) else c
  }

  function Add(c: Registers, d: Decoded, a: u64, b: u64, sp: bool): Registers
    requires GoodRegisters(c)
  {
    var sub := d.flags / 2 % 2 == 1;
    var e := if d.flags % 2 == 1 then c.(nzcv := SumFlags(a, b, sub, d.width)) else c;
    Put(e, d.rd, Sum(a, b, sub, d.width), d.width, sp)
  }

  function Logic(c: Registers, d: Decoded, b: u64, sp: bool): Registers
    requires GoodRegisters(c)
  {
    var a := Reg(c, d.rn, false);
    var result := if d.flags % 4 == 1 then Or(a, b) else if d.flags % 4 == 2 then Xor(a, b) else And(a, b);
    var value := Narrow(result, d.width);
    var e := if d.flags % 4 == 3 then c.(nzcv := Bit(Negative(value, d.width), 8) + Bit(value == 0, 4)) else c;
    Put(e, d.rd, value, d.width, sp)
  }
}
