/**
 Reading the text of debugger replies (authorization/Debugger/DebugProtocolWire.swift:37-64).
 Replies are ASCII, so one character is one byte.
 */
module DebugReplies {
  import opened GuestTypes

  const CAPACITY: nat := 32768

  function Digit(c: char): (d: Option<nat>)
    ensures d.Some? ==> d.value < 16
  {
    if '0' <= c <= '9' then Some((c - '0') as nat)
    else if 'A' <= c <= 'F' then Some((c - 'A') as nat + 10)
    else if 'a' <= c <= 'f' then Some((c - 'a') as nat + 10)
    else None
  }

  predicate AllHex(text: string) {
    forall i :: 0 <= i < |text| ==> Digit(text[i]).Some?
  }

  function ByteOf(text: string, i: nat): nat
    requires AllHex(text) && 2 * i + 1 < |text|
  {
    16 * Digit(text[2 * i]).value + Digit(text[2 * i + 1]).value
  }

  /** `unhex`: exactly `count` bytes, two digits each. */
  function Unhex(text: string, count: nat): (bytes: Option<seq<nat>>)
    ensures bytes.Some? <==> count <= CAPACITY / 2 && |text| == 2 * count && AllHex(text)
    ensures bytes.Some? ==>
      |bytes.value| == count && forall i :: 0 <= i < count ==> bytes.value[i] == ByteOf(text, i) < 256
  {
    if count <= CAPACITY / 2 && |text| == 2 * count && AllHex(text)
    then Some(seq(count, i requires 0 <= i < count => ByteOf(text, i)))
    else None
  }

  function Value(text: string): nat
    requires AllHex(text)
  {
    if text == [] then 0
    else 16 * Value(text[..|text| - 1]) + Digit(text[|text| - 1]).value
  }

  /** `number`: one to sixteen hexadecimal digits. */
  function Number(text: Option<string>): Option<nat> {
    if text.Some? && 0 < |text.value| <= 16 && AllHex(text.value) then Some(Value(text.value)) else None
  }

  predicate HasPrefix(text: string, prefix: string) {
    prefix <= text
  }

  /** How many characters precede the first `c`. */
  function Until(text: string, c: char): (n: nat)
    ensures n <= |text|
    ensures forall i :: 0 <= i < n ==> text[i] != c
    ensures n < |text| ==> text[n] == c
  {
    if text == [] || text[0] == c then 0 else 1 + Until(text[1..], c)
  }

  /** `split`, which drops empty pieces. */
  function Split(text: string, c: char): seq<string>
    decreases |text|
  {
    if text == [] then []
    else
      var n := Until(text, c);
      var rest := if n == |text| then [] else Split(text[n + 1..], c);
      if n == 0 then rest else [text[..n]] + rest
  }

  function Gather(pairs: seq<string>, fields: map<string, string>): Option<map<string, string>> {
    if pairs == [] then Some(fields)
    else
      var n := Until(pairs[0], ':');
      if |fields| >= 128 || n == |pairs[0]| || n == 0 || pairs[0][..n] in fields then None
      else Gather(pairs[1..], fields[pairs[0][..n] := pairs[0][n + 1..]])
  }

  /** `fields`: `key:value;` pairs with distinct nonempty keys. */
  function Fields(text: string): Option<map<string, string>> {
    if |text| > CAPACITY then None else Gather(Split(text, ';'), map[])
  }

  function Field(fields: map<string, string>, key: string): Option<string> {
    if key in fields then Some(fields[key]) else None
  }

  /** Lower-case hexadecimal without leading zeros. */
  function Hex(n: nat): string {
    var digit := (if n % 16 < 10 then '0' + (n % 16) as char else 'a' + (n % 16 - 10) as char);
    if n < 16 then [digit] else Hex(n / 16) + [digit]
  }

  function Power(k: nat): nat { if k == 0 then 1 else 16 * Power(k - 1) }

  lemma {:induction false} HexLength(n: nat, k: nat)
    requires k > 0 && n < Power(k)
    ensures |Hex(n)| <= k
  {
    if n >= 16 { HexLength(n / 16, k - 1); }
  }

  /** What `Hex` writes, `Number` reads. */
  lemma {:induction false} HexRoundTrip(n: nat)
    ensures AllHex(Hex(n)) && Value(Hex(n)) == n
  {
    if n >= 16 {
      HexRoundTrip(n / 16);
      var h := Hex(n);
      assert h[..|h| - 1] == Hex(n / 16);
    } else {
      assert Hex(n)[..0] == [];
    }
  }
}
