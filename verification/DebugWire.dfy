/**
 Packet framing of the GDB remote serial protocol (appendix "GDB Remote Serial
 Protocol", section "Overview", of the GDB manual), as authorization/DebugWire.c
 writes and parses it.
 */
module DebugWire {
  import opened Octets

  const DOLLAR: octet := 36
  const PERCENT: octet := 37
  const HASH: octet := 35
  const PLUS: octet := 43
  const MINUS: octet := 45
  const STAR: octet := 42
  const BRACE: octet := 125

  datatype Event = MORE | ACK | NACK | PACKET | NOTIFICATION | MALFORMED | OVERFLOW | BAD_CHECKSUM

  datatype Mode = SEEK | BODY | ESCAPE | REPEAT | CHECK_HIGH | CHECK_LOW

  /** `b ^ 0x20`. */
  function Flip(b: octet): octet {
    if b / 32 % 2 == 1 then b - 32 else b + 32
  }

  function Hex(c: octet): int {
    if 48 <= c <= 57 then c - 48 else if 97 <= c <= 102 then c - 87 else if 65 <= c <= 70 then c - 55 else -1
  }

  function Digit(n: nat): octet
    requires n < 16
  {
    if n < 10 then 48 + n else 87 + n
  }

  // ----- the parser -----

  datatype State = State(mode: Mode, payload: seq<octet>, sum: octet, expected: octet, notification: bool)

  function Fail(s: State, e: Event): (State, Event) {
    (s.(mode := SEEK, payload := []), e)
  }

  function Append(s: State, capacity: nat, b: octet): (State, Event) {
    if |s.payload| == capacity then Fail(s, OVERFLOW) else (s.(payload := s.payload + [b]), MORE)
  }

  function Add(sum: octet, b: octet): octet { (sum + b) % 256 }

  /** A run length of 0 to 97 further copies, printable and not a framing character. */
  predicate RunByte(b: octet) {
    32 <= b <= 126 && b != DOLLAR && b != HASH && b != PLUS && b != MINUS
  }

  function Copies(b: octet, n: nat): seq<octet> { seq(n, _ => b) }

  /** What one byte does. */
  function Feed(s: State, capacity: nat, zeroChecksum: bool, b: octet): (State, Event) {
    match s.mode
    case SEEK =>
      if b == PLUS then (s, ACK)
      else if b == MINUS then (s, NACK)
      else if b == DOLLAR || b == PERCENT then
        (s.(mode := BODY, payload := [], sum := 0, notification := b == PERCENT), MORE)
      else (s, MORE)
    case BODY =>
      if b == DOLLAR then (s.(payload := [], sum := 0, notification := false), MALFORMED)
      else if b == HASH then (s.(mode := CHECK_HIGH), MORE)
      else
        var t := s.(sum := Add(s.sum, b));
        if b == BRACE then (t.(mode := ESCAPE), MORE)
        else if b == STAR then (t.(mode := REPEAT), MORE)
        else Append(t, capacity, b)
    case ESCAPE => Append(s.(sum := Add(s.sum, b), mode := BODY), capacity, Flip(b))
    case REPEAT =>
      var t := s.(sum := Add(s.sum, b), mode := BODY);
      if t.payload == [] || !RunByte(b) then Fail(t, MALFORMED)
      else if b - 29 > capacity - |t.payload| then Fail(t, OVERFLOW)
      else (t.(payload := t.payload + Copies(t.payload[|t.payload| - 1], b - 29)), MORE)
    case CHECK_HIGH =>
      if Hex(b) < 0 then Fail(s, MALFORMED) else (s.(expected := 16 * Hex(b), mode := CHECK_LOW), MORE)
    case CHECK_LOW =>
      if Hex(b) < 0 then Fail(s, MALFORMED)
      else
        var t := s.(mode := SEEK);
        var sum := (s.expected + Hex(b)) % 256;
        if sum != s.sum && !(zeroChecksum && sum == 0) then Fail(t, BAD_CHECKSUM)
        else (t, if s.notification then NOTIFICATION else PACKET)
  }

  class Parser {
    const capacity: nat
    var mode: Mode
    var payload: seq<octet>
    var sum: octet
    var expected: octet
    var notification: bool
    var zeroChecksum: bool

    ghost function S(): State
      reads this
    {
      State(mode, payload, sum, expected, notification)
    }

    ghost predicate Valid()
      reads this
    {
      |payload| <= capacity
    }

    constructor (capacity: nat)
      ensures Valid() && this.capacity == capacity && !zeroChecksum && S() == State(SEEK, [], 0, 0, false)
    {
      this.capacity := capacity;
      mode, payload, sum, expected, notification, zeroChecksum := SEEK, [], 0, 0, false, false;
    }

    method Reject(event: Event) returns (e: Event)
      modifies `mode, `payload
      ensures e == event && mode == SEEK && payload == []
    {
      mode, payload := SEEK, [];
      e := event;
    }

    method Keep(b: octet) returns (e: Event)
      requires Valid()
      modifies `mode, `payload
      ensures Valid() && (S(), e) == old(Append(S(), capacity, b))
    {
      if |payload| == capacity {
        e := Reject(OVERFLOW);
        return;
      }
      payload := payload + [b];
      e := MORE;
    }

    /** `dw_feed`: one byte at a time; the payload never outgrows its buffer. */
    method Take(b: octet) returns (e: Event)
      requires Valid()
      modifies this
      ensures Valid() && zeroChecksum == old(zeroChecksum)
      ensures (S(), e) == old(Feed(S(), capacity, zeroChecksum, b))
    {
      match mode {
        case SEEK =>
          if b == PLUS { return ACK; }
          if b == MINUS { return NACK; }
          if b == DOLLAR || b == PERCENT {
            mode, payload, sum, notification := BODY, [], 0, b == PERCENT;
          }
          e := MORE;
        case BODY =>
          if b == DOLLAR {
            payload, sum, notification := [], 0, false;
            return MALFORMED;
          }
          if b == HASH {
            mode := CHECK_HIGH;
            return MORE;
          }
          sum := Add(sum, b);
          if b == BRACE {
            mode := ESCAPE;
            return MORE;
          }
          if b == STAR {
            mode := REPEAT;
            return MORE;
          }
          e := Keep(b);
        case ESCAPE =>
          sum, mode := Add(sum, b), BODY;
          e := Keep(Flip(b));
        case REPEAT =>
          sum, mode := Add(sum, b), BODY;
          if payload == [] || !RunByte(b) {
            e := Reject(MALFORMED);
            return;
          }
          var count := b - 29;
          if count > capacity - |payload| {
            e := Reject(OVERFLOW);
            return;
          }
          payload := payload + Copies(payload[|payload| - 1], count);
          e := MORE;
        case CHECK_HIGH =>
          var digit := Hex(b);
          if digit < 0 {
            e := Reject(MALFORMED);
            return;
          }
          expected, mode := 16 * digit, CHECK_LOW;
          e := MORE;
        case CHECK_LOW =>
          var digit := Hex(b);
          if digit < 0 {
            e := Reject(MALFORMED);
            return;
          }
          mode := SEEK;
          var found := (expected + digit) % 256;
          if found != sum && !(zeroChecksum && found == 0) {
            e := Reject(BAD_CHECKSUM);
            return;
          }
          e := if notification then NOTIFICATION else PACKET;
      }
    }
  }

  // ----- the encoder -----

  predicate NeedsEscape(b: octet) {
    b == DOLLAR || b == HASH || b == BRACE || b == STAR
  }

  /** The bytes between the frame characters. */
  function Body(p: seq<octet>): seq<octet> {
    if p == [] then []
    else
      var b := p[|p| - 1];
      Body(p[..|p| - 1]) + if NeedsEscape(b) then [BRACE, Flip(b)] else [b]
  }

  function Sum(s: seq<octet>): octet {
    if s == [] then 0 else Add(Sum(s[..|s| - 1]), s[|s| - 1])
  }

  /** The whole packet: frame, escaped payload and checksum in two hexadecimal digits. */
  function Encoded(p: seq<octet>): seq<octet> {
    [DOLLAR] + Body(p) + [HASH, Digit(Sum(Body(p)) / 16), Digit(Sum(Body(p)) % 16)]
  }

  lemma {:induction false} BodyLength(p: seq<octet>)
    ensures |Body(p)| >= |p|
  {
    if p != [] { BodyLength(p[..|p| - 1]); }
  }

  lemma {:induction false} BodyPrefix(p: seq<octet>, i: nat)
    requires i <= |p|
    ensures |Body(p[..i])| + |p| - i <= |Body(p)|
    decreases |p| - i
  {
    if i == |p| {
      assert p[..i] == p;
    } else {
      BodyPrefix(p, i + 1);
      assert p[..i + 1][..i] == p[..i];
    }
  }

  lemma SumAppend(s: seq<octet>, b: octet)
    ensures Sum(s + [b]) == Add(Sum(s), b)
  {
    assert (s + [b])[..|s|] == s;
  }

  /** Lines 55-57: the exact size of the packet, or 0 when it exceeds the capacity. */
  method PacketSize(p: seq<octet>, capacity: nat) returns (needed: nat)
    ensures needed == if |Encoded(p)| <= capacity then |Encoded(p)| else 0
  {
    hide Body, Sum, Digit;
    BodyLength(p);
    if capacity < 4 || |p| > capacity - 4 {
      return 0;
    }
    needed := |p| + 4;
    BodyEmpty();
    for i := 0 to |p|
      invariant needed == |Body(p[..i])| + |p| - i + 4 <= capacity
    {
      BodyStep(p, i);
      if NeedsEscape(p[i]) {
        if needed == capacity {
          BodyPrefix(p, i + 1);
          return 0;
        }
        needed := needed + 1;
      }
    }
    assert p[..|p|] == p;
  }

  /** `dw_encode`: 0 exactly when the packet does not fit, and otherwise its length, with the packet in the buffer. */
  method Encode(p: seq<octet>, out: array<octet>) returns (n: nat)
    modifies out
    ensures n == if |Encoded(p)| <= out.Length then |Encoded(p)| else 0
    ensures n > 0 ==> out[..n] == Encoded(p)
    ensures forall k :: n <= k < out.Length ==> out[k] == old(out[k])
  {
    hide Body, Flip, Sum, Digit;
    n := PacketSize(p, out.Length);
    if n == 0 {
      return;
    }
    var at, sum: octet := 1, 0;
    out[0] := DOLLAR;
    BodyEmpty();
    for i := 0 to |p|
      invariant at == 1 + |Body(p[..i])| && at + 3 <= n && out[..at] == [DOLLAR] + Body(p[..i])
      invariant sum == Sum(Body(p[..i]))
      invariant forall k :: n <= k < out.Length ==> out[k] == old(out[k])
    {
      BodyPrefix(p, i + 1);
      BodyStep(p, i);
      if NeedsEscape(p[i]) {
        SumAppend(Body(p[..i]), BRACE);
        SumAppend(Body(p[..i]) + [BRACE], Flip(p[i]));
        PairSplit(Body(p[..i]), BRACE, Flip(p[i]));
        Store(out, at, BRACE);
        Store(out, at + 1, Flip(p[i]));
        at, sum := at + 2, Add(Add(sum, BRACE), Flip(p[i]));
      } else {
        SumAppend(Body(p[..i]), p[i]);
        Store(out, at, p[i]);
        at, sum := at + 1, Add(sum, p[i]);
      }
    }
    assert p[..|p|] == p;
    Store(out, at, HASH);
    Store(out, at + 1, Digit(sum / 16));
    Store(out, at + 2, Digit(sum % 16));
  }

  /** `out[at] = b`, as it extends the bytes written so far. */
  method Store(out: array<octet>, at: nat, b: octet)
    requires at < out.Length
    modifies out
    ensures out[..at + 1] == old(out[..at]) + [b]
    ensures forall k :: at < k < out.Length ==> out[k] == old(out[k])
  {
    out[at] := b;
  }

  lemma BodyEmpty()
    ensures Body([]) == [] && Sum([]) == 0
  {}

  lemma PairSplit(s: seq<octet>, a: octet, b: octet)
    ensures s + [a, b] == s + [a] + [b]
  {}

  lemma BodyStep(p: seq<octet>, i: nat)
    requires i < |p|
    ensures Body(p[..i + 1]) == Body(p[..i]) + if NeedsEscape(p[i]) then [BRACE, Flip(p[i])] else [p[i]]
  {
    assert p[..i + 1][..i] == p[..i];
  }

  // ----- the round trip -----

  /** Feeding a stream: the last state. */
  ghost function FeedAll(s: State, capacity: nat, zero: bool, stream: seq<octet>): State {
    if stream == [] then s
    else Feed(FeedAll(s, capacity, zero, stream[..|stream| - 1]), capacity, zero, stream[|stream| - 1]).0
  }

  /** The event that byte `k` of a stream gives. */
  ghost function EventAt(s: State, capacity: nat, zero: bool, stream: seq<octet>, k: nat): Event
    requires k < |stream|
  {
    Feed(FeedAll(s, capacity, zero, stream[..k]), capacity, zero, stream[k]).1
  }

  /** For every stream, from every fitting state, the payload fits. */
  lemma {:induction false} PayloadFits(s: State, capacity: nat, zero: bool, stream: seq<octet>)
    requires |s.payload| <= capacity
    ensures |FeedAll(s, capacity, zero, stream).payload| <= capacity
  {
    if stream != [] { PayloadFits(s, capacity, zero, stream[..|stream| - 1]); }
  }

  lemma FeedOne(s: State, capacity: nat, zero: bool, stream: seq<octet>, b: octet)
    ensures FeedAll(s, capacity, zero, stream + [b]) == Feed(FeedAll(s, capacity, zero, stream), capacity, zero, b).0
    ensures EventAt(s, capacity, zero, stream + [b], |stream|)
         == Feed(FeedAll(s, capacity, zero, stream), capacity, zero, b).1
  {
    assert (stream + [b])[..|stream|] == stream;
  }

  /** All of the first `n` bytes ask for more. */
  ghost predicate Quiet(s: State, capacity: nat, zero: bool, stream: seq<octet>, n: nat) {
    n <= |stream| && forall k :: 0 <= k < n ==> EventAt(s, capacity, zero, stream, k) == MORE
  }

  lemma QuietMore(s: State, capacity: nat, zero: bool, stream: seq<octet>, b: octet, n: nat)
    requires Quiet(s, capacity, zero, stream, n)
    ensures Quiet(s, capacity, zero, stream + [b], n)
    ensures n == |stream| && EventAt(s, capacity, zero, stream + [b], n) == MORE ==>
      Quiet(s, capacity, zero, stream + [b], n + 1)
  {
    forall k | 0 <= k < n ensures EventAt(s, capacity, zero, stream + [b], k) == MORE {
      assert (stream + [b])[..k] == stream[..k] && (stream + [b])[k] == stream[k];
      assert EventAt(s, capacity, zero, stream, k) == MORE;
    }
  }

  /** After the frame character and the escaped form of `p`, the parser holds exactly `p`. */
  lemma {:induction false} FeedBody(s: State, capacity: nat, zero: bool, p: seq<octet>)
    requires s.mode == SEEK && |p| <= capacity
    ensures FeedAll(s, capacity, zero, [DOLLAR] + Body(p)) == State(BODY, p, Sum(Body(p)), s.expected, false)
    ensures Quiet(s, capacity, zero, [DOLLAR] + Body(p), 1 + |Body(p)|)
  {
    hide Feed, FeedAll, EventAt, Quiet, Flip, Sum;
    if p == [] {
      assert [DOLLAR] + Body(p) == [] + [DOLLAR];
      FeedNothing(s, capacity, zero);
      FeedOne(s, capacity, zero, [], DOLLAR);
      FeedDollar(s, capacity, zero);
      QuietMore(s, capacity, zero, [], DOLLAR, 0);
      BodyEmpty();
    } else {
      var last := |p| - 1;
      var q, b := p[..last], p[last];
      var body := Body(q);
      FeedBody(s, capacity, zero, q);
      var stream := [DOLLAR] + body;
      var held := State(BODY, q, Sum(body), s.expected, false);
      assert p == q + [b];
      if NeedsEscape(b) {
        FeedOne(s, capacity, zero, stream, BRACE);
        QuietMore(s, capacity, zero, stream, BRACE, |stream|);
        SumAppend(body, BRACE);
        FeedBrace(held, capacity, zero);
        var mid := stream + [BRACE];
        FeedOne(s, capacity, zero, mid, Flip(b));
        SumAppend(body + [BRACE], Flip(b));
        FeedEscaped(held.(mode := ESCAPE, sum := Sum(body + [BRACE])), capacity, zero, b);
        QuietMore(s, capacity, zero, mid, Flip(b), |mid|);
        PairSplit(body, BRACE, Flip(b));
        assert [DOLLAR] + Body(p) == mid + [Flip(b)];
      } else {
        FeedOne(s, capacity, zero, stream, b);
        QuietMore(s, capacity, zero, stream, b, |stream|);
        SumAppend(body, b);
        FeedPlain(held, capacity, zero, b);
        assert [DOLLAR] + Body(p) == stream + [b];
      }
    }
  }

  lemma FeedNothing(s: State, capacity: nat, zero: bool)
    ensures FeedAll(s, capacity, zero, []) == s && Quiet(s, capacity, zero, [], 0)
  {}

  lemma FeedDollar(s: State, capacity: nat, zero: bool)
    requires s.mode == SEEK
    ensures Feed(s, capacity, zero, DOLLAR) == (State(BODY, [], 0, s.expected, false), MORE)
  {}

  lemma FeedBrace(s: State, capacity: nat, zero: bool)
    requires s.mode == BODY
    ensures Feed(s, capacity, zero, BRACE) == (s.(mode := ESCAPE, sum := Add(s.sum, BRACE)), MORE)
  {}

  lemma FeedEscaped(s: State, capacity: nat, zero: bool, b: octet)
    requires s.mode == ESCAPE && |s.payload| < capacity
    ensures Feed(s, capacity, zero, Flip(b))
         == (s.(mode := BODY, sum := Add(s.sum, Flip(b)), payload := s.payload + [b]), MORE)
  {
    assert Flip(Flip(b)) == b;
  }

  lemma FeedPlain(s: State, capacity: nat, zero: bool, b: octet)
    requires s.mode == BODY && |s.payload| < capacity && !NeedsEscape(b)
    ensures Feed(s, capacity, zero, b) == (s.(sum := Add(s.sum, b), payload := s.payload + [b]), MORE)
  {}

  /** The three closing bytes of a packet whose payload was read. */
  lemma FeedClosing(s: State, capacity: nat, zero: bool)
    requires s.mode == BODY
    ensures var (a, e0) := Feed(s, capacity, zero, HASH);
            var (b, e1) := Feed(a, capacity, zero, Digit(s.sum / 16));
            var (c, e2) := Feed(b, capacity, zero, Digit(s.sum % 16));
            && e0 == MORE && e1 == MORE && e2 == (if s.notification then NOTIFICATION else PACKET)
            && c.mode == SEEK && c.payload == s.payload
  {}

  /**
   Round trip: feeding an encoded packet to a parser that is looking for one,
   with room for it, asks for more until the last byte and then gives the packet.
   */
  lemma RoundTrip(s: State, capacity: nat, zero: bool, p: seq<octet>)
    requires s.mode == SEEK && |p| <= capacity
    ensures var stream := Encoded(p);
            && Quiet(s, capacity, zero, stream, |stream| - 1)
            && EventAt(s, capacity, zero, stream, |stream| - 1) == PACKET
            && FeedAll(s, capacity, zero, stream).payload == p && FeedAll(s, capacity, zero, stream).mode == SEEK
  {
    hide Feed, FeedAll, EventAt, Quiet, Body, Sum, Digit;
    FeedBody(s, capacity, zero, p);
    var body := Body(p);
    var sum := Sum(body);
    var s0 := [DOLLAR] + body;
    var s1 := s0 + [HASH];
    var s2 := s1 + [Digit(sum / 16)];
    var s3 := s2 + [Digit(sum % 16)];
    FeedOne(s, capacity, zero, s0, HASH);
    FeedOne(s, capacity, zero, s1, Digit(sum / 16));
    FeedOne(s, capacity, zero, s2, Digit(sum % 16));
    FeedClosing(FeedAll(s, capacity, zero, s0), capacity, zero);
    QuietMore(s, capacity, zero, s0, HASH, |s0|);
    QuietMore(s, capacity, zero, s1, Digit(sum / 16), |s1|);
    QuietMore(s, capacity, zero, s2, Digit(sum % 16), |s2|);
    assert Encoded(p) == s3;
  }

  /** Different payloads never encode alike. */
  lemma EncodedInjective(p: seq<octet>, q: seq<octet>)
    requires Encoded(p) == Encoded(q)
    ensures p == q
  {
    hide Encoded, FeedAll, Quiet, EventAt;
    var s := State(SEEK, [], 0, 0, false);
    RoundTrip(s, |p| + |q|, false, p);
    RoundTrip(s, |p| + |q|, false, q);
  }
}
