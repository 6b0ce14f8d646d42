/**
 Whole messages and the stream that carries them
 (authorization/Transport/RemoteXPCWire.swift:128-182).
 */
module XPCMessages {
  import opened GuestTypes
  import opened Octets
  import opened XPCForm
  import opened XPCParse
  import opened XPCWriter
  import opened XPCReader

  const MAGIC: nat := 0x29b00b92
  const OBJECT_MAGIC: nat := 0x42133742
  const VERSION: nat := 5
  const HEADER: nat := 24

  datatype Message = Message(flags: u32, identifier: u64, value: Option<Value>)

  // ----- encoding -----

  ghost function Payload(m: Message): seq<octet> {
    if m.value.None? then [] else Spread(OBJECT_MAGIC, 4) + (Spread(VERSION, 4) + Form(m.value.value))
  }

  function Header(m: Message, length: nat): (h: seq<octet>)
    ensures |h| == HEADER
  {
    Spread(MAGIC, 4) + (Spread(m.flags, 4) + (Spread(length, 8) + Spread(m.identifier, 8)))
  }

  ghost function Wire(m: Message): seq<octet> { Header(m, |Payload(m)|) + Payload(m) }

  /** The value, if there is one, is legal and within the limits. */
  ghost predicate Encodable(m: Message) {
    m.value.Some? ==> Fits(m.value.value, 0, 0, 8)
  }

  method Encode(m: Message) returns (data: Option<seq<octet>>)
    ensures data.Some? <==> Encodable(m)
    ensures data.Some? ==> data.value == Wire(m)
  {
    hide Encodable, Payload, Header;
    var payload := EncodePayload(m);
    if payload.None? { return None; }
    var head := EncodeHeader(m, |payload.value|);
    return Some(head + payload.value);
  }

  method EncodePayload(m: Message) returns (payload: Option<seq<octet>>)
    ensures payload.Some? <==> Encodable(m)
    ensures payload.Some? ==> payload.value == Payload(m)
  {
    hide Spread, Fits, Form;
    if m.value.None? { return Some([]); }
    var w := new Writer();
    var ok := w.PutNumber(OBJECT_MAGIC, 4);
    ok := w.PutNumber(VERSION, 4);
    ok := w.Object(m.value.value, 0);
    if !ok { return None; }
    return Some(w.bytes);
  }

  method EncodeHeader(m: Message, length: nat) returns (head: seq<octet>)
    ensures head == Header(m, length)
  {
    hide Spread;
    var w := new Writer();
    var ok := w.PutNumber(MAGIC, 4);
    ok := w.PutNumber(m.flags, 4);
    ok := w.PutNumber(length, 8);
    ok := w.PutNumber(m.identifier, 8);
    head := w.bytes;
    Regroup(Spread(MAGIC, 4), Spread(m.flags, 4), Spread(length, 8), Spread(m.identifier, 8));
  }

  lemma Regroup(a: seq<octet>, b: seq<octet>, c: seq<octet>, d: seq<octet>)
    ensures [] + a + b + c + d == a + (b + (c + d))
  {
  }

  // ----- decoding -----

  function Decoded(data: seq<octet>): Option<Message> {
    if !(HEADER <= |data| <= MAX_PAYLOAD + HEADER) || NumberAt(data, 0, 4) != MAGIC then None
    else if NumberAt(data, 8, 8) != |data| - HEADER || NumberAt(data, 4, 4) % 2 != 1 then None
    else DecodedValue(data)
  }

  function DecodedValue(data: seq<octet>): Option<Message>
    requires HEADER <= |data|
  {
    var flags, identifier := FlagsAt(data), WordAt(data, 16);
    if |data| == HEADER then Some(Message(flags, identifier, None))
    else if |data| < HEADER + 8 || NumberAt(data, 24, 4) != OBJECT_MAGIC || NumberAt(data, 28, 4) != VERSION then None
    else
      var v := ParseObject(data, 32, |data|, 0, 0);
      if v.Got? && v.at == |data| then Some(Message(flags, identifier, Some(v.value))) else None
  }

  function FlagsAt(data: seq<octet>): u32
    requires 8 <= |data|
  {
    LittleBelow(data[4..8]);
    Power4();
    NumberAt(data, 4, 4)
  }

  method Decode(data: seq<octet>) returns (m: Option<Message>)
    ensures m == Decoded(data)
  {
    hide Little, ParseObject;
    if !(HEADER <= |data| <= MAX_PAYLOAD + HEADER) { return None; }
    var r := new Reader(data);
    var end := |data|;
    var magic := r.Number(4, end);
    if magic.value != MAGIC { return None; }
    var flags := r.Number(4, end);
    var length := r.Number(8, end);
    var identifier := r.Number(8, end);
    if length.value != end - HEADER || flags.value % 2 != 1 { return None; }
    var value: Option<Value> := None;
    if length.value != 0 {
      magic := r.Number(4, end);
      if magic.None? || magic.value != OBJECT_MAGIC { return None; }
      var version := r.Number(4, end);
      if version.None? || version.value != VERSION { return None; }
      value := r.Object(end, 0);
      if value.None? { return None; }
    }
    if r.at != end { return None; }
    return Some(Message(FlagsAt(data), WordAt(data, 16), value));
  }

  // ----- round trip -----

  lemma HeaderRead(m: Message, data: seq<octet>, length: nat)
    requires At(data, 0, Header(m, length)) && length < TWO64
    ensures NumberAt(data, 0, 4) == MAGIC && NumberAt(data, 4, 4) == m.flags
    ensures NumberAt(data, 8, 8) == length && NumberAt(data, 16, 8) == m.identifier
  {
    hide Spread, Little;
    Power4();
    AtSplit(data, 0, Spread(MAGIC, 4), Spread(m.flags, 4) + (Spread(length, 8) + Spread(m.identifier, 8)));
    AtSplit(data, 4, Spread(m.flags, 4), Spread(length, 8) + Spread(m.identifier, 8));
    AtSplit(data, 8, Spread(length, 8), Spread(m.identifier, 8));
    NumberRead(data, 0, 4, MAGIC);
    NumberRead(data, 4, 4, m.flags);
    NumberRead(data, 8, 8, length);
    NumberRead(data, 16, 8, m.identifier);
  }

  lemma PayloadSize(m: Message)
    requires Encodable(m)
    ensures |Payload(m)| <= MAX_PAYLOAD && (m.value.Some? <==> |Payload(m)| > 0)
  {
    hide Form;
  }

  lemma PayloadRead(m: Message, data: seq<octet>)
    requires Encodable(m) && m.value.Some? && At(data, HEADER, Payload(m)) && HEADER + |Payload(m)| == |data|
    ensures |data| >= HEADER + 8 && NumberAt(data, 24, 4) == OBJECT_MAGIC && NumberAt(data, 28, 4) == VERSION
    ensures var v := ParseObject(data, 32, |data|, 0, 0); v.Got? && v.at == |data| && v.value == m.value.value
  {
    hide Spread, Little, Form, ParseObject, Legal, Nodes;
    Power4();
    var f := Form(m.value.value);
    AtSplit(data, 24, Spread(OBJECT_MAGIC, 4), Spread(VERSION, 4) + f);
    AtSplit(data, 28, Spread(VERSION, 4), f);
    NumberRead(data, 24, 4, OBJECT_MAGIC);
    NumberRead(data, 28, 4, VERSION);
    ReadBack(data, 32, |data|, 0, 0, m.value.value);
  }

  /** Where the fields of a message stand in its bytes. */
  lemma WireRead(m: Message)
    requires Encodable(m)
    ensures var data := Wire(m);
            && HEADER <= |data| <= HEADER + MAX_PAYLOAD && NumberAt(data, 0, 4) == MAGIC
            && NumberAt(data, 4, 4) == m.flags
            && NumberAt(data, 8, 8) == |data| - HEADER && NumberAt(data, 16, 8) == m.identifier
            && (m.value.Some? <==> |data| > HEADER) && At(data, HEADER, Payload(m)) && HEADER + |Payload(m)| == |data|
  {
    hide Payload, Header, Little, Encodable;
    PayloadSize(m);
    var data := Wire(m);
    assert At(data, 0, Header(m, |Payload(m)|) + Payload(m));
    AtSplit(data, 0, Header(m, |Payload(m)|), Payload(m));
    HeaderRead(m, data, |Payload(m)|);
  }

  /** Every message that can be encoded decodes to itself exactly when its flags are odd. */
  lemma RoundTrip(m: Message)
    requires Encodable(m)
    ensures HEADER <= |Wire(m)| <= HEADER + MAX_PAYLOAD
    ensures Decoded(Wire(m)) == if m.flags % 2 == 1 then Some(m) else None
  {
    hide Payload, Header, ParseObject, Little, Encodable, Wire;
    WireRead(m);
    if m.value.Some? { PayloadRead(m, Wire(m)); }
  }

  /** No two messages share their bytes. */
  lemma WireInjective(m: Message, n: Message)
    requires Encodable(m) && Encodable(n) && Wire(m) == Wire(n)
    ensures m == n
  {
    hide Payload, Header, ParseObject, Little, Encodable, Wire;
    WireRead(m);
    WireRead(n);
    if m.value.Some? {
      PayloadRead(m, Wire(m));
      PayloadRead(n, Wire(n));
    }
  }

  // ----- streams -----

  datatype StreamState = StreamState(bytes: seq<octet>, length: Option<nat>)

  const EMPTY: StreamState := StreamState([], None)

  datatype Progress = Going(state: StreamState, messages: seq<Message>) | Broken

  /** One more byte. */
  function FeedByte(s: StreamState, b: octet): Progress {
    var bytes := s.bytes + [b];
    if |bytes| == 16 && NumberAt(bytes, 8, 8) > MAX_PAYLOAD then Broken
    else
      var length := if |bytes| == 16 then Some(NumberAt(bytes, 8, 8) + HEADER) else s.length;
      if length != Some(|bytes|) then Going(StreamState(bytes, length), [])
      else
        var m := Decoded(bytes);
        if m.None? then Broken else Going(EMPTY, [m.value])
  }

  function Then(p: Progress, b: octet): Progress {
    if p.Broken? then Broken
    else
      var q := FeedByte(p.state, b);
      if q.Broken? then Broken else Going(q.state, p.messages + q.messages)
  }

  /** All bytes of `input` in order. */
  function Feed(s: StreamState, input: seq<octet>): Progress {
    if input == [] then Going(s, []) else Then(Feed(s, input[..|input| - 1]), input[|input| - 1])
  }

  class Stream {
    var bytes: seq<octet>
    var length: Option<nat>
    var failed: bool

    ghost function State(): StreamState
      reads this
    {
      StreamState(bytes, length)
    }

    constructor ()
      ensures State() == EMPTY && !failed
    {
      bytes, length, failed := [], None, false;
    }

    method Fail() returns (messages: Option<seq<Message>>)
      modifies this
      ensures messages.None? && failed && bytes == []
    {
      failed, bytes := true, [];
      return None;
    }

    /** Takes in a piece of the stream and returns the messages it completes. */
    method Consume(input: seq<octet>) returns (messages: Option<seq<Message>>)
      modifies this
      ensures var p := Feed(old(State()), input);
        if old(failed) || |input| > 65_536 || p.Broken? then messages.None? && failed
        else messages == Some(p.messages) && State() == p.state && !failed
    {
      hide FeedByte, Decoded;
      if failed { return None; }
      if |input| > 65_536 {
        messages := Fail();
        return;
      }
      var done: seq<Message> := [];
      for i := 0 to |input|
        invariant Feed(old(State()), input[..i]) == Going(State(), done) && !failed
      {
        assert input[..i + 1][..i] == input[..i];
        FeedOn(old(State()), input, i);
        var m, ok := Push(input[i]);
        if !ok {
          messages := Fail();
          return;
        }
        done := done + m;
      }
      assert input[..|input|] == input;
      return Some(done);
    }

    method Push(b: octet) returns (m: seq<Message>, ok: bool)
      modifies this
      ensures failed == old(failed)
      ensures var p := FeedByte(old(State()), b); ok == p.Going? && (ok ==> m == p.messages && State() == p.state)
    {
      hide Decoded, Little;
      m, ok := [], true;
      bytes := bytes + [b];
      if |bytes| == 16 {
        var n := NumberAt(bytes, 8, 8);
        if n > MAX_PAYLOAD { return [], false; }
        length := Some(n + HEADER);
      }
      if Some(|bytes|) == length {
        var message := Decode(bytes);
        if message.None? { return [], false; }
        m := [message.value];
        bytes, length := [], None;
      }
    }

    /** The end of the stream: an error if a message is incomplete. */
    method Finish() returns (ok: bool)
      modifies this
      ensures failed && (ok <==> !old(failed) && old(bytes) == [])
    {
      if failed { return false; }
      failed := true;
      ok := bytes == [];
      bytes := [];
    }
  }

  /** Once a byte breaks the stream, so does every longer input. */
  lemma FeedOn(s: StreamState, input: seq<octet>, i: nat)
    requires i < |input|
    ensures Feed(s, input[..i + 1]) == Then(Feed(s, input[..i]), input[i])
    ensures Feed(s, input[..i + 1]).Broken? ==> Feed(s, input).Broken?
  {
    hide FeedByte;
    assert input[..i + 1][..i] == input[..i];
    if Feed(s, input[..i + 1]).Broken? { StaysBroken(s, input, i + 1); }
  }

  lemma {:induction false} StaysBroken(s: StreamState, input: seq<octet>, i: nat)
    requires i <= |input| && Feed(s, input[..i]).Broken?
    ensures Feed(s, input).Broken?
    decreases |input| - i
  {
    hide FeedByte;
    if i < |input| {
      assert input[..i + 1][..i] == input[..i];
      StaysBroken(s, input, i + 1);
    } else {
      assert input[..i] == input;
    }
  }

  function After(p: Progress, input: seq<octet>): Progress {
    if p.Broken? then Broken
    else
      var q := Feed(p.state, input);
      if q.Broken? then Broken else Going(q.state, p.messages + q.messages)
  }

  /** Where the stream is cut makes no difference. */
  lemma {:induction false} FeedConcat(s: StreamState, a: seq<octet>, b: seq<octet>)
    ensures Feed(s, a + b) == After(Feed(s, a), b)
  {
    hide FeedByte, Feed, Then;
    if b == [] {
      assert a + b == a;
      FeedNothing(Feed(s, a));
    } else {
      var front, last := b[..|b| - 1], b[|b| - 1];
      FeedConcat(s, a, front);
      assert b == front + [last] && a + b == (a + front) + [last];
      FeedLast(s, a + front, last);
      AfterLast(Feed(s, a), front, last);
    }
  }

  lemma FeedNothing(p: Progress)
    ensures After(p, []) == p
  {
    if p.Going? { assert p.messages + [] == p.messages; }
  }

  lemma FeedLast(s: StreamState, input: seq<octet>, b: octet)
    ensures Feed(s, input + [b]) == Then(Feed(s, input), b)
  {
    hide Then;
    assert (input + [b])[..|input|] == input;
  }

  /** One more byte after some, seen from where they began. */
  lemma AfterLast(p: Progress, input: seq<octet>, b: octet)
    ensures After(p, input + [b]) == Then(After(p, input), b)
  {
    hide FeedByte, Feed;
    if p.Going? {
      FeedLast(p.state, input, b);
      var q := Feed(p.state, input);
      if q.Going? {
        var r := FeedByte(q.state, b);
        if r.Going? { assert p.messages + (q.messages + r.messages) == (p.messages + q.messages) + r.messages; }
      }
    }
  }

  /** A proper beginning of a message is only stored. */
  lemma {:induction false} FeedPart(m: Message, k: nat)
    requires Encodable(m) && k < |Wire(m)|
    ensures Feed(EMPTY, Wire(m)[..k]) == Going(StreamState(Wire(m)[..k], if k >= 16 then Some(|Wire(m)|) else None), [])
  {
    hide Wire, Decoded, Encodable, FeedByte;
    if k > 0 {
      FeedPart(m, k - 1);
      var w := Wire(m);
      hide Feed;
      if k >= 16 { LengthRead(m, w[..16]); }
      FeedInside(w, k);
      FeedNext(w, k);
    }
  }

  lemma FeedNext(w: seq<octet>, k: nat)
    requires 0 < k <= |w|
    ensures Feed(EMPTY, w[..k]) == Then(Feed(EMPTY, w[..k - 1]), w[k - 1])
  {
    hide Then;
    assert w[..k][..k - 1] == w[..k - 1];
  }

  lemma FeedInside(w: seq<octet>, k: nat)
    requires 0 < k < |w|
    requires k >= 16 ==> NumberAt(w[..16], 8, 8) + HEADER == |w| && NumberAt(w[..16], 8, 8) <= MAX_PAYLOAD
    ensures FeedByte(StreamState(w[..k - 1], if k - 1 >= 16 then Some(|w|) else None), w[k - 1])
         == Going(StreamState(w[..k], if k >= 16 then Some(|w|) else None), [])
  {
    hide Decoded, NumberAt;
    assert w[..k - 1] + [w[k - 1]] == w[..k];
  }

  lemma LengthRead(m: Message, start: seq<octet>)
    requires Encodable(m) && |Wire(m)| >= 16 && start == Wire(m)[..16]
    ensures |Wire(m)| >= HEADER && NumberAt(start, 8, 8) + HEADER == |Wire(m)| && NumberAt(start, 8, 8) <= MAX_PAYLOAD
  {
    hide Payload, Header, Little, Encodable;
    PayloadSize(m);
    var data := Wire(m);
    AtSplit(data, 0, Header(m, |Payload(m)|), Payload(m));
    HeaderRead(m, data, |Payload(m)|);
    assert start[8..16] == data[8..16];
  }

  /** The bytes of one message give that message and leave nothing behind. */
  lemma FeedMessage(m: Message)
    requires Encodable(m) && m.flags % 2 == 1
    ensures Feed(EMPTY, Wire(m)) == Going(EMPTY, [m])
  {
    hide Wire, Decoded, Encodable;
    RoundTrip(m);
    var w := Wire(m);
    var k := |w| - 1;
    FeedPart(m, k);
    assert w[..k] + [w[k]] == w;
  }

  ghost function WireAll(messages: seq<Message>): seq<octet> {
    if messages == [] then [] else WireAll(messages[..|messages| - 1]) + Wire(messages[|messages| - 1])
  }

  ghost predicate Sendable(messages: seq<Message>) {
    forall i :: 0 <= i < |messages| ==> Encodable(messages[i]) && messages[i].flags % 2 == 1
  }

  lemma {:induction false} FeedMessages(messages: seq<Message>)
    requires Sendable(messages)
    ensures Feed(EMPTY, WireAll(messages)) == Going(EMPTY, messages)
  {
    hide Wire, FeedByte, Encodable;
    if messages != [] {
      var n := |messages| - 1;
      FeedMessages(messages[..n]);
      FeedMessage(messages[n]);
      FeedConcat(EMPTY, WireAll(messages[..n]), Wire(messages[n]));
      assert messages[..n] + [messages[n]] == messages;
    }
  }

  function Joined(chunks: seq<seq<octet>>): seq<octet> {
    if chunks == [] then [] else Joined(chunks[..|chunks| - 1]) + chunks[|chunks| - 1]
  }

  lemma {:induction false} JoinedPrefix(chunks: seq<seq<octet>>, k: nat)
    requires k <= |chunks|
    ensures Joined(chunks[..k]) <= Joined(chunks)
    decreases |chunks| - k
  {
    if k < |chunks| {
      JoinedPrefix(chunks, k + 1);
      assert chunks[..k + 1][..k] == chunks[..k];
    } else {
      assert chunks[..k] == chunks;
    }
  }

  /** Concatenated messages arrive as they were sent, in whatever pieces the stream delivers them. */
  method Receive(chunks: seq<seq<octet>>, ghost messages: seq<Message>) returns (received: Option<seq<Message>>)
    requires Sendable(messages) && Joined(chunks) == WireAll(messages)
    requires forall i :: 0 <= i < |chunks| ==> |chunks[i]| <= 65_536
    ensures received == Some(messages)
  {
    hide Feed, FeedByte, Wire, Sendable, Joined, WireAll;
    FeedMessages(messages);
    var stream := new Stream();
    var done: seq<Message> := [];
    ghost var whole := Joined(chunks);
    NothingFed(chunks);
    for k := 0 to |chunks|
      invariant !stream.failed && Feed(EMPTY, Joined(chunks[..k])) == Going(stream.State(), done)
    {
      ChunkFed(chunks, k);
      var more := stream.Consume(chunks[k]);
      done := done + more.value;
    }
    assert chunks[..|chunks|] == chunks;
    return Some(done);
  }

  lemma NothingFed(chunks: seq<seq<octet>>)
    ensures Feed(EMPTY, Joined(chunks[..0])) == Going(EMPTY, [])
  {
  }

  lemma ChunkFed(chunks: seq<seq<octet>>, k: nat)
    requires k < |chunks| && Feed(EMPTY, Joined(chunks)).Going?
    ensures var p := Feed(EMPTY, Joined(chunks[..k]));
      p.Going? && Feed(p.state, chunks[k]).Going? && Feed(EMPTY, Joined(chunks[..k + 1])) == After(p, chunks[k])
  {
    hide Feed, FeedByte;
    assert chunks[..k + 1][..k] == chunks[..k];
    FeedConcat(EMPTY, Joined(chunks[..k]), chunks[k]);
    JoinedPrefix(chunks, k + 1);
    PrefixGoing(EMPTY, Joined(chunks[..k + 1]), Joined(chunks));
  }

  lemma PrefixGoing(s: StreamState, a: seq<octet>, b: seq<octet>)
    requires a <= b && Feed(s, b).Going?
    ensures Feed(s, a).Going?
  {
    hide Feed, FeedByte;
    FeedConcat(s, a, b[|a|..]);
    assert a + b[|a|..] == b;
  }
}
