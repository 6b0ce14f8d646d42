/**
 The debugger session on the bytes of its connection: every received byte goes
 through the packet parser first (authorization/Debugger/DebugProtocolWire.swift:5-27
 and authorization/Debugger/DebugArenaSession.swift:56-103).
 */
module ArenaWire {
  import opened Octets
  import opened DebugReplies
  import opened ArenaSession
  import P = ArenaPhases
  import W = DebugWire

  function Text(bytes: seq<octet>): string { seq(|bytes|, i requires 0 <= i < |bytes| => bytes[i] as char) }

  /** `feed`: what the session is told about a byte. */
  function Told(e: W.Event, payload: seq<octet>): Fed {
    match e
    case MORE => More
    case ACK => Ack
    case NACK => Nack
    case BAD_CHECKSUM => BadChecksum
    case PACKET => Packet(Text(payload))
    case _ => Broken
  }

  /** What the session is told about the bytes, one after the other. */
  ghost function Heard(s: W.State, zero: bool, bytes: seq<octet>): (input: seq<Fed>)
    ensures |input| == |bytes|
  {
    if bytes == [] then []
    else
      var front, last := bytes[..|bytes| - 1], bytes[|bytes| - 1];
      var (t, e) := W.Feed(W.FeedAll(s, CAPACITY, zero, front), CAPACITY, zero, last);
      Heard(s, zero, front) + [Told(e, t.payload)]
  }

  /** The parser holds what it can and follows the session's rule for checksums. */
  ghost predicate Linked(session: Session, parser: W.Parser)
    reads session, parser
  {
    session.Valid() && parser.Valid() && parser.capacity == CAPACITY && parser.zeroChecksum == session.noAck
  }

  /** The bytes are parsed: the session is under way, in time, and takes as many. */
  predicate Listens(session: Session, count: nat, now: real)
    reads session
  {
    InTime(session, now) && count <= 65536
  }

  /**
   `receive` on bytes. The rule for checksums cannot change before the last byte
   the session looks at, so the bytes of one call are parsed by one rule.
   */
  method Receive(session: Session, parser: W.Parser, bytes: seq<octet>, now: real) returns (events: seq<Event>)
    requires Linked(session, parser)
    modifies session, parser
    ensures Linked(session, parser) && session.returned == old(session.returned) + events
    ensures if old(Listens(session, |bytes|, now))
            then && session.Consumed(Heard(old(parser.S()), old(session.noAck), bytes), events)
                 && parser.S() == W.FeedAll(old(parser.S()), CAPACITY, old(session.noAck), bytes)
            else parser.S() == old(parser.S()) && session.h == old(session.h)
    ensures !old(Listens(session, |bytes|, now)) ==>
      if old(Terminal(session.phase) || session.phase == P.Idle)
      then events == [] && session.phase == old(session.phase)
      else session.phase == P.Failed && |events| == 1
  {
    hide Session.Valid, W.Feed, W.FeedAll, Closes, Heard;
    var input := seq(|bytes|, _ => More);
    if Listens(session, |bytes|, now) {
      input := Parse(parser, bytes);
    }
    events := session.Receive(input, now);
    parser.zeroChecksum := session.noAck;
  }

  /** What the parser says about each byte in turn. */
  method Parse(parser: W.Parser, bytes: seq<octet>) returns (input: seq<Fed>)
    requires parser.Valid() && parser.capacity == CAPACITY
    modifies parser
    ensures parser.Valid() && parser.zeroChecksum == old(parser.zeroChecksum)
    ensures input == Heard(old(parser.S()), old(parser.zeroChecksum), bytes)
    ensures parser.S() == W.FeedAll(old(parser.S()), CAPACITY, old(parser.zeroChecksum), bytes)
  {
    hide W.Feed;
    input := [];
    assert bytes[..0] == [];
    for k := 0 to |bytes|
      invariant parser.Valid() && parser.zeroChecksum == old(parser.zeroChecksum)
      invariant parser.S() == W.FeedAll(old(parser.S()), CAPACITY, old(parser.zeroChecksum), bytes[..k])
      invariant input == Heard(old(parser.S()), old(parser.zeroChecksum), bytes[..k])
    {
      assert bytes[..k + 1][..k] == bytes[..k];
      var e := parser.Take(bytes[k]);
      input := input + [Told(e, parser.payload)];
    }
    assert bytes[..|bytes|] == bytes;
  }

  /** The session is under way and in time. */
  predicate InTime(session: Session, now: real)
    reads session
  {
    && !Terminal(session.phase) && session.phase != P.Idle
    && session.lastTime <= now < session.commandDeadline && now < session.totalDeadline
  }

  /** A packet on its way to a parser that is between packets says nothing until its last byte, and then its text. */
  lemma PacketHeard(s: W.State, zero: bool, payload: seq<octet>, rest: seq<octet>)
    requires s.mode == W.SEEK && |payload| <= CAPACITY
    ensures var n, input := |W.Encoded(payload)|, Heard(s, zero, W.Encoded(payload) + rest);
            && n > 0 && input[n - 1] == Packet(Text(payload))
            && forall k :: 0 <= k < n - 1 ==> input[k] == More
  {
    hide W.Feed, W.Encoded, W.FeedAll, W.EventAt, Heard, Text;
    var packet := W.Encoded(payload);
    EncodedSome(payload);
    W.RoundTrip(s, CAPACITY, zero, payload);
    forall k | 0 <= k < |packet|
      ensures Heard(s, zero, packet + rest)[k]
           == Told(W.EventAt(s, CAPACITY, zero, packet, k), W.FeedAll(s, CAPACITY, zero, packet[..k + 1]).payload)
    {
      HeardAt(s, zero, packet + rest, k);
      assert (packet + rest)[..k] == packet[..k] && (packet + rest)[..k + 1] == packet[..k + 1];
      EventSame(s, zero, packet, rest, k);
    }
    assert packet[..|packet|] == packet;
  }

  lemma EncodedSome(payload: seq<octet>)
    ensures |W.Encoded(payload)| > 0
  {}

  lemma EventSame(s: W.State, zero: bool, packet: seq<octet>, rest: seq<octet>, k: nat)
    requires k < |packet|
    ensures W.EventAt(s, CAPACITY, zero, packet + rest, k) == W.EventAt(s, CAPACITY, zero, packet, k)
  {
    hide W.Feed, W.FeedAll;
    assert (packet + rest)[..k] == packet[..k];
  }

  /** What is heard of byte `k` does not depend on those behind it. */
  lemma {:induction false} HeardAt(s: W.State, zero: bool, bytes: seq<octet>, k: nat)
    requires k < |bytes|
    ensures Heard(s, zero, bytes)[k]
         == Told(W.EventAt(s, CAPACITY, zero, bytes, k), W.FeedAll(s, CAPACITY, zero, bytes[..k + 1]).payload)
    decreases |bytes|
  {
    hide W.Feed;
    var n := |bytes| - 1;
    if k == n {
      assert bytes[..k + 1] == bytes;
    } else {
      HeardAt(s, zero, bytes[..n], k);
      assert bytes[..n][..k] == bytes[..k] && bytes[..n][..k + 1] == bytes[..k + 1];
    }
  }

  const OK: seq<octet> := [79, 75]

  /**
   The bytes of OK complete a session that waits for the answer to its detach,
   and with any byte behind them in the same call they fail it.
   */
  method Close(session: Session, parser: W.Parser, rest: seq<octet>, now: real) returns (events: seq<Event>)
    requires Linked(session, parser) && InTime(session, now) && session.phase == P.Detaching && parser.mode == W.SEEK
    requires |W.Encoded(OK)| + |rest| <= 65536
    modifies session, parser
    ensures Linked(session, parser) && (session.phase == P.Complete <==> rest == [])
    ensures events == if rest == [] then [Finished(Success(Deed(session.request)))]
                      else [Finished(Failure(ProtocolFailure, false))]
  {
    hide Session.Valid, Session.Settled, W.Feed, W.FeedAll, W.Encoded, Heard, Closes;
    session.Resume();
    session.ConsoleLimit();
    OkHeard(parser.S(), parser.zeroChecksum, rest, session.consolePackets);
    events := Receive(session, parser, W.Encoded(OK) + rest, now);
  }

  /** The packet OK is the first answer among the bytes. */
  lemma OkHeard(s: W.State, zero: bool, rest: seq<octet>, console: nat)
    requires s.mode == W.SEEK && console <= 64
    ensures |W.Encoded(OK)| > 0 && Closes(Heard(s, zero, W.Encoded(OK) + rest), |W.Encoded(OK)| - 1, console)
  {
    hide W.Feed, W.Encoded, Heard, Closes;
    EncodedSome(OK);
    PacketHeard(s, zero, OK, rest);
    assert Text(OK) == "OK";
    Quietly(Heard(s, zero, W.Encoded(OK) + rest), |W.Encoded(OK)| - 1, console);
  }

  lemma {:induction false} Quietly(input: seq<Fed>, n: nat, console: nat)
    requires n < |input| && input[n] == Packet("OK") && console <= 64 && forall k :: 0 <= k < n ==> input[k] == More
    ensures Closes(input, n, console)
  {
    NoConsole(input[..n]);
  }

  lemma {:induction false} NoConsole(input: seq<Fed>)
    requires forall k :: 0 <= k < |input| ==> input[k] == More
    ensures Console(input) == 0
  {
    if input != [] { NoConsole(input[..|input| - 1]); }
  }
}
