/**
 The active-open TCP stream of authorization/Transport/TunnelTCP.swift: one
 segment in flight, retransmission, zero-window probes and every closing state.
 A ghost history records what the application wrote and read and what the peer
 sent, at unbounded positions; the object's invariant ties the 32-bit fields to
 it, so it speaks about whole runs.
 */
module TunnelTCP {
  import opened GuestTypes
  import opened Octets
  import opened SequenceNumbers

  datatype Segment = Segment(sequence: u32, acknowledgement: u32, fin: bool, syn: bool, rst: bool, psh: bool, ack: bool,
                             window: nat, payload: seq<octet>, mss: Option<nat>)

  datatype Failure = InvalidState | Backpressure | Timeout | Reset

  datatype Event =
    | Packet(segment: Segment) | Connected | Readable | Writable | PeerClosed | Closed | Failed(reason: Failure)

  /** The events of a call that may throw. */
  datatype Outcome = Done(events: seq<Event>) | Threw(failure: Failure)

  datatype Phase =
    | IDLE | SYN_SENT | ESTABLISHED | CLOSE_WAIT | FIN_WAIT_1 | FIN_WAIT_2 | CLOSING | LAST_ACK | TIME_WAIT
    | CLOSED | FAILED

  datatype Pending = Pending(sequence: u32, fin: bool, syn: bool, payload: seq<octet>, mss: Option<nat>,
                             sent: real, rto: real, retries: nat)

  const RECEIVE_CAPACITY: nat := 32768
  const SEND_CAPACITY: nat := 65536

  // ----- history and invariant -----

  /**
   What went out: the initial sequence number, all bytes the application wrote, how
   many are acknowledged, and the FIN.
   */
  datatype Outbound = Outbound(iss: u32, written: seq<octet>, acked: nat, finAcked: bool)

  /**
   What came in: the peer's initial sequence number, the bytes taken in order, those
   read, and whether the FIN was taken.
   */
  datatype Inbound = Inbound(irs: u32, accepted: seq<octet>, delivered: seq<octet>, peerFin: bool)

  predicate Over(state: Phase) { state == CLOSED || state == FAILED }

  predicate Open(state: Phase) { state == ESTABLISHED || state == CLOSE_WAIT }

  predicate FinInFlight(state: Phase) { state == FIN_WAIT_1 || state == CLOSING || state == LAST_ACK }

  /** The peer's FIN has been taken. */
  predicate PeerDone(state: Phase) {
    state == CLOSE_WAIT || state == LAST_ACK || state == CLOSING || state == TIME_WAIT
  }

  function PayloadOf(pending: Option<Pending>): seq<octet> {
    if pending.Some? then pending.value.payload else []
  }

  /** How many sequence numbers the pending segment takes. */
  function Flight(pending: Option<Pending>): nat {
    if pending.None? then 0
    else |pending.value.payload| + (if pending.value.fin then 1 else 0) + (if pending.value.syn then 1 else 0)
  }

  /** The position of `una`, counted from the initial sequence number. */
  function Una(state: Phase, o: Outbound): nat {
    if state == IDLE || state == SYN_SENT then 0 else 1 + o.acked + (if o.finAcked then 1 else 0)
  }

  /** The kind of segment each state can have in flight. */
  ghost predicate Shape(state: Phase, pending: Option<Pending>, sendBuffer: seq<octet>, closeRequested: bool,
                        o: Outbound)
  {
    match state
    case IDLE => pending.None? && o.written == [] && sendBuffer == [] && !closeRequested && !o.finAcked
    case SYN_SENT => pending.Some? && pending.value.syn && !pending.value.fin && pending.value.payload == []
                     && o.written == [] && sendBuffer == [] && !closeRequested && !o.finAcked
    case ESTABLISHED =>
      !o.finAcked && (pending.Some? ==> !pending.value.syn && !pending.value.fin && pending.value.payload != [])
    case CLOSE_WAIT =>
      !o.finAcked && (pending.Some? ==> !pending.value.syn && !pending.value.fin && pending.value.payload != [])
    case FIN_WAIT_2 => pending.None? && o.finAcked && sendBuffer == [] && closeRequested
    case TIME_WAIT => pending.None? && o.finAcked && sendBuffer == [] && closeRequested
    case CLOSED => pending.None?
    case FAILED => pending.None?
    case _ => pending.Some? && pending.value.fin && !pending.value.syn && pending.value.payload == []
              && !o.finAcked && sendBuffer == [] && closeRequested
  }

  /**
   While the connection lasts: acknowledged bytes, pending payload and send
   buffer are exactly what was written, and the pending segment covers exactly
   the sequence numbers from `una` to `next`.
   */
  ghost predicate Sending(state: Phase, una: u32, next: u32, pending: Option<Pending>, sendBuffer: seq<octet>,
                          closeRequested: bool, o: Outbound)
  {
    && Shape(state, pending, sendBuffer, closeRequested, o)
    && (pending.Some? ==> pending.value.retries <= 5)
    && (!Over(state) ==>
          && o.acked <= |o.written| && o.written[o.acked..] == PayloadOf(pending) + sendBuffer
          && |PayloadOf(pending)| + |sendBuffer| <= SEND_CAPACITY
          && una == Wrap(o.iss + Una(state, o)) && next == Wrap(o.iss + Una(state, o) + Flight(pending))
          && (pending.Some? ==> pending.value.sequence == una))
  }

  /** The position of `receiveNext`, counted from the peer's initial sequence number. */
  function Taken(i: Inbound): nat {
    1 + |i.accepted| + if i.peerFin then 1 else 0
  }

  ghost predicate Receiving(state: Phase, receiveNext: u32, receiveBuffer: seq<octet>, i: Inbound) {
    && |receiveBuffer| <= RECEIVE_CAPACITY && i.delivered <= i.accepted
    && (Over(state) ==> receiveBuffer == [] || i.accepted == i.delivered + receiveBuffer)
    && (!Over(state) ==> i.accepted == i.delivered + receiveBuffer)
    && (!Over(state) && state != IDLE && state != SYN_SENT ==>
          receiveNext == Wrap(i.irs + Taken(i)) && (i.peerFin <==> PeerDone(state)))
    && (state == IDLE || state == SYN_SENT ==> i.accepted == [] && !i.peerFin)
  }

  /** Waiting on a closed window means having nothing in flight and something to send. */
  ghost predicate Windowed(state: Phase, pending: Option<Pending>, peerWindow: nat, zeroWindowSince: Option<real>,
                           sendMSS: nat, last: octet, o: Outbound)
  {
    && 0 < sendMSS <= SEND_CAPACITY && peerWindow < 65536
    && (zeroWindowSince.Some? && !Over(state) ==> pending.None? && peerWindow == 0 && Open(state))
    && (0 < o.acked <= |o.written| ==> last == o.written[o.acked - 1])
  }

  // ----- what an emitted segment must be -----

  /** The payload is what was written at the segment's sequence numbers. */
  ghost predicate Carries(s: Segment, o: Outbound, q: nat) {
    && q + |s.payload| <= |o.written| && s.sequence == Wrap(o.iss + 1 + q)
    && s.payload == o.written[q..q + |s.payload|]
  }

  ghost predicate Genuine(s: Segment, o: Outbound) {
    && (s.payload != [] ==> exists q :: Carries(s, o, q))
    && (s.fin ==> s.sequence == Wrap(o.iss + 1 + |o.written|) && s.payload == [])
    && (s.syn ==> s.sequence == o.iss && s.payload == [])
  }

  ghost predicate GenuineEvents(events: seq<Event>, o: Outbound) {
    forall e :: e in events && e.Packet? ==> Genuine(e.segment, o)
  }

  /** Writing more does not spoil what was sent, unless it was a FIN. */
  lemma GenuineLater(s: Segment, o: Outbound, more: seq<octet>)
    requires Genuine(s, o) && !s.fin
    ensures Genuine(s, o.(written := o.written + more))
  {
    if s.payload != [] {
      var q :| Carries(s, o, q);
      assert Carries(s, o.(written := o.written + more), q);
    }
  }

  // ----- what an honest peer sends -----

  /**
   `s` is a segment of a peer whose whole stream is `stream`, at stream position
   `q`, less than half the sequence space away from the receiver's position.
   */
  ghost predicate Honest(s: Segment, stream: seq<octet>, i: Inbound, q: int) {
    && s.sequence == Wrap(i.irs + 1 + q) && -HALF < q + 1 - Taken(i) < HALF
    && (s.payload != [] ==> 0 <= q && q + |s.payload| <= |stream| && s.payload == stream[q..q + |s.payload|])
    && (s.fin ==> 0 <= q && q + |s.payload| == |stream|)
  }

  /** The receiver holds an exact prefix of the stream, and all of it once the FIN was taken. */
  ghost predicate Follows(i: Inbound, stream: seq<octet>) {
    i.accepted <= stream && (i.peerFin ==> i.accepted == stream)
  }

  /** What decoding guarantees of a received segment. */
  predicate Decoded(s: Segment, mtu: nat) {
    |s.payload| + 60 <= mtu && s.window < 65536 && (s.mss.Some? ==> 0 < s.mss.value < 65536)
  }

  lemma ReadKeeps(state: Phase, receiveNext: u32, receiveBuffer: seq<octet>, i: Inbound, count: nat)
    requires Receiving(state, receiveNext, receiveBuffer, i) && count <= |receiveBuffer|
    ensures Receiving(state, receiveNext, receiveBuffer[count..], i.(delivered := i.delivered + receiveBuffer[..count]))
  {
    hide Wrap;
    assert receiveBuffer == receiveBuffer[..count] + receiveBuffer[count..];
    assert i.delivered + receiveBuffer == i.delivered + receiveBuffer[..count] + receiveBuffer[count..];
  }

  lemma WriteKeeps(state: Phase, una: u32, next: u32, pending: Option<Pending>, sendBuffer: seq<octet>,
                   closeRequested: bool, o: Outbound, data: seq<octet>)
    requires Sending(state, una, next, pending, sendBuffer, closeRequested, o) && Open(state)
    requires |PayloadOf(pending)| + |sendBuffer| + |data| <= SEND_CAPACITY
    ensures Sending(state, una, next, pending, sendBuffer + data, closeRequested, o.(written := o.written + data))
    ensures o.acked <= |o.written|
  {
    hide Wrap;
    assert (o.written + data)[o.acked..] == o.written[o.acked..] + data;
  }

  lemma WriteWindowed(state: Phase, pending: Option<Pending>, peerWindow: nat, zeroWindowSince: Option<real>,
                      sendMSS: nat, last: octet, o: Outbound, data: seq<octet>)
    requires Windowed(state, pending, peerWindow, zeroWindowSince, sendMSS, last, o) && o.acked <= |o.written|
    ensures Windowed(state, pending, peerWindow, zeroWindowSince, sendMSS, last, o.(written := o.written + data))
  {}

  // ----- acknowledgements -----

  /** What is left in flight after `amount` sequence numbers were acknowledged. */
  function AckPending(p: Pending, amount: nat, ack: u32, now: real): Option<Pending> {
    if amount == Flight(Some(p)) then None
    else if amount <= |p.payload| then
      Some(p.(payload := p.payload[amount..], sequence := ack, sent := now, rto := 1.0, retries := 0))
    else Some(p)
  }

  lemma AckLeft(p: Pending, amount: nat, ack: u32, now: real)
    ensures AckPending(p, amount, ack, now).None? <==> amount == Flight(Some(p))
  {}

  function AckOutbound(p: Pending, o: Outbound, amount: nat): Outbound {
    if p.fin then o.(finAcked := true) else o.(acked := o.acked + amount)
  }

  /** The state once nothing is in flight any more. */
  function AckState(state: Phase): Phase {
    match state
    case FIN_WAIT_1 => FIN_WAIT_2
    case CLOSING => TIME_WAIT
    case LAST_ACK => CLOSED
    case _ => state
  }

  lemma AckKeeps(state: Phase, una: u32, next: u32, p: Pending, sendBuffer: seq<octet>, closeRequested: bool,
                 o: Outbound, amount: nat, ack: u32, now: real)
    requires Sending(state, una, next, Some(p), sendBuffer, closeRequested, o) && !Over(state) && state != SYN_SENT
    requires 0 < amount <= Flight(Some(p)) && ack == Wrap(o.iss + Una(state, o) + amount)
    ensures var left := AckPending(p, amount, ack, now);
            Sending(if left.None? then AckState(state) else state, ack, next, left, sendBuffer, closeRequested,
                    AckOutbound(p, o, amount))
    ensures !p.fin ==>
      && amount <= |p.payload| && o.acked + amount <= |o.written|
      && p.payload[amount - 1] == o.written[o.acked + amount - 1]
  {
    hide Wrap;
    if !p.fin {
      assert o.written[o.acked..][amount - 1] == p.payload[amount - 1];
      assert o.written[o.acked + amount..] == o.written[o.acked..][amount..];
      assert p.payload[amount..] + sendBuffer == (p.payload + sendBuffer)[amount..];
    }
  }

  /** The peer's FIN moves the state without touching the sending side. */
  function PeerFinState(state: Phase): Phase {
    match state
    case ESTABLISHED => CLOSE_WAIT
    case FIN_WAIT_1 => CLOSING
    case FIN_WAIT_2 => TIME_WAIT
    case _ => state
  }

  lemma TakeLeavesSending(state: Phase, una: u32, next: u32, pending: Option<Pending>, sendBuffer: seq<octet>,
                          closeRequested: bool, o: Outbound, fin: bool)
    requires Sending(state, una, next, pending, sendBuffer, closeRequested, o)
    requires state == ESTABLISHED || state == FIN_WAIT_1 || state == FIN_WAIT_2
    ensures Sending(if fin then PeerFinState(state) else state, una, next, pending, sendBuffer, closeRequested,
                    o)
  {
    hide Wrap;
  }

  lemma TakeWindowed(state: Phase, pending: Option<Pending>, peerWindow: nat, zeroWindowSince: Option<real>,
                     sendMSS: nat, last: octet, o: Outbound, fin: bool)
    requires Windowed(state, pending, peerWindow, zeroWindowSince, sendMSS, last, o)
    requires state == ESTABLISHED || state == FIN_WAIT_1 || state == FIN_WAIT_2
    ensures Windowed(if fin then PeerFinState(state) else state, pending, peerWindow, zeroWindowSince, sendMSS, last, o)
  {}

  // ----- taking data -----

  function Skipped(s: Segment, offset: int): nat
    requires offset <= 0
  {
    Lesser(|s.payload|, -offset)
  }

  /** The bytes of the segment that are new and fit the window. */
  function Fresh(s: Segment, offset: int, window: nat): seq<octet>
    requires offset <= 0
  {
    var from := Skipped(s, offset);
    s.payload[from..from + Lesser(|s.payload| - from, window)]
  }

  predicate FinTaken(s: Segment, offset: int, window: nat, receiveNext: u32)
    requires offset <= 0
  {
    && s.fin && Plus(s.sequence, |s.payload|) == Plus(receiveNext, |Fresh(s, offset, window)|)
    && |s.payload| + 1 + offset <= window
  }

  /** The history after the segment's new bytes and FIN were taken. */
  function TakeInbound(s: Segment, offset: int, window: nat, receiveNext: u32, i: Inbound): Inbound
    requires offset <= 0
  {
    i.(accepted := i.accepted + Fresh(s, offset, window), peerFin := FinTaken(s, offset, window, receiveNext))
  }

  lemma TakeKeeps(state: Phase, receiveNext: u32, receiveBuffer: seq<octet>, i: Inbound, s: Segment, offset: int)
    requires Receiving(state, receiveNext, receiveBuffer, i) && offset <= 0
    requires state == ESTABLISHED || state == FIN_WAIT_1 || state == FIN_WAIT_2
    ensures var window := RECEIVE_CAPACITY - |receiveBuffer|;
            var data, fin := Fresh(s, offset, window), FinTaken(s, offset, window, receiveNext);
            var taken := Plus(receiveNext, |data|);
            Receiving(if fin then PeerFinState(state) else state, if fin then Plus(taken, 1) else taken,
                      receiveBuffer + data, TakeInbound(s, offset, window, receiveNext, i))
  {
    hide Wrap, Plus;
    var window := RECEIVE_CAPACITY - |receiveBuffer|;
    var data := Fresh(s, offset, window);
    PlusWrap(i.irs + Taken(i), |data|);
    PlusWrap(i.irs + Taken(i) + |data|, 1);
  }

  /** The fresh part of a segment at `q`, for a receiver at `r`, is the stream from `r` on. */
  lemma FreshData(s: Segment, stream: seq<octet>, q: int, r: nat, window: nat)
    requires q <= r <= |stream|
    requires s.payload != [] ==> 0 <= q && q + |s.payload| <= |stream| && s.payload == stream[q..q + |s.payload|]
    ensures var n := if r < q + |s.payload| then Lesser(q + |s.payload| - r, window) else 0;
            r + n <= |stream| && |Fresh(s, q - r, window)| == n && Fresh(s, q - r, window) == stream[r..r + n]
  {
    if r < q + |s.payload| {
      SliceOfSlice(stream, q, q + |s.payload|, r, r + Lesser(q + |s.payload| - r, window));
    }
  }

  lemma SliceOfSlice(stream: seq<octet>, a: nat, b: nat, c: nat, d: nat)
    requires a <= c <= d <= b <= |stream|
    ensures stream[a..b][c - a..d - a] == stream[c..d]
  {
    var part := stream[a..b];
    forall k | 0 <= k < d - c ensures part[c - a..d - a][k] == stream[c..d][k] {
      assert part[c - a + k] == stream[c + k];
    }
  }

  /** An honest peer's segment only extends the prefix, and its FIN is taken only when the prefix is complete. */
  lemma TakeFollows(s: Segment, stream: seq<octet>, i: Inbound, q: int, receiveNext: u32, window: nat)
    requires Honest(s, stream, i, q) && Follows(i, stream) && !i.peerFin && receiveNext == Wrap(i.irs + Taken(i))
    requires q <= |i.accepted| && |s.payload| < 65536 && window <= RECEIVE_CAPACITY
    ensures Signed(Minus(s.sequence, receiveNext)) == q - |i.accepted|
    ensures Follows(TakeInbound(s, q - |i.accepted|, window, receiveNext, i), stream)
    ensures |i.accepted| < q + |s.payload| ==>
      |TakeInbound(s, q - |i.accepted|, window, receiveNext, i).accepted|
        == Lesser(q + |s.payload|, |i.accepted| + window)
  {
    hide Wrap, Plus, Minus, Signed, Fresh;
    var r := |i.accepted|;
    Apart(i.irs + 1 + q, i.irs + Taken(i));
    var data := Fresh(s, q - r, window);
    FreshData(s, stream, q, r, window);
    assert i.accepted + data <= stream;
    if FinTaken(s, q - r, window, receiveNext) {
      PlusWrap(i.irs + 1 + q, |s.payload|);
      PlusWrap(i.irs + 1 + r, |data|);
      SameWrap(i.irs + 1 + q + |s.payload|, i.irs + 1 + r + |data|);
    }
  }

  /** Equal sequence numbers less than the whole space apart are the same position. */
  lemma SameWrap(p: int, q: int)
    requires Wrap(p) == Wrap(q) && -MOD < p - q < MOD
    ensures p == q
  {
    MinusWrap(p, q);
  }

  lemma WrapSelf(x: u32)
    ensures Wrap(x) == x
  {}

  lemma WrapOne()
    ensures Wrap(1) == 1
  {}

  lemma CarryingGenuine(s: Segment, o: Outbound, q: nat)
    requires Carries(s, o, q) && !s.fin && !s.syn
    ensures Genuine(s, o)
  {}

  lemma SynAckKeeps(una: u32, next: u32, pending: Option<Pending>, receiveNext: u32, receiveBuffer: seq<octet>,
                    o: Outbound, i: Inbound, irs: u32, sendBuffer: seq<octet>, closeRequested: bool)
    requires Sending(SYN_SENT, una, next, pending, sendBuffer, closeRequested, o)
    requires Receiving(SYN_SENT, receiveNext, receiveBuffer, i)
    ensures Sending(ESTABLISHED, next, next, None, sendBuffer, closeRequested, o) && o.acked == 0
    ensures Receiving(ESTABLISHED, Plus(irs, 1), receiveBuffer, i.(irs := irs)) && |receiveBuffer| <= RECEIVE_CAPACITY
  {
    hide Wrap, Plus;
    WrapSelf(irs);
    PlusWrap(irs, 1);
  }

  lemma AckWindowed(state: Phase, p: Pending, peerWindow: nat, zeroWindowSince: Option<real>, sendMSS: nat, last: octet,
                    o: Outbound, amount: nat, left: Option<Pending>, after: Phase)
    requires Windowed(state, Some(p), peerWindow, zeroWindowSince, sendMSS, last, o) && !Over(state)
    requires 0 < amount <= Flight(Some(p)) && !p.syn && (p.fin ==> p.payload == [])
    requires !p.fin ==>
      && amount <= |p.payload| && o.acked + amount <= |o.written|
      && p.payload[amount - 1] == o.written[o.acked + amount - 1]
    ensures Windowed(after, left, peerWindow, zeroWindowSince, sendMSS,
                     if amount <= |p.payload| then p.payload[amount - 1] else last, AckOutbound(p, o, amount))
  {}

  lemma FlightFits(state: Phase, una: u32, next: u32, pending: Option<Pending>, sendBuffer: seq<octet>,
                   closeRequested: bool, o: Outbound)
    requires Sending(state, una, next, pending, sendBuffer, closeRequested, o) && !Over(state)
    ensures Flight(pending) < HALF && una == Wrap(o.iss + Una(state, o))
    ensures next == Wrap(o.iss + Una(state, o) + Flight(pending))
  {
    hide Wrap;
  }

  ghost predicate NoPackets(events: seq<Event>) {
    forall e :: e in events ==> !e.Packet? && e != PeerClosed
  }

  // ----- what one received segment may do to the history -----

  /** Nothing written is lost and nothing acknowledged is taken back. */
  ghost predicate Outgrows(before: Outbound, after: Outbound) {
    after.iss == before.iss && after.written == before.written && before.acked <= after.acked
  }

  /** Nothing taken is lost, nothing is taken after the peer's FIN, and the FIN is reported when it is taken. */
  ghost predicate Ingrows(before: Inbound, after: Inbound, events: seq<Event>) {
    && after.irs == before.irs && after.delivered == before.delivered && before.accepted <= after.accepted
    && (before.peerFin ==> after.peerFin && after.accepted == before.accepted)
    && FinReports(events) == if after.peerFin && !before.peerFin then 1 else 0
  }

  function FinReports(events: seq<Event>): nat {
    if events == [] then 0 else FinReports(events[..|events| - 1]) + if events[|events| - 1] == PeerClosed then 1 else 0
  }

  lemma {:induction false} FinReportsConcat(a: seq<Event>, b: seq<Event>)
    ensures FinReports(a + b) == FinReports(a) + FinReports(b)
    decreases |b|
  {
    if b == [] {
      assert a + b == a;
    } else {
      assert (a + b)[..|a + b| - 1] == a + b[..|b| - 1];
      FinReportsConcat(a, b[..|b| - 1]);
    }
  }

  lemma {:induction false} NoFinReports(events: seq<Event>)
    requires PeerClosed !in events
    ensures FinReports(events) == 0
  {
    if events != [] { NoFinReports(events[..|events| - 1]); }
  }

  /** Whatever stream the segment is honest about, an exact prefix stays an exact prefix. */
  ghost predicate Faithful(s: Segment, before: Inbound, after: Inbound) {
    forall stream, q :: Honest(s, stream, before, q) && Follows(before, stream) ==> Follows(after, stream)
  }

  lemma Unmoved(s: Segment, i: Inbound, events: seq<Event>)
    requires PeerClosed !in events
    ensures Ingrows(i, i, events) && Faithful(s, i, i)
  {
    NoFinReports(events);
  }

  lemma TakeIngrows(i: Inbound, s: Segment, offset: int, window: nat, receiveNext: u32, events: seq<Event>)
    requires offset <= 0 && !i.peerFin
    requires FinReports(events) == if TakeInbound(s, offset, window, receiveNext, i).peerFin then 1 else 0
    ensures Ingrows(i, TakeInbound(s, offset, window, receiveNext, i), events)
  {}

  lemma TakeFaithful(s: Segment, i: Inbound, receiveNext: u32, window: int, offset: int)
    requires !i.peerFin && receiveNext == Wrap(i.irs + Taken(i)) && 0 <= window <= RECEIVE_CAPACITY
    requires |s.payload| < 65536
    requires offset == Signed(Minus(s.sequence, receiveNext)) && offset <= 0
    ensures Faithful(s, i, TakeInbound(s, offset, window, receiveNext, i))
  {
    hide Wrap, Minus, Signed, Fresh, FinTaken;
    forall stream, q | Honest(s, stream, i, q) && Follows(i, stream)
      ensures Follows(TakeInbound(s, offset, window, receiveNext, i), stream)
    {
      Apart(i.irs + 1 + q, i.irs + Taken(i));
      TakeFollows(s, stream, i, q, receiveNext, window);
    }
  }

  lemma PlainAckGenuine(next: u32, receiveNext: u32, window: nat, o: Outbound)
    ensures Genuine(Segment(next, receiveNext, false, false, false, false, true, window, [], None), o)
  {}

  /** The events of taking data report the FIN at most once. */
  lemma TakeReports(events: seq<Event>)
    requires events == [] || events == [Readable] || events == [PeerClosed] || events == [Readable] + [PeerClosed]
    ensures FinReports(events) == if PeerClosed in events then 1 else 0
  {
    assert FinReports([]) == 0;
    assert [Readable][..0] == [] && [PeerClosed][..0] == [];
    assert FinReports([Readable]) == 0 && FinReports([PeerClosed]) == 1;
    assert ([Readable] + [PeerClosed])[..1] == [Readable];
  }

  /** The events of a call put together: genuine if its packets are, and the FIN reported as its data part does. */
  lemma Assembled(first: seq<Event>, taken: seq<Event>, rest: seq<Event>, o: Outbound)
    requires NoPackets(first) && GenuineEvents(rest, o) && PeerClosed !in rest && forall e :: e in taken ==> !e.Packet?
    ensures GenuineEvents(first + taken + rest, o) && FinReports(first + taken + rest) == FinReports(taken)
  {
    hide Genuine, FinReports;
    NoFinReports(first);
    NoFinReports(rest);
    FinReportsConcat(first + taken, rest);
    FinReportsConcat(first, taken);
  }

  lemma FinLeavesReceiving(state: Phase, receiveNext: u32, receiveBuffer: seq<octet>, i: Inbound)
    requires Receiving(state, receiveNext, receiveBuffer, i) && Open(state)
    ensures Receiving(if state == CLOSE_WAIT then LAST_ACK else FIN_WAIT_1, receiveNext, receiveBuffer, i)
    ensures |receiveBuffer| <= RECEIVE_CAPACITY
  {
    hide Wrap;
  }

  lemma SynAckWindowed(pending: Option<Pending>, peerWindow: nat, zeroWindowSince: Option<real>, sendMSS: nat,
                       last: octet, o: Outbound, window: nat, mss: nat)
    requires Windowed(SYN_SENT, pending, peerWindow, zeroWindowSince, sendMSS, last, o)
    requires window < 65536 && 0 < mss <= SEND_CAPACITY
    ensures Windowed(ESTABLISHED, None, window, zeroWindowSince, mss, last, o)
  {}

  lemma AckLeavesReceiving(state: Phase, receiveNext: u32, receiveBuffer: seq<octet>, i: Inbound)
    requires Receiving(state, receiveNext, receiveBuffer, i) && !Over(state) && state != IDLE && state != SYN_SENT
    ensures Receiving(AckState(state), receiveNext, receiveBuffer, i)
  {
    hide Wrap;
  }

  /** A FIN in flight belongs to the states that wait for its acknowledgement, data to the open ones. */
  lemma FlightState(state: Phase, p: Pending, sendBuffer: seq<octet>, closeRequested: bool, o: Outbound, una: u32,
                    next: u32)
    requires Sending(state, una, next, Some(p), sendBuffer, closeRequested, o) && !Over(state) && state != SYN_SENT
    ensures if p.fin then FinInFlight(state) && p.payload == [] else Open(state) && p.payload != [] && !p.syn
    ensures !p.syn
  {}

  lemma FlightNonempty(state: Phase, pending: Option<Pending>, sendBuffer: seq<octet>, closeRequested: bool,
                       o: Outbound)
    requires Shape(state, pending, sendBuffer, closeRequested, o)
    ensures pending.None? <==> Flight(pending) == 0
  {}

  function DataSegment(sequence: u32, data: seq<octet>, now: real): Pending {
    Pending(sequence, false, false, data, None, now, 1.0, 0)
  }

  function FinSegment(sequence: u32, now: real): Pending {
    Pending(sequence, true, false, [], None, now, 1.0, 0)
  }

  // A closed connection keeps its histories and forgets what was in flight.

  lemma ClosedKeeps(state: Phase, una: u32, next: u32, pending: Option<Pending>, sendBuffer: seq<octet>,
                    closeRequested: bool, o: Outbound)
    requires Sending(state, una, next, pending, sendBuffer, closeRequested, o)
    ensures Sending(CLOSED, una, next, None, [], closeRequested, o)
  {
    hide Wrap;
  }

  lemma ClosedTaken(state: Phase, receiveNext: u32, receiveBuffer: seq<octet>, i: Inbound)
    requires Receiving(state, receiveNext, receiveBuffer, i)
    ensures Receiving(CLOSED, receiveNext, [], i)
  {
    hide Wrap;
  }

  lemma ClosedWindowed(state: Phase, pending: Option<Pending>, peerWindow: nat, zeroWindowSince: Option<real>,
                       sendMSS: nat, last: octet, o: Outbound)
    requires Windowed(state, pending, peerWindow, zeroWindowSince, sendMSS, last, o)
    ensures Windowed(CLOSED, None, peerWindow, zeroWindowSince, sendMSS, last, o)
  {}

  lemma SendDataKeeps(state: Phase, una: u32, next: u32, sendBuffer: seq<octet>, closeRequested: bool, o: Outbound,
                      count: nat, now: real)
    requires Sending(state, una, next, None, sendBuffer, closeRequested, o) && Open(state)
    requires 0 < count <= |sendBuffer| && count <= SEND_CAPACITY
    ensures Sending(state, una, Plus(next, count), Some(DataSegment(next, sendBuffer[..count], now)),
                    sendBuffer[count..], closeRequested, o)
    ensures o.acked + count <= |o.written| && next == Wrap(o.iss + 1 + o.acked)
    ensures sendBuffer[..count] == o.written[o.acked..o.acked + count]
  {
    hide Wrap, Plus;
    PlusWrap(o.iss + 1 + o.acked, count);
    Split(o.written, o.acked, sendBuffer, count);
  }

  lemma Split(written: seq<octet>, acked: nat, buffer: seq<octet>, count: nat)
    requires acked <= |written| && written[acked..] == [] + buffer && count <= |buffer|
    ensures acked + count <= |written| && buffer[..count] == written[acked..acked + count]
    ensures written[acked..] == buffer[..count] + buffer[count..]
  {
    assert [] + buffer == buffer;
    assert buffer == buffer[..count] + buffer[count..];
  }

  lemma SendFinKeeps(state: Phase, una: u32, next: u32, closeRequested: bool, o: Outbound, now: real)
    requires Sending(state, una, next, None, [], closeRequested, o) && Open(state) && closeRequested
    ensures Sending(if state == CLOSE_WAIT then LAST_ACK else FIN_WAIT_1, una, Plus(next, 1),
                    Some(FinSegment(next, now)), [], closeRequested, o)
    ensures next == Wrap(o.iss + 1 + |o.written|)
  {
    hide Wrap, Plus;
    PlusWrap(o.iss + 1 + o.acked, 1);
    assert o.written[o.acked..] == [];
  }

  /** Lines 214-217: what stays in flight. */
  method Shortened(p: Pending, amount: nat, ack: u32, now: real, whole: bool) returns (left: Option<Pending>)
    requires whole <==> amount == Flight(Some(p))
    ensures left == AckPending(p, amount, ack, now)
  {
    if whole {
      left := None;
    } else if amount <= |p.payload| {
      left := Some(p.(payload := p.payload[amount..], sequence := ack, sent := now, rto := 1.0, retries := 0));
    } else {
      left := Some(p);
    }
  }

  /** Lines 219-223: with nothing left in flight the closing states move on. */
  method Onward(state: Phase, closeDeadline: Option<real>, now: real) returns (after: Phase, deadline: Option<real>,
                events: seq<Event>)
    requires state != CLOSED
    ensures after == AckState(state) && events == (if after == CLOSED then [Closed] else [])
    ensures deadline == if state == FIN_WAIT_1 then Some(now + 30.0)
                        else if state == CLOSING then Some(now + 120.0)
                        else closeDeadline
  {
    after, deadline, events := state, closeDeadline, [];
    if state == FIN_WAIT_1 {
      after, deadline := FIN_WAIT_2, Some(now + 30.0);
    } else if state == CLOSING {
      after, deadline := TIME_WAIT, Some(now + 120.0);
    } else if state == LAST_ACK {
      after, events := CLOSED, [Closed];
    }
  }

  class Connection {
    const mtu: nat
    var state: Phase
    var una: u32
    var next: u32
    var receiveNext: u32
    var peerWindow: nat
    var windowSequence: u32
    var windowACK: u32
    var sendMSS: nat
    var receiveBuffer: seq<octet>
    var sendBuffer: seq<octet>
    var pending: Option<Pending>
    var closeRequested: bool
    var closeDeadline: Option<real>
    var zeroWindowSince: Option<real>
    var lastProbe: real
    var lastAcknowledgedByte: octet
    ghost var outbound: Outbound
    ghost var inbound: Inbound
    /** How often the pending segment was sent since it was created or last shortened by the peer. */
    ghost var sends: nat

    ghost predicate Valid()
      reads this
    {
      && 1280 <= mtu <= 16000
      && (pending.Some? ==> sends <= pending.value.retries + 1)
      && Sending(state, una, next, pending, sendBuffer, closeRequested, outbound)
      && Receiving(state, receiveNext, receiveBuffer, inbound)
      && Windowed(state, pending, peerWindow, zeroWindowSince, sendMSS, lastAcknowledgedByte, outbound)
    }

    constructor (mtu: nat, initialSequence: u32)
      requires 1280 <= mtu <= 16000
      ensures Valid() && state == IDLE && this.mtu == mtu
      ensures outbound == Outbound(initialSequence, [], 0, false) && inbound == Inbound(0, [], [], false)
      ensures sendBuffer == [] && !closeRequested && closeDeadline.None? && zeroWindowSince.None?
      ensures lastAcknowledgedByte == 0
    {
      this.mtu := mtu;
      state := IDLE;
      una, next, receiveNext := initialSequence, initialSequence, 0;
      peerWindow, windowSequence, windowACK, sendMSS := 0, 0, 0, 1220;
      receiveBuffer, sendBuffer, pending := [], [], None;
      closeRequested, closeDeadline, zeroWindowSince, lastProbe, lastAcknowledgedByte := false, None, None, 0.0, 0;
      outbound, inbound := Outbound(initialSequence, [], 0, false), Inbound(0, [], [], false);
      sends := 0;
      WrapSelf(initialSequence);
    }

    function Window(): int
      reads this
    {
      RECEIVE_CAPACITY - |receiveBuffer|
    }

    lemma BufferFits()
      requires Receiving(state, receiveNext, receiveBuffer, inbound)
      ensures |receiveBuffer| <= RECEIVE_CAPACITY
    {}

    /** `packet`: a segment that acknowledges what was taken and offers the free receive buffer. */
    function Make(sequence: u32, fin: bool, syn: bool, psh: bool, ack: bool, payload: seq<octet>,
                  mss: Option<nat>): Segment
      requires |receiveBuffer| <= RECEIVE_CAPACITY
      reads this
    {
      Segment(sequence, receiveNext, fin, syn, false, psh, ack, Window(), payload, mss)
    }

    function Ack(): Event
      requires |receiveBuffer| <= RECEIVE_CAPACITY
      reads this
    {
      Packet(Make(next, false, false, false, true, [], None))
    }

    method Fail(reason: Failure) returns (events: seq<Event>)
      requires Valid()
      modifies `state, `pending, `sendBuffer, `receiveBuffer
      ensures Valid() && state == FAILED && outbound == old(outbound) && inbound == old(inbound)
      ensures events == [Failed(reason)]
      ensures pending == None && sendBuffer == [] && receiveBuffer == []
    {
      hide Wrap;
      state, pending, sendBuffer, receiveBuffer := FAILED, None, [], [];
      events := [Failed(reason)];
    }

    method Connect(now: real) returns (r: Outcome)
      requires Valid()
      modifies `pending, `next, `state, `sends
      ensures Valid() && outbound == old(outbound) && inbound == old(inbound)
      ensures old(state) != IDLE ==> r == Threw(InvalidState) && state == old(state) && pending == old(pending)
      ensures old(state) == IDLE ==>
        && state == SYN_SENT && r == Done([Packet(Make(una, false, true, false, false, [], Some(mtu - 60)))])
        && pending.Some? && pending.value.syn && GenuineEvents(r.events, outbound)
    {
      if state != IDLE {
        return Threw(InvalidState);
      }
      hide Wrap, Plus;
      WrapSelf(outbound.iss);
      PlusWrap(outbound.iss, 1);
      pending := Some(Pending(next, false, true, [], Some(mtu - 60), now, 1.0, 0));
      next := Plus(next, 1);
      state, sends := SYN_SENT, 1;
      r := Done([Packet(Make(una, false, true, false, false, [], Some(mtu - 60)))]);
    }

    method Read(maximum: int) returns (output: seq<octet>, events: seq<Event>)
      requires Valid()
      modifies `receiveBuffer, `inbound
      ensures Valid() && state == old(state) && pending == old(pending) && sendBuffer == old(sendBuffer)
      ensures |output| == (if maximum > 0 then Lesser(maximum, |old(receiveBuffer)|) else 0)
      ensures old(receiveBuffer) == output + receiveBuffer
      ensures inbound == old(inbound).(delivered := old(inbound.delivered) + output) && outbound == old(outbound)
      ensures GenuineEvents(events, outbound)
      ensures events == if output == [] || Over(state) then [] else [Ack()]
    {
      if maximum <= 0 || receiveBuffer == [] {
        return [], [];
      }
      var count := Lesser(maximum, |receiveBuffer|);
      hide Sending, Receiving;
      ReadKeeps(state, receiveNext, receiveBuffer, inbound, count);
      output := receiveBuffer[..count];
      receiveBuffer := receiveBuffer[count..];
      inbound := inbound.(delivered := inbound.delivered + output);
      BufferFits();
      events := if Over(state) then [] else [Ack()];
    }

    method Abort() returns (events: seq<Event>)
      requires Valid()
      modifies `state, `pending, `sendBuffer, `receiveBuffer
      ensures Valid() && outbound == old(outbound) && inbound == old(inbound) && Over(state)
      ensures old(Over(state)) ==> events == [] && state == old(state) && receiveBuffer == old(receiveBuffer)
      ensures !old(Over(state)) ==>
        && state == CLOSED
        && events == [Packet(old(Make(next, false, false, false, true, [], None).(rst := true))), Closed]
      ensures GenuineEvents(events, outbound)
    {
      hide Sending, Receiving, Windowed;
      if Over(state) {
        return [];
      }
      BufferFits();
      events := [Packet(Make(next, false, false, false, true, [], None).(rst := true)), Closed];
      SetClosed();
    }

    method SetClosed()
      requires Valid()
      modifies `state, `pending, `sendBuffer, `receiveBuffer
      ensures Valid() && state == CLOSED
    {
      hide Sending, Receiving, Windowed;
      ClosedKeeps(state, una, next, pending, sendBuffer, closeRequested, outbound);
      ClosedTaken(state, receiveNext, receiveBuffer, inbound);
      ClosedWindowed(state, pending, peerWindow, zeroWindowSince, sendMSS, lastAcknowledgedByte, outbound);
      state, pending, sendBuffer, receiveBuffer := CLOSED, None, [], [];
    }

    // ----- sending -----

    /** Nothing is in flight and `flush` may send. */
    predicate MaySend()
      reads this
    {
      pending.None? && Open(state)
    }

    /** When waiting for the peer's window began, with a reason to wait from `now` on. */
    function Waiting(since: Option<real>, now: real): Option<real> {
      if since.None? then Some(now) else since
    }

    /** Lines 151-157 of `flush`: send the next bytes, or start waiting for the window. */
    method SendData(now: real) returns (events: seq<Event>)
      requires Valid() && MaySend() && sendBuffer != []
      modifies `zeroWindowSince, `lastProbe, `sendBuffer, `next, `pending, `sends
      ensures Valid()
      ensures peerWindow == 0 ==>
        events == [] && pending == old(pending) && sendBuffer == old(sendBuffer) && next == old(next)
      ensures peerWindow == 0 ==>
        && zeroWindowSince == Waiting(old(zeroWindowSince), now)
        && lastProbe == (if old(zeroWindowSince).None? then now else old(lastProbe))
      ensures peerWindow > 0 ==>
        && pending.Some? && !pending.value.fin && pending.value.retries == 0
        && |pending.value.payload| == Lesser(|old(sendBuffer)|, Lesser(sendMSS, peerWindow))
        && old(sendBuffer) == pending.value.payload + sendBuffer
        && events == [Packet(Make(old(next), false, false, true, true, pending.value.payload, None))]
      ensures GenuineEvents(events, outbound)
    {
      hide Wrap, Plus, Sending, Receiving;
      events := [];
      if peerWindow == 0 {
        if zeroWindowSince == None {
          zeroWindowSince, lastProbe := Some(now), now;
        }
        return;
      }
      var count := Lesser(|sendBuffer|, Lesser(sendMSS, peerWindow));
      SendDataKeeps(state, una, next, sendBuffer, closeRequested, outbound, count, now);
      var data := sendBuffer[..count];
      BufferFits();
      events := [Packet(Make(next, false, false, true, true, data, None))];
      assert Carries(events[0].segment, outbound, outbound.acked);
      SetSent(Some(DataSegment(next, data, now)), Plus(next, count), sendBuffer[count..]);
    }

    method SetSent(flight: Option<Pending>, position: u32, buffer: seq<octet>)
      requires Valid() && flight.Some? && !Over(state)
      requires Sending(state, una, position, flight, buffer, closeRequested, outbound)
      modifies `zeroWindowSince, `sendBuffer, `next, `pending, `sends
      ensures Valid() && zeroWindowSince == None && sendBuffer == buffer && next == position && pending == flight
      ensures sends == 1
    {
      hide Sending, Receiving;
      zeroWindowSince, sendBuffer, next, pending, sends := None, buffer, position, flight, 1;
    }

    /** Lines 160-164 of `flush`: send the FIN, or start waiting for the window. */
    method SendFin(now: real) returns (events: seq<Event>)
      requires Valid() && MaySend() && sendBuffer == [] && closeRequested
      modifies `zeroWindowSince, `lastProbe, `next, `pending, `sends, `state
      ensures Valid()
      ensures peerWindow == 0 ==> events == [] && pending == old(pending) && state == old(state) && next == old(next)
      ensures peerWindow == 0 ==>
        && zeroWindowSince == Waiting(old(zeroWindowSince), now)
        && lastProbe == (if old(zeroWindowSince).None? then now else old(lastProbe))
      ensures peerWindow > 0 ==>
        && state == (if old(state) == CLOSE_WAIT then LAST_ACK else FIN_WAIT_1) && pending.Some? && pending.value.fin
        && events == [Packet(Make(old(next), true, false, false, true, [], None))]
      ensures GenuineEvents(events, outbound)
    {
      hide Wrap, Plus, Sending, Receiving;
      events := [];
      if peerWindow == 0 {
        if zeroWindowSince == None {
          zeroWindowSince, lastProbe := Some(now), now;
        }
        return;
      }
      SendFinKeeps(state, una, next, closeRequested, outbound, now);
      FinLeavesReceiving(state, receiveNext, receiveBuffer, inbound);
      var sequence := next;
      next := Plus(next, 1);
      pending, sends := Some(FinSegment(sequence, now)), 1;
      state := if state == CLOSE_WAIT then LAST_ACK else FIN_WAIT_1;
      events := [Packet(Make(sequence, true, false, false, true, [], None))];
    }

    /** `flush`: put the next segment in flight when nothing is and the peer's window allows it. */
    method Flush(now: real) returns (events: seq<Event>)
      requires Valid()
      modifies `zeroWindowSince, `lastProbe, `sendBuffer, `next, `pending, `sends, `state
      ensures Valid() && GenuineEvents(events, outbound)
      ensures PeerDone(state) == PeerDone(old(state)) && (Over(state) <==> Over(old(state)))
      ensures PeerClosed !in events && (state == old(state) || FinInFlight(state))
      ensures old(pending).Some? ==> pending == old(pending)
      ensures old(MaySend()) && (old(sendBuffer) != [] || closeRequested) && peerWindow == 0 ==>
        && zeroWindowSince == Waiting(old(zeroWindowSince), now)
        && lastProbe == (if old(zeroWindowSince).None? then now else old(lastProbe))
      ensures !(old(MaySend()) && (old(sendBuffer) != [] || closeRequested) && peerWindow > 0)
          ==> events == [] && state == old(state) && pending == old(pending) && sendBuffer == old(sendBuffer)
      ensures old(MaySend()) && old(sendBuffer) != [] && peerWindow > 0 ==>
        && state == old(state) && pending.Some? && !pending.value.fin
        && |pending.value.payload| == Lesser(|old(sendBuffer)|, Lesser(sendMSS, peerWindow))
        && old(sendBuffer) == pending.value.payload + sendBuffer
        && events == [Packet(Make(old(next), false, false, true, true, pending.value.payload, None))]
      ensures old(MaySend()) && old(sendBuffer) == [] && closeRequested && peerWindow > 0 ==>
        && state == (if old(state) == CLOSE_WAIT then LAST_ACK else FIN_WAIT_1) && pending.Some? && pending.value.fin
        && events == [Packet(Make(old(next), true, false, false, true, [], None))]
    {
      hide Sending, Windowed, Genuine;
      events := [];
      if pending.Some? || !Open(state) {
        return;
      }
      if sendBuffer != [] {
        events := SendData(now);
      } else if closeRequested {
        events := SendFin(now);
      }
    }

    /** The zero-window probe: one byte below `next`. */
    function Probe(): Segment
      requires |receiveBuffer| <= RECEIVE_CAPACITY
      reads this
    {
      Make(Minus(next, 1), false, false, false, true, [lastAcknowledgedByte], None)
    }

    /** Once a written byte is acknowledged, the probe repeats the last of them. */
    lemma ProbeCarries()
      requires Valid() && Open(state) && pending.None? && 0 < outbound.acked
      ensures Carries(Probe(), outbound, outbound.acked - 1)
    {
      hide Wrap, Minus;
      MinusWrap(outbound.iss + 1 + outbound.acked, 1);
      WrapOne();
    }

    /** The probe carries what was written at its number if and only if a written byte has been acknowledged. */
    lemma ProbeGenuine()
      requires Valid() && Open(state) && pending.None?
      ensures Genuine(Probe(), outbound) <==> outbound.acked > 0
    {
      hide Wrap, Minus;
      if outbound.acked > 0 {
        ProbeCarries();
        CarryingGenuine(Probe(), outbound, outbound.acked - 1);
      } else {
        WrapOne();
        MinusWrap(outbound.iss + 1, 1);
        forall q: nat | Carries(Probe(), outbound, q) ensures false {
          SameWrap(outbound.iss, outbound.iss + 1 + q);
        }
      }
    }

    /**
     Nothing is in flight exactly when everything sent is acknowledged; what is in
     flight takes the numbers in between.
     */
    lemma FlightCovers()
      requires Valid() && !Over(state)
      ensures pending.None? <==> una == next
      ensures next == Plus(una, Flight(pending))
    {
      hide Wrap, Plus;
      var p := outbound.iss + Una(state, outbound);
      PlusWrap(p, Flight(pending));
      FlightNonempty(state, pending, sendBuffer, closeRequested, outbound);
      if una == next { SameWrap(p, p + Flight(pending)); }
    }

    /** Without progress a segment has been sent at most six times. */
    lemma SentAtMostSix()
      requires Valid() && pending.Some?
      ensures sends <= 6
    {
      hide Wrap;
    }

    lemma RetransmissionGenuine()
      requires Valid() && pending.Some? && !Over(state)
      ensures var p := pending.value;
              Genuine(Make(p.sequence, p.fin, p.syn, !p.syn && !p.fin, !p.syn, p.payload, p.mss), outbound)
    {
      hide Wrap;
      var p := pending.value;
      var s := Make(p.sequence, p.fin, p.syn, !p.syn && !p.fin, !p.syn, p.payload, p.mss);
      if p.payload != [] { assert Carries(s, outbound, outbound.acked); }
      if p.syn { WrapSelf(outbound.iss); }
    }

    /**
     `tick`: give up, retransmit or probe, as time passes. Everything sent is
     genuine, except a probe before any byte was acknowledged: then the byte
     below `next` is the SYN's and the probe carries a zero instead.
     */
    method Tick(now: real) returns (events: seq<Event>)
      requires Valid()
      modifies this
      ensures Valid() && outbound == old(outbound) && inbound == old(inbound)
      ensures (!Over(state) ==> state == old(state) && sendBuffer == old(sendBuffer))
      ensures forall e :: e in events && e.Packet? ==>
        || Genuine(e.segment, outbound)
        || (outbound.acked == 0 && Open(old(state)) && old(zeroWindowSince).Some? && e.segment == old(Probe()))
      ensures |events| <= 1 && PeerClosed !in events
      ensures !old(Due(now)) ==> events == [] && state == old(state) && pending == old(pending)
      ensures old(Over(state)) ==> events == [] && state == old(state)
      ensures !old(Over(state)) && old(Expired(now)) ==>
        if old(state) == TIME_WAIT then state == CLOSED && events == [Closed]
        else state == FAILED && events == [Failed(Timeout)]
      ensures !old(Over(state)) && !old(Expired(now)) && old(zeroWindowSince).Some? ==>
        if now >= old(zeroWindowSince).value + 30.0 then state == FAILED && events == [Failed(Timeout)]
        else state == old(state) && events == (if now >= old(lastProbe) + 1.0 then [Packet(old(Probe()))] else [])
      ensures !old(Over(state)) && !old(Expired(now)) && old(Overdue(now)) ==>
        if old(pending).value.retries < 5
        then && state == old(state) && pending.Some? && sends == old(sends) + 1
             && pending.value.retries == old(pending).value.retries + 1
             && pending.value.sequence == old(pending).value.sequence
             && pending.value.payload == old(pending).value.payload
             && |events| == 1 && events[0].Packet? && events[0].segment.payload == old(pending).value.payload
        else state == FAILED && events == [Failed(Timeout)]
    {
      hide Sending, Receiving, Windowed, Genuine;
      events := [];
      if Over(state) {
        return;
      }
      if zeroWindowSince.Some? {
        WaitingIsOpen();
      }
      BufferFits();
      if Expired(now) {
        if state == TIME_WAIT {
          Finish();
          return [Closed];
        }
        events := Fail(Timeout);
        return;
      }
      if Overdue(now) {
        var p := pending.value;
        if p.retries >= 5 {
          events := Fail(Timeout);
          return;
        }
        RetransmissionGenuine();
        Retry(p, now);
        return [Packet(Make(p.sequence, p.fin, p.syn, !p.syn && !p.fin, !p.syn, p.payload, p.mss))];
      }
      if zeroWindowSince.Some? {
        if now >= zeroWindowSince.value + 30.0 {
          events := Fail(Timeout);
          return;
        }
        if now >= lastProbe + 1.0 {
          lastProbe := now;
          if outbound.acked > 0 {
            ProbeCarries();
            CarryingGenuine(Probe(), outbound, outbound.acked - 1);
          }
          return [Packet(Probe())];
        }
      }
    }

    /** The segment in flight has waited out its timeout. */
    predicate Overdue(now: real)
      reads this
    {
      pending.Some? && now >= pending.value.sent + pending.value.rto
    }

    /** A deadline has passed: of closing, of the pending segment, or of the wait for the peer's window. */
    predicate Due(now: real)
      reads this
    {
      && !Over(state)
      && (Expired(now)
          || Overdue(now)
          || (zeroWindowSince.Some? && (now >= zeroWindowSince.value + 30.0 || now >= lastProbe + 1.0)))
    }

    predicate Expired(now: real)
      reads this
    {
      closeDeadline.Some? && now >= closeDeadline.value
    }

    lemma WaitingIsOpen()
      requires Valid() && zeroWindowSince.Some? && !Over(state)
      ensures Open(state) && pending.None? && peerWindow == 0
    {}

    method Finish()
      requires Valid() && state == TIME_WAIT
      modifies `state
      ensures Valid() && state == CLOSED
    {
      state := CLOSED;
    }

    /** The timeout doubles, up to eight seconds. */
    function Backoff(rto: real): real {
      if rto * 2.0 < 8.0 then rto * 2.0 else 8.0
    }

    method Retry(p: Pending, now: real)
      requires Valid() && !Over(state) && pending == Some(p) && p.retries < 5
      modifies `pending, `sends
      ensures Valid() && sends == old(sends) + 1
      ensures pending.Some? && pending.value.retries == p.retries + 1 && pending.value.sent == now
      ensures pending.value == p.(retries := p.retries + 1, sent := now, rto := Backoff(p.rto))
    {
      hide Wrap;
      pending := Some(p.(retries := p.retries + 1, sent := now, rto := Backoff(p.rto)));
      sends := sends + 1;
    }

    method Write(data: seq<octet>, now: real) returns (r: Outcome)
      requires Valid()
      modifies `outbound, `zeroWindowSince, `lastProbe, `sendBuffer, `next, `pending, `sends, `state
      ensures Valid() && (r.Done? ==> PeerClosed !in r.events)
      ensures r == Threw(InvalidState) <==> !(Open(old(state)) && !old(closeRequested))
      ensures r == Threw(Backpressure) <==>
        && Open(old(state)) && !old(closeRequested)
        && |data| > SEND_CAPACITY - |old(sendBuffer)| - |PayloadOf(old(pending))|
      ensures r.Threw? ==> r == Threw(InvalidState) || r == Threw(Backpressure)
      ensures r.Threw? ==>
        outbound == old(outbound) && state == old(state) && pending == old(pending) && sendBuffer == old(sendBuffer)
      ensures r.Done? ==>
        outbound == old(outbound).(written := old(outbound.written) + data) && GenuineEvents(r.events, outbound)
      ensures r.Done? && old(pending).None? && peerWindow == 0 && data != [] ==>
        && r.events == [] && state == old(state) && pending.None?
        && zeroWindowSince == Waiting(old(zeroWindowSince), now)
        && lastProbe == (if old(zeroWindowSince).None? then now else old(lastProbe))
    {
      hide Wrap, Sending, Receiving, Windowed, Genuine;
      if !Open(state) || closeRequested {
        return Threw(InvalidState);
      }
      if |data| > SEND_CAPACITY - |sendBuffer| - |PayloadOf(pending)| {
        return Threw(Backpressure);
      }
      WriteKeeps(state, una, next, pending, sendBuffer, closeRequested, outbound, data);
      WriteWindowed(state, pending, peerWindow, zeroWindowSince, sendMSS, lastAcknowledgedByte, outbound, data);
      sendBuffer := sendBuffer + data;
      outbound := outbound.(written := outbound.written + data);
      var events := Flush(now);
      r := Done(events);
    }

    method ShutdownWrite(now: real) returns (r: Outcome)
      requires Valid()
      modifies `closeRequested, `zeroWindowSince, `lastProbe, `sendBuffer, `next, `pending, `sends, `state
      ensures Valid() && (r.Done? ==> PeerClosed !in r.events)
      ensures r == Threw(InvalidState) <==> !(Open(old(state)) && !old(closeRequested))
      ensures r.Threw? ==> r == Threw(InvalidState) && state == old(state) && pending == old(pending)
      ensures r.Done? ==> closeRequested && GenuineEvents(r.events, outbound)
    {
      hide Wrap, Receiving, Windowed, Genuine;
      if !Open(state) || closeRequested {
        return Threw(InvalidState);
      }
      closeRequested := true;
      var events := Flush(now);
      r := Done(events);
    }

    // ----- receiving -----

    /** The segment answers the SYN. */
    predicate Opens(segment: Segment)
      reads this
    {
      && state == SYN_SENT && segment.syn && segment.ack && !segment.fin && !segment.rst
      && segment.acknowledgement == next && segment.payload == []
    }

    /** What the answer to the SYN leaves behind. */
    twostate predicate Opened(segment: Segment)
      reads this
    {
      && state == ESTABLISHED && una == next == old(next) && pending == None && sendBuffer == old(sendBuffer)
      && receiveNext == Plus(segment.sequence, 1) && inbound == old(inbound).(irs := segment.sequence)
      && peerWindow == segment.window && windowSequence == segment.sequence && windowACK == segment.acknowledgement
      && sendMSS == Lesser(if segment.mss.Some? then segment.mss.value else 1220, mtu - 60)
      && closeRequested == old(closeRequested) && closeDeadline == old(closeDeadline)
      && zeroWindowSince == old(zeroWindowSince)
      && lastAcknowledgedByte == old(lastAcknowledgedByte)
    }

    /** The handshake's answer (lines 173-181). */
    method ReceiveSynAck(segment: Segment, now: real) returns (events: seq<Event>)
      requires Valid() && state == SYN_SENT && Decoded(segment, mtu)
      modifies `state, `una, `receiveNext, `pending, `peerWindow, `windowSequence, `windowACK, `sendMSS, `inbound,
               `sendBuffer, `receiveBuffer
      ensures Valid() && GenuineEvents(events, outbound) && PeerClosed !in events
      ensures inbound == if state == ESTABLISHED then old(inbound).(irs := segment.sequence) else old(inbound)
      ensures segment.rst ==>
        if segment.ack && segment.acknowledgement == old(next) then state == FAILED && events == [Failed(Reset)]
        else state == SYN_SENT && events == []
      ensures old(Opens(segment)) ==>
        Opened(segment) && |receiveBuffer| <= RECEIVE_CAPACITY && events == [Ack(), Connected]
      ensures !segment.rst && !old(Opens(segment)) ==> state == SYN_SENT && events == []
    {
      hide Sending, Receiving, Windowed, Wrap, Plus, Genuine;
      BufferFits();
      if segment.rst {
        events := [];
        if segment.ack && segment.acknowledgement == next {
          events := Fail(Reset);
        }
        return;
      }
      if !Opens(segment) {
        return [];
      }
      Establish(segment);
      BufferFits();
      PlainAckGenuine(next, receiveNext, Window(), outbound);
      events := [Ack(), Connected];
    }

    /** Lines 176-180: the answer to the SYN is taken. */
    method Establish(segment: Segment)
      requires Valid() && Decoded(segment, mtu) && Opens(segment)
      modifies `state, `una, `receiveNext, `pending, `peerWindow, `windowSequence, `windowACK, `sendMSS, `inbound
      ensures Valid() && Opened(segment)
    {
      hide Sending, Receiving, Windowed, Wrap, Plus, Genuine;
      SynAckKeeps(una, next, pending, receiveNext, receiveBuffer, outbound, inbound, segment.sequence, sendBuffer,
                  closeRequested);
      var mss := Lesser(if segment.mss.Some? then segment.mss.value else 1220, mtu - 60);
      SynAckWindowed(pending, peerWindow, zeroWindowSince, sendMSS, lastAcknowledgedByte, outbound, segment.window,
                     mss);
      SetOpen(Plus(segment.sequence, 1), mss, segment, inbound.(irs := segment.sequence));
    }

    /** The fields the answer to the SYN changes, all at once. */
    method SetOpen(position: u32, mss: nat, segment: Segment, ghost i: Inbound)
      requires 1280 <= mtu <= 16000 && Sending(ESTABLISHED, next, next, None, sendBuffer, closeRequested, outbound)
      requires Receiving(ESTABLISHED, position, receiveBuffer, i)
      requires Windowed(ESTABLISHED, None, segment.window, zeroWindowSince, mss, lastAcknowledgedByte, outbound)
      modifies `state, `una, `receiveNext, `pending, `peerWindow, `windowSequence, `windowACK, `sendMSS, `inbound
      ensures Valid() && state == ESTABLISHED && una == next && receiveNext == position && pending == None
      ensures sendMSS == mss
      ensures peerWindow == segment.window && windowSequence == segment.sequence && windowACK == segment.acknowledgement
      ensures inbound == i
    {
      hide Sending, Receiving, Windowed;
      inbound := i;
      una, receiveNext, pending := next, position, None;
      peerWindow, windowSequence, windowACK := segment.window, segment.sequence, segment.acknowledgement;
      sendMSS, state := mss, ESTABLISHED;
    }

    predicate Newer(segment: Segment)
      reads this
    {
      Before(windowSequence, segment.sequence)
      || (windowSequence == segment.sequence && !Before(segment.acknowledgement, windowACK))
    }

    /** Lines 206-210: take the peer's window unless the segment is older than the last that set it. */
    method UpdateWindow(segment: Segment)
      requires Valid() && !Over(state) && segment.window < 65536
      modifies `peerWindow, `windowSequence, `windowACK, `zeroWindowSince
      ensures Valid()
      ensures if old(Newer(segment))
              then && peerWindow == segment.window && windowSequence == segment.sequence
                   && windowACK == segment.acknowledgement
                   && (peerWindow > 0 ==> zeroWindowSince == None)
              else peerWindow == old(peerWindow) && zeroWindowSince == old(zeroWindowSince)
    {
      hide Sending, Receiving, Before;
      if Newer(segment) {
        peerWindow, windowSequence, windowACK := segment.window, segment.sequence, segment.acknowledgement;
        if peerWindow > 0 {
          zeroWindowSince := None;
        }
      }
    }

    /** Lines 211-227: take an acknowledgement of something in flight. */
    method Acknowledge(ack: u32, amount: nat, now: real) returns (events: seq<Event>)
      requires Valid() && !Over(state) && state != IDLE && state != SYN_SENT
      requires 0 < amount <= Flight(pending) && ack == Wrap(outbound.iss + Una(state, outbound) + amount)
      requires ack == next <==> amount == Flight(pending)
      modifies `una, `lastAcknowledgedByte, `pending, `sends, `state, `closeDeadline, `outbound
      ensures Valid() && una == ack
      ensures outbound == AckOutbound(old(pending).value, old(outbound), amount)
      ensures pending == AckPending(old(pending).value, amount, ack, now)
      ensures state == if pending.None? then AckState(old(state)) else old(state)
      ensures events == if state == CLOSED then [Writable, Closed] else [Writable]
      ensures closeDeadline == if pending.None? && old(state) == FIN_WAIT_1 then Some(now + 30.0)
                               else if pending.None? && old(state) == CLOSING then Some(now + 120.0)
                               else old(closeDeadline)
    {
      hide Wrap, Sending, Receiving, Windowed, AckPending, AckState, AckOutbound;
      var p := pending.value;
      AckKeeps(state, una, next, p, sendBuffer, closeRequested, outbound, amount, ack, now);
      AckLeavesReceiving(state, receiveNext, receiveBuffer, inbound);
      FlightState(state, p, sendBuffer, closeRequested, outbound, una, next);
      AckWindowed(state, p, peerWindow, zeroWindowSince, sendMSS, lastAcknowledgedByte, outbound, amount,
                  AckPending(p, amount, ack, now), if amount == Flight(pending) then AckState(state) else state);
      AckLeft(p, amount, ack, now);
      var left := Shortened(p, amount, ack, now, ack == next);
      var after, deadline, rest := state, closeDeadline, [];
      if left.None? {
        after, deadline, rest := Onward(state, closeDeadline, now);
      }
      var last := if amount <= |p.payload| then p.payload[amount - 1] else lastAcknowledgedByte;
      SetFlight(ack, left, last, after, deadline, AckOutbound(p, outbound, amount));
      events := [Writable] + rest;
    }

    /** The fields an acknowledgement changes, all at once. */
    method SetFlight(ack: u32, left: Option<Pending>, last: octet, after: Phase, deadline: Option<real>,
                     ghost o: Outbound)
      requires 1280 <= mtu <= 16000 && (pending.Some? ==> sends <= pending.value.retries + 1)
      requires Sending(after, ack, next, left, sendBuffer, closeRequested, o)
      requires Receiving(after, receiveNext, receiveBuffer, inbound)
      requires Windowed(after, left, peerWindow, zeroWindowSince, sendMSS, last, o)
      modifies `una, `lastAcknowledgedByte, `pending, `sends, `state, `closeDeadline, `outbound
      ensures Valid() && una == ack && pending == left && state == after && closeDeadline == deadline && outbound == o
    {
      hide Wrap, Sending, Receiving, Windowed;
      if left != pending {
        sends := 0;
      }
      una, pending, lastAcknowledgedByte, state, closeDeadline := ack, left, last, after, deadline;
      outbound := o;
    }

    /** Lines 205-228: what the acknowledgement number and the window tell. */
    method TakeAck(segment: Segment, now: real) returns (events: seq<Event>)
      requires Valid() && !Over(state) && state != IDLE && state != SYN_SENT && Decoded(segment, mtu)
      requires !Before(next, segment.acknowledgement)
      modifies `peerWindow, `windowSequence, `windowACK, `zeroWindowSince,
               `una, `lastAcknowledgedByte, `pending, `sends, `state, `closeDeadline, `outbound
      ensures Valid() && NoPackets(events)
      ensures Outgrows(old(outbound), outbound)
      ensures state == old(state) || (pending.None? && state == AckState(old(state)))
      ensures peerWindow == if !Before(segment.acknowledgement, old(una)) && old(Newer(segment)) then segment.window
                            else old(peerWindow)
      ensures if old(Acks(segment))
              then && una == segment.acknowledgement && old(pending).Some?
                   && 0 < Minus(segment.acknowledgement, old(una)) <= Flight(old(pending))
                   && outbound == AckOutbound(old(pending).value, old(outbound),
                                              Minus(segment.acknowledgement, old(una)))
                   && pending == AckPending(old(pending).value, Minus(segment.acknowledgement, old(una)),
                                            segment.acknowledgement, now)
              else && events == [] && outbound == old(outbound) && state == old(state) && pending == old(pending)
                   && una == old(una)
    {
      hide Wrap, Minus, Before, Sending, Receiving, Windowed, Signed;
      events := [];
      if !Before(segment.acknowledgement, una) {
        FlightFits(state, una, next, pending, sendBuffer, closeRequested, outbound);
        Acknowledged(outbound.iss + Una(state, outbound), Flight(pending), segment.acknowledgement);
        UpdateWindow(segment);
        if Before(una, segment.acknowledgement) {
          events := Acknowledge(segment.acknowledgement, Minus(segment.acknowledgement, una), now);
        }
      }
    }

    /** Lines 234-246: append the new bytes that fit, and take the FIN when it comes right after them. */
    method Take(segment: Segment, offset: int, now: real) returns (events: seq<Event>)
      requires Valid() && (state == ESTABLISHED || state == FIN_WAIT_1 || state == FIN_WAIT_2) && offset <= 0
      modifies `receiveBuffer, `receiveNext, `inbound, `state, `closeDeadline
      ensures Valid() && !Over(state)
      ensures inbound == TakeInbound(segment, offset, old(Window()), old(receiveNext), old(inbound))
      ensures state == if inbound.peerFin then PeerFinState(old(state)) else old(state)
      ensures receiveBuffer == old(receiveBuffer) + Fresh(segment, offset, old(Window()))
      ensures closeDeadline == if state == TIME_WAIT then Some(now + 120.0) else old(closeDeadline)
      ensures events == (if Fresh(segment, offset, old(Window())) != [] then [Readable] else [])
                        + (if inbound.peerFin then [PeerClosed] else [])
    {
      hide Wrap, Plus, Sending, Receiving, Windowed, Fresh, FinTaken;
      BufferFits();
      TakeKeeps(state, receiveNext, receiveBuffer, inbound, segment, offset);
      var window := Window();
      var data := Fresh(segment, offset, window);
      var fin := FinTaken(segment, offset, window, receiveNext);
      TakeLeavesSending(state, una, next, pending, sendBuffer, closeRequested, outbound, fin);
      TakeWindowed(state, pending, peerWindow, zeroWindowSince, sendMSS, lastAcknowledgedByte, outbound, fin);
      var position, after, deadline := Plus(receiveNext, |data|), state, closeDeadline;
      events := if data != [] then [Readable] else [];
      if fin {
        position := Plus(position, 1);
        events := events + [PeerClosed];
        if state == ESTABLISHED {
          after := CLOSE_WAIT;
        } else if state == FIN_WAIT_1 {
          after := CLOSING;
        } else {
          after, deadline := TIME_WAIT, Some(now + 120.0);
        }
      }
      SetTaken(receiveBuffer + data, position, after, deadline,
               TakeInbound(segment, offset, window, receiveNext, inbound));
    }

    /** The fields that taking data changes, all at once. */
    method SetTaken(buffer: seq<octet>, position: u32, after: Phase, deadline: Option<real>, ghost i: Inbound)
      requires 1280 <= mtu <= 16000 && (pending.Some? ==> sends <= pending.value.retries + 1)
      requires Sending(after, una, next, pending, sendBuffer, closeRequested, outbound)
      requires Receiving(after, position, buffer, i)
      requires Windowed(after, pending, peerWindow, zeroWindowSince, sendMSS, lastAcknowledgedByte, outbound)
      modifies `receiveBuffer, `receiveNext, `inbound, `state, `closeDeadline
      ensures Valid() && receiveBuffer == buffer && receiveNext == position && state == after
      ensures closeDeadline == deadline && inbound == i
    {
      hide Sending, Receiving, Windowed;
      inbound := i;
      receiveBuffer, receiveNext, state, closeDeadline := buffer, position, after, deadline;
    }

    /** What the state says about the inbound history. */
    lemma InboundMatches()
      requires Valid() && !Over(state) && state != IDLE && state != SYN_SENT
      ensures receiveNext == Wrap(inbound.irs + Taken(inbound)) && (inbound.peerFin <==> PeerDone(state))
      ensures |receiveBuffer| <= RECEIVE_CAPACITY
    {}

    /** Lines 229-233 and 247-248: answer, and send what may now be sent. */
    method Answer(acknowledge: bool, now: real) returns (events: seq<Event>)
      requires Valid()
      modifies `zeroWindowSince, `lastProbe, `sendBuffer, `next, `pending, `sends, `state
      ensures Valid() && GenuineEvents(events, outbound) && PeerClosed !in events
      ensures PeerDone(state) == PeerDone(old(state)) && (Over(state) <==> Over(old(state)))
      ensures (state == old(state) || FinInFlight(state)) && (old(pending).Some? ==> pending == old(pending))
      ensures acknowledge ==> events != [] && events[0] == old(Ack())
    {
      hide Sending, Receiving, Windowed, Genuine;
      BufferFits();
      events := if acknowledge then [Ack()] else [];
      PlainAckGenuine(next, receiveNext, Window(), outbound);
      var rest := Flush(now);
      events := events + rest;
    }

    /** The segment acknowledges something in flight. */
    predicate Acks(segment: Segment)
      reads this
    {
      Before(una, segment.acknowledgement) && !Before(segment.acknowledgement, una)
    }

    /**
     What an acceptable segment does to the sending side: what it acknowledges
     leaves the flight, and what remains in flight stays as it is. Only with
     nothing left in flight may a new segment follow.
     */
    twostate predicate Sent(segment: Segment, now: real)
      reads this
    {
      if old(Acks(segment)) then
        && una == segment.acknowledgement && old(pending).Some?
        && 0 < Minus(segment.acknowledgement, old(una)) <= Flight(old(pending))
        && outbound == AckOutbound(old(pending).value, old(outbound), Minus(segment.acknowledgement, old(una)))
        && var left := AckPending(old(pending).value, Minus(segment.acknowledgement, old(una)),
                                  segment.acknowledgement, now);
           left.Some? ==> pending == left
      else una == old(una) && outbound == old(outbound) && (old(pending).Some? ==> pending == old(pending))
    }

    /** Lines 204-248: a segment that passed the acceptance tests. */
    method ReceiveAcceptable(segment: Segment, offset: int, now: real) returns (events: seq<Event>)
      requires Valid() && !Over(state) && state != IDLE && state != SYN_SENT && state != TIME_WAIT
      requires Decoded(segment, mtu)
      requires offset == Signed(Minus(segment.sequence, receiveNext)) && !Before(next, segment.acknowledgement)
      modifies this
      ensures Valid() && GenuineEvents(events, outbound) && Outgrows(old(outbound), outbound)
      ensures state != FAILED && Sent(segment, now)
      ensures Ingrows(old(inbound), inbound, events) && Faithful(segment, old(inbound), inbound)
      ensures inbound == if offset <= 0 && !PeerDone(old(state))
                         then TakeInbound(segment, offset, old(Window()), old(receiveNext), old(inbound))
                         else old(inbound)
    {
      hide Wrap, Minus, Before, Sending, Receiving, Windowed, Signed, TakeInbound, Fresh, FinTaken, Genuine, Ingrows,
           Faithful;
      var length := |segment.payload| + if segment.fin then 1 else 0;
      InboundMatches();
      var first := TakeAck(segment, now);
      if state == CLOSED {
        Unmoved(segment, inbound, first);
        return first;
      }
      if offset > 0 || PeerDone(state) {
        var rest := Answer(offset > 0 || length > 0, now);
        Unmoved(segment, inbound, first + rest);
        return first + rest;
      }
      events := TakeAndAnswer(segment, offset, first, length > 0, now);
    }

    /** Lines 234-248: take the data, then answer. */
    method TakeAndAnswer(segment: Segment, offset: int, first: seq<Event>, acknowledge: bool,
                         now: real) returns (events: seq<Event>)
      requires Valid() && (state == ESTABLISHED || state == FIN_WAIT_1 || state == FIN_WAIT_2) && Decoded(segment, mtu)
      requires offset == Signed(Minus(segment.sequence, receiveNext)) && offset <= 0 && NoPackets(first)
      modifies `receiveBuffer, `receiveNext, `inbound, `closeDeadline,
               `zeroWindowSince, `lastProbe, `sendBuffer, `next, `pending, `sends, `state
      ensures Valid() && GenuineEvents(events, outbound)
      ensures state != FAILED && (old(pending).Some? ==> pending == old(pending))
      ensures Ingrows(old(inbound), inbound, events) && Faithful(segment, old(inbound), inbound)
      ensures inbound == TakeInbound(segment, offset, old(Window()), old(receiveNext), old(inbound))
    {
      hide Wrap, Minus, Sending, Receiving, Windowed, Signed, Fresh, FinTaken, GenuineEvents, FinReports, Ingrows,
           Faithful;
      InboundMatches();
      TakeFaithful(segment, inbound, receiveNext, Window(), offset);
      ghost var window, expected, before := Window(), receiveNext, inbound;
      var taken := Take(segment, offset, now);
      var rest := Answer(acknowledge, now);
      TakeReports(taken);
      Assembled(first, taken, rest, outbound);
      events := first + taken + rest;
      TakeIngrows(before, segment, offset, window, expected, events);
    }

    /** Lines 196-200: the segment acceptance test of section 3.10.7.4 of RFC 9293. */
    predicate Acceptable(offset: int, length: nat, available: int) {
      if available == 0 then length == 0 && offset == 0
      else if length == 0 then 0 <= offset < available
      else 0 <= offset < available || 0 <= offset + length - 1 < available
    }

    /** `receive`: every segment, wanted or not; `None` is a packet that does not decode. */
    method Receive(received: Option<Segment>, now: real) returns (events: seq<Event>)
      requires Valid() && (received.Some? ==> Decoded(received.value, mtu))
      modifies this
      ensures Valid() && GenuineEvents(events, outbound) && Outgrows(old(outbound), outbound)
      ensures received.None? || old(state) == IDLE || old(Over(state)) ==>
        events == [] && inbound == old(inbound) && state == old(state)
      ensures received.Some? && old(state) == SYN_SENT ==>
        inbound == old(inbound).(irs := inbound.irs) && (old(Opens(received.value)) ==> Opened(received.value))
      ensures PeerClosed in events ==> received.Some? && old(state) != SYN_SENT
      ensures received.Some? && old(state) != SYN_SENT ==>
        Ingrows(old(inbound), inbound, events) && Faithful(received.value, old(inbound), inbound)
      // In-order data is taken up to the window: nothing acceptable is dropped.
      ensures received.Some? && old(Wanted(received.value)) ==>
        inbound == TakeInbound(received.value, old(OffsetOf(received.value)), old(Window()), old(receiveNext),
                               old(inbound))
      // An acceptable acknowledgement is taken, and nothing else moves the sending side.
      ensures if received.Some? && old(Heard(received.value)) then Sent(received.value, now)
              else outbound == old(outbound)
      // Only a reset fails the connection: in the handshake one that acknowledges the SYN,
      // later one at the exact sequence number.
      ensures state == FAILED && old(state) != FAILED ==> received.Some? && received.value.rst
      ensures received.Some? && received.value.rst && old(state) == SYN_SENT ==>
        (state == FAILED <==> received.value.ack && received.value.acknowledgement == old(next))
      ensures (received.Some? && received.value.rst && old(state) != SYN_SENT && old(state) != IDLE
               && !old(Over(state))) ==>
        (state == FAILED <==> received.value.sequence == old(receiveNext))
    {
      hide Wrap, Minus, Before, Sending, Receiving, Windowed, Signed, TakeInbound, Fresh, FinTaken, Genuine,
           Ingrows, Faithful;
      events := [];
      if received.None? || state == IDLE || Over(state) {
        if received.Some? { Unmoved(received.value, inbound, []); }
        return;
      }
      var segment := received.value;
      if state == SYN_SENT {
        events := ReceiveSynAck(segment, now);
        return;
      }
      InboundMatches();
      PlainAckGenuine(next, receiveNext, Window(), outbound);
      Unmoved(segment, inbound, []);
      Unmoved(segment, inbound, [Ack()]);
      Unmoved(segment, inbound, [Failed(Reset)]);
      if segment.rst {
        if segment.sequence == receiveNext {
          events := Fail(Reset);
        } else if Minus(segment.sequence, receiveNext) < Window() {
          events := [Ack()];
        }
        return;
      }
      if state == TIME_WAIT {
        if segment.fin && Plus(Plus(segment.sequence, |segment.payload|), 1) == receiveNext {
          closeDeadline := Some(now + 120.0);
          return [Ack()];
        }
        return;
      }
      if segment.syn {
        return [Ack()];
      }
      if !segment.ack {
        return;
      }
      var length := |segment.payload| + if segment.fin then 1 else 0;
      var offset := OffsetOf(segment);
      if !Acceptable(offset, length, Window()) {
        return [Ack()];
      }
      if Before(next, segment.acknowledgement) {
        return [Ack()];
      }
      events := ReceiveAcceptable(segment, offset, now);
    }

    /** How far the segment starts beyond what was taken. */
    function OffsetOf(segment: Segment): int
      reads this
    {
      Signed(Minus(segment.sequence, receiveNext))
    }

    /** The segment passes the acceptance tests. */
    predicate Heard(segment: Segment)
      reads this
    {
      && state != IDLE && state != SYN_SENT && state != TIME_WAIT && !Over(state)
      && !segment.rst && !segment.syn && segment.ack && !Before(next, segment.acknowledgement)
      && Acceptable(OffsetOf(segment), |segment.payload| + (if segment.fin then 1 else 0), Window())
    }

    /** An acceptable segment that starts at or before the next wanted byte, while data is still wanted. */
    predicate Wanted(segment: Segment)
      reads this
    {
      Heard(segment) && !PeerDone(state) && OffsetOf(segment) <= 0
    }
  }

  /** `init`: a link the source refuses gives no connection. */
  method Begin(mtu: nat, localPort: nat, remotePort: nat, localAddress: seq<octet>, remoteAddress: seq<octet>,
               initialSequence: u32)
    returns (c: Connection?)
    ensures c != null <==> 1280 <= mtu <= 16000 && localPort > 0 && remotePort > 0 && localAddress != remoteAddress
    ensures c != null ==> fresh(c) && c.Valid() && c.state == IDLE && c.mtu == mtu
    ensures c != null ==>
      c.outbound == Outbound(initialSequence, [], 0, false) && c.inbound == Inbound(0, [], [], false)
  {
    if !(1280 <= mtu <= 16000) || localPort == 0 || remotePort == 0 || localAddress == remoteAddress {
      return null;
    }
    c := new Connection(mtu, initialSequence);
  }

  /** A connection whose peer opened with a closed window. */
  method ClosedWindow() returns (c: Connection)
    ensures fresh(c) && c.Valid() && c.state == ESTABLISHED && c.pending.None? && c.peerWindow == 0
    ensures c.outbound.written == []
    ensures !c.closeRequested && c.closeDeadline.None? && c.zeroWindowSince.None? && c.sendBuffer == []
    ensures c.lastAcknowledgedByte == 0
    ensures c.outbound.acked == 0
  {
    hide Genuine, GenuineEvents, Wrap, Sending, Receiving, Windowed;
    c := new Connection(1280, 0);
    var r := c.Connect(0.0);
    var answer := Segment(5, c.next, false, true, false, false, true, 0, [], None);
    var events := c.Receive(Some(answer), 0.0);
  }

  /**
   A probe that carries what was never written: the peer opens with a closed window,
   and the first byte has to wait.
   */
  method EarlyProbe() returns (c: Connection, events: seq<Event>, probe: Segment)
    ensures c.Valid() && c.outbound.written == [7] && events == [Packet(probe)]
    ensures probe.payload == [0] && !Genuine(probe, c.outbound)
  {
    hide Genuine, GenuineEvents, Wrap, Sending, Receiving, Windowed;
    c := ClosedWindow();
    var r := c.Write([7], 0.0);
    c.BufferFits();
    c.ProbeGenuine();
    probe := c.Probe();
    events := c.Tick(1.0);
  }
}
