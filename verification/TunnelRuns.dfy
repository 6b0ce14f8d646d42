/**
 Whole runs of a connection (authorization/Transport/TunnelTCP.swift): any calls
 in any order, with segments of any origin.
 */
module TunnelRuns {
  import opened GuestTypes
  import opened Octets
  import opened SequenceNumbers
  import opened TunnelTCP

  datatype Call =
    | Open(now: real)
    | Send(data: seq<octet>, now: real)
    | Fetch(maximum: int)
    | Finish(now: real)
    | Arrive(packet: Option<Segment>, now: real)
    | Pass(now: real)
    | Drop

  /** A packet that arrives has been decoded. */
  ghost predicate Sane(call: Call, mtu: nat) {
    call.Arrive? && call.packet.Some? ==> Decoded(call.packet.value, mtu)
  }

  /**
   What one call does to the inbound history: reading delivers what it returns,
   only an arriving segment adds to what was taken, and the FIN is reported when
   it is taken.
   */
  ghost predicate Moves(i: Inbound, call: Call, output: seq<octet>, events: seq<Event>, j: Inbound) {
    && j.delivered == i.delivered + output && j.delivered <= j.accepted && i.accepted <= j.accepted
    && (i.peerFin ==> j.peerFin && j.accepted == i.accepted)
    && FinReports(events) == (if j.peerFin && !i.peerFin then 1 else 0)
    && (Took(i, j) ==> call.Arrive? && call.packet.Some? && Faithful(call.packet.value, i, j))
  }

  /** Something was taken. */
  predicate Took(i: Inbound, j: Inbound) {
    i.accepted != j.accepted || i.peerFin != j.peerFin
  }

  /** The application writes on, and what was acknowledged stays acknowledged. */
  predicate Extends(o: Outbound, p: Outbound) {
    o.iss == p.iss && o.written <= p.written && o.acked <= p.acked
  }

  /**
   Every data segment sent carries bytes of `later` at their own numbers, unless
   it is a probe from before the first byte was acknowledged.
   */
  ghost predicate Carried(events: seq<Event>, call: Call, o: Outbound, later: Outbound) {
    forall e :: e in events && e.Packet? && e.segment.payload != [] ==>
      (exists q :: Carries(e.segment, later, q)) || (call.Pass? && o.acked == 0)
  }

  lemma CarriedLater(events: seq<Event>, call: Call, o: Outbound, p: Outbound, q: Outbound)
    requires Carried(events, call, o, p) && Extends(p, q)
    ensures Carried(events, call, o, q)
  {
    forall e | e in events && e.Packet? && e.segment.payload != [] && !(call.Pass? && o.acked == 0)
      ensures exists at :: Carries(e.segment, q, at)
    {
      var at :| Carries(e.segment, p, at);
      assert Carries(e.segment, q, at);
    }
  }

  function Said(r: Outcome): seq<Event> { if r.Done? then r.events else [] }

  method Perform(c: Connection, call: Call) returns (output: seq<octet>, events: seq<Event>)
    requires c.Valid() && Sane(call, c.mtu)
    modifies c
    ensures c.Valid() && Moves(old(c.inbound), call, output, events, c.inbound)
    ensures Extends(old(c.outbound), c.outbound) && Carried(events, call, old(c.outbound), c.outbound)
  {
    hide Sending, Receiving, Windowed, Faithful, FinReports, Carries;
    DeliveredTaken(c);
    output, events := [], [];
    match call {
      case Open(now) => { var r := c.Connect(now); events := Said(r); }
      case Send(data, now) => { var r := c.Write(data, now); events := Said(r); }
      case Fetch(maximum) => output, events := c.Read(maximum);
      case Finish(now) => { var r := c.ShutdownWrite(now); events := Said(r); }
      case Arrive(packet, now) => events := c.Receive(packet, now);
      case Pass(now) => events := c.Tick(now);
      case Drop => events := c.Abort();
    }
    if PeerClosed !in events { NoFinReports(events); }
    DeliveredTaken(c);
  }

  lemma DeliveredTaken(c: Connection)
    requires c.Valid()
    ensures c.inbound.delivered <= c.inbound.accepted
  {
    hide Sending, Windowed;
  }

  // ----- runs -----

  function Joined<T>(parts: seq<seq<T>>): seq<T> {
    if parts == [] then [] else Joined(parts[..|parts| - 1]) + parts[|parts| - 1]
  }

  /** `trace[k]` is the inbound history before call `k`. */
  ghost predicate Traced(trace: seq<Inbound>, calls: seq<Call>, outputs: seq<seq<octet>>, events: seq<seq<Event>>) {
    && |trace| == |calls| + 1 && |outputs| == |events| == |calls|
    && forall k :: 0 <= k < |calls| ==> Moves(trace[k], calls[k], outputs[k], events[k], trace[k + 1])
  }

  /** The segment of this call came from a peer whose whole stream is `stream`. */
  ghost predicate SentBy(call: Call, stream: seq<octet>, i: Inbound) {
    call.Arrive? && call.packet.Some? && exists q :: Honest(call.packet.value, stream, i, q)
  }

  /** Every segment from which something was taken came from a peer whose whole stream is `stream`. */
  ghost predicate FromPeer(trace: seq<Inbound>, calls: seq<Call>, stream: seq<octet>)
    requires |trace| == |calls| + 1
  {
    forall k :: 0 <= k < |calls| && Took(trace[k], trace[k + 1]) ==> SentBy(calls[k], stream, trace[k])
  }

  /**
   What holds after `n` calls: everything read so far is a prefix of the peer's
   stream, all of which was taken if the FIN was; the FIN was reported once if
   it was taken and never otherwise.
   */
  ghost predicate Delivers(i: Inbound, outputs: seq<seq<octet>>, events: seq<seq<Event>>, stream: seq<octet>, n: nat)
    requires n <= |outputs| && n <= |events|
  {
    && i.delivered == Joined(outputs[..n]) && i.delivered <= i.accepted && Follows(i, stream)
    && FinReports(Joined(events[..n])) == (if i.peerFin then 1 else 0)
  }

  lemma {:induction false} RunDelivers(trace: seq<Inbound>, calls: seq<Call>, outputs: seq<seq<octet>>,
                                       events: seq<seq<Event>>, stream: seq<octet>, n: nat)
    requires Traced(trace, calls, outputs, events) && FromPeer(trace, calls, stream) && n <= |calls|
    requires trace[0].accepted == trace[0].delivered == [] && !trace[0].peerFin
    ensures Delivers(trace[n], outputs, events, stream, n)
  {
    hide Honest, Faithful, FinReports;
    if n == 0 {
      NoFinReports([]);
    } else {
      RunDelivers(trace, calls, outputs, events, stream, n - 1);
      assert outputs[..n][..n - 1] == outputs[..n - 1] && events[..n][..n - 1] == events[..n - 1];
      assert Moves(trace[n - 1], calls[n - 1], outputs[n - 1], events[n - 1], trace[n]);
      FinReportsConcat(Joined(events[..n - 1]), events[n - 1]);
      if Took(trace[n - 1], trace[n]) { TakenFollows(trace[n - 1], calls[n - 1], trace[n], stream); }
    }
  }

  lemma TakenFollows(i: Inbound, call: Call, j: Inbound, stream: seq<octet>)
    requires SentBy(call, stream, i) && Faithful(call.packet.value, i, j) && Follows(i, stream)
    ensures Follows(j, stream)
  {
    hide Honest, Follows;
  }

  /** Once the FIN is taken nothing more is taken, ever. */
  lemma {:induction false} FinIsLast(trace: seq<Inbound>, calls: seq<Call>, outputs: seq<seq<octet>>,
                                     events: seq<seq<Event>>, k: nat, n: nat)
    requires Traced(trace, calls, outputs, events) && k <= n <= |calls|
    ensures trace[k].accepted <= trace[n].accepted
    ensures trace[k].peerFin ==> trace[n].peerFin && trace[n].accepted == trace[k].accepted
    decreases n
  {
    hide Faithful, FinReports;
    if k < n {
      FinIsLast(trace, calls, outputs, events, k, n - 1);
      assert Moves(trace[n - 1], calls[n - 1], outputs[n - 1], events[n - 1], trace[n]);
    }
  }

  /**
   Over every run: with a peer whose stream is `stream`, what the application
   read is a prefix of it, each byte once and in order, through duplicates, gaps,
   overlaps and wrap; the FIN is reported at most once, when all of the stream
   was taken; with any peer nothing is taken after the FIN. What is sent carries
   the written bytes at their own numbers, however the writes went on.
   */
  method Run(c: Connection, calls: seq<Call>, ghost stream: seq<octet>)
    returns (outputs: seq<seq<octet>>, events: seq<seq<Event>>, ghost trace: seq<Inbound>, ghost sent: seq<Outbound>)
    requires c.Valid() && c.state == IDLE && forall k :: 0 <= k < |calls| ==> Sane(calls[k], c.mtu)
    modifies c
    ensures c.Valid() && Traced(trace, calls, outputs, events) && trace[0] == old(c.inbound)
    ensures trace[|calls|] == c.inbound
    ensures FromPeer(trace, calls, stream) ==>
      && Joined(outputs) <= stream && FinReports(Joined(events)) <= 1
      && (FinReports(Joined(events)) == 1 ==> c.inbound.accepted == stream)
      && forall n :: 0 <= n <= |calls| ==> Delivers(trace[n], outputs, events, stream, n)
    ensures forall k, n :: 0 <= k <= n <= |calls| && trace[k].peerFin ==> trace[n].accepted == trace[k].accepted
    ensures |sent| == |calls| + 1 && sent[0] == old(c.outbound) && sent[|calls|] == c.outbound
    ensures forall k :: 0 <= k < |calls| ==> Carried(events[k], calls[k], sent[k], c.outbound)
    ensures forall k :: 0 <= k <= |calls| ==> Extends(sent[k], c.outbound)
  {
    hide Sending, Receiving, Windowed, Moves, FinReports, Honest, Carried;
    outputs, events, trace, sent := [], [], [c.inbound], [c.outbound];
    IdleHistory(c);
    for k := 0 to |calls|
      invariant c.Valid() && |trace| == k + 1 && trace[0] == old(c.inbound) && trace[k] == c.inbound
      invariant Traced(trace, calls[..k], outputs, events)
      invariant |sent| == k + 1 && sent[0] == old(c.outbound) && sent[k] == c.outbound
      invariant forall n :: 0 <= n < k ==> Carried(events[n], calls[n], sent[n], c.outbound)
      invariant forall n :: 0 <= n <= k ==> Extends(sent[n], c.outbound)
    {
      ghost var o := c.outbound;
      var output, said := Perform(c, calls[k]);
      forall n | 0 <= n < k ensures Carried(events[n], calls[n], sent[n], c.outbound) {
        CarriedLater(events[n], calls[n], sent[n], o, c.outbound);
      }
      TraceMore(trace, calls, outputs, events, k, output, said, c.inbound);
      outputs, events, trace, sent := outputs + [output], events + [said], trace + [c.inbound], sent + [c.outbound];
    }
    assert calls[..|calls|] == calls;
    if FromPeer(trace, calls, stream) {
      forall n | 0 <= n <= |calls| ensures Delivers(trace[n], outputs, events, stream, n) {
        RunDelivers(trace, calls, outputs, events, stream, n);
      }
      assert outputs[..|calls|] == outputs && events[..|calls|] == events;
    }
    forall k, n | 0 <= k <= n <= |calls| ensures trace[k].peerFin ==> trace[n].accepted == trace[k].accepted {
      FinIsLast(trace, calls, outputs, events, k, n);
    }
  }

  lemma IdleHistory(c: Connection)
    requires c.Valid() && c.state == IDLE
    ensures c.inbound.accepted == c.inbound.delivered == [] && !c.inbound.peerFin
  {
    hide Sending, Windowed;
  }

  lemma TraceMore(trace: seq<Inbound>, calls: seq<Call>, outputs: seq<seq<octet>>, events: seq<seq<Event>>, k: nat,
                  output: seq<octet>, said: seq<Event>, i: Inbound)
    requires k < |calls| && Traced(trace, calls[..k], outputs, events) && Moves(trace[k], calls[k], output, said, i)
    ensures Traced(trace + [i], calls[..k + 1], outputs + [output], events + [said])
  {
    hide Moves;
    var t, o, e := trace + [i], outputs + [output], events + [said];
    forall n | 0 <= n < k + 1 ensures Moves(t[n], calls[..k + 1][n], o[n], e[n], t[n + 1]) {
      if n < k { assert Moves(trace[n], calls[..k][n], outputs[n], events[n], trace[n + 1]); }
    }
  }
}
