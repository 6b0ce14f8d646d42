/**
 The debugger session that prepares fresh arenas
 (authorization/Debugger/DebugArenaSession.swift). Each received byte arrives as
 what the packet parser said about it; times are seconds.
 */
module ArenaSession {
  import opened GuestTypes
  import opened DebugReplies
  import opened ArenaHistory
  import opened ArenaPhases

  datatype Reason =
    | ProtocolFailure | WrongProcess | WrongChallenge | UnsafeRegion | NonzeroMemory | ServerFailure
    | TimedOut | Cancelled | Disconnected

  datatype Receipt = Receipt(pid: nat, challenge: seq<nat>, regions: seq<Region>)

  /** What a session for the request has to show for its success. */
  function Deed(q: Request): Receipt { Receipt(q.pid, q.challenge, q.regions) }

  datatype Verdict = Success(receipt: Receipt) | Failure(reason: Reason, detachConfirmed: bool)

  datatype Event = Send(commands: seq<Command>) | SendAck | SendNack | Finished(verdict: Verdict)

  /** What the parser made of one byte. */
  datatype Fed = More | Ack | Nack | BadChecksum | Packet(text: string) | Broken

  datatype Outcome = Emit(events: seq<Event>) | Thrown(reason: Reason)

  const READS_PER_BATCH: nat := 4
  const PAGES_PER_BATCH: nat := 128

  // ----- building a request -----

  method MakeRequest(pid: nat, helper: nat, self: nat, uid: nat, challengeAddress: nat, challenge: seq<nat>,
                     regions: seq<Region>)
    returns (r: Option<Request>)
    ensures r.Some? <==>
      GoodRequest(Request(pid, uid, challengeAddress, challenge, regions)) && pid != helper && pid != self
    ensures r.Some? ==> r.value == Request(pid, uid, challengeAddress, challenge, regions)
  {
    if !(1 < pid <= 0x7FFF_FFFF && pid != helper && pid != self && |challenge| == 32
         && (exists i :: 0 <= i < |challenge| && challenge[i] != 0) && 4096 <= challengeAddress <= TOP - 32
         && 0 < |regions| <= 4)
    {
      return None;
    }
    var total := 0;
    var index := 0;
    while index < |regions|
      invariant index <= |regions|
      invariant total == Bytes(regions[..index]) <= ARENA_LIMIT
      invariant forall i :: 0 <= i < index ==> GoodRegion(regions[i], challengeAddress)
      invariant forall i, j :: 0 <= j < i < index ==> Apart(regions[i], regions[j])
    {
      hide GoodRegion, Bytes;
      if !GoodRegion(regions[index], challengeAddress) { return None; }
      BytesStep(regions, index);
      total := total + regions[index].size;
      if total > ARENA_LIMIT {
        BytesMore(regions, index + 1);
        return None;
      }
      var apart := CheckApart(regions, index);
      if !apart { return None; }
      index := index + 1;
    }
    assert regions[..index] == regions;
    r := Some(Request(pid, uid, challengeAddress, challenge, regions));
  }

  lemma BytesStep(regions: seq<Region>, n: nat)
    requires n < |regions|
    ensures Bytes(regions[..n + 1]) == Bytes(regions[..n]) + regions[n].size
  {
    assert regions[..n + 1][..n] == regions[..n];
  }

  method CheckApart(regions: seq<Region>, index: nat) returns (apart: bool)
    requires index < |regions|
    ensures apart <==> forall j :: 0 <= j < index ==> Apart(regions[index], regions[j])
  {
    var other := 0;
    while other < index
      invariant other <= index
      invariant forall j :: 0 <= j < other ==> Apart(regions[index], regions[j])
    {
      if !Apart(regions[index], regions[other]) { return false; }
      other := other + 1;
    }
    return true;
  }

  lemma {:induction false} BytesMore(regions: seq<Region>, n: nat)
    requires n <= |regions|
    ensures Bytes(regions[..n]) <= Bytes(regions)
    decreases |regions| - n
  {
    if n < |regions| {
      BytesMore(regions, n + 1);
      assert regions[..n + 1][..n] == regions[..n];
    } else {
      assert regions[..n] == regions;
    }
  }

  // ----- events -----

  function Written(events: seq<Event>): seq<nat> {
    if events == [] then []
    else
      var e := events[|events| - 1];
      Written(events[..|events| - 1]) + (if e.Send? then Writes(e.commands) else [])
  }

  lemma {:induction false} WrittenConcat(a: seq<Event>, b: seq<Event>)
    ensures Written(a + b) == Written(a) + Written(b)
  {
    hide Writes;
    if b == [] {
      assert a + b == a;
    } else {
      var front, e := b[..|b| - 1], b[|b| - 1];
      WrittenConcat(a, front);
      assert (a + b)[..|a + b| - 1] == a + front && (a + b)[|a + b| - 1] == e;
      var tail := if e.Send? then Writes(e.commands) else [];
      assert (Written(a) + Written(front)) + tail == Written(a) + (Written(front) + tail);
    }
  }

  lemma WrittenNone()
    ensures Written([]) == []
  {
  }

  lemma WrittenOne(e: Event)
    ensures Written([e]) == if e.Send? then Writes(e.commands) else []
  {
    assert [e][..0] == [];
  }

  predicate Terminal(phase: Phase) {
    phase == Complete || phase == Failed
  }

  /** The server confirmed the detach that was its last answer. */
  predicate Detached(h: History) {
    0 < |h.answers| <= |h.sent| && h.sent[|h.answers| - 1] == Detach && h.answers[|h.answers| - 1] == "OK"
  }

  ghost predicate Deserved(q: Request, h: History, phase: Phase, v: Verdict) {
    match v
    case Success(receipt) => phase == Complete && Succeeded(q, h) && receipt == Deed(q)
    case Failure(_, detached) => phase == Failed && (detached ==> Detached(h))
  }

  predicate Unfinished(events: seq<Event>) {
    forall i :: 0 <= i < |events| ==> !events[i].Finished?
  }

  /** Exactly one finish, at the end and deserved, if and only if the session is over. */
  ghost predicate Ends(q: Request, h: History, phase: Phase, events: seq<Event>) {
    if Terminal(phase) then
      |events| > 0 && events[|events| - 1].Finished? && Deserved(q, h, phase, events[|events| - 1].verdict)
      && Unfinished(events[..|events| - 1])
    else Unfinished(events)
  }

  lemma EndsAfter(q: Request, h: History, phase: Phase, before: seq<Event>, events: seq<Event>)
    requires Unfinished(before) && Ends(q, h, phase, events)
    ensures Ends(q, h, phase, before + events)
  {
    hide Deserved;
    var all := before + events;
    if Terminal(phase) {
      assert all[..|all| - 1] == before + events[..|events| - 1];
    }
  }

  // ----- the session -----

  predicate PreAttach(phase: Phase) {
    phase == Idle || phase == AskingSupport || phase == AskingNoAck || phase == AskingPolicy || phase == Attaching
  }

  predicate Acking(phase: Phase) {
    phase == Idle || phase == AskingSupport || phase == AskingNoAck
  }

  predicate Winding(phase: Phase) {
    phase == Draining || phase == Cleanup
  }

  function Negotiated(features: seq<string>, seen: bool, size: nat): (r: Option<nat>)
    requires 256 <= size <= CAPACITY
    ensures r.Some? ==> 256 <= r.value <= CAPACITY
  {
    if features == [] then Some(size)
    else if !HasPrefix(features[0], "PacketSize=") then Negotiated(features[1..], seen, size)
    else if seen then None
    else
      var maximum := Number(Some(features[0][11..]));
      if maximum.None? || maximum.value < 256 then None
      else Negotiated(features[1..], true, if maximum.value < CAPACITY then maximum.value else CAPACITY)
  }

  class Session {
    const request: Request
    var phase: Phase
    var outstanding: nat
    var noAck: bool
    var acknowledged: bool
    var retries: nat
    var badPackets: nat
    var consolePackets: nat
    var lastPacket: seq<Command>
    var commandDeadline: real
    var totalDeadline: real
    var lastTime: real
    var packetSize: nat
    var chunk: nat
    var index: nat
    var offset: nat
    var regionCursor: nat
    var replies: seq<Expected>
    var replied: nat
    var attached: bool
    var pendingFailure: Option<Reason>
    var failedIn: Option<Phase>
    ghost var h: History
    ghost var returned: seq<Event>

    ghost predicate Core()
      reads this
    {
      GoodRequest(request) && Sound(request, h)
      && |h.sent| + Left(request, h, phase, index, offset, regionCursor) <= Bound(request)
      && 256 <= packetSize <= CAPACITY && 96 <= chunk <= 16352
    }

    ghost predicate Base()
      reads this
    {
      Core()
      && (!Terminal(phase) ==>
        && attached == !PreAttach(phase) && noAck == !Acking(phase)
        && (if noAck then acknowledged else Writes(lastPacket) == [])
        && (pendingFailure.Some? <==> Winding(phase))
        && retries <= 2 && badPackets <= 2 && consolePackets <= 64
        && (Acking(phase) && phase != Idle ==> h.sent != [] && lastPacket == [h.sent[|h.sent| - 1]]))
    }

    /** Nothing in flight and every answer accepted: the next command may go. */
    ghost predicate Ready()
      reads this
    {
      && GoodRequest(request) && Sound(request, h) && 256 <= packetSize <= CAPACITY && 96 <= chunk <= 16352
      && pendingFailure.None? && consolePackets <= 64 && outstanding == 0 && h.good == |h.answers| == |h.sent|
    }

    /** What is wrong with a reply, judged by the phase it arrives in. */
    function Objection(text: string): Option<Reason>
      requires 256 <= packetSize <= CAPACITY && (phase == Preflight || phase == Prepare ==> replied < |replies|)
      reads this
    {
      if phase == Draining then None
      else if HasPrefix(text, "E") then Some(ServerFailure)
      else
        match phase
        case AskingSupport =>
          if Negotiated(Split(text, ';'), false, packetSize).None? then Some(ProtocolFailure) else None
        case AskingNoAck | AskingPolicy | Detaching | Cleanup => if text == "OK" then None else Some(ServerFailure)
        case Attaching => if IsStop(text) then None else Some(ProtocolFailure)
        case AskingProcess | FinalProcess => JudgeProcess(request, text)
        case AskingChallenge | FinalChallenge =>
          var bytes := Unhex(text, 32);
          if bytes.None? then Some(ProtocolFailure)
          else if bytes.value != request.challenge then Some(WrongChallenge)
          else None
        case AskingRegion => JudgeRegion(text, regionCursor)
        case Preflight | Prepare => JudgeExpected(replies[replied], text)
        case _ => Some(ProtocolFailure)
    }

    /** A session between two received bytes. */
    ghost predicate Settled()
      reads this
    {
      Base()
      && (phase == Complete ==> Succeeded(request, h))
      && (phase == Draining ==> 0 < outstanding)
      && (phase == Cleanup ==> 1 == outstanding && h.sent != [] && h.sent[|h.sent| - 1] == Detach)
      && if Terminal(phase) then outstanding == 0
         else
           outstanding == |h.sent| - |h.answers|
           && (!Winding(phase) ==>
             h.good == |h.answers| && Live(request, h, phase, index, offset, regionCursor, replies, replied))
    }

    /** A session that has just taken an answer and not yet judged it. */
    ghost predicate Answered()
      reads this
    {
      Base() && !Terminal(phase) && phase != Idle && |h.answers| > 0 && outstanding == |h.sent| - |h.answers|
      && (phase == Cleanup ==> outstanding == 0 && h.sent[|h.sent| - 1] == Detach)
      && (!Winding(phase) ==>
        |h.answers| == h.good + 1 && Live(request, h, phase, index, offset, regionCursor, replies, replied))
    }

    /** Every reachable session between two calls. */
    ghost predicate Valid()
      reads this
    {
      Settled() && Ends(request, h, phase, returned)
      && Written(returned) <= Writes(h.sent) && (phase != Failed ==> Written(returned) == Writes(h.sent))
    }

    constructor (request: Request)
      requires GoodRequest(request)
      ensures Valid() && phase == Idle && this.request == request && returned == [] && h.sent == []
    {
      this.request := request;
      phase, outstanding, noAck, acknowledged, retries, badPackets, consolePackets := Idle, 0, false, false, 0, 0, 0;
      lastPacket, commandDeadline, totalDeadline, lastTime := [], 0.0, 0.0, 0.0;
      packetSize, chunk, index, offset, regionCursor, replies, replied := 1024, 480, 0, 0, 0, [], 0;
      attached, pendingFailure, failedIn := false, None, None;
      h, returned := History([], [], [], 0, 0), [];
    }

    predicate CanSend(commands: seq<Command>)
      reads this
    {
      outstanding == 0 && commands != [] && (noAck || |commands| == 1) && AllFit(request, commands, packetSize)
    }

    method SendBatch(commands: seq<Command>, next: Phase, now: real) returns (o: Outcome)
      modifies this`lastPacket, this`outstanding, this`acknowledged, this`retries, this`badPackets, this`phase,
               this`commandDeadline, this`h
      ensures o.Emit? <==> old(CanSend(commands))
      ensures o.Emit? ==> o.events == [Send(commands)] && h == Sending(old(h), commands) && phase == next
                          && outstanding == |commands| && lastPacket == commands && acknowledged == noAck
                          && retries == 0 && badPackets == 0 && commandDeadline == now + 10.0
      ensures o.Thrown? ==> o.reason == ProtocolFailure && unchanged(this)
    {
      if outstanding != 0 || commands == [] || !(noAck || |commands| == 1) { return Thrown(ProtocolFailure); }
      var fit := CheckFit(request, commands, packetSize);
      if !fit { return Thrown(ProtocolFailure); }
      lastPacket, outstanding, acknowledged, retries, badPackets := commands, |commands|, noAck, 0, 0;
      phase, commandDeadline := next, now + 10.0;
      h := Sending(h, commands);
      return Emit([Send(commands)]);
    }

    method Finish(reason: Reason, detached: bool) returns (events: seq<Event>)
      requires Core() && (detached ==> Detached(h))
      modifies this`failedIn, this`phase, this`outstanding, this`lastPacket
      ensures Settled() && phase == Failed && events == [Finished(Failure(reason, detached))]
      ensures Ends(request, h, phase, events) && Written(events) == []
    {
      hide Sound, GoodRequest, Live, Bound, Ends, Written, Detached, Left, Succeeded;
      LeftPositive(request, h, phase, index, offset, regionCursor);
      LeftOver(request, h, index, offset, regionCursor);
      failedIn := if failedIn.None? then Some(phase) else failedIn;
      phase, outstanding, lastPacket := Failed, 0, [];
      events := [Finished(Failure(reason, detached))];
      WrittenOne(events[0]);
      FailureEnds(request, h, reason, detached);
    }

    /** How judging an answer may end. */
    twostate predicate Judged(o: Outcome)
      reads this
    {
      match o
      case Emit(events) =>
        && Settled() && phase != Idle && Ends(request, h, phase, events) && h.answers == old(h.answers)
        && Writes(h.sent) == old(Writes(h.sent)) + Written(events)
        && (old(outstanding) > 0 ==>
              outstanding == old(outstanding) && !Terminal(phase) && (phase == old(phase) || phase == Draining)
              && noAck == old(noAck))
        && (phase == Complete ==> old(phase) == Detaching && h.answers != [] && h.answers[|h.answers| - 1] == "OK")
      case Thrown(_) =>
        Answered() && phase == old(phase) && h == old(h) && outstanding == old(outstanding) && noAck == old(noAck)
    }

    /** The next commands are on their way and the session goes on. */
    twostate predicate Onward(o: Outcome)
      reads this
    {
      && o.Emit? && Settled() && phase != Idle && !Terminal(phase) && Ends(request, h, phase, o.events)
      && h.answers == old(h.answers) && Writes(h.sent) == old(Writes(h.sent)) + Written(o.events)
    }

    /** Going on is one way to judge the last answer there was. */
    twostate lemma OnwardJudged(o: Outcome)
      requires Onward(o) && old(outstanding) == 0
      ensures Judged(o)
    {
      hide Settled, Ends, Writes, Written;
    }

    /** Sends one harmless command. */
    method Ask(c: Command, next: Phase, now: real) returns (o: Outcome)
      requires GoodRequest(request) && Sound(request, h) && outstanding == 0 && packetSize >= 256
      requires InRange(c) && !c.WriteZero?
      modifies this`lastPacket, this`outstanding, this`acknowledged, this`retries, this`badPackets, this`phase,
               this`commandDeadline, this`h
      ensures o == Emit([Send([c])]) && Unfinished(o.events) && Written(o.events) == []
      ensures h == Sending(old(h), [c]) && Sound(request, h) && Writes(h.sent) == old(Writes(h.sent))
      ensures phase == next && outstanding == 1 && lastPacket == [c] && Writes(lastPacket) == [] && retries == 0
      ensures badPackets == 0
      ensures |h.sent| == old(|h.sent|) + 1 && h.sent[|h.sent| - 1] == c && acknowledged == noAck
    {
      hide Sound, GoodRequest, Writes, Render, Written;
      RenderFits(request, c);
      NoWrites([c]);
      SendingKeeps(request, h, [c]);
      o := SendBatch([c], next, now);
      WrittenOne(Send([c]));
    }

    /** Sends the command that the next phase waits for. */
    method AskNext(c: Command, next: Phase, now: real) returns (o: Outcome)
      requires Ready() && attached == !PreAttach(next) && noAck == !Acking(next)
      requires next != Idle && !Terminal(next) && !Winding(next) && InRange(c) && !c.WriteZero?
      requires Shaped(Sending(h, [c]))
      requires Live(request, Sending(h, [c]), next, index, offset, regionCursor, replies, replied)
      requires |h.sent| + 1 + Left(request, Sending(h, [c]), next, index, offset, regionCursor) <= Bound(request)
      modifies this`lastPacket, this`outstanding, this`acknowledged, this`retries, this`badPackets, this`phase,
               this`commandDeadline, this`h
      ensures Onward(o) && phase == next && o == Emit([Send([c])]) && h == Sending(old(h), [c])
    {
      hide Sound, GoodRequest, Writes, Written, Bound, Live, Left, Deserved, Succeeded, Sending;
      SendingOne(h, c);
      o := Ask(c, next, now);
    }

    /** An answer to opening command `k` has arrived. */
    ghost predicate Opening(k: nat)
      reads this
    {
      && GoodRequest(request) && Sound(request, h) && 256 <= packetSize <= CAPACITY && 96 <= chunk <= 16352
      && pendingFailure.None? && consolePackets <= 64 && outstanding == 0 && Step(h, k) && |h.answers| == k
    }

    lemma AtStage(k: nat)
      requires Answered() && 0 < k <= 6 && phase == Stage(k)
      ensures Opening(k) && attached == (k > 4) && noAck == (k > 2)
    {
      hide Sound, GoodRequest, Writes, Bound, Live, Left, Step;
      SoundShaped(request, h);
      StagePhases(request, h, k, index, offset, regionCursor, replies, replied);
      StepSize(h, k);
    }

    /** The answer to opening command `k` is accepted; the next one follows. */
    method Open(k: nat, now: real) returns (o: Outcome)
      requires 0 < k < 6 && Opening(k) && attached == (k >= 4) && noAck == (k >= 2)
      requires Satisfies(request, h.sent[k - 1], h.answers[k - 1])
      modifies this`lastPacket, this`outstanding, this`acknowledged, this`retries, this`badPackets, this`phase,
               this`commandDeadline, this`h
      ensures Onward(o) && phase == Stage(k + 1) && o == Emit([Send([Question(k + 1)])])
    {
      hide Sound, GoodRequest, Writes, Written, Bound, Live, Left, Ends, Settled, Satisfies, Sending, Question, Stage,
           Step;
      StageOn(request, h, k);
      StagePhases(request, Sending(h.(good := k), [Question(k + 1)]), k + 1, index, offset, regionCursor, replies,
                  replied);
      h := h.(good := k);
      o := AskNext(Question(k + 1), Stage(k + 1), now);
    }

    method ReplySupported(text: string, now: real) returns (o: Outcome)
      requires Answered() && text == h.answers[|h.answers| - 1] && phase == AskingSupport && !HasPrefix(text, "E")
      modifies this`lastPacket, this`outstanding, this`acknowledged, this`retries, this`badPackets, this`phase,
               this`commandDeadline, this`h, this`packetSize, this`chunk
      ensures Judged(o)
      ensures old(Negotiated(Split(text, ';'), false, packetSize)).None? ==> o == Thrown(ProtocolFailure)
      ensures old(Negotiated(Split(text, ';'), false, packetSize)).Some? ==> o.Emit? && phase == AskingNoAck
    {
      hide Sound, GoodRequest, Writes, Written, Negotiated, Settled, Answered, Ends, Judged, Step, Split;
      AtStage(1);
      var size := Negotiated(Split(text, ';'), false, packetSize);
      if size.None? {
        Refused(ProtocolFailure);
        return Thrown(ProtocolFailure);
      }
      OpeningAnswer(request, h, 1);
      packetSize := size.value;
      chunk := (packetSize - 64) / 2;
      o := Open(1, now);
      OnwardJudged(o);
    }

    method ReplyNoAck(text: string, now: real) returns (o: Outcome)
      requires Answered() && text == h.answers[|h.answers| - 1] && phase == AskingNoAck
      modifies this`lastPacket, this`outstanding, this`acknowledged, this`retries, this`badPackets, this`phase,
               this`commandDeadline, this`h, this`noAck
      ensures Judged(o)
      ensures if text == "OK" then o.Emit? && phase == AskingPolicy else o == Thrown(ServerFailure)
    {
      hide Sound, GoodRequest, Writes, Written, Settled, Answered, Ends, Judged, Step;
      AtStage(2);
      if text != "OK" {
        Refused(ServerFailure);
        return Thrown(ServerFailure);
      }
      OpeningAnswer(request, h, 2);
      noAck := true;
      o := Open(2, now);
      OnwardJudged(o);
    }

    method ReplyPolicy(text: string, now: real) returns (o: Outcome)
      requires Answered() && text == h.answers[|h.answers| - 1] && phase == AskingPolicy
      modifies this`lastPacket, this`outstanding, this`acknowledged, this`retries, this`badPackets, this`phase,
               this`commandDeadline, this`h
      ensures Judged(o)
      ensures if text == "OK" then o.Emit? && phase == Attaching else o == Thrown(ServerFailure)
    {
      hide Sound, GoodRequest, Writes, Written, Settled, Answered, Ends, Judged, Step;
      AtStage(3);
      if text != "OK" {
        Refused(ServerFailure);
        return Thrown(ServerFailure);
      }
      OpeningAnswer(request, h, 3);
      o := Open(3, now);
      OnwardJudged(o);
    }

    method ReplyAttach(text: string, now: real) returns (o: Outcome)
      requires Answered() && text == h.answers[|h.answers| - 1] && phase == Attaching
      modifies this`lastPacket, this`outstanding, this`acknowledged, this`retries, this`badPackets, this`phase,
               this`commandDeadline, this`h, this`attached
      ensures Judged(o)
      ensures if IsStop(text) then o.Emit? && phase == AskingProcess else o == Thrown(ProtocolFailure)
    {
      hide Sound, GoodRequest, Writes, Written, Settled, Answered, Ends, Judged, Step, Number, HasPrefix;
      AtStage(4);
      if !((HasPrefix(text, "T") && |text| >= 3) || (HasPrefix(text, "S") && |text| == 3)) {
        Refused(ProtocolFailure);
        return Thrown(ProtocolFailure);
      }
      if Number(Some(text[1..3])).None? {
        Refused(ProtocolFailure);
        return Thrown(ProtocolFailure);
      }
      OpeningAnswer(request, h, 4);
      attached := true;
      o := Open(4, now);
      OnwardJudged(o);
    }

    /** Throwing leaves everything as it was. */
    twostate lemma Refused(reason: Reason)
      requires old(Answered()) && unchanged(this)
      ensures Judged(Thrown(reason))
    {
      hide Sound, GoodRequest, Writes, Live, Left, Bound;
    }

    /** The closing verification: the process is the same. */
    method ChallengeAgain(now: real) returns (o: Outcome)
      requires Answered() && phase == FinalProcess && IsProcess(request, h.answers[|h.answers| - 1])
      modifies this`lastPacket, this`outstanding, this`acknowledged, this`retries, this`badPackets, this`phase,
               this`commandDeadline, this`h
      ensures Judged(o) && o.Emit? && phase == FinalChallenge
    {
      hide GoodRequest, Sound, Writes, Written, Tail, IsProcess, Bound, Live, Left, Ends, Settled, Sending, Judged;
      SoundShaped(request, h);
      FinalPhases(request, h, index, offset, regionCursor, replies, replied);
      FinalOn(request, h, [ProcessInfo], ReadChallenge);
      FinalPhases(request, Sending(h.(good := h.good + 1), [ReadChallenge]), index, offset, regionCursor, replies,
                  replied);
      assert [ProcessInfo] + [ReadChallenge] == [ProcessInfo, ReadChallenge];
      h := h.(good := h.good + 1);
      o := AskNext(ReadChallenge, FinalChallenge, now);
      OnwardJudged(o);
    }

    /** The closing verification: the challenge is the same. */
    method Leave(now: real) returns (o: Outcome)
      requires Answered() && phase == FinalChallenge && Unhex(h.answers[|h.answers| - 1], 32) == Some(request.challenge)
      modifies this`lastPacket, this`outstanding, this`acknowledged, this`retries, this`badPackets, this`phase,
               this`commandDeadline, this`h
      ensures Judged(o) && o.Emit? && phase == Detaching
    {
      hide GoodRequest, Sound, Writes, Written, Tail, Unhex, Bound, Live, Left, Ends, Settled, Sending, Judged;
      SoundShaped(request, h);
      FinalPhases(request, h, index, offset, regionCursor, replies, replied);
      FinalOn(request, h, [ProcessInfo, ReadChallenge], Detach);
      FinalPhases(request, Sending(h.(good := h.good + 1), [Detach]), index, offset, regionCursor, replies, replied);
      assert [ProcessInfo, ReadChallenge] + [Detach] == [ProcessInfo, ReadChallenge, Detach];
      h := h.(good := h.good + 1);
      o := AskNext(Detach, Detaching, now);
      OnwardJudged(o);
    }

    method ReplyProcess(text: string, now: real) returns (o: Outcome)
      requires Answered() && text == h.answers[|h.answers| - 1] && (phase == AskingProcess || phase == FinalProcess)
      modifies this`lastPacket, this`outstanding, this`acknowledged, this`retries, this`badPackets, this`phase,
               this`commandDeadline, this`h
      ensures Judged(o)
      ensures var v := JudgeProcess(request, text); if v.None? then o.Emit? else o == Thrown(v.value)
    {
      hide Sound, GoodRequest, Writes, Written, IsProcess, JudgeProcess, Judged, Bound;
      var verdict := JudgeProcess(request, text);
      if verdict.Some? {
        Refused(verdict.value);
        return Thrown(verdict.value);
      }
      if phase == FinalProcess {
        o := ChallengeAgain(now);
      } else {
        o := Challenge(now);
      }
    }

    method Challenge(now: real) returns (o: Outcome)
      requires Answered() && phase == AskingProcess && IsProcess(request, h.answers[|h.answers| - 1])
      modifies this`lastPacket, this`outstanding, this`acknowledged, this`retries, this`badPackets, this`phase,
               this`commandDeadline, this`h
      ensures Judged(o) && o.Emit? && phase == AskingChallenge
    {
      hide Sound, GoodRequest, Writes, Written, Settled, Answered, Ends, Judged, Step, IsProcess;
      AtStage(5);
      OpeningAnswer(request, h, 5);
      o := Open(5, now);
      OnwardJudged(o);
    }

    method EnterRegion(now: real) returns (o: Outcome)
      requires Answered() && phase == AskingChallenge
      requires Unhex(h.answers[|h.answers| - 1], 32) == Some(request.challenge)
      modifies this`lastPacket, this`outstanding, this`acknowledged, this`retries, this`badPackets, this`phase,
               this`commandDeadline, this`h, this`index, this`regionCursor
      ensures Judged(o) && o.Emit? && phase == AskingRegion
    {
      hide Sound, GoodRequest, Writes, Written, Unhex, AtRegion, Settled, Answered, Ends, Judged, Bound, Step, Left,
           Live, Sending;
      AtStage(6);
      SoundShaped(request, h);
      FirstRegion(request, h);
      StepSize(h, 6);
      index := 0;
      regionCursor := request.regions[0].address;
      h := h.(good := 6);
      SendingOne(h, RegionInfo(regionCursor));
      RegionPhases(request, Sending(h, [RegionInfo(regionCursor)]), index, offset, regionCursor, replies, replied);
      o := AskNext(RegionInfo(regionCursor), AskingRegion, now);
      OnwardJudged(o);
    }

    method ReplyChallenge(text: string, now: real) returns (o: Outcome)
      requires Answered() && text == h.answers[|h.answers| - 1] && (phase == AskingChallenge || phase == FinalChallenge)
      modifies this`lastPacket, this`outstanding, this`acknowledged, this`retries, this`badPackets, this`phase,
               this`commandDeadline, this`h, this`index, this`regionCursor
      ensures Judged(o)
      ensures Unhex(text, 32).None? ==> o == Thrown(ProtocolFailure)
      ensures Unhex(text, 32).Some? ==>
        if Unhex(text, 32).value == request.challenge then o.Emit? else o == Thrown(WrongChallenge)
    {
      hide Sound, GoodRequest, Writes, Written, Unhex, Judged, Bound, Left, Live;
      var bytes := Unhex(text, 32);
      if bytes.None? {
        Refused(ProtocolFailure);
        return Thrown(ProtocolFailure);
      }
      if bytes.value != request.challenge {
        Refused(WrongChallenge);
        return Thrown(WrongChallenge);
      }
      if phase == FinalChallenge {
        o := Leave(now);
      } else {
        o := EnterRegion(now);
      }
    }

    /** Sends a batch and notes what each command must answer. */
    method SendAll(commands: seq<Command>, expected: seq<Expected>, next: Phase, now: real) returns (o: Outcome)
      requires Ready() && attached && noAck && (next == Preflight || next == Prepare)
      requires 0 < |commands| == |expected| && AllFit(request, commands, packetSize)
      requires Sound(request, Sending(h, commands))
      requires Live(request, Sending(h, commands), next, index, offset, regionCursor, expected, 0)
      requires |h.sent| + |commands| + Left(request, Sending(h, commands), next, index, offset, regionCursor)
               <= Bound(request)
      modifies this`lastPacket, this`outstanding, this`acknowledged, this`retries, this`badPackets, this`phase,
               this`commandDeadline, this`h, this`replies, this`replied
      ensures Onward(o) && phase == next && h == Sending(old(h), commands) && outstanding == |commands|
      ensures replies == expected && replied == 0
    {
      hide Sound, GoodRequest, Writes, Written, Bound, Live, Left, Deserved, Succeeded, Sending, AllFit;
      SendingAll(h, commands);
      WrittenOne(Send(commands));
      replies, replied := expected, 0;
      o := SendBatch(commands, next, now);
    }

    /** Reads the current region on from `offset`. */
    method PreflightBatch(now: real) returns (o: Outcome)
      requires Ready() && attached && noAck
      requires index < |request.regions| && offset < request.regions[index].size
      requires AtPreflight(request, h, index, offset)
      requires |h.sent| + Left(request, h, Preflight, index, offset, regionCursor) <= Bound(request)
      modifies this`lastPacket, this`outstanding, this`acknowledged, this`retries, this`badPackets, this`phase,
               this`commandDeadline, this`h, this`offset, this`replies, this`replied
      ensures Onward(o) && phase == Preflight && Written(o.events) == []
      ensures AtPreflight(request, h, index, offset) && replied == 0 && 0 < |replies| == outstanding
      ensures |h.sent| == |old(h.sent)| + outstanding && Matched(h.sent[|h.sent| - |replies|..], replies)
    {
      hide Sound, GoodRequest, Writes, Written, AtPreflight, CostFrom, Bound, Matched, Covers, AllFit, Writing, Reading,
           Ends, Settled, Live;
      var commands, expected, next := ReadBatch(request, index, offset, chunk);
      AllRenderFit(request, commands, packetSize);
      PreflightMore(request, h, index, offset, next, commands);
      SendingKeeps(request, h, commands);
      SoundShaped(request, h);
      SendingAll(h, commands);
      BatchSent(request, h, Preflight, index, next, regionCursor, commands, expected);
      offset := next;
      o := SendAll(commands, expected, Preflight, now);
      assert h.sent[|h.sent| - |replies|..] == commands;
      SameWrites(old(Writes(h.sent)), Written(o.events));
    }

    /** Writes the next pages and reads them back. */
    method PrepareBatch(now: real) returns (o: Outcome)
      requires Ready() && attached && noAck
      requires index < |request.regions| && AtPrepare(request, h, index, offset)
      requires |h.sent| + Writing(request) - 2 * |Writes(h.sent)| <= Bound(request)
      modifies this`lastPacket, this`outstanding, this`acknowledged, this`retries, this`badPackets, this`phase,
               this`commandDeadline, this`h, this`index, this`offset, this`replies, this`replied
      ensures Onward(o) && phase == Prepare
      ensures AtPrepare(request, h, index, offset) && replied == 0 && 0 < |replies| == outstanding
      ensures |h.sent| == |old(h.sent)| + outstanding && Matched(h.sent[|h.sent| - |replies|..], replies)
    {
      hide Sound, GoodRequest, Writes, Written, AtPrepare, Bound, Matched, AllFit, Writing, Planned, Pairs, Ends,
           Settled, Live;
      var commands, expected, i, at, pages := PageBatch(request, h, index, offset);
      AllRenderFit(request, commands, packetSize);
      PrepareMore(request, h, index, offset, i, at, pages);
      PairsWrites(pages);
      PairsLength(pages);
      SoundShaped(request, h);
      SendingAll(h, commands);
      BatchSent(request, h, Prepare, i, at, regionCursor, commands, expected);
      index, offset := i, at;
      o := SendAll(commands, expected, Prepare, now);
      assert h.sent[|h.sent| - |replies|..] == commands;
    }

    method ReplyRegion(text: string, now: real) returns (o: Outcome)
      requires Answered() && text == h.answers[|h.answers| - 1] && phase == AskingRegion
      modifies this`lastPacket, this`outstanding, this`acknowledged, this`retries, this`badPackets, this`phase,
               this`commandDeadline, this`h, this`regionCursor, this`offset, this`replies, this`replied
      ensures Judged(o)
      ensures var v := JudgeRegion(text, old(regionCursor)); if v.None? then o.Emit? else o == Thrown(v.value)
    {
      hide Sound, GoodRequest, Writes, Written, Vouches, Judged, Bound, Left, JudgeRegion, AtRegion;
      var verdict := JudgeRegion(text, regionCursor);
      if verdict.Some? {
        Refused(verdict.value);
        return Thrown(verdict.value);
      }
      o := RegionOn(text, now);
    }

    method RegionOn(text: string, now: real) returns (o: Outcome)
      requires Answered() && text == h.answers[|h.answers| - 1] && phase == AskingRegion && Vouches(text, regionCursor)
      modifies this`lastPacket, this`outstanding, this`acknowledged, this`retries, this`badPackets, this`phase,
               this`commandDeadline, this`h, this`regionCursor, this`offset, this`replies, this`replied
      ensures Judged(o) && o.Emit?
    {
      hide Sound, GoodRequest, Writes, Written, Vouches, Bound, AtRegion, AtPreflight, Ends, Settled, Left, Judged,
           Sending;
      var end := RegionAccepted(request, h, index, regionCursor, text);
      var limit := request.regions[index].address + request.regions[index].size;
      RegionLeft(request, h, index, offset, regionCursor, end, limit);
      h := h.(good := h.good + 1);
      SoundShaped(request, h);
      SendingOne(h, RegionInfo(end));
      if end < limit {
        regionCursor := end;
        RegionPhases(request, Sending(h, [RegionInfo(end)]), index, offset, end, replies, replied);
        o := AskNext(RegionInfo(end), AskingRegion, now);
      } else {
        regionCursor := limit;
        offset := 0;
        o := PreflightBatch(now);
      }
      OnwardJudged(o);
    }

    /** All regions passed the full preflight: the first write. */
    method FirstWrites(now: real) returns (o: Outcome)
      requires Ready() && attached && noAck && 0 < index == |request.regions|
      requires |h.sent| + Writing(request) <= Bound(request)
      requires AtPreflight(request, h, index - 1, request.regions[index - 1].size)
      modifies this`lastPacket, this`outstanding, this`acknowledged, this`retries, this`badPackets, this`phase,
               this`commandDeadline, this`h, this`index, this`offset, this`replies, this`replied
      ensures Onward(o) && phase == Prepare
    {
      hide Writes, Written, AtPreflight, AtPrepare, Bound, Writing, Matched, Sound, GoodRequest, Ends, Settled;
      EnterPrepare(request, h, index - 1);
      SoundShaped(request, h.(start := h.good));
      PrepareNothing(request, h.(start := h.good));
      index, offset := 0, 0;
      h := h.(start := h.good);
      FirstIndex(request);
      o := PrepareBatch(now);
    }

    /** The last reply of a preflight batch was zeros. */
    method PreflightOn(now: real) returns (o: Outcome)
      requires Ready() && attached && noAck && AtPreflight(request, h, index, offset)
      requires |h.sent| + Left(request, h, Preflight, index, offset, regionCursor) <= Bound(request)
      modifies this`lastPacket, this`outstanding, this`acknowledged, this`retries, this`badPackets, this`phase,
               this`commandDeadline, this`h, this`index, this`offset, this`regionCursor, this`replies, this`replied
      ensures Onward(o)
    {
      hide GoodRequest, Writes, Written, AtPreflight, AtRegion, Bound, Sound, Ends, Settled, Left, Sending;
      SoundShaped(request, h);
      PreflightIndex(request, h, index, offset);
      if offset < request.regions[index].size {
        o := PreflightBatch(now);
      } else {
        RegionRoom(request, h, index, regionCursor);
        index := index + 1;
        if index < |request.regions| {
          NextRegion(request, h, index - 1);
          regionCursor := request.regions[index].address;
          SendingOne(h, RegionInfo(regionCursor));
          RegionPhases(request, Sending(h, [RegionInfo(regionCursor)]), index, offset, regionCursor, replies, replied);
          o := AskNext(RegionInfo(regionCursor), AskingRegion, now);
        } else {
          o := FirstWrites(now);
        }
      }
    }

    /** The last reply of a preparation batch was right. */
    method PrepareOn(now: real) returns (o: Outcome)
      requires Ready() && attached && noAck && AtPrepare(request, h, index, offset)
      requires |h.sent| + Left(request, h, Prepare, index, offset, regionCursor) <= Bound(request)
      modifies this`lastPacket, this`outstanding, this`acknowledged, this`retries, this`badPackets, this`phase,
               this`commandDeadline, this`h, this`index, this`offset, this`replies, this`replied
      ensures Onward(o)
    {
      hide GoodRequest, Writes, Written, AtPrepare, Bound, Sound, Tail, Ends, Settled, Sending, Writing;
      if index < |request.regions| {
        o := PrepareBatch(now);
      } else {
        SoundShaped(request, h);
        PreparedAll(request, h, index, offset);
        SendingOne(h, ProcessInfo);
        FinalPhases(request, Sending(h, [ProcessInfo]), index, offset, regionCursor, replies, replied);
        o := AskNext(ProcessInfo, FinalProcess, now);
      }
    }

    method ReplyBatch(text: string, now: real) returns (o: Outcome)
      requires Answered() && text == h.answers[|h.answers| - 1] && (phase == Preflight || phase == Prepare)
      modifies this`lastPacket, this`outstanding, this`acknowledged, this`retries, this`badPackets, this`phase,
               this`commandDeadline, this`h, this`index, this`offset, this`regionCursor, this`replies, this`replied
      ensures Judged(o)
      ensures old(replied < |replies|)
      ensures var v := old(JudgeExpected(replies[replied], text)); if v.None? then o.Emit? else o == Thrown(v.value)
    {
      hide GoodRequest, Writes, Written, Bound, Left, Judged, AtPreflight, AtPrepare, Accepted, WritesLate, Planned,
           Cleared,
           JudgeExpected, Satisfies;
      var verdict := JudgeExpected(replies[replied], text);
      if verdict.Some? {
        Refused(verdict.value);
        return Thrown(verdict.value);
      }
      if outstanding != 0 {
        o := BatchMid(text, now);
      } else if phase == Prepare {
        o := PrepareEnd(text, now);
      } else {
        o := PreflightEnd(text, now);
      }
    }

    /** One more reply of a batch that is not answered yet. */
    method BatchMid(text: string, now: real) returns (o: Outcome)
      requires Answered() && text == h.answers[|h.answers| - 1] && (phase == Preflight || phase == Prepare)
      requires outstanding > 0
      requires replied < |replies| && JudgeExpected(replies[replied], text).None?
      modifies this`h, this`replied
      ensures Judged(o) && o.Emit? && phase == old(phase)
    {
      hide GoodRequest, Writes, Written, Bound, AtPreflight, AtPrepare, Accepted, WritesLate, Planned, Cleared,
           JudgeExpected, Satisfies, Live, Left, Deserved, Succeeded, Batch, Matched;
      BatchPhases(request, h, index, offset, regionCursor, replies, replied);
      BatchPhases(request, h.(good := h.good + 1), index, offset, regionCursor, replies, replied + 1);
      BatchAccepted(request, h, phase, index, offset, replies, replied);
      replied := replied + 1;
      h := h.(good := h.good + 1);
      WrittenNone();
      o := Emit([]);
    }

    /** The last reply of a preparation batch. */
    method PrepareEnd(text: string, now: real) returns (o: Outcome)
      requires Answered() && text == h.answers[|h.answers| - 1] && phase == Prepare && outstanding == 0
      requires replied < |replies| && JudgeExpected(replies[replied], text).None?
      modifies this`lastPacket, this`outstanding, this`acknowledged, this`retries, this`badPackets, this`phase,
               this`commandDeadline, this`h, this`index, this`offset, this`replies, this`replied
      ensures Judged(o) && o.Emit?
    {
      hide GoodRequest, Writes, Written, Bound, AtPreflight, AtPrepare, Sound,
           JudgeExpected, Satisfies, Live, Left, Settled, Ends, Judged, Batch, Matched;
      SoundShaped(request, h);
      BatchPhases(request, h, index, offset, regionCursor, replies, replied);
      BatchPhases(request, h.(good := h.good + 1), index, offset, regionCursor, replies, replied + 1);
      BatchAccepted(request, h, phase, index, offset, replies, replied);
      replied := replied + 1;
      h := h.(good := h.good + 1);
      o := PrepareOn(now);
      OnwardJudged(o);
    }

    /** The last reply of a preflight batch. */
    method PreflightEnd(text: string, now: real) returns (o: Outcome)
      requires Answered() && text == h.answers[|h.answers| - 1] && phase == Preflight && outstanding == 0
      requires replied < |replies| && JudgeExpected(replies[replied], text).None?
      modifies this`lastPacket, this`outstanding, this`acknowledged, this`retries, this`badPackets, this`phase,
               this`commandDeadline, this`h, this`index, this`offset, this`regionCursor, this`replies, this`replied
      ensures Judged(o) && o.Emit?
    {
      hide GoodRequest, Writes, Written, Bound, AtPreflight, AtPrepare, Sound,
           JudgeExpected, Satisfies, Live, Left, Settled, Ends, Judged, Batch, Matched;
      SoundShaped(request, h);
      BatchPhases(request, h, index, offset, regionCursor, replies, replied);
      BatchPhases(request, h.(good := h.good + 1), index, offset, regionCursor, replies, replied + 1);
      BatchAccepted(request, h, phase, index, offset, replies, replied);
      replied := replied + 1;
      h := h.(good := h.good + 1);
      o := PreflightOn(now);
      OnwardJudged(o);
    }

    method Succeed() returns (o: Outcome)
      requires Answered() && phase == Detaching && h.answers[|h.answers| - 1] == "OK"
      modifies this`attached, this`phase, this`outstanding, this`lastPacket, this`h
      ensures Judged(o) && phase == Complete && o == Emit([Finished(Success(Deed(request)))])
    {
      hide GoodRequest, Writes, Written, Bound, Sound, Tail, Succeeded, Live, Left, Ends, Settled;
      DetachedLast(request, h, index, offset, regionCursor, replies, replied);
      SuccessEnds(request, h.(good := h.good + 1));
      h := h.(good := h.good + 1);
      SetComplete();
      o := Emit([Finished(Success(Deed(request)))]);
      WrittenOne(o.events[0]);
      assert Writes(h.sent) + [] == Writes(h.sent);
    }

    method SetComplete()
      requires GoodRequest(request) && Sound(request, h) && Succeeded(request, h) && |h.sent| <= Bound(request)
      requires 256 <= packetSize <= CAPACITY && 96 <= chunk <= 16352
      modifies this`attached, this`phase, this`outstanding, this`lastPacket
      ensures Settled() && phase == Complete
    {
      hide GoodRequest, Bound, Sound, Succeeded, Live, Left;
      LeftOver(request, h, index, offset, regionCursor);
      attached := false;
      phase, outstanding, lastPacket := Complete, 0, [];
    }

    method GiveUp() returns (o: Outcome)
      requires Answered() && phase == Cleanup && h.answers[|h.answers| - 1] == "OK"
      modifies this`attached, this`phase, this`outstanding, this`lastPacket, this`failedIn
      ensures Judged(o)
      ensures pendingFailure.Some? && o == Emit([Finished(Failure(pendingFailure.value, true))])
    {
      hide GoodRequest, Writes, Written, Bound, Sound, Succeeded, Live;
      attached := false;
      var events := Finish(pendingFailure.value, true);
      return Emit(events);
    }

    method ReplyDetach(text: string) returns (o: Outcome)
      requires Answered() && text == h.answers[|h.answers| - 1] && (phase == Detaching || phase == Cleanup)
      modifies this`attached, this`phase, this`outstanding, this`lastPacket, this`failedIn, this`h
      ensures Judged(o)
      ensures if text == "OK" then o.Emit? else o == Thrown(ServerFailure)
      ensures old(phase) == Detaching && text == "OK" ==>
        phase == Complete && o == Emit([Finished(Success(Deed(request)))])
    {
      hide GoodRequest, Writes, Written, Bound, Sound, Live, Left, Judged;
      if text != "OK" {
        Refused(ServerFailure);
        return Thrown(ServerFailure);
      }
      if pendingFailure.Some? {
        o := GiveUp();
      } else {
        o := Succeed();
      }
    }

    /** The OK to the detach of a successful session is not objected to. */
    lemma OkReply(text: string)
      requires 256 <= packetSize <= CAPACITY && phase == Detaching && text == "OK"
      ensures Objection(text).None?
    {
      assert !HasPrefix("OK", "E") by { assert "OK"[0] != "E"[0]; }
    }

    /** Judges one reply. */
    method Reply(text: string, now: real) returns (o: Outcome)
      requires Answered() && text == h.answers[|h.answers| - 1]
      modifies this`lastPacket, this`outstanding, this`acknowledged, this`retries, this`badPackets, this`phase,
               this`commandDeadline, this`h, this`noAck, this`packetSize, this`chunk, this`index, this`offset,
               this`regionCursor, this`replies, this`replied, this`attached, this`failedIn
      ensures Judged(o)
      ensures var v := old(Objection(text)); if v.None? then o.Emit? else o == Thrown(v.value)
      ensures old(phase) == Detaching && text == "OK" ==>
        phase == Complete && o == Emit([Finished(Success(Deed(request)))])
    {
      hide GoodRequest, Writes, Written, Bound, Sound, Live, Left, Judged, HasPrefix, Settled, Ends, Negotiated, Split,
           Unhex,
           IsStop, JudgeProcess, JudgeRegion, JudgeExpected;
      if phase == Detaching && text == "OK" { OkReply(text); }
      if phase == Draining {
        o := Drain(now);
      } else if HasPrefix(text, "E") {
        Refused(ServerFailure);
        o := Thrown(ServerFailure);
      } else {
        match phase
        case AskingSupport => o := ReplySupported(text, now);
        case AskingNoAck => o := ReplyNoAck(text, now);
        case AskingPolicy => o := ReplyPolicy(text, now);
        case Attaching => o := ReplyAttach(text, now);
        case AskingProcess | FinalProcess => o := ReplyProcess(text, now);
        case AskingChallenge | FinalChallenge => o := ReplyChallenge(text, now);
        case AskingRegion => o := ReplyRegion(text, now);
        case Preflight | Prepare => o := ReplyBatch(text, now);
        case Detaching | Cleanup => o := ReplyDetach(text);
      }
    }

    /** After a failure the rest of the batch is answered, then the session detaches. */
    method Drain(now: real) returns (o: Outcome)
      requires Answered() && phase == Draining
      modifies this`lastPacket, this`outstanding, this`acknowledged, this`retries, this`badPackets, this`phase,
               this`commandDeadline, this`h
      ensures Judged(o)
      ensures if old(outstanding) == 0 then phase == Cleanup && o == Emit([Send([Detach])])
              else phase == Draining && o == Emit([])
    {
      hide GoodRequest, Writes, Written, Bound, Sound, Live, Deserved, Succeeded;
      if outstanding == 0 {
        hide Judged, Settled, Ends;
        o := Depart(now);
        OnwardJudged(o);
      } else {
        WrittenNone();
        o := Emit([]);
      }
    }

    /** Detaches after a failure. */
    method Depart(now: real) returns (o: Outcome)
      requires GoodRequest(request) && Sound(request, h) && |h.sent| + 1 <= Bound(request)
      requires 256 <= packetSize <= CAPACITY
      requires 96 <= chunk <= 16352 && attached && noAck && pendingFailure.Some? && consolePackets <= 64
      requires outstanding == 0 && |h.answers| == |h.sent|
      modifies this`lastPacket, this`outstanding, this`acknowledged, this`retries, this`badPackets, this`phase,
               this`commandDeadline, this`h
      ensures Onward(o) && phase == Cleanup && o == Emit([Send([Detach])])
    {
      hide GoodRequest, Writes, Written, Bound, Sound, Live, Deserved, Succeeded, Sending;
      SendingOne(h, Detach);
      o := Ask(Detach, Cleanup, now);
    }

    /** What a reply that was refused leads to. */
    method Fail(reason: Reason, now: real) returns (o: Outcome)
      requires Answered()
      modifies this`lastPacket, this`outstanding, this`acknowledged, this`retries, this`badPackets, this`phase,
               this`commandDeadline, this`h, this`pendingFailure, this`failedIn
      ensures o.Emit? && Judged(o)
      ensures if old(attached && phase != Detaching && phase != Cleanup)
              then && pendingFailure == Some(reason) && failedIn == Some(old(phase))
                   && phase == (if old(outstanding) > 0 then Draining else Cleanup)
              else phase == Failed && o.events == [Finished(Failure(reason, false))]
    {
      hide GoodRequest, Writes, Written, Bound, Sound, Judged;
      if attached && phase != Detaching && phase != Cleanup {
        o := Retreat(reason, now);
      } else {
        o := Collapse(reason);
      }
    }

    method Retreat(reason: Reason, now: real) returns (o: Outcome)
      requires Answered() && attached && phase != Detaching && phase != Cleanup
      modifies this`lastPacket, this`outstanding, this`acknowledged, this`retries, this`badPackets, this`phase,
               this`commandDeadline, this`h, this`pendingFailure, this`failedIn
      ensures o.Emit? && Judged(o)
      ensures pendingFailure == Some(reason) && failedIn == Some(old(phase))
      ensures phase == (if old(outstanding) > 0 then Draining else Cleanup)
    {
      hide GoodRequest, Writes, Written, Bound, Live, Left, Sound, Judged, Settled, Ends;
      LeftOne(request, h, phase, index, offset, regionCursor, replies, replied);
      if outstanding > 0 {
        o := Linger(reason);
      } else {
        pendingFailure, failedIn := Some(reason), Some(phase);
        o := Depart(now);
        OnwardJudged(o);
      }
    }

    /** The rest of the batch is still to be answered. */
    method Linger(reason: Reason) returns (o: Outcome)
      requires Answered() && attached && phase != Detaching && phase != Cleanup && outstanding > 0
      requires |h.sent| + 1 <= Bound(request)
      modifies this`phase, this`pendingFailure, this`failedIn
      ensures o.Emit? && Judged(o) && pendingFailure == Some(reason) && failedIn == Some(old(phase))
      ensures phase == Draining
    {
      hide GoodRequest, Writes, Written, Bound, Live, Deserved, Succeeded, Sound;
      pendingFailure, failedIn, phase := Some(reason), Some(phase), Draining;
      WrittenNone();
      o := Emit([]);
    }

    method Collapse(reason: Reason) returns (o: Outcome)
      requires Answered() && outstanding == 0
      modifies this`failedIn, this`phase, this`outstanding, this`lastPacket
      ensures o.Emit? && Judged(o) && phase == Failed && o.events == [Finished(Failure(reason, false))]
    {
      hide GoodRequest, Writes, Written, Bound, Sound, Live, Left;
      var events := Finish(reason, false);
      o := Emit(events);
    }

    /** A byte of input: what it emits, and whether it completed an answer. */
    twostate predicate Taken(o: Outcome, answered: bool)
      reads this
    {
      match o
      case Emit(events) =>
        && Settled() && phase != Idle && Ends(request, h, phase, events)
        && Writes(h.sent) == old(Writes(h.sent)) + Written(events)
        && (answered ==> old(h.answers) <= h.answers && |h.answers| == |old(h.answers)| + 1)
        && (answered && old(outstanding) > 1 ==>
              outstanding == old(outstanding) - 1 && !Terminal(phase) && (phase == old(phase) || phase == Draining))
        && (noAck != old(noAck) ==> answered && old(outstanding) == 1)
        && (!answered ==> outstanding == old(outstanding) && phase == old(phase) && !Terminal(phase) && h == old(h))
        && (phase == Complete ==> old(phase) == Detaching)
      case Thrown(_) => Core() && h == old(h) && phase == old(phase)
    }

    method NoteAnswer(text: string)
      requires Settled() && !Terminal(phase) && phase != Idle && outstanding > 0
      modifies this`outstanding, this`h
      ensures Answered() && h == Answering(old(h), text) && outstanding == old(outstanding) - 1
    {
      hide GoodRequest, Writes, Bound, Sound, Left, Live;
      AnswerLive(request, h, phase, index, offset, regionCursor, replies, replied, text);
      outstanding := outstanding - 1;
      h := Answering(h, text);
    }

    method Judge(text: string, now: real) returns (o: Outcome)
      requires Answered() && text == h.answers[|h.answers| - 1]
      modifies this`lastPacket, this`outstanding, this`acknowledged, this`retries, this`badPackets, this`phase,
               this`commandDeadline, this`h, this`noAck, this`packetSize, this`chunk, this`index, this`offset,
               this`regionCursor, this`replies, this`replied, this`attached, this`failedIn, this`pendingFailure
      ensures o.Emit? && Judged(o)
      ensures old(phase) == Detaching && text == "OK" ==>
        phase == Complete && o == Emit([Finished(Success(Deed(request)))])
    {
      hide Settled, Answered, Ends, Writes, Written;
      o := Reply(text, now);
      if o.Thrown? { o := Fail(o.reason, now); }
    }

    method TakeReply(text: string, now: real) returns (o: Outcome)
      requires Settled() && !Terminal(phase) && phase != Idle && outstanding > 0
      modifies this`lastPacket, this`outstanding, this`acknowledged, this`retries, this`badPackets, this`phase,
               this`commandDeadline, this`h, this`noAck, this`packetSize, this`chunk, this`index, this`offset,
               this`regionCursor, this`replies, this`replied, this`attached, this`failedIn, this`pendingFailure
      ensures o.Emit? && Taken(o, true) && (phase == Complete ==> text == "OK")
      ensures old(phase) == Detaching && text == "OK" ==>
        phase == Complete && o == Emit([Finished(Success(Deed(request)))])
    {
      hide Settled, Answered, Ends, Writes, Written;
      NoteAnswer(text);
      o := Judge(text, now);
    }

    /** The counters of a session that goes on. */
    method Count(acked: bool, resent: nat, damaged: nat, console: nat)
      requires Settled() && !Terminal(phase) && resent <= 2 && damaged <= 2 && console <= 64 && (noAck ==> acked)
      modifies this`acknowledged, this`retries, this`badPackets, this`consolePackets
      ensures Settled() && acknowledged == acked && retries == resent && badPackets == damaged
      ensures consolePackets == console
    {
      hide GoodRequest, Writes, Bound, Sound, Left, Live, Succeeded, PreAttach, Acking, Winding, Terminal;
      acknowledged, retries, badPackets, consolePackets := acked, resent, damaged, console;
    }

    /** One more packet of console output than a session takes. */
    method Overrun()
      requires Core()
      modifies this`consolePackets
      ensures Core() && consolePackets == old(consolePackets) + 1
    {
      hide GoodRequest, Bound, Sound, Left;
      consolePackets := consolePackets + 1;
    }

    /** What the counters of a session that goes on are. */
    lemma Counted()
      requires Settled() && !Terminal(phase)
      ensures Core() && retries <= 2 && badPackets <= 2 && consolePackets <= 64 && (noAck ==> acknowledged)
    {
      hide Core, Live, Writes;
    }

    /** A byte that moves nothing but the counters. */
    twostate lemma Harmless(o: Outcome)
      requires Settled() && !Terminal(phase) && phase != Idle
      requires outstanding == old(outstanding) && phase == old(phase) && h == old(h) && noAck == old(noAck)
      requires o.Emit? ==> Unfinished(o.events) && Written(o.events) == []
      ensures Taken(o, false)
    {
      hide Settled, Writes, Written, Core;
      Counted();
      assert old(Writes(h.sent)) + [] == old(Writes(h.sent));
    }

    /** Console output is counted, checked and dropped. */
    method TakeConsole(text: string) returns (o: Outcome)
      requires Settled() && !Terminal(phase) && phase != Idle && text != ""
      modifies this`consolePackets, this`acknowledged, this`retries, this`badPackets
      ensures Taken(o, false) && consolePackets == old(consolePackets) + 1
      ensures o == if consolePackets <= 64 && Readable(text) then Emit([]) else Thrown(ProtocolFailure)
    {
      hide Settled, Core, Unhex, Written, Writes, Taken;
      Counted();
      WrittenNone();
      if consolePackets == 64 {
        Overrun();
        Stopped(Thrown(ProtocolFailure));
        return Thrown(ProtocolFailure);
      }
      Count(acknowledged, retries, badPackets, consolePackets + 1);
      o := Emit([]);
      if |text| % 2 != 1 || Unhex(text[1..], (|text| - 1) / 2).None? {
        o := Thrown(ProtocolFailure);
      }
      Harmless(o);
    }

    twostate lemma Stopped(o: Outcome)
      requires Core() && h == old(h) && phase == old(phase) && o.Thrown?
      ensures Taken(o, false)
    {
      hide Core;
    }

    /** What becomes of a packet: console output is dropped, and an answer needs an acknowledged command. */
    twostate predicate PacketTaken(text: string, o: Outcome, answered: bool)
      reads this
    {
      if !Ascii(text) then o == Thrown(ProtocolFailure) && !answered
      else if IsConsole(text) then
        && !answered && consolePackets == old(consolePackets) + 1
        && o == if consolePackets <= 64 && Readable(text) then Emit(if old(noAck) then [] else [SendAck])
                else Thrown(ProtocolFailure)
      else if !old(acknowledged) then o == Thrown(ProtocolFailure) && !answered
      else
        && answered && o.Emit? && (phase == Complete ==> text == "OK")
        && (!old(noAck) ==> o.events != [] && o.events[0] == SendAck)
        && (old(phase == Detaching && noAck) && text == "OK" ==>
              phase == Complete && o == Emit([Finished(Success(Deed(request)))]))
    }

    method TakePacket(text: string, now: real) returns (o: Outcome, answered: bool)
      requires Settled() && !Terminal(phase) && phase != Idle && outstanding > 0
      modifies this`lastPacket, this`outstanding, this`acknowledged, this`retries, this`badPackets, this`phase,
               this`commandDeadline, this`h, this`noAck, this`packetSize, this`chunk, this`index, this`offset,
               this`regionCursor, this`replies, this`replied, this`attached, this`failedIn, this`pendingFailure,
               this`consolePackets
      ensures Taken(o, answered) && PacketTaken(text, o, answered)
    {
      hide Settled, Ends, Writes, Written, HasPrefix, Core, Unfinished, Readable;
      answered := false;
      if exists i :: 0 <= i < |text| && text[i] as int >= 128 {
        Harmless(Thrown(ProtocolFailure));
        return Thrown(ProtocolFailure), false;
      }
      var first: seq<Event> := if noAck then [] else [SendAck];
      if HasPrefix(text, "O") && text != "OK" {
        ConsoleText(text);
        o := TakeConsole(text);
      } else if !acknowledged {
        Harmless(Thrown(ProtocolFailure));
        o := Thrown(ProtocolFailure);
      } else {
        answered := true;
        o := TakeReply(text, now);
      }
      if o.Emit? {
        Prefixed(request, h, phase, first, o.events);
        assert [] + o.events == o.events && first + [] == first;
        o := Emit(first + o.events);
      }
    }

    /** One received byte, as the parser understood it. */
    method Take(fed: Fed, now: real) returns (o: Outcome, answered: bool)
      requires Settled() && !Terminal(phase) && phase != Idle && outstanding > 0
      modifies this`lastPacket, this`outstanding, this`acknowledged, this`retries, this`badPackets, this`phase,
               this`commandDeadline, this`h, this`noAck, this`packetSize, this`chunk, this`index, this`offset,
               this`regionCursor, this`replies, this`replied, this`attached, this`failedIn, this`pendingFailure,
               this`consolePackets
      ensures Taken(o, answered) && (fed.Packet? ==> PacketTaken(fed.text, o, answered))
      ensures !fed.Packet? ==> !answered && consolePackets == old(consolePackets)
      ensures fed.More? ==> o == Emit([])
      ensures fed.Broken? ==> o == Thrown(ProtocolFailure)
      ensures fed.Ack? ==>
        if old(noAck || acknowledged) then o == Thrown(ProtocolFailure) else o == Emit([]) && acknowledged
      ensures fed.Nack? ==>
        if old(noAck || acknowledged || retries >= 2) then o == Thrown(ProtocolFailure)
        else o == Emit([Send(old(lastPacket))]) && retries == old(retries) + 1
      ensures fed.BadChecksum? ==>
        if old(noAck || badPackets >= 2) then o == Thrown(ProtocolFailure)
        else o == Emit([SendNack]) && badPackets == old(badPackets) + 1
    {
      hide Settled, Core, Written, Writes, Taken, PacketTaken;
      answered := false;
      Counted();
      WrittenNone();
      WrittenOne(Send(lastPacket));
      WrittenOne(SendNack);
      Unanswered();
      match fed
      case More =>
        o := Emit([]);
        Harmless(o);
      case Broken =>
        o := Thrown(ProtocolFailure);
        Stopped(o);
      case Ack =>
        o := Thrown(ProtocolFailure);
        if !noAck && !acknowledged {
          Count(true, retries, badPackets, consolePackets);
          o := Emit([]);
        }
        Harmless(o);
      case Nack =>
        o := Thrown(ProtocolFailure);
        if !noAck && !acknowledged && retries < 2 {
          Count(acknowledged, retries + 1, badPackets, consolePackets);
          o := Emit([Send(lastPacket)]);
        }
        Harmless(o);
      case BadChecksum =>
        o := Thrown(ProtocolFailure);
        if !noAck && badPackets < 2 {
          Count(acknowledged, retries, badPackets + 1, consolePackets);
          o := Emit([SendNack]);
        }
        Harmless(o);
      case Packet(text) => o, answered := TakePacket(text, now);
    }

    /** Before acknowledgements are off no packet in flight writes. */
    lemma Unanswered()
      requires Settled() && !Terminal(phase)
      ensures !noAck ==> Writes(lastPacket) == []
    {
      hide Core, Live, Writes;
    }

    /** Ends the session from between two calls. */
    method Stop(reason: Reason) returns (events: seq<Event>)
      requires Valid() && !Terminal(phase)
      modifies this`failedIn, this`phase, this`outstanding, this`lastPacket, this`returned
      ensures Valid() && phase == Failed && events == [Finished(Failure(reason, false))]
      ensures returned == old(returned) + events
      ensures h == old(h)
    {
      hide GoodRequest, Sound, Left, Bound, Written, Writes, Deserved, Live, Succeeded;
      events := Finish(reason, false);
      EndsAfter(request, h, phase, returned, events);
      WrittenConcat(returned, events);
      returned := returned + events;
    }

    method Begin(now: real) returns (o: Outcome)
      requires Valid()
      modifies this
      ensures Valid()
      ensures o.Thrown? <==> old(phase != Idle || now < lastTime)
      ensures o.Thrown? ==> returned == old(returned) && h == old(h) && phase == old(phase)
      ensures o.Emit? ==>
        o.events == [Send([Supported])] && returned == old(returned) + o.events && totalDeadline == now + 900.0
      ensures o.Emit? ==> phase == AskingSupport
    {
      hide Written, Writes, GoodRequest, Ends, Live, Left, Bound, Sound, Sending;
      if phase != Idle { return Thrown(ProtocolFailure); }
      if now < lastTime { return Thrown(ProtocolFailure); }
      Resume();
      SoundShaped(request, h);
      OpenFirst(request, h, index, offset, regionCursor, replies, replied);
      SendingOne(h, Supported);
      o := Start(now);
      Conclude(o.events);
    }

    method Start(now: real) returns (o: Outcome)
      requires Ready() && !attached && !noAck && h.sent == [] && Shaped(Sending(h, [Supported]))
      requires Live(request, Sending(h, [Supported]), AskingSupport, index, offset, regionCursor, replies, replied)
      requires 1 + Left(request, Sending(h, [Supported]), AskingSupport, index, offset, regionCursor) <= Bound(request)
      modifies this`lastPacket, this`outstanding, this`acknowledged, this`retries, this`badPackets, this`phase,
               this`commandDeadline, this`h, this`lastTime, this`totalDeadline
      ensures Onward(o) && phase == AskingSupport && o == Emit([Send([Supported])]) && totalDeadline == now + 900.0
    {
      hide Written, Writes, GoodRequest, Ends, Live, Left, Bound, Sound, Sending, Settled;
      lastTime := now;
      totalDeadline := now + 900.0;
      o := AskNext(Supported, AskingSupport, now);
    }

    /** What a session that is not over has returned so far. */
    lemma Resume()
      requires Valid() && !Terminal(phase)
      ensures Settled() && Unfinished(returned) && Written(returned) == Writes(h.sent)
      ensures outstanding == |h.sent| - |h.answers|
    {
      hide Written, Writes, Core, Live;
    }

    lemma SettledCore()
      requires Settled()
      ensures Core()
    {
      hide Core, Live;
    }

    /** Hands the events of a call to the caller. */
    method Conclude(events: seq<Event>)
      requires Settled() && Unfinished(returned) && Ends(request, h, phase, events)
      requires Writes(h.sent) == Written(returned) + Written(events)
      modifies this`returned
      ensures Valid() && returned == old(returned) + events
    {
      hide GoodRequest, Sound, Left, Bound, Written, Writes, Deserved, Live, Succeeded, Ends, Unfinished;
      WrittenConcat(returned, events);
      EndsAfter(request, h, phase, returned, events);
      returned := returned + events;
    }

    /** A protocol failure drops what the call had emitted so far. */
    method Break() returns (events: seq<Event>)
      requires Core() && Unfinished(returned) && Written(returned) <= Writes(h.sent)
      modifies this`failedIn, this`phase, this`outstanding, this`lastPacket, this`returned
      ensures Valid() && phase == Failed && events == [Finished(Failure(ProtocolFailure, false))]
      ensures returned == old(returned) + events
      ensures h == old(h)
    {
      hide GoodRequest, Sound, Left, Bound, Written, Writes, Deserved, Live, Succeeded;
      events := Finish(ProtocolFailure, false);
      EndsAfter(request, h, phase, returned, events);
      WrittenConcat(returned, events);
      returned := returned + events;
    }

    /** The call ends the session with a protocol failure and returns nothing else. */
    twostate predicate Broke(events: seq<Event>)
      reads this
    {
      phase == Failed && events == [Finished(Failure(ProtocolFailure, false))]
    }

    /**
     What the bytes of one call can do: answer commands sent before the call, and
     none that the call itself emits; complete the session if and only if they end
     with the OK to its detach and nothing before that is more than console output;
     fail it if anything follows that OK, or if the packet parser gives up.
     */
    twostate predicate Consumed(input: seq<Fed>, events: seq<Event>)
      reads this
    {
      && old(h.answers) <= h.answers && |h.answers| <= |old(h.sent)|
      && (phase == Complete <==>
            old(phase) == Detaching && input != [] && Closes(input, |input| - 1, old(consolePackets)))
      && (phase == Complete ==> events == [Finished(Success(Deed(request)))])
      && (forall j :: 0 <= j < |input| - 1 && old(phase) == Detaching && Closes(input, j, old(consolePackets)) ==>
            Broke(events))
      && (Fed.Broken in input ==> Broke(events))
    }

    lemma DetachingOne()
      requires Settled() && phase == Detaching
      ensures outstanding == 1 && noAck && acknowledged
    {
      hide GoodRequest, Sound, Bound, Writes, Left, Pairs, Planned;
    }

    /** Where the bytes before `at` have left a session that was waiting for the OK to its detach. */
    ghost predicate Waiting(input: seq<Fed>, at: nat, answerable: nat, events: seq<Event>, console: nat)
      requires at <= |input|
      reads this
    {
      if answerable > 0 then
        && answerable == 1 && phase == Detaching && noAck && acknowledged && events == []
        && Silent(input[..at], console) && consolePackets == console + Console(input[..at])
      else
        && at > 0 && !Quiet(input[at - 1]) && Silent(input[..at - 1], console)
        && (phase == Complete <==> Closes(input, at - 1, console))
        && (phase == Complete ==> events == [Finished(Success(Deed(request)))])
    }

    /** One byte taken, and where it leaves a session that waits for that OK. */
    method TakeNext(input: seq<Fed>, at: nat, now: real, ghost waits: bool, ghost console: nat) returns (o: Outcome,
                    answered: bool)
      requires at < |input| && Settled() && !Terminal(phase) && phase != Idle && outstanding > 0
      requires waits ==> Waiting(input, at, 1, [], console)
      modifies this`lastPacket, this`outstanding, this`acknowledged, this`retries, this`badPackets, this`phase,
               this`commandDeadline, this`h, this`noAck, this`packetSize, this`chunk, this`index, this`offset,
               this`regionCursor, this`replies, this`replied, this`attached, this`failedIn, this`pendingFailure,
               this`consolePackets
      ensures Taken(o, answered) && (input[at].Broken? ==> o.Thrown?)
      ensures waits && o.Emit? && answered ==> Waiting(input, at + 1, 0, o.events, console)
      ensures waits && o.Emit? && !answered ==> Waiting(input, at + 1, 1, o.events, console)
      ensures waits && o.Thrown? ==> !Closes(input, |input| - 1, console)
    {
      hide Settled, Ends, Writes, Written, Core, Readable, HasPrefix, Unhex, Deserved, Console;
      OkIsNoConsole();
      ConsoleStep(input, at);
      o, answered := Take(input[at], now);
      if waits && o.Emit? {
        assert forall i :: 0 <= i < at ==> input[..at + 1][i] == input[..at][i];
        if !answered { DetachingOne(); }
      }
      if waits && o.Thrown? && Closes(input, |input| - 1, console) && at < |input| - 1 {
        SilentPart(input, at, |input| - 1, console);
      }
    }

    lemma StartConsume(input: seq<Fed>)
      requires Settled()
      ensures phase == Detaching ==> Waiting(input, 0, outstanding, [], consolePackets)
    {
      hide Settled;
      if phase == Detaching {
        DetachingOne();
        assert Settled();
        ConsoleLimit();
      }
    }

    lemma ConsoleLimit()
      requires Settled() && !Terminal(phase)
      ensures consolePackets <= 64
    {
      hide Core, Live;
    }

    lemma WaitedEnough(input: seq<Fed>, at: nat, events: seq<Event>, console: nat)
      requires at < |input| && Waiting(input, at, 0, events, console)
      ensures !Closes(input, |input| - 1, console)
    {
      hide Quiet;
      if Closes(input, |input| - 1, console) { SilentPart(input, at - 1, |input| - 1, console); }
    }

    lemma WaitedOut(input: seq<Fed>, answerable: nat, events: seq<Event>, console: nat)
      requires Waiting(input, |input|, answerable, events, console)
      ensures forall j :: 0 <= j < |input| - 1 ==> !Closes(input, j, console)
      ensures answerable > 0 ==> forall j :: 0 <= j < |input| ==> !Closes(input, j, console)
    {
      hide Quiet, Console;
      OkIsNoConsole();
      assert input[..|input|] == input;
      forall j | 0 <= j < |input| - (if answerable > 0 then 0 else 1) ensures !Closes(input, j, console) {
        SilentPart(input, j, |input| - (if answerable > 0 then 0 else 1), console);
      }
    }

    /** Works through the bytes of one call up to its end or a protocol failure. */
    method Work(input: seq<Fed>, now: real) returns (events: seq<Event>, broke: bool)
      requires Valid() && !Terminal(phase) && phase != Idle
      modifies this`lastPacket, this`outstanding, this`acknowledged, this`retries, this`badPackets, this`phase,
               this`commandDeadline, this`h, this`noAck, this`packetSize, this`chunk, this`index, this`offset,
               this`regionCursor, this`replies, this`replied, this`attached, this`failedIn, this`pendingFailure,
               this`consolePackets
      ensures old(h.answers) <= h.answers && |h.answers| <= |old(h.sent)| && Unfinished(returned)
      ensures broke ==> Core() && Written(returned) <= Writes(h.sent)
      ensures broke && old(phase) == Detaching && input != [] ==> !Closes(input, |input| - 1, old(consolePackets))
      ensures !broke ==>
        Settled() && Ends(request, h, phase, events) && Writes(h.sent) == Written(returned) + Written(events)
      ensures !broke ==> Fed.Broken !in input
      ensures !broke && phase == Complete ==>
        old(phase) == Detaching && input != [] && events == [Finished(Success(Deed(request)))]
      ensures !broke && old(phase) == Detaching && input != [] ==>
        (phase == Complete <==> Closes(input, |input| - 1, old(consolePackets)))
      ensures !broke && old(phase) == Detaching ==>
        forall j :: 0 <= j < |input| - 1 ==> !Closes(input, j, old(consolePackets))
    {
      hide GoodRequest, Sound, Left, Bound, Ends, Written, Writes, Live, Succeeded, Settled, Core, Quiet, Silent,
           Console, Closes, PacketTaken;
      var answerable := outstanding;
      var at := 0;
      events, broke := [], false;
      Resume();
      WrittenNone();
      Running(request, h, phase, returned);
      StartConsume(input);
      while at < |input|
        invariant at <= |input|
        invariant Settled() && phase != Idle && Unfinished(returned)
        invariant Ends(request, h, phase, events) && Writes(h.sent) == Written(returned) + Written(events)
        invariant answerable > 0 ==>
          outstanding == answerable && !Terminal(phase) && (phase == old(phase) || phase == Draining)
        invariant |h.answers| + answerable == |old(h.sent)| && old(h.answers) <= h.answers
        invariant old(phase) == Detaching ==> Waiting(input, at, answerable, events, old(consolePackets))
        invariant old(phase) != Detaching ==> phase != Complete
        // Acknowledgements are switched off, and with them the checksum rule, only by the last byte that counts.
        invariant answerable > 0 ==> noAck == old(noAck)
        invariant Fed.Broken !in input[..at]
      {
        if answerable == 0 {
          if old(phase) == Detaching { WaitedEnough(input, at, events, old(consolePackets)); }
          SettledCore();
          return events, true;
        }
        Running(request, h, phase, events);
        var o, answered := TakeNext(input, at, now, old(phase) == Detaching, old(consolePackets));
        if o.Thrown? {
          return events, true;
        }
        WrittenConcat(events, o.events);
        EndsAfter(request, h, phase, events, o.events);
        assert [] + o.events == o.events;
        events := events + o.events;
        if answered { answerable := answerable - 1; }
        at := at + 1;
      }
      assert input[..at] == input;
      if old(phase) == Detaching { WaitedOut(input, answerable, events, old(consolePackets)); }
    }

    /** The bytes of one call; a protocol failure replaces whatever they had emitted. */
    method Consume(input: seq<Fed>, now: real) returns (events: seq<Event>)
      requires Valid() && !Terminal(phase) && phase != Idle
      modifies this
      ensures Valid() && returned == old(returned) + events && Consumed(input, events)
    {
      hide Ends, Written, Writes, Settled, Core, Closes, Valid;
      var broke;
      events, broke := Work(input, now);
      if broke {
        events := Break();
      } else {
        Conclude(events);
      }
    }

    /** A call with received bytes. */
    method Receive(input: seq<Fed>, now: real) returns (events: seq<Event>)
      requires Valid()
      modifies this
      ensures Valid() && returned == old(returned) + events
      ensures old(Terminal(phase) || phase == Idle) ==> events == [] && h == old(h) && phase == old(phase)
      ensures old(!Terminal(phase) && phase != Idle) ==>
        if now < old(lastTime) then h == old(h) && Broke(events)
        else if now >= old(commandDeadline) || now >= old(totalDeadline) then
          h == old(h) && phase == Failed && events == [Finished(Failure(TimedOut, false))]
        else if |input| > 65536 then h == old(h) && Broke(events)
        else Consumed(input, events)
    {
      hide GoodRequest, Sound, Left, Bound, Ends, Written, Writes, Live, Succeeded, Settled, Closes;
      if Terminal(phase) || phase == Idle { return []; }
      if now < lastTime {
        events := Stop(ProtocolFailure);
        return;
      }
      Clock(now);
      if now >= commandDeadline || now >= totalDeadline {
        events := Stop(TimedOut);
      } else if |input| > 65536 {
        events := Stop(ProtocolFailure);
      } else {
        events := Consume(input, now);
      }
    }

    /** The time is noted; nothing else depends on it. */
    method Clock(now: real)
      requires Valid()
      modifies this`lastTime
      ensures Valid() && lastTime == now
    {
      hide GoodRequest, Sound, Left, Bound, Ends, Written, Writes, Live, Succeeded, PreAttach, Acking, Winding,
           Terminal;
      lastTime := now;
    }

    /** The clock: before both deadlines nothing happens, past one of them the session is over. */
    method Tick(now: real) returns (events: seq<Event>)
      requires Valid()
      modifies this
      ensures Valid() && returned == old(returned) + events && h == old(h)
      ensures old(Terminal(phase) || phase == Idle) ==> events == [] && phase == old(phase)
      ensures old(!Terminal(phase) && phase != Idle) ==>
        if old(lastTime) <= now < old(commandDeadline) && now < old(totalDeadline)
        then phase == old(phase) && events == [] && lastTime == now
        else phase == Failed && events == [Finished(Failure(TimedOut, false))]
    {
      hide GoodRequest, Sound, Left, Bound, Ends, Written, Writes, Live, Succeeded, Settled;
      if Terminal(phase) || phase == Idle { return []; }
      if now < lastTime || now >= commandDeadline || now >= totalDeadline {
        events := Stop(TimedOut);
      } else {
        Clock(now);
        events := [];
      }
    }

    method Cancel() returns (events: seq<Event>)
      requires Valid()
      modifies this
      ensures Valid() && Terminal(phase) && returned == old(returned) + events && h == old(h)
      ensures events == if old(Terminal(phase)) then [] else [Finished(Failure(Cancelled, false))]
    {
      hide GoodRequest, Sound, Left, Bound, Ends, Written, Writes, Live, Succeeded;
      if Terminal(phase) { return []; }
      events := Stop(Cancelled);
    }

    method Disconnect() returns (events: seq<Event>)
      requires Valid()
      modifies this
      ensures Valid() && Terminal(phase) && returned == old(returned) + events && h == old(h)
      ensures events == if old(Terminal(phase)) then [] else [Finished(Failure(Disconnected, false))]
    {
      hide GoodRequest, Sound, Left, Bound, Ends, Written, Writes, Live, Succeeded;
      if Terminal(phase) { return []; }
      events := Stop(Disconnected);
    }

    // ----- what every reachable session guarantees -----

    /** The number of commands never passes the bound of the request. */
    lemma CommandsBounded()
      requires Valid()
      ensures |h.sent| <= Bound(request)
    {
      LeftPositive(request, h, phase, index, offset, regionCursor);
    }

    /** Exactly one finish is returned once the session is over, and none before. */
    lemma FinishedOnce()
      requires Valid()
      ensures Terminal(phase) <==> exists i :: 0 <= i < |returned| && returned[i].Finished?
      ensures forall i, j ::
        0 <= i < |returned| && 0 <= j < |returned| && returned[i].Finished? && returned[j].Finished? ==> i == j
    {
      hide Settled, Deserved, Written;
      if Terminal(phase) {
        assert returned[|returned| - 1].Finished?;
        forall i | 0 <= i < |returned| - 1 ensures !returned[i].Finished? {
          assert returned[..|returned| - 1][i] == returned[i];
        }
      }
    }

    /** A finish that was returned is the one the history deserves. */
    lemma FinishDeserved(v: Verdict)
      requires Valid() && Finished(v) in returned
      ensures Deserved(request, h, phase, v)
    {
      hide Settled, Deserved, Written;
      FinishedOnce();
    }

    /** Writes handed to the caller go to pages of the regions, each at most once. */
    lemma WritesReturned()
      requires Valid()
      ensures Distinct(Written(returned))
      ensures forall p :: p in Written(returned) ==> PageOf(request.regions, |request.regions|, 0, p)
    {
      hide Ends, Written, Writes, PageOf, Planned, Left, Live;
      PlannedMeans(request.regions, request.challengeAddress, |request.regions|, 0);
      PrefixDistinct(Written(returned), AllPages(request.regions));
    }

    /** A stopped target with an honest server keeps every byte, whatever of the returned commands it serves. */
    lemma TargetUnchanged(memory: nat -> nat, served: seq<Command>)
      requires Valid() && Honest(memory, h)
      requires forall c :: c in served && c.WriteZero? ==> c.address in Written(returned)
      ensures forall x :: Served(memory, served)(x) == memory(x)
    {
      hide Written, Writes, Sound, Honest, GoodRequest, Served, Ends, Left, Live;
      forall c | c in served && c.WriteZero? ensures c in h.sent { WritesFrom(h.sent, c.address); }
      MemoryUnchanged(request, h, memory, served);
    }
  }

  // ----- the bytes of one call -----

  predicate Ascii(text: string) { forall i :: 0 <= i < |text| ==> text[i] as int < 128 }

  predicate IsConsole(text: string) { HasPrefix(text, "O") && text != "OK" }

  /** Console output is `O` and whole hexadecimal bytes. */
  predicate Readable(text: string) { |text| % 2 == 1 && Unhex(text[1..], (|text| - 1) / 2).Some? }

  /** A byte that says nothing: it completes no packet, or one of console output. */
  predicate Quiet(fed: Fed) {
    fed.More? || (fed.Packet? && Ascii(fed.text) && IsConsole(fed.text) && Readable(fed.text))
  }

  function Console(input: seq<Fed>): nat {
    if input == [] then 0 else Console(input[..|input| - 1]) + if input[|input| - 1].Packet? then 1 else 0
  }

  /** Nothing but console output, and not too much of it after `before` packets of it. */
  predicate Silent(input: seq<Fed>, before: nat) {
    (forall i :: 0 <= i < |input| ==> Quiet(input[i])) && before + Console(input) <= 64
  }

  /** Byte `j` completes the first packet that is not console output, and that is OK. */
  predicate Closes(input: seq<Fed>, j: nat, before: nat) {
    j < |input| && input[j] == Packet("OK") && Silent(input[..j], before)
  }

  lemma OkIsNoConsole()
    ensures !Quiet(Packet("OK")) && Ascii("OK") && !IsConsole("OK")
  {}

  lemma ConsoleText(text: string)
    requires HasPrefix(text, "O")
    ensures text != ""
  {}

  lemma ConsoleStep(input: seq<Fed>, at: nat)
    requires at < |input|
    ensures Console(input[..at + 1]) == Console(input[..at]) + if input[at].Packet? then 1 else 0
  {
    assert input[..at + 1][..at] == input[..at];
  }

  lemma {:induction false} ConsoleMore(input: seq<Fed>, n: nat, m: nat)
    requires n <= m <= |input|
    ensures Console(input[..n]) <= Console(input[..m])
    decreases m
  {
    if n < m {
      ConsoleMore(input, n, m - 1);
      ConsoleStep(input, m - 1);
    }
  }

  lemma SilentPart(input: seq<Fed>, at: nat, j: nat, before: nat)
    requires at < j <= |input| && Silent(input[..j], before)
    ensures Quiet(input[at]) && before + Console(input[..at + 1]) <= 64
  {
    assert input[..j][at] == input[at];
    ConsoleMore(input, at + 1, j);
  }

  // ----- opening the session -----

  function Stage(k: nat): Phase
    requires 0 < k <= 6
  {
    if k == 1 then AskingSupport else if k == 2 then AskingNoAck else if k == 3 then AskingPolicy
    else if k == 4 then Attaching else if k == 5 then AskingProcess else AskingChallenge
  }

  /** The opening commands in their order. */
  function Question(k: nat): Command
    requires 0 < k <= 6
  {
    if k == 1 then Supported else if k == 2 then StartNoAck else if k == 3 then DetachOnError
    else if k == 4 then Attach else if k == 5 then ProcessInfo else ReadChallenge
  }

  lemma StagePhases(q: Request, h: History, k: nat, index: nat, offset: nat, cursor: nat, replies: seq<Expected>,
                    replied: nat)
    requires Shaped(h) && 0 < k <= 6
    ensures Live(q, h, Stage(k), index, offset, cursor, replies, replied) <==> Step(h, k)
    ensures Left(q, h, Stage(k), index, offset, cursor) == Bound(q) - k
    ensures (PreAttach(Stage(k)) <==> k <= 4) && (Acking(Stage(k)) <==> k <= 2)
    ensures Stage(k) != Idle && !Terminal(Stage(k)) && !Winding(Stage(k))
  {
    hide Step, Bound;
  }

  lemma StepSize(h: History, k: nat)
    requires Step(h, k)
    ensures |h.sent| == k && h.good + 1 == k
  {
    hide Writes, Opened;
  }

  /** The command that answer `k` answers. */
  lemma OpeningAnswer(q: Request, h: History, k: nat)
    requires 0 < k <= 6 && Step(h, k)
    ensures |h.sent| == k && h.sent[k - 1] == Question(k)
  {
    hide Writes;
  }

  lemma StageOn(q: Request, h: History, k: nat)
    requires 0 < k < 6 && Sound(q, h) && Step(h, k) && |h.answers| == k && Satisfies(q, h.sent[k - 1], h.answers[k - 1])
    ensures var t := h.(good := k);
            && Sound(q, t) && |t.sent| == k && InRange(Question(k + 1)) && !Question(k + 1).WriteZero?
            && Shaped(Sending(t, [Question(k + 1)])) && Step(Sending(t, [Question(k + 1)]), k + 1)
  {
    hide Sound, Writes, Satisfies;
    Accept(q, h);
    StepOn(q, h, k, Question(k + 1));
    assert Shaped(h) by { SoundShaped(q, h); }
  }

  lemma SoundShaped(q: Request, h: History)
    requires Sound(q, h)
    ensures Shaped(h)
  {}

  lemma SendingOne(h: History, c: Command)
    ensures var t := Sending(h, [c]);
            && |t.sent| == |h.sent| + 1 && t.sent[|h.sent|] == c && t.answers == h.answers && t.good == h.good
            && t.start == h.start
            && (Shaped(h) ==> Shaped(t))
  {}

  lemma SendingAll(h: History, commands: seq<Command>)
    ensures var t := Sending(h, commands);
            && t.sent == h.sent + commands && t.answers == h.answers && t.good == h.good && (Shaped(h) ==> Shaped(t))
            && Writes(t.sent) == Writes(h.sent) + Writes(commands)
  {
    hide Writes;
    WritesConcat(h.sent, commands);
  }

  lemma RegionPhases(q: Request, h: History, index: nat, offset: nat, cursor: nat, replies: seq<Expected>, replied: nat)
    requires Shaped(h)
    ensures Live(q, h, AskingRegion, index, offset, cursor, replies, replied) <==> AtRegion(q, h, index, cursor)
  {
    hide AtRegion;
  }

  /** A batch just sent is waited for from its first reply. */
  lemma BatchSent(q: Request, h: History, phase: Phase, index: nat, offset: nat, cursor: nat,
                  commands: seq<Command>, expected: seq<Expected>)
    requires Shaped(h) && h.good == |h.sent| && |commands| == |expected| && Matched(commands, expected)
    requires phase == Preflight || phase == Prepare
    requires Shaped(Sending(h, commands))
    requires if phase == Preflight then AtPreflight(q, Sending(h, commands), index, offset)
             else AtPrepare(q, Sending(h, commands), index, offset)
    ensures Live(q, Sending(h, commands), phase, index, offset, cursor, expected, 0)
  {
    hide AtPreflight, AtPrepare, Matched;
    var t := Sending(h, commands);
    assert t.sent[|t.sent| - |expected|..] == commands;
  }

  lemma SameWrites(a: seq<nat>, b: seq<nat>)
    requires a + b == a
    ensures b == []
  {
    assert |a + b| == |a| + |b|;
  }

  /** Nothing more is sent once a session is over. */
  lemma LeftOver(q: Request, h: History, index: nat, offset: nat, cursor: nat)
    ensures Left(q, h, Complete, index, offset, cursor) == 0 && Left(q, h, Failed, index, offset, cursor) == 0
  {}

  lemma FailureEnds(q: Request, h: History, reason: Reason, detached: bool)
    requires detached ==> Detached(h)
    ensures Ends(q, h, Failed, [Finished(Failure(reason, detached))])
  {
    hide Detached;
  }

  lemma SuccessEnds(q: Request, h: History)
    requires Succeeded(q, h)
    ensures Ends(q, h, Complete, [Finished(Success(Deed(q)))])
  {
    hide Succeeded;
  }

  /** The OK to the detach completes the history. */
  lemma DetachedLast(q: Request, h: History, index: nat, offset: nat, cursor: nat, replies: seq<Expected>, replied: nat)
    requires Sound(q, h) && Live(q, h, Detaching, index, offset, cursor, replies, replied)
    requires |h.answers| == h.good + 1 && h.answers[h.good] == "OK"
    requires |h.sent| + Left(q, h, Detaching, index, offset, cursor) <= Bound(q)
    ensures Succeeded(q, h.(good := h.good + 1)) && Sound(q, h.(good := h.good + 1))
    ensures |h.answers| == |h.sent| <= Bound(q)
  {
    hide Tail, Sound, Bound, Pairs, Writes;
    SoundShaped(q, h);
    FinalPhases(q, h, index, offset, cursor, replies, replied);
    DetachAccepted(q, h);
  }

  lemma FirstIndex(q: Request)
    requires GoodRequest(q)
    ensures q.regions != []
  {}

  predicate AllFit(q: Request, commands: seq<Command>, size: nat) {
    forall i :: 0 <= i < |commands| ==> |Render(q, commands[i])| <= size
  }

  /** The first thing wrong with a process description, in the order it is looked at. */
  function JudgeProcess(q: Request, text: string): (r: Option<Reason>)
    ensures r.None? <==> IsProcess(q, text)
  {
    var info := Fields(text);
    if info.None? then Some(ProtocolFailure)
    else
      var pid := Number(Field(info.value, "pid"));
      if pid.None? then Some(ProtocolFailure)
      else if pid.value != q.pid then Some(WrongProcess)
      else
        var uid := Number(Field(info.value, "effective-uid"));
        if uid.None? then Some(ProtocolFailure)
        else if uid.value != q.uid then Some(WrongProcess)
        else
          var cpu := Number(Field(info.value, "cputype"));
          if cpu.None? then Some(ProtocolFailure)
          else if cpu.value != 0x100000c then Some(WrongProcess)
          else
            var size := Number(Field(info.value, "ptrsize"));
            if size.None? then Some(ProtocolFailure)
            else if size.value != 8 || Field(info.value, "endian") != Some("little") then Some(WrongProcess)
            else None
  }

  lemma FinalOn(q: Request, h: History, suffix: seq<Command>, c: Command)
    requires Sound(q, h) && Tail(q, h, suffix) && |h.answers| == h.good + 1 && suffix != [] && !c.WriteZero?
    requires Satisfies(q, suffix[|suffix| - 1], h.answers[h.good])
    ensures Sound(q, h.(good := h.good + 1)) && h.good + 1 == |h.sent| && Shaped(Sending(h.(good := h.good + 1), [c]))
    ensures Tail(q, Sending(h.(good := h.good + 1), [c]), suffix + [c])
  {
    TailLast(q, h, suffix);
    Accept(q, h);
    TailOn(q, h, suffix, c);
  }

  lemma TailLast(q: Request, h: History, suffix: seq<Command>)
    requires Sound(q, h) && Tail(q, h, suffix) && suffix != []
    ensures h.sent[h.good] == suffix[|suffix| - 1]
  {
    hide Sound, Writes, Cleared, Pairs, Planned;
    PairsLength(AllPages(q.regions));
    var tail := h.sent[h.start..];
    assert tail[|tail| - 1] == h.sent[|h.sent| - 1];
  }

  /** Asking about region `index` after `n` commands stays within the bound. */
  ghost predicate RoomForRegion(q: Request, n: nat, index: nat) {
    index < |q.regions| && forall t, o :: n + Left(q, t, AskingRegion, index, o, q.regions[index].address) <= Bound(q)
  }

  lemma FirstRegion(q: Request, h: History)
    requires GoodRequest(q) && Sound(q, h) && Step(h, 6) && |h.answers| == 6
    requires Unhex(h.answers[5], 32) == Some(q.challenge)
    ensures Sound(q, h.(good := 6)) && q.regions != [] && InRange(RegionInfo(q.regions[0].address))
    ensures Shaped(Sending(h.(good := 6), [RegionInfo(q.regions[0].address)]))
    ensures AtRegion(q, Sending(h.(good := 6), [RegionInfo(q.regions[0].address)]), 0, q.regions[0].address)
    ensures RoomForRegion(q, 7, 0)
  {
    hide Unhex, AtRegion;
    Accept(q, h);
    EnterRegions(q, h);
    assert GoodRegion(q.regions[0], q.challengeAddress);
    assert CostFrom(q.regions, 0) == q.regions[0].size + Reading(q.regions[0].size) + CostFrom(q.regions, 1);
  }

  /** The first thing wrong with a region description. */
  function JudgeRegion(text: string, cursor: nat): (r: Option<Reason>)
    ensures r.None? <==> Vouches(text, cursor)
  {
    var info := Fields(text);
    if info.None? then Some(ProtocolFailure)
    else
      var base, size := Number(Field(info.value, "start")), Number(Field(info.value, "size"));
      if base.None? || size.None? then Some(ProtocolFailure)
      else if size.value > 0 && base.value <= cursor && size.value + base.value <= U64_MAX
              && base.value + size.value > cursor
              && "error" !in info.value
              && Letters(if "permissions" in info.value then info.value["permissions"] else "") == {'r', 'x'}
              && (if "name" in info.value then info.value["name"] else "") == ""
      then None
      else Some(UnsafeRegion)
  }

  /** Where the next question goes after a region was vouched for. */
  method RegionAccepted(q: Request, ghost h: History, index: nat, cursor: nat, text: string) returns (end: nat)
    requires GoodRequest(q) && Sound(q, h) && AtRegion(q, h, index, cursor) && |h.answers| == h.good + 1
    requires text == h.answers[h.good] && Vouches(text, cursor)
    ensures index < |q.regions| && Inside(q.regions[index], cursor) && cursor < end
    ensures |h.sent| == h.good + 1 && Sound(q, h.(good := h.good + 1)) && Writes(h.sent) == []
    ensures var limit := q.regions[index].address + q.regions[index].size;
      if end < limit then
        Inside(q.regions[index], end) && InRange(RegionInfo(end))
        && AtRegion(q, Sending(h.(good := h.good + 1), [RegionInfo(end)]), index, end)
      else AtPreflight(q, h.(good := h.good + 1), index, 0) && 0 < q.regions[index].size
  {
    hide Writes, Bound, Vouches, AtPreflight, ReadUpTo, VouchedUpTo, Below, Accepted, WritesLate, Planned;
    end := RegionEnd(text);
    var limit := q.regions[index].address + q.regions[index].size;
    assert GoodRegion(q.regions[index], q.challengeAddress);
    RegionAnswered(q, h, index, cursor, if end < limit then end else limit);
    Accept(q, h);
    if end < limit { NextQuery(q, h, index, cursor, end); } else { EnterPreflight(q, h, index, cursor); }
  }

  predicate AllInRange(commands: seq<Command>) {
    forall i :: 0 <= i < |commands| ==> InRange(commands[i])
  }

  lemma AllRenderFit(q: Request, commands: seq<Command>, size: nat)
    requires GoodRequest(q) && AllInRange(commands) && 64 <= size
    ensures AllFit(q, commands, size)
  {
    hide Render, GoodRequest;
    forall i | 0 <= i < |commands| ensures |Render(q, commands[i])| <= size { RenderFits(q, commands[i]); }
  }

  /** The reads of one preflight batch. */
  method ReadBatch(q: Request, index: nat, offset: nat, chunk: nat) returns (commands: seq<Command>,
                   expected: seq<Expected>, next: nat)
    requires GoodRequest(q) && index < |q.regions| && offset < q.regions[index].size && 96 <= chunk <= 16352
    ensures 0 < |commands| <= READS_PER_BATCH && offset < next <= q.regions[index].size && Writes(commands) == []
    ensures Covers(commands, q.regions[index].address + offset, q.regions[index].address + next)
    ensures Matched(commands, expected) && |commands| == |expected| && AllInRange(commands)
    ensures |commands| + Reading(q.regions[index].size - next) <= Reading(q.regions[index].size - offset)
  {
    hide Writes;
    var range := q.regions[index];
    assert GoodRegion(range, q.challengeAddress);
    commands, expected, next := [], [], offset;
    while |commands| < READS_PER_BATCH && next < range.size
      invariant |commands| <= READS_PER_BATCH && offset <= next <= range.size && (commands == [] ==> next == offset)
      invariant forall k :: 0 <= k < |commands| ==> commands[k].Read?
      invariant Covers(commands, range.address + offset, range.address + next)
      invariant Matched(commands, expected) && AllInRange(commands)
      invariant |commands| + Reading(range.size - next) <= Reading(range.size - offset)
    {
      var count := if chunk < range.size - next then chunk else range.size - next;
      CoversMore(commands, range.address + offset, range.address + next, count);
      commands := commands + [Read(range.address + next, count)];
      expected := expected + [ZeroReply(count)];
      next := next + count;
    }
    NoWrites(commands);
  }

  lemma CoversMore(commands: seq<Command>, low: nat, high: nat, count: nat)
    requires Covers(commands, low, high)
    ensures Covers(commands + [Read(high, count)], low, high + count)
  {
    var more := commands + [Read(high, count)];
    forall a: nat | low <= a < high + count ensures ReadBy(more, |more|, a) {
      if a < high {
        assert ReadBy(commands, |commands|, a);
        var j :| 0 <= j < |commands| && Reads(commands[j], a);
        assert Reads(more[j], a);
      } else {
        assert Reads(more[|commands|], a);
      }
    }
  }

  /** The writes and read-backs of one preparation batch. */
  method PageBatch(q: Request, ghost h: History, index: nat, offset: nat)
    returns (commands: seq<Command>, expected: seq<Expected>, i: nat, at: nat, ghost pages: seq<nat>)
    requires GoodRequest(q) && Sound(q, h) && index < |q.regions| && AtPrepare(q, h, index, offset)
    ensures Place(q.regions, i, at) && (i < |q.regions| ==> at < q.regions[i].size)
    ensures commands == Pairs(pages) && pages != [] && |pages| <= PAGES_PER_BATCH
    ensures Planned(q.regions, i, at) == Planned(q.regions, index, offset) + pages
    ensures Matched(commands, expected) && |commands| == |expected| && AllInRange(commands)
  {
    hide Sound, Planned, Pairs, Cleared, Writes;
    commands, expected, i, at, pages := [], [], index, offset, [];
    PairsEmpty();
    while |commands| < 2 * PAGES_PER_BATCH && i < |q.regions|
      invariant Place(q.regions, i, at) && (i < |q.regions| ==> at < q.regions[i].size)
      invariant commands == Pairs(pages) && |commands| == 2 * |pages| && |pages| <= PAGES_PER_BATCH
      invariant pages == [] ==> i == index
      invariant Planned(q.regions, i, at) == Planned(q.regions, index, offset) + pages
      invariant Matched(commands, expected) && AllInRange(commands)
      decreases 2 * PAGES_PER_BATCH - |commands|
    {
      var address := q.regions[i].address + at;
      assert GoodRegion(q.regions[i], q.challengeAddress);
      PairsAppend(pages, address);
      PlannedNext(q.regions, i, at);
      commands := commands + [WriteZero(address), Read(address, 1)];
      expected := expected + [OkReply, ZeroReply(1)];
      pages := pages + [address];
      at := at + PAGE;
      if at == q.regions[i].size {
        SizesAligned(q);
        i, at := i + 1, 0;
      }
    }
  }

  lemma PairsEmpty()
    ensures Pairs([]) == []
  {
  }

  lemma PlannedNext(regions: seq<Region>, index: nat, offset: nat)
    requires Place(regions, index, offset) && index < |regions| && offset < regions[index].size
    requires regions[index].size % PAGE == 0
    ensures offset + PAGE <= regions[index].size
    ensures Planned(regions, index, offset + PAGE)
         == Planned(regions, index, offset) + [regions[index].address + offset]
    ensures Planned(regions, index + 1, 0) == Planned(regions, index, regions[index].size)
  {
  }

  lemma PreflightIndex(q: Request, h: History, index: nat, offset: nat)
    requires Sound(q, h) && AtPreflight(q, h, index, offset)
    ensures index < |q.regions| && offset <= q.regions[index].size
  {
  }

  /** After a region is read there is room for the next region's first question, or for the writes. */
  lemma RegionRoom(q: Request, h: History, index: nat, cursor: nat)
    requires GoodRequest(q) && index < |q.regions|
    requires |h.sent| + Left(q, h, Preflight, index, q.regions[index].size, cursor) <= Bound(q)
    ensures |h.sent| + Writing(q) <= Bound(q)
    ensures index + 1 < |q.regions| ==>
      RoomForRegion(q, |h.sent| + 1, index + 1) && InRange(RegionInfo(q.regions[index + 1].address))
  {
    assert Left(q, h, Preflight, index, q.regions[index].size, cursor) == CostFrom(q.regions, index + 1) + Writing(q);
    if index + 1 < |q.regions| { assert GoodRegion(q.regions[index + 1], q.challengeAddress); }
  }

  /** Each answer about a region leaves less to ask. */
  lemma RegionLeft(q: Request, h: History, index: nat, offset: nat, cursor: nat, end: nat, limit: nat)
    requires index < |q.regions| && Inside(q.regions[index], cursor) && cursor < end
    requires limit == q.regions[index].address + q.regions[index].size
    ensures forall t: History ::
      if end < limit
      then 1 + Left(q, t, AskingRegion, index, offset, end) <= Left(q, h, AskingRegion, index, offset, cursor)
      else Left(q, t, Preflight, index, 0, limit) <= Left(q, h, AskingRegion, index, offset, cursor)
  {
    hide CostFrom, Writing, Reading;
  }

  lemma PrepareNothing(q: Request, h: History)
    requires Shaped(h) && AtPrepare(q, h, 0, 0)
    ensures Writes(h.sent) == []
  {
  }

  lemma PreparedAll(q: Request, h: History, index: nat, offset: nat)
    requires GoodRequest(q) && Sound(q, h) && AtPrepare(q, h, index, offset) && index >= |q.regions|
    requires h.good == |h.sent|
    ensures Tail(q, Sending(h, [ProcessInfo]), [ProcessInfo])
    ensures Writing(q) - 2 * |Writes(h.sent)| == 3
  {
    hide Sound, GoodRequest, Tail, Cleared, Planned, Writes;
    EnterFinal(q, h);
  }

  function JudgeExpected(e: Expected, text: string): (r: Option<Reason>) {
    match e
    case OkReply => if text == "OK" then None else Some(ServerFailure)
    case ZeroReply(n) =>
      var bytes := Unhex(text, n);
      if bytes.None? then Some(ProtocolFailure)
      else if forall i :: 0 <= i < |bytes.value| ==> bytes.value[i] == 0 then None
      else Some(NonzeroMemory)
  }

  /** The next reply of a batch is what its command asked for. */
  lemma BatchAccepted(q: Request, h: History, phase: Phase, index: nat, offset: nat, replies: seq<Expected>,
                      replied: nat)
    requires Sound(q, h) && Batch(h, replies, replied) && replied < |replies| && |h.answers| == h.good + 1
    requires JudgeExpected(replies[replied], h.answers[h.good]).None?
    requires if phase == Preflight then AtPreflight(q, h, index, offset)
             else phase == Prepare && AtPrepare(q, h, index, offset)
    ensures var t := h.(good := h.good + 1);
      Sound(q, t) && Batch(t, replies, replied + 1)
      && if phase == Preflight then AtPreflight(q, t, index, offset) else AtPrepare(q, t, index, offset)
  {
    hide Sound, JudgeExpected, Satisfies, AtPrepare, AtPreflight, Batch;
    SoundShaped(q, h);
    BatchReply(q, h, replies, replied);
    Accept(q, h);
    SoundShaped(q, h.(good := h.good + 1));
    if phase == Preflight { PreflightAccepted(q, h, index, offset); } else { PrepareAccepted(q, h, index, offset); }
  }

  /** The reply that a batch waits for answers the command it belongs to. */
  lemma BatchReply(q: Request, h: History, replies: seq<Expected>, replied: nat)
    requires Shaped(h) && Batch(h, replies, replied) && replied < |replies| && |h.answers| == h.good + 1
    requires JudgeExpected(replies[replied], h.answers[h.good]).None?
    ensures h.good < |h.sent| && Satisfies(q, h.sent[h.good], h.answers[h.good])
    ensures Batch(h.(good := h.good + 1), replies, replied + 1)
  {
    hide Unhex, IsProcess, Vouches, IsStop;
    var batch := h.sent[|h.sent| - |replies|..];
    assert batch[replied] == h.sent[h.good] && Matches(batch[replied], replies[replied]);
  }

  lemma PreflightAccepted(q: Request, h: History, index: nat, offset: nat)
    requires Sound(q, h) && AtPreflight(q, h, index, offset) && |h.answers| == h.good + 1
    ensures AtPreflight(q, h.(good := h.good + 1), index, offset)
  {
    hide Writes, Below, ReadBy, VouchedBy, Accepted, WritesLate, Cleared;
    VouchedMore(q, h, h, h.good, index + 1, 0);
  }

  lemma PrepareAccepted(q: Request, h: History, index: nat, offset: nat)
    requires Sound(q, h) && AtPrepare(q, h, index, offset) && |h.answers| == h.good + 1
    ensures AtPrepare(q, h.(good := h.good + 1), index, offset)
  {
    hide Writes, Planned, Pairs, Below, ReadBy, VouchedBy, Accepted, WritesLate;
  }

  lemma DetachAccepted(q: Request, h: History)
    requires Sound(q, h) && Tail(q, h, [ProcessInfo, ReadChallenge, Detach]) && |h.answers| == h.good + 1
    requires h.answers[h.good] == "OK"
    ensures Succeeded(q, h.(good := h.good + 1)) && Sound(q, h.(good := h.good + 1))
  {
    TailLast(q, h, [ProcessInfo, ReadChallenge, Detach]);
    Accept(q, h);
  }

  /** Before the last command a session can always still send one. */
  lemma LeftOne(q: Request, h: History, phase: Phase, index: nat, offset: nat, cursor: nat, replies: seq<Expected>,
                replied: nat)
    requires Sound(q, h) && !PreAttach(phase) && !Terminal(phase) && phase != Detaching && phase != Cleanup
    requires !Winding(phase) ==> Live(q, h, phase, index, offset, cursor, replies, replied)
    ensures Left(q, h, phase, index, offset, cursor) >= 1
  {
    hide ReadUpTo, VouchedUpTo, Cleared, Writes, Planned, Pairs, Accepted, WritesLate;
  }

  lemma AnswerLive(q: Request, h: History, phase: Phase, index: nat, offset: nat, cursor: nat, replies: seq<Expected>,
                   replied: nat, text: string)
    requires Sound(q, h) && |h.answers| < |h.sent|
    ensures Sound(q, Answering(h, text)) && Shaped(Answering(h, text))
    ensures Live(q, h, phase, index, offset, cursor, replies, replied) ==>
            Live(q, Answering(h, text), phase, index, offset, cursor, replies, replied)
    ensures Left(q, Answering(h, text), phase, index, offset, cursor) == Left(q, h, phase, index, offset, cursor)
  {
    hide Sound, Writes, AtRegion, AtPreflight, AtPrepare, Tail, Step;
    AnsweringKeeps(q, h, text);
    SoundShaped(q, h);
    SoundShaped(q, Answering(h, text));
    if Live(q, h, phase, index, offset, cursor, replies, replied) {
      match phase
      case AskingRegion => RegionHeard(q, h, text, index, cursor);
      case Preflight => PreflightHeard(q, h, text, index, offset);
      case Prepare => PrepareHeard(q, h, text, index, offset);
      case FinalProcess => TailHeard(q, h, text, [ProcessInfo]);
      case FinalChallenge => TailHeard(q, h, text, [ProcessInfo, ReadChallenge]);
      case Detaching => TailHeard(q, h, text, [ProcessInfo, ReadChallenge, Detach]);
      case _ => StepHeard(h, text);
    }
  }

  // One more answer changes nothing about the commands sent and the answers accepted.

  lemma StepHeard(h: History, text: string)
    ensures forall k :: Step(h, k) ==> Step(Answering(h, text), k)
  {
    hide Writes, Opened;
  }

  lemma RegionHeard(q: Request, h: History, text: string, index: nat, cursor: nat)
    requires Sound(q, h) && |h.answers| < |h.sent| && AtRegion(q, h, index, cursor)
    ensures Shaped(Answering(h, text)) && AtRegion(q, Answering(h, text), index, cursor)
  {
    hide Writes, ReadBy, Below, VouchedBy, Accepted, WritesLate, Cleared;
    VouchedMore(q, h, Answering(h, text), h.good, index, cursor - q.regions[index].address);
  }

  lemma PreflightHeard(q: Request, h: History, text: string, index: nat, offset: nat)
    requires Sound(q, h) && |h.answers| < |h.sent| && AtPreflight(q, h, index, offset)
    ensures Shaped(Answering(h, text)) && AtPreflight(q, Answering(h, text), index, offset)
  {
    hide Writes, ReadBy, Below, VouchedBy, Accepted, WritesLate, Cleared;
    VouchedMore(q, h, Answering(h, text), h.good, index + 1, 0);
  }

  lemma PrepareHeard(q: Request, h: History, text: string, index: nat, offset: nat)
    requires Sound(q, h) && |h.answers| < |h.sent| && AtPrepare(q, h, index, offset)
    ensures Shaped(Answering(h, text)) && AtPrepare(q, Answering(h, text), index, offset)
  {
    hide Writes, Planned, Pairs, ReadBy, Below, VouchedBy, Accepted, WritesLate;
    VouchedMore(q, h, Answering(h, text), h.start, |q.regions|, 0);
  }

  lemma TailHeard(q: Request, h: History, text: string, suffix: seq<Command>)
    requires Sound(q, h) && |h.answers| < |h.sent| && Tail(q, h, suffix)
    ensures Shaped(Answering(h, text)) && Tail(q, Answering(h, text), suffix)
  {
    hide Writes, Planned, Pairs, ReadBy, Below, VouchedBy, Accepted, WritesLate;
    VouchedMore(q, h, Answering(h, text), h.start, |q.regions|, 0);
  }

  lemma Prefixed(q: Request, h: History, phase: Phase, first: seq<Event>, events: seq<Event>)
    requires first == [] || first == [SendAck]
    ensures Ends(q, h, phase, events) ==> Ends(q, h, phase, first + events)
    ensures Written(first + events) == Written(events)
  {
    hide Written, Deserved;
    WrittenNone();
    WrittenOne(SendAck);
    WrittenConcat(first, events);
    if Ends(q, h, phase, events) { EndsAfter(q, h, phase, first, events); }
  }

  lemma OpenFirst(q: Request, h: History, index: nat, offset: nat, cursor: nat, replies: seq<Expected>, replied: nat)
    requires Shaped(h) && Live(q, h, Idle, index, offset, cursor, replies, replied)
    ensures h.sent == [] && Shaped(Sending(h, [Supported]))
    ensures Live(q, Sending(h, [Supported]), AskingSupport, index, offset, cursor, replies, replied)
    ensures Left(q, h, Idle, index, offset, cursor)
         == Left(q, Sending(h, [Supported]), AskingSupport, index, offset, cursor) + 1
  {
    NoWrites([Supported]);
  }

  lemma Running(q: Request, h: History, phase: Phase, events: seq<Event>)
    requires !Terminal(phase)
    ensures Ends(q, h, phase, events) <==> Unfinished(events)
    ensures Ends(q, h, phase, [])
  {
  }

  lemma FinalPhases(q: Request, h: History, index: nat, offset: nat, cursor: nat, replies: seq<Expected>, replied: nat)
    requires Shaped(h)
    ensures Live(q, h, FinalProcess, index, offset, cursor, replies, replied) <==> Tail(q, h, [ProcessInfo])
    ensures Live(q, h, FinalChallenge, index, offset, cursor, replies, replied) <==>
      Tail(q, h, [ProcessInfo, ReadChallenge])
    ensures Live(q, h, Detaching, index, offset, cursor, replies, replied) <==>
      Tail(q, h, [ProcessInfo, ReadChallenge, Detach])
    ensures Left(q, h, FinalProcess, index, offset, cursor) == 2
    ensures Left(q, h, FinalChallenge, index, offset, cursor) == 1
    ensures Left(q, h, Detaching, index, offset, cursor) == 0
  {
    hide Tail;
  }

  lemma BatchPhases(q: Request, h: History, index: nat, offset: nat, cursor: nat, replies: seq<Expected>, replied: nat)
    requires Shaped(h)
    ensures Live(q, h, Preflight, index, offset, cursor, replies, replied) <==>
            AtPreflight(q, h, index, offset) && Batch(h, replies, replied)
    ensures Live(q, h, Prepare, index, offset, cursor, replies, replied) <==>
            AtPrepare(q, h, index, offset) && Batch(h, replies, replied)
    ensures forall t: History, p ::
      t.sent == h.sent ==> Left(q, t, p, index, offset, cursor) == Left(q, h, p, index, offset, cursor)
  {
    hide AtPreflight, AtPrepare, Batch;
  }

  lemma PrefixDistinct(a: seq<nat>, b: seq<nat>)
    requires a <= b && Distinct(b)
    ensures Distinct(a) && forall p :: p in a ==> p in b
  {
    assert a == b[..|a|];
  }

  method CheckFit(q: Request, commands: seq<Command>, size: nat) returns (ok: bool)
    ensures ok == AllFit(q, commands, size)
  {
    var at := 0;
    while at < |commands|
      invariant at <= |commands|
      invariant forall i :: 0 <= i < at ==> |Render(q, commands[i])| <= size
    {
      if |Render(q, commands[at])| > size { return false; }
      at := at + 1;
    }
    return true;
  }

  lemma LeftPositive(q: Request, h: History, phase: Phase, index: nat, offset: nat, cursor: nat)
    requires Sound(q, h)
    ensures Left(q, h, phase, index, offset, cursor) >= 0
  {
  }
}
