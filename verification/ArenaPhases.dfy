/**
 Where an arena session stands, phase by phase, and how each step moves it on
 (authorization/Debugger/DebugArenaSession.swift:104-204).
 */
module ArenaPhases {
  import opened GuestTypes
  import opened DebugReplies
  import opened ArenaHistory

  datatype Phase =
    | Idle | AskingSupport | AskingNoAck | AskingPolicy | Attaching | AskingProcess | AskingChallenge
    | AskingRegion | Preflight | Prepare | Draining | FinalProcess | FinalChallenge | Detaching | Cleanup
    | Complete | Failed

  /** What a command of a batch must answer. */
  datatype Expected = OkReply | ZeroReply(count: nat)

  predicate Matches(c: Command, e: Expected) {
    match e
    case OkReply => c.WriteZero?
    case ZeroReply(n) => c.Read? && c.count == n
  }

  /** The batch in flight is the last `|replies|` commands, `replied` of them answered. */
  predicate Batch(h: History, replies: seq<Expected>, replied: nat) {
    replied <= |replies| <= |h.sent| && h.good == |h.sent| - |replies| + replied
    && Matched(h.sent[|h.sent| - |replies|..], replies)
  }

  predicate Matched(commands: seq<Command>, replies: seq<Expected>) {
    |commands| == |replies| && forall i :: 0 <= i < |replies| ==> Matches(commands[i], replies[i])
  }

  predicate Step(h: History, k: nat) {
    |h.sent| == k && h.good + 1 == k && Opened(h.sent, k) && Writes(h.sent) == []
  }

  ghost predicate AtRegion(q: Request, h: History, index: nat, cursor: nat)
    requires Shaped(h)
  {
    index < |q.regions| && Inside(q.regions[index], cursor)
    && |h.sent| >= 7 && h.good + 1 == |h.sent| && Opened(h.sent, 6) && Writes(h.sent) == []
    && h.sent[h.good] == RegionInfo(cursor)
    && ReadUpTo(q, h.sent, h.good, index, 0)
    && VouchedUpTo(q, h.sent, h.answers, h.good, index, cursor - q.regions[index].address)
  }

  ghost predicate AtPreflight(q: Request, h: History, index: nat, offset: nat)
    requires Shaped(h)
  {
    index < |q.regions| && offset <= q.regions[index].size
    && |h.sent| >= 6 && h.good >= 6 && Opened(h.sent, 6) && Writes(h.sent) == []
    && ReadUpTo(q, h.sent, |h.sent|, index, offset)
    && VouchedUpTo(q, h.sent, h.answers, h.good, index + 1, 0)
  }

  ghost predicate AtPrepare(q: Request, h: History, index: nat, offset: nat)
    requires Shaped(h)
  {
    Place(q.regions, index, offset) && (index < |q.regions| ==> offset < q.regions[index].size)
    && h.start <= h.good && Cleared(q, h, h.start)
    && h.sent[h.start..] == Pairs(Planned(q.regions, index, offset))
    && Writes(h.sent) == Planned(q.regions, index, offset)
  }

  ghost predicate Tail(q: Request, h: History, suffix: seq<Command>)
    requires Shaped(h)
  {
    h.start <= h.good && h.good + 1 == |h.sent| && Cleared(q, h, h.start)
    && h.start + 2 * |AllPages(q.regions)| + |suffix| == |h.sent|
    && h.sent[h.start..] == Pairs(AllPages(q.regions)) + suffix
    && Writes(h.sent) == AllPages(q.regions)
  }

  ghost predicate Live(q: Request, h: History, phase: Phase, index: nat, offset: nat, cursor: nat,
                       replies: seq<Expected>, replied: nat)
    requires Shaped(h)
  {
    match phase
    case Idle => h.sent == []
    case AskingSupport => Step(h, 1)
    case AskingNoAck => Step(h, 2)
    case AskingPolicy => Step(h, 3)
    case Attaching => Step(h, 4)
    case AskingProcess => Step(h, 5)
    case AskingChallenge => Step(h, 6)
    case AskingRegion => AtRegion(q, h, index, cursor)
    case Preflight => AtPreflight(q, h, index, offset) && Batch(h, replies, replied)
    case Prepare => AtPrepare(q, h, index, offset) && Batch(h, replies, replied)
    case FinalProcess => Tail(q, h, [ProcessInfo])
    case FinalChallenge => Tail(q, h, [ProcessInfo, ReadChallenge])
    case Detaching => Tail(q, h, [ProcessInfo, ReadChallenge, Detach])
    case _ => true
  }

  // ----- how many commands may still follow -----

  /** Reads of at least 96 bytes each that cover `bytes`. */
  function Reading(bytes: nat): nat { (bytes + 95) / 96 }

  function CostFrom(regions: seq<Region>, i: nat): nat
    decreases |regions| - i
  {
    if i >= |regions| then 0 else regions[i].size + Reading(regions[i].size) + CostFrom(regions, i + 1)
  }

  function Writing(q: Request): nat { 2 * |AllPages(q.regions)| + 3 }

  function Bound(q: Request): nat { 6 + CostFrom(q.regions, 0) + Writing(q) }

  function Left(q: Request, h: History, phase: Phase, index: nat, offset: nat, cursor: nat): int {
    match phase
    case Idle => Bound(q)
    case AskingSupport => Bound(q) - 1
    case AskingNoAck => Bound(q) - 2
    case AskingPolicy => Bound(q) - 3
    case Attaching => Bound(q) - 4
    case AskingProcess => Bound(q) - 5
    case AskingChallenge => Bound(q) - 6
    case AskingRegion =>
      if index < |q.regions| && Inside(q.regions[index], cursor) then
        var r := q.regions[index];
        r.address + r.size - cursor - 1 + Reading(r.size) + CostFrom(q.regions, index + 1) + Writing(q)
      else 0
    case Preflight =>
      if index < |q.regions| && offset <= q.regions[index].size then
        Reading(q.regions[index].size - offset) + CostFrom(q.regions, index + 1) + Writing(q)
      else 0
    case Prepare => Writing(q) - 2 * |Writes(h.sent)|
    case FinalProcess => 2
    case FinalChallenge => 1
    case Draining => 1
    case _ => 0
  }

  // ----- moving on -----

  lemma Accept(q: Request, h: History)
    requires Sound(q, h) && h.good < |h.answers| && Satisfies(q, h.sent[h.good], h.answers[h.good])
    ensures Sound(q, h.(good := h.good + 1))
  {
    hide Satisfies, Writes, Planned, ReadUpTo, VouchedUpTo;
  }

  lemma StepOn(q: Request, h: History, k: nat, c: Command)
    requires Sound(q, h) && Step(h, k) && |h.answers| == k && !c.WriteZero?
    requires Opened(h.sent + [c], k + 1)
    ensures Step(Sending(h.(good := k), [c]), k + 1)
  {
    WritesConcat(h.sent, [c]);
    NoWrites([c]);
  }

  lemma EnterRegions(q: Request, h: History)
    requires GoodRequest(q) && Sound(q, h) && Step(h, 6) && |h.answers| == 6
    ensures AtRegion(q, Sending(h.(good := 6), [RegionInfo(q.regions[0].address)]), 0, q.regions[0].address)
  {
    var c := RegionInfo(q.regions[0].address);
    WritesConcat(h.sent, [c]);
    NoWrites([c]);
    assert GoodRegion(q.regions[0], q.challengeAddress);
  }

  lemma VouchesOn(text: string, a: nat, b: nat)
    requires Vouches(text, a) && a <= b < RegionEnd(text)
    ensures Vouches(text, b)
  {
  }

  /** A region answer extends what is vouched for up to the end it names. */
  lemma RegionAnswered(q: Request, h: History, index: nat, cursor: nat, end: nat)
    requires Shaped(h) && AtRegion(q, h, index, cursor) && |h.answers| == |h.sent|
    requires Vouches(h.answers[h.good], cursor)
    requires end == if RegionEnd(h.answers[h.good]) < q.regions[index].address + q.regions[index].size
                    then RegionEnd(h.answers[h.good]) else q.regions[index].address + q.regions[index].size
    ensures cursor < end
    ensures VouchedUpTo(q, h.sent, h.answers, h.good + 1, index, end - q.regions[index].address)
  {
    var text := h.answers[h.good];
    var r := q.regions[index];
    assert cursor < end by { VouchesBelow(text, cursor); }
    var upto: nat := end - r.address;
    forall a: nat | Below(q, index, upto, a) ensures VouchedBy(h.sent, h.answers, h.good + 1, a) {
      hide Vouches;
      if Below(q, index, cursor - r.address, a) {
        assert VouchedBy(h.sent, h.answers, h.good, a);
      } else {
        var i :| 0 <= i < |q.regions| && Inside(q.regions[i], a)
                 && (i < index || (i == index && a < q.regions[i].address + upto));
        assert cursor <= a < end;
        VouchesOn(text, cursor, a);
        assert h.sent[h.good].RegionInfo?;
      }
    }
  }

  lemma VouchesBelow(text: string, a: nat)
    requires Vouches(text, a)
    ensures a < RegionEnd(text)
  {
  }

  lemma BelowWhole(q: Request, index: nat, a: nat)
    requires index < |q.regions|
    ensures Below(q, index + 1, 0, a) <==> Below(q, index, q.regions[index].size, a)
  {
    if Below(q, index + 1, 0, a) {
      var i :| 0 <= i < |q.regions| && Inside(q.regions[i], a)
               && (i < index + 1 || (i == index + 1 && a < q.regions[i].address));
    }
  }

  lemma WholeRead(q: Request, sent: seq<Command>, n: nat, index: nat)
    requires index < |q.regions| && n <= |sent|
    ensures ReadUpTo(q, sent, n, index + 1, 0) <==> ReadUpTo(q, sent, n, index, q.regions[index].size)
  {
    hide Below, ReadBy;
    forall a ensures Below(q, index + 1, 0, a) <==> Below(q, index, q.regions[index].size, a) {
      BelowWhole(q, index, a);
    }
  }

  lemma WholeVouched(q: Request, sent: seq<Command>, answers: seq<string>, n: nat, index: nat)
    requires index < |q.regions| && n <= |answers| <= |sent|
    ensures VouchedUpTo(q, sent, answers, n, index + 1, 0) <==>
      VouchedUpTo(q, sent, answers, n, index, q.regions[index].size)
  {
    hide Below, VouchedBy;
    forall a ensures Below(q, index + 1, 0, a) <==> Below(q, index, q.regions[index].size, a) {
      BelowWhole(q, index, a);
    }
  }

  /** Ask about the next mapping of the same region. */
  lemma NextQuery(q: Request, h: History, index: nat, cursor: nat, end: nat)
    requires Sound(q, h) && AtRegion(q, h, index, cursor) && |h.answers| == |h.sent|
    requires Inside(q.regions[index], end)
    requires VouchedUpTo(q, h.sent, h.answers, h.good + 1, index, end - q.regions[index].address)
    ensures AtRegion(q, Sending(h.(good := h.good + 1), [RegionInfo(end)]), index, end)
  {
    hide Below, ReadBy, VouchedBy, Writes;
    var t := Sending(h.(good := h.good + 1), [RegionInfo(end)]);
    WritesConcat(h.sent, [RegionInfo(end)]);
    NoWrites([RegionInfo(end)]);
    ReadMore(q, h, t, h.good, t.good, index, 0);
    VouchedMore(q, h, t, t.good, index, end - q.regions[index].address);
  }

  /** Every mapping of the region is fine: start reading it. */
  lemma EnterPreflight(q: Request, h: History, index: nat, cursor: nat)
    requires Sound(q, h) && AtRegion(q, h, index, cursor) && |h.answers| == |h.sent|
    requires VouchedUpTo(q, h.sent, h.answers, h.good + 1, index, q.regions[index].size)
    ensures AtPreflight(q, h.(good := h.good + 1), index, 0)
  {
    hide Below, ReadBy, VouchedBy, Writes;
    WholeVouched(q, h.sent, h.answers, h.good + 1, index);
    ReadMore(q, h, h, h.good, |h.sent|, index, 0);
  }

  ghost predicate Covers(commands: seq<Command>, low: nat, high: nat) {
    forall a :: low <= a < high ==> ReadBy(commands, |commands|, a)
  }

  /** Reads that cover the next part of the region. */
  lemma PreflightMore(q: Request, h: History, index: nat, offset: nat, next: nat, commands: seq<Command>)
    requires Sound(q, h) && AtPreflight(q, h, index, offset) && offset <= next <= q.regions[index].size
    requires Covers(commands, q.regions[index].address + offset, q.regions[index].address + next)
    requires Writes(commands) == []
    ensures AtPreflight(q, Sending(h, commands), index, next)
  {
    hide Writes, VouchedBy;
    var t := Sending(h, commands);
    WritesConcat(h.sent, commands);
    ReadMore(q, h, t, |h.sent|, |t.sent|, index, offset);
    VouchedMore(q, h, t, h.good, index + 1, 0);
    forall a: nat | Below(q, index, next, a) ensures ReadBy(t.sent, |t.sent|, a) {
      if !Below(q, index, offset, a) {
        var i :| 0 <= i < |q.regions| && Inside(q.regions[i], a)
                 && (i < index || (i == index && a < q.regions[i].address + next));
        assert ReadBy(commands, |commands|, a);
        var j :| 0 <= j < |commands| && Reads(commands[j], a);
        assert t.sent[|h.sent| + j] == commands[j];
      }
    }
  }

  /** The region is read: go on to the next one. */
  lemma NextRegion(q: Request, h: History, index: nat)
    requires GoodRequest(q) && Sound(q, h) && index + 1 < |q.regions| && h.good == |h.sent|
    requires AtPreflight(q, h, index, q.regions[index].size)
    ensures AtRegion(q, Sending(h, [RegionInfo(q.regions[index + 1].address)]), index + 1, q.regions[index + 1].address)
  {
    hide Writes, VouchedBy, ReadBy, Below;
    var c := RegionInfo(q.regions[index + 1].address);
    var t := Sending(h, [c]);
    assert GoodRegion(q.regions[index + 1], q.challengeAddress);
    WritesConcat(h.sent, [c]);
    NoWrites([c]);
    WholeRead(q, h.sent, |h.sent|, index);
    ReadMore(q, h, t, |h.sent|, t.good, index + 1, 0);
    VouchedMore(q, h, t, h.good, index + 1, 0);
  }

  /** The last region is read: writing may begin. */
  lemma EnterPrepare(q: Request, h: History, index: nat)
    requires GoodRequest(q) && Sound(q, h) && index + 1 == |q.regions| && h.good == |h.sent|
    requires AtPreflight(q, h, index, q.regions[index].size)
    ensures Sound(q, h.(start := h.good)) && AtPrepare(q, h.(start := h.good), 0, 0)
  {
    hide VouchedBy, ReadBy, Below;
    var t := h.(start := h.good);
    assert GoodRegion(q.regions[0], q.challengeAddress);
    WholeRead(q, h.sent, |h.sent|, index);
    forall k | 0 <= k < |t.sent| ensures !t.sent[k].WriteZero? {
      if t.sent[k].WriteZero? { WritesHas(t.sent, k); }
    }
    assert t.sent[t.start..] == [];
  }

  /** A batch of writes and read-backs. */
  lemma PrepareMore(q: Request, h: History, index: nat, offset: nat, index': nat, offset': nat, pages: seq<nat>)
    requires GoodRequest(q) && Sound(q, h) && AtPrepare(q, h, index, offset)
    requires Place(q.regions, index', offset') && (index' < |q.regions| ==> offset' < q.regions[index'].size)
    requires Planned(q.regions, index', offset') == Planned(q.regions, index, offset) + pages
    ensures Sound(q, Sending(h, Pairs(pages))) && AtPrepare(q, Sending(h, Pairs(pages)), index', offset')
  {
    hide Planned, Writes, Pairs, ReadUpTo, VouchedUpTo, Satisfies;
    PairsWrites(pages);
    SizesAligned(q);
    PlannedPrefix(q.regions, index', offset');
    SendingWritesKeeps(q, h, Pairs(pages));
    PairsConcat(Planned(q.regions, index, offset), pages);
    var t := Sending(h, Pairs(pages));
    assert t.sent[t.start..] == h.sent[h.start..] + Pairs(pages);
  }

  lemma SizesAligned(q: Request)
    requires GoodRequest(q)
    ensures forall i :: 0 <= i < |q.regions| ==> q.regions[i].size % PAGE == 0 && q.regions[i].size > 0
  {
    forall i | 0 <= i < |q.regions| ensures q.regions[i].size % PAGE == 0 && q.regions[i].size > 0 {
      assert GoodRegion(q.regions[i], q.challengeAddress);
    }
  }

  lemma TailMore(q: Request, h: History, c: Command, t: History)
    requires Sound(q, h) && h.good == |h.sent| && h.start <= h.good && Cleared(q, h, h.start)
    requires Writes(h.sent) == AllPages(q.regions) && !c.WriteZero? && t == Sending(h, [c])
    ensures t.sent[t.start..] == h.sent[h.start..] + [c]
    ensures Writes(t.sent) == AllPages(q.regions) && Cleared(q, t, t.start)
  {
    hide Planned, Writes, ReadUpTo, VouchedUpTo, Satisfies;
    NoWrites([c]);
    WritesConcat(h.sent, [c]);
    ReadMore(q, h, t, h.start, h.start, |q.regions|, 0);
    VouchedMore(q, h, t, h.start, |q.regions|, 0);
  }

  /** Everything is written and read back. */
  lemma EnterFinal(q: Request, h: History)
    requires GoodRequest(q) && Sound(q, h) && AtPrepare(q, h, |q.regions|, 0) && h.good == |h.sent|
    ensures Tail(q, Sending(h, [ProcessInfo]), [ProcessInfo])
  {
    hide Planned, Writes, ReadUpTo, VouchedUpTo, Satisfies, Pairs, Cleared;
    TailMore(q, h, ProcessInfo, Sending(h, [ProcessInfo]));
    PairsLength(AllPages(q.regions));
  }

  lemma TailOn(q: Request, h: History, suffix: seq<Command>, c: Command)
    requires Sound(q, h) && Tail(q, h, suffix) && |h.answers| == |h.sent| && !c.WriteZero?
    requires Sound(q, h.(good := |h.sent|))
    ensures Tail(q, Sending(h.(good := |h.sent|), [c]), suffix + [c])
  {
    hide Planned, Writes, ReadUpTo, VouchedUpTo, Satisfies, Pairs, Sound;
    var t := h.(good := |h.sent|);
    TailMore(q, t, c, Sending(t, [c]));
  }

  /** The number of commands stays below a fixed bound of the request. */
  lemma BoundMeans(q: Request)
    requires GoodRequest(q)
    ensures Bound(q) <= 13 + Bytes(q.regions) + Bytes(q.regions) / 96 + Bytes(q.regions) / 8192
  {
    hide Planned, CostFrom, Bytes, GoodRegions;
    PagesCount(q, |q.regions|);
    NoCost(q.regions);
    CostSum(q, |q.regions|);
    assert q.regions[..|q.regions|] == q.regions;
  }

  lemma NoCost(regions: seq<Region>)
    ensures CostFrom(regions, |regions|) == 0
  {
  }

  lemma {:induction false} PagesCount(q: Request, n: nat)
    requires GoodRequest(q) && n <= |q.regions|
    ensures PAGE * |Planned(q.regions, n, 0)| == Bytes(q.regions[..n])
  {
    if n > 0 {
      PagesCount(q, n - 1);
      SizesAligned(q);
      RegionPages(q.regions, n - 1, q.regions[n - 1].size);
      assert q.regions[..n][..n - 1] == q.regions[..n - 1];
    }
  }

  lemma {:induction false} RegionPages(regions: seq<Region>, index: nat, offset: nat)
    requires index < |regions| && offset % PAGE == 0
    ensures PAGE * |Planned(regions, index, offset)| == PAGE * |Planned(regions, index, 0)| + offset
    decreases offset
  {
    if offset >= PAGE { RegionPages(regions, index, offset - PAGE); }
  }

  lemma {:induction false} CostSum(q: Request, n: nat)
    requires n <= |q.regions|
    ensures 96 * (CostFrom(q.regions, 0) - CostFrom(q.regions, n)) <= 97 * Bytes(q.regions[..n]) + 95 * n
    decreases n
  {
    if n > 0 {
      CostSum(q, n - 1);
      assert q.regions[..n][..n - 1] == q.regions[..n - 1];
      assert 96 * Reading(q.regions[n - 1].size) <= q.regions[n - 1].size + 95;
    }
  }
}
