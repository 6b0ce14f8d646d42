/**
 What an arena session asks, what it is told, and what follows from both
 (authorization/Debugger/DebugArenaSession.swift, DebugArenaRequest.swift).
 */
module ArenaHistory {
  import opened GuestTypes
  import opened DebugReplies

  // ----- requests -----

  const ARENA_LIMIT: nat := 512 * 1024 * 1024
  const TOP: nat := 0x0000_FFFF_FFFF_FFFF

  datatype Region = Region(address: nat, size: nat)

  datatype Request = Request(pid: nat, uid: nat, challengeAddress: nat, challenge: seq<nat>, regions: seq<Region>)

  predicate Apart(a: Region, b: Region) {
    a.address + a.size <= b.address || b.address + b.size <= a.address
  }

  predicate GoodRegion(r: Region, challengeAddress: nat) {
    r.address >= PAGE && r.address % PAGE == 0 && 0 < r.size <= ARENA_LIMIT && r.size % PAGE == 0
    && r.address + r.size <= TOP && Apart(r, Region(challengeAddress, 32))
  }

  function Bytes(regions: seq<Region>): nat {
    if regions == [] then 0 else Bytes(regions[..|regions| - 1]) + regions[|regions| - 1].size
  }

  predicate GoodRegions(regions: seq<Region>, challengeAddress: nat) {
    (forall i :: 0 <= i < |regions| ==> GoodRegion(regions[i], challengeAddress))
    && (forall i, j :: 0 <= j < i < |regions| ==> Apart(regions[i], regions[j]))
    && Bytes(regions) <= ARENA_LIMIT
  }

  predicate GoodRequest(q: Request) {
    1 < q.pid <= 0x7FFF_FFFF && |q.challenge| == 32 && (exists i :: 0 <= i < 32 && q.challenge[i] != 0)
    && 4096 <= q.challengeAddress <= TOP - 32
    && 0 < |q.regions| <= 4 && GoodRegions(q.regions, q.challengeAddress)
  }

  predicate Inside(r: Region, a: nat) {
    r.address <= a < r.address + r.size
  }

  // ----- commands -----

  datatype Command =
    | Supported | StartNoAck | DetachOnError | Attach | ProcessInfo | ReadChallenge
    | RegionInfo(address: nat)
    | Read(address: nat, count: nat)
    | WriteZero(address: nat)
    | Detach

  function Render(q: Request, c: Command): string {
    match c
    case Supported => "qSupported"
    case StartNoAck => "QStartNoAckMode"
    case DetachOnError => "QSetDetachOnError:1"
    case Attach => "vAttach;" + Hex(q.pid)
    case ProcessInfo => "qProcessInfo"
    case ReadChallenge => "m" + Hex(q.challengeAddress) + ",20"
    case RegionInfo(a) => "qMemoryRegionInfo:" + Hex(a)
    case Read(a, n) => "m" + Hex(a) + "," + Hex(n)
    case WriteZero(a) => "M" + Hex(a) + ",1:00"
    case Detach => "D"
  }

  predicate InRange(c: Command) {
    match c
    case RegionInfo(a) => a <= TOP
    case Read(a, n) => a <= TOP && n <= TOP
    case WriteZero(a) => a <= TOP
    case _ => true
  }

  /** No command outgrows the smallest packet a server may announce. */
  lemma RenderFits(q: Request, c: Command)
    requires GoodRequest(q) && InRange(c)
    ensures |Render(q, c)| <= 64
  {
    assert Power(12) == 0x1_0000_0000_0000 by { assert Power(6) == 0x100_0000; }
    HexLength(q.pid, 12);
    HexLength(q.challengeAddress, 12);
    match c
    case RegionInfo(a) => HexLength(a, 12);
    case Read(a, n) => HexLength(a, 12); HexLength(n, 12);
    case WriteZero(a) => HexLength(a, 12);
    case _ =>
  }

  // ----- answers -----

  predicate IsStop(text: string) {
    ((HasPrefix(text, "T") && |text| >= 3) || (HasPrefix(text, "S") && |text| == 3))
    && Number(Some(text[1..3])).Some?
  }

  predicate IsProcess(q: Request, text: string) {
    var info := Fields(text);
    info.Some?
    && Number(Field(info.value, "pid")) == Some(q.pid)
    && Number(Field(info.value, "effective-uid")) == Some(q.uid)
    && Number(Field(info.value, "cputype")) == Some(0x100000c)
    && Number(Field(info.value, "ptrsize")) == Some(8)
    && Field(info.value, "endian") == Some("little")
  }

  function Letters(text: string): set<char> {
    set c | c in text
  }

  /** The reply names an unnamed read-execute mapping that holds address `a`. */
  predicate Vouches(text: string, a: nat) {
    var info := Fields(text);
    info.Some?
    && var start, size := Number(Field(info.value, "start")), Number(Field(info.value, "size"));
    start.Some? && size.Some? && start.value <= a < start.value + size.value && start.value + size.value <= U64_MAX
    && "error" !in info.value && "permissions" in info.value
    && Letters(info.value["permissions"]) == {'r', 'x'}
    && ("name" in info.value ==> info.value["name"] == "")
  }

  function RegionEnd(text: string): nat
    requires exists a :: Vouches(text, a)
  {
    Number(Field(Fields(text).value, "start")).value + Number(Field(Fields(text).value, "size")).value
  }

  predicate IsZeros(text: string, n: nat) {
    Unhex(text, n).Some? && forall i :: 0 <= i < n ==> Unhex(text, n).value[i] == 0
  }

  /** The answer a session accepts for a command. */
  predicate Satisfies(q: Request, c: Command, text: string) {
    match c
    case Supported => !HasPrefix(text, "E")
    case Attach => IsStop(text)
    case ProcessInfo => IsProcess(q, text)
    case ReadChallenge => Unhex(text, 32) == Some(q.challenge)
    case RegionInfo(a) => Vouches(text, a)
    case Read(_, n) => IsZeros(text, n)
    case _ => text == "OK"
  }

  // ----- pages -----

  /** Page addresses before the position (`index`, `offset`), in the order they are prepared. */
  function Planned(regions: seq<Region>, index: nat, offset: nat): seq<nat>
    requires index <= |regions| && (index == |regions| ==> offset == 0)
    decreases index, offset
  {
    if offset >= PAGE then Planned(regions, index, offset - PAGE) + [regions[index].address + offset - PAGE]
    else if index > 0 then Planned(regions, index - 1, regions[index - 1].size)
    else []
  }

  function AllPages(regions: seq<Region>): seq<nat> {
    Planned(regions, |regions|, 0)
  }

  function Pairs(pages: seq<nat>): seq<Command> {
    if pages == [] then []
    else Pairs(pages[..|pages| - 1]) + [WriteZero(pages[|pages| - 1]), Read(pages[|pages| - 1], 1)]
  }

  function Writes(commands: seq<Command>): seq<nat> {
    if commands == [] then []
    else
      var c := commands[|commands| - 1];
      Writes(commands[..|commands| - 1]) + (if c.WriteZero? then [c.address] else [])
  }

  lemma {:induction false} WritesConcat(a: seq<Command>, b: seq<Command>)
    ensures Writes(a + b) == Writes(a) + Writes(b)
  {
    if b == [] {
      assert a + b == a;
    } else {
      WritesConcat(a, b[..|b| - 1]);
      assert (a + b)[..|a + b| - 1] == a + b[..|b| - 1];
    }
  }

  lemma {:induction false} WritesHas(commands: seq<Command>, k: nat)
    requires k < |commands| && commands[k].WriteZero?
    ensures commands[k].address in Writes(commands)
  {
    if k < |commands| - 1 { WritesHas(commands[..|commands| - 1], k); }
  }

  lemma {:induction false} WritesFrom(commands: seq<Command>, p: nat)
    requires p in Writes(commands)
    ensures WriteZero(p) in commands
  {
    var c := commands[|commands| - 1];
    if !(c.WriteZero? && c.address == p) { WritesFrom(commands[..|commands| - 1], p); }
  }

  lemma {:induction false} NoWrites(commands: seq<Command>)
    requires forall k :: 0 <= k < |commands| ==> !commands[k].WriteZero?
    ensures Writes(commands) == []
  {
    if commands != [] { NoWrites(commands[..|commands| - 1]); }
  }

  lemma {:induction false} PairsConcat(a: seq<nat>, b: seq<nat>)
    ensures Pairs(a + b) == Pairs(a) + Pairs(b)
  {
    if b == [] {
      assert a + b == a;
    } else {
      PairsConcat(a, b[..|b| - 1]);
      assert (a + b)[..|a + b| - 1] == a + b[..|b| - 1];
    }
  }

  lemma PairsAppend(a: seq<nat>, p: nat)
    ensures Pairs(a + [p]) == Pairs(a) + [WriteZero(p), Read(p, 1)]
  {
    assert (a + [p])[..|a|] == a;
  }

  lemma {:induction false} PairsAt(pages: seq<nat>, i: nat)
    requires i < |pages|
    ensures |Pairs(pages)| == 2 * |pages|
    ensures Pairs(pages)[2 * i] == WriteZero(pages[i]) && Pairs(pages)[2 * i + 1] == Read(pages[i], 1)
  {
    var n := |pages| - 1;
    if n > 0 { PairsAt(pages[..n], if i < n then i else 0); }
  }

  lemma {:induction false} PairsLength(pages: seq<nat>)
    ensures |Pairs(pages)| == 2 * |pages|
  {
    if pages != [] { PairsLength(pages[..|pages| - 1]); }
  }

  lemma {:induction false} PairsWrites(pages: seq<nat>)
    ensures Writes(Pairs(pages)) == pages
  {
    if pages != [] {
      var n := |pages| - 1;
      PairsWrites(pages[..n]);
      var last := [WriteZero(pages[n]), Read(pages[n], 1)];
      WritesConcat(Pairs(pages[..n]), last);
      assert last[..1] == [WriteZero(pages[n])];
      assert Writes(last) == Writes(last[..1]) + [];
    }
  }

  /** A place the preparation passes through. */
  predicate Place(regions: seq<Region>, index: nat, offset: nat) {
    index <= |regions| && (index == |regions| ==> offset == 0) && offset % PAGE == 0
    && (index < |regions| ==> offset <= regions[index].size)
  }

  /** What is planned up to a place is the beginning of all pages. */
  lemma {:induction false} PlannedPrefix(regions: seq<Region>, index: nat, offset: nat)
    requires Place(regions, index, offset)
    requires forall i :: 0 <= i < |regions| ==> regions[i].size % PAGE == 0
    ensures Planned(regions, index, offset) <= AllPages(regions)
    decreases |regions| - index, if index < |regions| then regions[index].size - offset else 0
  {
    if index < |regions| {
      if offset < regions[index].size {
        PlannedPrefix(regions, index, offset + PAGE);
      } else {
        PlannedPrefix(regions, index + 1, 0);
      }
    }
  }

  /** `p` is a page start of one of the first regions, or of region `index` below `offset`. */
  predicate PageOf(regions: seq<Region>, index: nat, offset: nat, p: nat) {
    p % PAGE == 0
    && exists i :: 0 <= i < |regions| && Inside(regions[i], p)
         && (i < index || (i == index && p < regions[i].address + offset))
  }

  predicate Distinct(s: seq<nat>) {
    forall i, j :: 0 <= i < j < |s| ==> s[i] != s[j]
  }

  lemma PageStep(regions: seq<Region>, challengeAddress: nat, index: nat, offset: nat, p: nat)
    requires GoodRegions(regions, challengeAddress) && Place(regions, index, offset) && offset >= PAGE
    ensures PageOf(regions, index, offset, p) <==>
            p == regions[index].address + offset - PAGE || PageOf(regions, index, offset - PAGE, p)
  {
    var last := regions[index].address + offset - PAGE;
    assert Inside(regions[index], last);
    assert GoodRegion(regions[index], challengeAddress);
    assert last % PAGE == 0;
    if PageOf(regions, index, offset, p) {
      var i :| 0 <= i < |regions| && Inside(regions[i], p)
               && (i < index || (i == index && p < regions[i].address + offset));
      if i == index && p > last {
        NextPage(last, p);
      }
    }
  }

  lemma PageFresh(regions: seq<Region>, challengeAddress: nat, index: nat, offset: nat)
    requires GoodRegions(regions, challengeAddress) && index < |regions| && offset < regions[index].size
    ensures !PageOf(regions, index, offset, regions[index].address + offset)
  {
    var last := regions[index].address + offset;
    forall i | 0 <= i < index ensures !Inside(regions[i], last) {
      assert Apart(regions[index], regions[i]);
    }
  }

  /** The plan holds each page of each region exactly once. */
  lemma {:induction false} PlannedMeans(regions: seq<Region>, challengeAddress: nat, index: nat, offset: nat)
    requires GoodRegions(regions, challengeAddress) && Place(regions, index, offset)
    ensures Distinct(Planned(regions, index, offset))
    ensures forall p :: p in Planned(regions, index, offset) <==> PageOf(regions, index, offset, p)
    decreases index, offset
  {
    if offset >= PAGE {
      PlannedMeans(regions, challengeAddress, index, offset - PAGE);
      PageFresh(regions, challengeAddress, index, offset - PAGE);
      forall p: nat
        ensures PageOf(regions, index, offset, p) <==>
                p == regions[index].address + offset - PAGE || PageOf(regions, index, offset - PAGE, p)
      {
        PageStep(regions, challengeAddress, index, offset, p);
      }
    } else if index > 0 {
      PlannedMeans(regions, challengeAddress, index - 1, regions[index - 1].size);
      assert offset == 0;
    }
  }

  // ----- histories -----

  /**
   `sent[k]` is the k-th command, `answers[k]` its answer, `after[k]` how many
   answers were in when it was sent. The first `good` answers were accepted;
   no write is among the first `start` commands.
   */
  datatype History = History(sent: seq<Command>, after: seq<nat>, answers: seq<string>, good: nat, start: nat)

  predicate Opened(sent: seq<Command>, k: nat) {
    |sent| >= k
    && (k > 0 ==> sent[0] == Supported) && (k > 1 ==> sent[1] == StartNoAck) && (k > 2 ==> sent[2] == DetachOnError)
    && (k > 3 ==> sent[3] == Attach) && (k > 4 ==> sent[4] == ProcessInfo) && (k > 5 ==> sent[5] == ReadChallenge)
  }

  predicate Reads(c: Command, a: nat) {
    c.Read? && c.address <= a < c.address + c.count
  }

  predicate ReadBy(sent: seq<Command>, n: nat, a: nat)
    requires n <= |sent|
  {
    exists j :: 0 <= j < n && Reads(sent[j], a)
  }

  predicate VouchedBy(sent: seq<Command>, answers: seq<string>, n: nat, a: nat)
    requires n <= |answers| <= |sent|
  {
    exists j :: 0 <= j < n && sent[j].RegionInfo? && Vouches(answers[j], a)
  }

  /** `a` lies in a region before `index`, or in region `index` below `offset`. */
  predicate Below(q: Request, index: nat, offset: nat, a: nat) {
    exists i :: 0 <= i < |q.regions| && Inside(q.regions[i], a)
      && (i < index || (i == index && a < q.regions[i].address + offset))
  }

  ghost predicate ReadUpTo(q: Request, sent: seq<Command>, n: nat, index: nat, offset: nat)
    requires n <= |sent|
  {
    forall a :: Below(q, index, offset, a) ==> ReadBy(sent, n, a)
  }

  ghost predicate VouchedUpTo(q: Request, sent: seq<Command>, answers: seq<string>, n: nat, index: nat, offset: nat)
    requires n <= |answers| <= |sent|
  {
    forall a :: Below(q, index, offset, a) ==> VouchedBy(sent, answers, n, a)
  }

  /** The first `n` commands identify the process and find every byte of every region zero. */
  ghost predicate Cleared(q: Request, h: History, n: nat)
    requires n <= |h.answers| <= |h.sent|
  {
    6 <= n && Opened(h.sent, 6)
    && ReadUpTo(q, h.sent, n, |q.regions|, 0) && VouchedUpTo(q, h.sent, h.answers, n, |q.regions|, 0)
  }

  predicate Shaped(h: History) {
    |h.after| == |h.sent| && h.good <= |h.answers| <= |h.sent| && h.start <= |h.sent|
  }

  predicate Accepted(q: Request, h: History)
    requires Shaped(h)
  {
    forall j :: 0 <= j < h.good ==> Satisfies(q, h.sent[j], h.answers[j])
  }

  predicate WritesLate(h: History)
    requires Shaped(h)
  {
    forall k :: 0 <= k < |h.sent| && h.sent[k].WriteZero? ==> h.start <= h.after[k] <= k && h.after[k] <= |h.answers|
  }

  /** What every reachable session keeps about its history. */
  ghost predicate Sound(q: Request, h: History) {
    Shaped(h) && Accepted(q, h) && WritesLate(h)
    && Writes(h.sent) <= AllPages(q.regions)
    && (Writes(h.sent) != [] ==> h.start <= h.good && Cleared(q, h, h.start))
  }

  /** The history of a session that reported success. */
  ghost predicate Succeeded(q: Request, h: History) {
    Sound(q, h) && |h.sent| == |h.answers| == h.good
    && h.start + 2 * |AllPages(q.regions)| + 3 == |h.sent|
    && h.sent[h.start..] == Pairs(AllPages(q.regions)) + [ProcessInfo, ReadChallenge, Detach]
  }

  function Sending(h: History, commands: seq<Command>): History {
    h.(sent := h.sent + commands, after := h.after + seq(|commands|, _ => |h.answers|))
  }

  function Answering(h: History, text: string): History {
    h.(answers := h.answers + [text])
  }

  lemma AnsweringKeeps(q: Request, h: History, text: string)
    requires Sound(q, h) && |h.answers| < |h.sent|
    ensures Sound(q, Answering(h, text))
  {
    var t := Answering(h, text);
    if Writes(h.sent) != [] { VouchedMore(q, h, t, h.start, |q.regions|, 0); }
  }

  predicate Extends(h: History, t: History) {
    h.sent <= t.sent && h.answers <= t.answers
  }

  lemma ReadMore(q: Request, h: History, t: History, n: nat, m: nat, index: nat, offset: nat)
    requires Extends(h, t) && n <= m <= |t.sent| && n <= |h.sent| && ReadUpTo(q, h.sent, n, index, offset)
    ensures ReadUpTo(q, t.sent, m, index, offset)
  {
    forall a | Below(q, index, offset, a) ensures ReadBy(t.sent, m, a) {
      assert ReadBy(h.sent, n, a);
      var j :| 0 <= j < n && Reads(h.sent[j], a);
      assert t.sent[j] == h.sent[j];
    }
  }

  lemma VouchedMore(q: Request, h: History, t: History, n: nat, index: nat, offset: nat)
    requires Extends(h, t) && n <= |h.answers| <= |h.sent| && |t.answers| <= |t.sent|
    requires VouchedUpTo(q, h.sent, h.answers, n, index, offset)
    ensures forall m :: n <= m <= |t.answers| ==> VouchedUpTo(q, t.sent, t.answers, m, index, offset)
  {
    hide Vouches;
    forall m, a | n <= m <= |t.answers| && Below(q, index, offset, a) ensures VouchedBy(t.sent, t.answers, m, a) {
      assert VouchedBy(h.sent, h.answers, n, a);
      var j :| 0 <= j < n && h.sent[j].RegionInfo? && Vouches(h.answers[j], a);
      assert t.sent[j] == h.sent[j] && t.answers[j] == h.answers[j];
    }
  }

  /** Sending anything but writes. */
  lemma SendingKeeps(q: Request, h: History, commands: seq<Command>)
    requires Sound(q, h) && Writes(commands) == []
    ensures Sound(q, Sending(h, commands)) && Writes(Sending(h, commands).sent) == Writes(h.sent)
  {
    hide Vouches, Planned, Satisfies, Writes;
    var t := Sending(h, commands);
    WritesConcat(h.sent, commands);
    assert Accepted(q, t);
    forall k | 0 <= k < |t.sent| && t.sent[k].WriteZero?
      ensures t.start <= t.after[k] <= k && t.after[k] <= |t.answers|
    {
      if k >= |h.sent| {
        WritesHas(commands, k - |h.sent|);
      }
    }
    if Writes(h.sent) != [] {
      VouchedMore(q, h, t, h.start, |q.regions|, 0);
      ReadMore(q, h, t, h.start, h.start, |q.regions|, 0);
    }
  }

  /** Sending writes once everything is cleared. */
  lemma SendingWritesKeeps(q: Request, h: History, commands: seq<Command>)
    requires Sound(q, h) && h.start <= h.good && Cleared(q, h, h.start)
    requires Writes(h.sent) + Writes(commands) <= AllPages(q.regions)
    ensures Sound(q, Sending(h, commands)) && Cleared(q, Sending(h, commands), h.start)
    ensures Writes(Sending(h, commands).sent) == Writes(h.sent) + Writes(commands)
  {
    hide Vouches, Planned, Satisfies, Writes;
    var t := Sending(h, commands);
    WritesConcat(h.sent, commands);
    assert Accepted(q, t);
    VouchedMore(q, h, t, h.start, |q.regions|, 0);
    ReadMore(q, h, t, h.start, h.start, |q.regions|, 0);
  }

  // ----- what histories guarantee -----

  /**
   When a write was sent, the process and the challenge had been verified and
   every byte of every region had been read back as zero from a mapping
   reported unnamed, readable and executable; and it hits a page of a region.
   */
  lemma NoEarlyWrite(q: Request, h: History, k: nat)
    requires GoodRequest(q) && Sound(q, h) && k < |h.sent| && h.sent[k].WriteZero?
    ensures 6 <= h.after[k] <= |h.answers| && h.after[k] <= k
    ensures h.sent[4] == ProcessInfo && IsProcess(q, h.answers[4])
    ensures h.sent[5] == ReadChallenge && Unhex(h.answers[5], 32) == Some(q.challenge)
    ensures forall i, a :: 0 <= i < |q.regions| && Inside(q.regions[i], a) ==>
      (exists j :: 0 <= j < h.after[k] && Reads(h.sent[j], a) && IsZeros(h.answers[j], h.sent[j].count))
      && (exists j :: 0 <= j < h.after[k] && h.sent[j].RegionInfo? && Vouches(h.answers[j], a))
    ensures h.sent[k].address % PAGE == 0 && exists i :: 0 <= i < |q.regions| && Inside(q.regions[i], h.sent[k].address)
  {
    hide Vouches, IsProcess, Planned, Writes, Letters;
    WritesHas(h.sent, k);
    var n := h.start;
    assert Satisfies(q, h.sent[4], h.answers[4]) && Satisfies(q, h.sent[5], h.answers[5]);
    assert h.after[k] <= k;
    forall i, a | 0 <= i < |q.regions| && Inside(q.regions[i], a)
      ensures (exists j :: 0 <= j < h.after[k] && Reads(h.sent[j], a) && IsZeros(h.answers[j], h.sent[j].count))
      ensures (exists j :: 0 <= j < h.after[k] && h.sent[j].RegionInfo? && Vouches(h.answers[j], a))
    {
      assert Below(q, |q.regions|, 0, a);
      assert ReadBy(h.sent, n, a);
      var j :| 0 <= j < n && Reads(h.sent[j], a);
      assert Satisfies(q, h.sent[j], h.answers[j]);
      assert VouchedBy(h.sent, h.answers, n, a);
    }
    PlannedMeans(q.regions, q.challengeAddress, |q.regions|, 0);
    assert h.sent[k].address in AllPages(q.regions);
  }

  /**
   Success means that each page of each region was written exactly once, the
   write answered OK, the next command read the byte back as zero, and after all
   of them process and challenge were verified again and the detach answered OK.
   */
  lemma SuccessMeans(q: Request, h: History, p: nat)
    requires GoodRequest(q) && Succeeded(q, h)
    requires PageOf(q.regions, |q.regions|, 0, p)
    ensures exists k: nat :: WrittenOnce(h, p, k)
    ensures Reverified(q, h)
  {
    hide Vouches, IsProcess, Planned, Writes, Letters, Cleared, PageOf, Pairs, GoodRegions, Unhex, Reverified;
    var pages := AllPages(q.regions);
    PlannedMeans(q.regions, q.challengeAddress, |q.regions|, 0);
    var i :| 0 <= i < |pages| && pages[i] == p;
    var k := h.start + 2 * i;
    TailAt(h, pages, i);
    assert Satisfies(q, h.sent[k], h.answers[k]) && Satisfies(q, h.sent[k + 1], h.answers[k + 1]);
    forall l | 0 <= l < |h.sent| && h.sent[l] == WriteZero(p) ensures l == k {
      WriteAt(h, pages, l);
      var o :| 0 <= o < |pages| && l == h.start + 2 * o && pages[o] == p;
    }
    assert WrittenOnce(h, p, k);
    SuccessReverified(q, h);
  }

  lemma SuccessReverified(q: Request, h: History)
    requires Succeeded(q, h)
    ensures Reverified(q, h)
  {
    hide Vouches, IsProcess, Planned, Writes, Cleared, Pairs, Unhex, WritesLate;
    var pages := AllPages(q.regions);
    PairsLength(pages);
    var n := |h.sent|;
    var tail := h.sent[h.start..];
    assert tail[2 * |pages|] == h.sent[n - 3] && tail[2 * |pages| + 1] == h.sent[n - 2];
    assert tail[2 * |pages| + 2] == h.sent[n - 1];
    assert Satisfies(q, h.sent[n - 3], h.answers[n - 3]) && Satisfies(q, h.sent[n - 2], h.answers[n - 2]);
    assert Satisfies(q, h.sent[n - 1], h.answers[n - 1]);
  }

  predicate WrittenOnce(h: History, p: nat, k: nat) {
    k + 4 < |h.sent| == |h.answers|
    && h.sent[k] == WriteZero(p) && h.answers[k] == "OK"
    && h.sent[k + 1] == Read(p, 1) && IsZeros(h.answers[k + 1], 1)
    && forall l :: 0 <= l < |h.sent| && h.sent[l] == WriteZero(p) ==> l == k
  }

  predicate Reverified(q: Request, h: History) {
    var n := |h.sent|;
    n == |h.answers| && n >= 3
    && h.sent[n - 3] == ProcessInfo && IsProcess(q, h.answers[n - 3])
    && h.sent[n - 2] == ReadChallenge && Unhex(h.answers[n - 2], 32) == Some(q.challenge)
    && h.sent[n - 1] == Detach && h.answers[n - 1] == "OK"
  }

  lemma TailAt(h: History, pages: seq<nat>, i: nat)
    requires h.start + 2 * |pages| + 3 == |h.sent| && i < |pages|
    requires h.sent[h.start..] == Pairs(pages) + [ProcessInfo, ReadChallenge, Detach]
    ensures h.sent[h.start + 2 * i] == WriteZero(pages[i]) && h.sent[h.start + 2 * i + 1] == Read(pages[i], 1)
  {
    PairsAt(pages, i);
    var tail := h.sent[h.start..];
    assert tail[2 * i] == h.sent[h.start + 2 * i] && tail[2 * i + 1] == h.sent[h.start + 2 * i + 1];
  }

  lemma WriteAt(h: History, pages: seq<nat>, l: nat)
    requires Shaped(h) && WritesLate(h)
    requires h.start + 2 * |pages| + 3 == |h.sent| && l < |h.sent| && h.sent[l].WriteZero?
    requires h.sent[h.start..] == Pairs(pages) + [ProcessInfo, ReadChallenge, Detach]
    ensures exists i :: 0 <= i < |pages| && l == h.start + 2 * i && pages[i] == h.sent[l].address
  {
    hide Pairs;
    assert h.start <= l;
    var d := l - h.start;
    assert h.sent[h.start..][d] == h.sent[l];
    PairsLength(pages);
    assert d < 2 * |pages|;
    var i := d / 2;
    TailAt(h, pages, i);
    assert d == 2 * i;
  }

  // ----- the target's memory -----

  /** The memory of a stopped target after it served the commands in order. */
  ghost function Served(memory: nat -> nat, commands: seq<Command>): nat -> nat {
    if commands == [] then memory
    else
      var last := commands[|commands| - 1];
      var m := Served(memory, commands[..|commands| - 1]);
      if last.WriteZero? then x => if x == last.address then 0 else m(x) else m
  }

  /** Every read the server answers with bytes shows the memory at that time. */
  ghost predicate Honest(memory: nat -> nat, h: History) {
    |h.answers| <= |h.sent|
    && forall j, i ::
      (0 <= j < |h.answers| && h.sent[j].Read? && Unhex(h.answers[j], h.sent[j].count).Some?
       && 0 <= i < h.sent[j].count) ==>
        Unhex(h.answers[j], h.sent[j].count).value[i] == Served(memory, h.sent[..j])(h.sent[j].address + i)
  }

  lemma {:induction false} ServedSame(memory: nat -> nat, commands: seq<Command>)
    requires forall k :: 0 <= k < |commands| && commands[k].WriteZero? ==> memory(commands[k].address) == 0
    ensures forall x :: Served(memory, commands)(x) == memory(x)
  {
    if commands != [] { ServedSame(memory, commands[..|commands| - 1]); }
  }

  lemma WritesFindZero(q: Request, h: History, memory: nat -> nat, k: nat)
    requires GoodRequest(q) && Sound(q, h) && Honest(memory, h)
    requires k < |h.sent| && h.sent[k].WriteZero?
    ensures memory(h.sent[k].address) == 0
  {
    hide Vouches, IsProcess, Planned, Writes, Letters, VouchedUpTo, PageOf, Served, Unhex;
    NoEarlyWrite(q, h, k);
    WritesHas(h.sent, k);
    var a := h.sent[k].address;
    assert Below(q, |q.regions|, 0, a);
    assert ReadBy(h.sent, h.start, a);
    var j :| 0 <= j < h.start && Reads(h.sent[j], a);
    assert Satisfies(q, h.sent[j], h.answers[j]);
    ServedSame(memory, h.sent[..j]);
    assert Unhex(h.answers[j], h.sent[j].count).value[a - h.sent[j].address] == 0;
  }

  /**
   With an honest server that keeps the target stopped, serving any of the
   session's commands, in any order and any number of times, changes no byte.
   */
  lemma MemoryUnchanged(q: Request, h: History, memory: nat -> nat, served: seq<Command>)
    requires GoodRequest(q) && Sound(q, h) && Honest(memory, h)
    requires forall c :: c in served && c.WriteZero? ==> c in h.sent
    ensures forall x :: Served(memory, served)(x) == memory(x)
  {
    hide Sound, Honest, GoodRequest, Served;
    forall k | 0 <= k < |served| && served[k].WriteZero? ensures memory(served[k].address) == 0 {
      assert served[k] in h.sent;
      var l :| 0 <= l < |h.sent| && h.sent[l] == served[k];
      WritesFindZero(q, h, memory, l);
    }
    ServedSame(memory, served);
  }
}
