/** Whole runs against the memory object itself, and the copies built on it. */
module SparseDriver {
  import opened GuestTypes
  import opened SparseFrames
  import opened SparseSpec
  import opened SparsePlain
  import opened SparseRuns
  import opened SparseMemory
  import SparseRegions
  import SparseScan
  import PageTable

  /** One call on the object is one step of the run. */
  method Perform(m: Memory, monitors: map<Thread, Monitor>, call: Call)
    returns (answer: Answer, after: map<Thread, Monitor>)
    requires m.Valid() && Sane(call)
    modifies m.Repr()
    ensures m.Valid()
    ensures answer == AnswerOf(m.space, System(old(m.S()), monitors), call)
    ensures System(m.S(), after) == Step(m.space, System(old(m.S()), monitors), call)
  {
    hide Legal, Memory.S, Memory.Repr, PageTable.Pages.Valid, PageTable.Good, PageTable.Frames, ChangeResult,
         ChangeState, WriteResult, WriteState, AccessResult, Backable, BytesAt,
      AtomicBytes, AfterPrepare, PrepareResult, Holding, StoreResult, CasResult, AtomicResult, LoadResult, AfterLoad;
    after := monitors;
    var status, bytes := Ok, [];
    match call {
      case Map(a, n, prot, maxprot, replace) =>
        status := m.Change(a, n, prot, maxprot, replace, SparseRegions.MAP);
        answer := Answer(status, [], false);
      case Unmap(a, n) =>
        status := m.Change(a, n, 0, 0, false, SparseRegions.UNMAP);
        answer := Answer(status, [], false);
      case Protect(a, n, prot) =>
        status := m.Change(a, n, prot, 7, false, SparseRegions.PROTECT);
        answer := Answer(status, [], false);
      case Prepare(a, n, permissions) =>
        status := m.Prepare(a, n, permissions);
        answer := Answer(status, [], false);
      case Read(a, n) =>
        status, bytes := m.Read(a, n);
        answer := Answer(status, if status == Ok then bytes else [], false);
      case Write(a, data) =>
        status := m.Write(a, data);
        answer := Answer(status, [], false);
      case LoadExclusive(t, a, n) =>
        var monitor;
        status, bytes, monitor := m.LoadExclusive(a, n, MonitorOf(monitors, t));
        after := monitors[t := monitor];
        answer := Answer(status, if status == Ok then bytes else [], false);
      case StoreExclusive(t, a, data) =>
        var monitor, stored;
        status, stored, monitor := m.StoreExclusive(a, data, MonitorOf(monitors, t));
        after := monitors[t := monitor];
        answer := Answer(status, [], stored);
      case CompareExchange(a, expected, desired) =>
        status, bytes := m.CompareExchange(a, expected, desired);
        answer := Answer(status, if status == Ok then bytes else [], false);
      case AtomicUpdate(a, n, op, operand) =>
        status, bytes := m.AtomicUpdate(a, n, op, operand);
        answer := Answer(status, if status == Ok then bytes else [], false);
    }
  }

  /** The object answers any sequence of calls as the run does, so every theorem about runs is about it. */
  method Run(m: Memory, calls: seq<Call>) returns (answers: seq<Answer>)
    requires m.Valid() && SaneRun(calls)
    modifies m.Repr()
    ensures m.Valid()
    ensures m.S() == Before(m.space, System(old(m.S()), map[]), calls, |calls|).mem
    ensures |answers| == |calls|
    ensures forall i :: 0 <= i < |calls| ==> answers[i] == AnswerAt(m.space, System(old(m.S()), map[]), calls, i)
  {
    hide Legal, Memory.S, Memory.Repr, PageTable.Pages.Valid, PageTable.Good, PageTable.Frames, AnswerOf, Step;
    ghost var sys := System(m.S(), map[]);
    var monitors := map[];
    answers := [];
    for i := 0 to |calls|
      invariant m.Valid() && |answers| == i
      invariant System(m.S(), monitors) == Before(m.space, sys, calls, i)
      invariant forall k :: 0 <= k < i ==> answers[k] == AnswerAt(m.space, sys, calls, k)
    {
      var answer;
      answer, monitors := Perform(m, monitors, calls[i]);
      answers := answers + [answer];
    }
  }

  // ----- gsv_copy and gsv_fill between software addresses -----

  const BOUNCE_SIZE: nat := 4096

  lemma ReadBesideWrite(v: Plain, d: nat, w: seq<byte>, s: nat, n: nat)
    requires s + n <= d || d + |w| <= s
    ensures PlainRead(PlainWrite(v, d, w), s, n) == PlainRead(v, s, n)
  {}

  lemma ReadPart(v: Plain, s: nat, n: nat, offset: nat, k: nat)
    requires offset + k <= n
    ensures PlainRead(v, s + offset, k) == PlainRead(v, s, n)[offset..offset + k]
  {}

  /** Two adjacent writes are one. */
  lemma WriteAdjacent(v: Plain, d: nat, low: seq<byte>, high: seq<byte>)
    ensures PlainWrite(PlainWrite(v, d, low), d + |low|, high) == PlainWrite(v, d, low + high)
    ensures PlainWrite(PlainWrite(v, d + |low|, high), d, low) == PlainWrite(v, d, low + high)
  {}

  /** The destination is writable and backed, and the source readable, so no chunk can be refused. */
  ghost predicate Ready(sp: Space, s: State, d: nat, from: nat, n: nat) {
    && AccessResult(sp, s, from, n, READ) == Ok && AccessResult(sp, s, d, n, WRITE) == Ok
    && Touched(d, n) <= s.frames.Keys
  }

  lemma ChunkAccess(sp: Space, s: State, a: nat, n: nat, offset: nat, k: nat, permission: Prot)
    requires AccessResult(sp, s, a, n, permission) == Ok && offset + k <= n
    ensures AccessResult(sp, s, a + offset, k, permission) == Ok
  {
    hide SparseRegions.Lookup, Allows;
    SparseScan.AccessOk(s.rs, a, a + n, permission);
    SparseScan.AccessOk(s.rs, a + offset, a + offset + k, permission);
  }

  lemma ChunkBacked(sp: Space, s: State, d: nat, n: nat, offset: nat, k: nat)
    requires Touched(d, n) <= s.frames.Keys && offset + k <= n && |s.frames| <= sp.capacity
    ensures Backable(sp, s, d + offset, k)
  {
    assert Touched(d + offset, k) <= Touched(d, n) by {
      assert forall p :: Touches(d + offset, k, p) && k > 0 ==> Touches(d, n, p);
    }
    assert Touched(d + offset, k) - s.frames.Keys == {};
  }

  lemma ReadyKept(sp: Space, s: State, d: nat, from: nat, n: nat, a: nat, bytes: seq<byte>)
    requires Whole(s.frames) && Ready(sp, s, d, from, n)
    ensures Ready(sp, WriteState(s, a, bytes), d, from, n)
  {
    hide Touched;
  }

  /** After preparing the destination for writing, with the source readable, the copy is ready. */
  lemma PreparedReady(sp: Space, s: State, d: nat, from: nat, n: nat)
    requires Legal(sp, s) && AccessResult(sp, s, from, n, READ) == Ok && PrepareResult(sp, s, d, n, WRITE) == Ok
    ensures Ready(sp, AfterPrepare(sp, s, d, n, WRITE), d, from, n)
  {
    hide SparseRegions.Canonical, SparseRegions.Lookup, Housed;
    TouchedNothing(d);
  }

  /** Copy one chunk through the bounce buffer. */
  method CopyChunk(m: Memory, d: nat, s: nat, n: nat, offset: nat, chunk: nat) returns (result: Status)
    requires m.Valid() && Ready(m.space, m.S(), d, s, n) && offset + chunk <= n
    modifies m.Repr()
    ensures m.Valid() && result == Ok && Ready(m.space, m.S(), d, s, n)
    ensures View(m.S()) == PlainWrite(old(View(m.S())), d + offset, PlainRead(old(View(m.S())), s + offset, chunk))
  {
    hide SparseRegions.Canonical, Housed, Memory.S, PageTable.Pages.Valid, PageTable.Good, PageTable.Frames, View,
         PlainWrite, PlainRead, BytesAt, WriteState, AccessResult, Backable, Ready;
    assert Ready(m.space, m.S(), d, s, n);
    ReadyParts(m.space, m.S(), d, s, n);
    ChunkAccess(m.space, m.S(), s, n, offset, chunk, READ);
    ChunkAccess(m.space, m.S(), d, n, offset, chunk, WRITE);
    ChunkBacked(m.space, m.S(), d, n, offset, chunk);
    VerdictOf(m.space, m.S(), s + offset, chunk, READ);
    var bounce;
    result, bounce := m.Read(s + offset, chunk);
    ViewWrite(m.space, m.S(), d + offset, bounce);
    ReadyKept(m.space, m.S(), d, s, n, d + offset, bounce);
    result := m.Write(d + offset, bounce);
  }

  lemma ReadyParts(sp: Space, s: State, d: nat, from: nat, n: nat)
    requires Ready(sp, s, d, from, n)
    ensures AccessResult(sp, s, from, n, READ) == Ok && AccessResult(sp, s, d, n, WRITE) == Ok
    ensures Touched(d, n) <= s.frames.Keys
  {}

  /** `gsv_copy` on two software addresses: memmove, or nothing at all. */
  method Copy(m: Memory, d: nat, s: nat, n: nat) returns (result: Status)
    requires m.Valid() && m.space.base <= d < m.space.end && m.space.base <= s < m.space.end
    modifies m.Repr()
    ensures m.Valid()
    ensures result == if AccessResult(m.space, old(m.S()), s, n, READ) != Ok
                      then AccessResult(m.space, old(m.S()), s, n, READ)
                      else PrepareResult(m.space, old(m.S()), d, n, WRITE)
    ensures View(m.S()) == if result == Ok then PlainWrite(old(View(m.S())), d, PlainRead(old(View(m.S())), s, n))
                           else old(View(m.S()))
  {
    hide SparseRegions.Canonical, Housed, Memory.S, View, PlainWrite, PlainRead, AccessResult, Backable, Ready,
         PageTable.Pages.Valid, PageTable.Good, PageTable.Frames;
    ReadPermission(m.space, m.S(), s, n);
    ghost var state := m.S();
    ghost var v := View(m.S());
    result := m.Prepare(s, n, READ);
    if result == Ok {
      result := m.Prepare(d, n, WRITE);
    }
    if result != Ok {
      return;
    }
    PreparedReady(m.space, state, d, s, n);
    PreparePlain(m.space, state, d, n, WRITE);
    var reverse := d > s && d - s < n;
    ghost var data := PlainRead(v, s, n);
    CopyStart(v, d, data);
    var completed := 0;
    while completed < n
      invariant 0 <= completed <= n && m.Valid() && Ready(m.space, m.S(), d, s, n) && result == Ok
      invariant !reverse ==> View(m.S()) == PlainWrite(v, d, data[..completed])
      invariant reverse ==> View(m.S()) == PlainWrite(v, d + n - completed, data[n - completed..])
    {
      var chunk := if n - completed > BOUNCE_SIZE then BOUNCE_SIZE else n - completed;
      var offset := if reverse then n - completed - chunk else completed;
      if reverse {
        BackStep(v, d, s, n, completed, chunk);
      } else {
        ForwardStep(v, d, s, n, completed, chunk);
      }
      result := CopyChunk(m, d, s, n, offset, chunk);
      completed := completed + chunk;
    }
    assert data[..n] == data && data[0..] == data;
  }

  lemma ReadPermission(sp: Space, s: State, a: nat, n: nat)
    ensures PrepareResult(sp, s, a, n, READ) == AccessResult(sp, s, a, n, READ)
    ensures AfterPrepare(sp, s, a, n, READ) == s
  {
    hide AccessResult, Backable;
    assert !Exceeds(READ, READ | WRITE) && !Allows(READ, WRITE);
  }

  lemma CopyStart(v: Plain, d: nat, data: seq<byte>)
    ensures PlainWrite(v, d, data[..0]) == v && PlainWrite(v, d + |data|, data[|data|..]) == v
  {}

  lemma ForwardStep(v: Plain, d: nat, s: nat, n: nat, completed: nat, chunk: nat)
    requires completed + chunk <= n && !(d > s && d - s < n)
    ensures var data := PlainRead(v, s, n);
            var w := PlainWrite(v, d, data[..completed]);
            PlainWrite(w, d + completed, PlainRead(w, s + completed, chunk))
              == PlainWrite(v, d, data[..completed + chunk])
  {
    hide PlainWrite, PlainRead;
    var data := PlainRead(v, s, n);
    ReadBesideWrite(v, d, data[..completed], s + completed, chunk);
    ReadPart(v, s, n, completed, chunk);
    WriteAdjacent(v, d, data[..completed], data[completed..completed + chunk]);
    assert data[..completed] + data[completed..completed + chunk] == data[..completed + chunk];
  }

  lemma BackStep(v: Plain, d: nat, s: nat, n: nat, completed: nat, chunk: nat)
    requires completed + chunk <= n && d > s && d - s < n
    ensures var data := PlainRead(v, s, n);
            var w := PlainWrite(v, d + n - completed, data[n - completed..]);
            var at := n - completed - chunk;
            PlainWrite(w, d + at, PlainRead(w, s + at, chunk)) == PlainWrite(v, d + at, data[at..])
  {
    hide PlainWrite, PlainRead;
    var data := PlainRead(v, s, n);
    var at := n - completed - chunk;
    ReadBesideWrite(v, d + n - completed, data[n - completed..], s + at, chunk);
    ReadPart(v, s, n, at, chunk);
    WriteAdjacent(v, d + at, data[at..at + chunk], data[n - completed..]);
    assert data[at..at + chunk] + data[n - completed..] == data[at..];
  }

  function Repeat(value: byte, n: nat): (bytes: seq<byte>)
    ensures |bytes| == n && forall k :: 0 <= k < n ==> bytes[k] == value
  {
    seq(n, _ => value)
  }

  /** `gsv_fill` on a software address: every byte, or nothing at all. */
  method Fill(m: Memory, d: nat, value: byte, n: nat) returns (result: Status)
    requires m.Valid() && m.space.base <= d < m.space.end
    modifies m.Repr()
    ensures m.Valid()
    ensures result == PrepareResult(m.space, old(m.S()), d, n, WRITE)
    ensures View(m.S()) == if result == Ok then PlainWrite(old(View(m.S())), d, Repeat(value, n)) else old(View(m.S()))
  {
    hide SparseRegions.Canonical, Housed, Memory.S, View, PlainWrite, AccessResult, Backable, PageTable.Pages.Valid,
         PageTable.Good, PageTable.Frames, WriteState, Touched, Legal, Memory.Valid;
    m.LegalWhole();
    ghost var state := m.S();
    ghost var v := View(m.S());
    result := m.Prepare(d, n, WRITE);
    if result != Ok {
      return;
    }
    m.LegalWhole();
    PreparedFill(m.space, state, d, n);
    PreparePlain(m.space, state, d, n, WRITE);
    var completed := 0;
    CopyStart(v, d, []);
    assert Repeat(value, 0) == [];
    while completed < n
      invariant 0 <= completed <= n && m.Valid() && Legal(m.space, m.S()) && Whole(m.S().frames) && result == Ok
      invariant AccessResult(m.space, m.S(), d, n, WRITE) == Ok && Touched(d, n) <= m.S().frames.Keys
      invariant View(m.S()) == PlainWrite(v, d, Repeat(value, completed))
    {
      var chunk := if n - completed > BOUNCE_SIZE then BOUNCE_SIZE else n - completed;
      var bounce := Repeat(value, chunk);
      FillChunk(m.space, m.S(), d, n, completed, bounce);
      WriteAdjacent(v, d, Repeat(value, completed), bounce);
      assert Repeat(value, completed) + bounce == Repeat(value, completed + chunk);
      result := m.Write(d + completed, bounce);
      m.LegalWhole();
      completed := completed + chunk;
    }
  }

  lemma PreparedFill(sp: Space, s: State, d: nat, n: nat)
    requires Legal(sp, s) && PrepareResult(sp, s, d, n, WRITE) == Ok
    ensures AccessResult(sp, AfterPrepare(sp, s, d, n, WRITE), d, n, WRITE) == Ok
    ensures Touched(d, n) <= AfterPrepare(sp, s, d, n, WRITE).frames.Keys
  {
    hide SparseRegions.Canonical, SparseRegions.Lookup, Housed;
    TouchedNothing(d);
  }

  lemma FillChunk(sp: Space, s: State, d: nat, n: nat, offset: nat, bytes: seq<byte>)
    requires Legal(sp, s) && AccessResult(sp, s, d, n, WRITE) == Ok && Touched(d, n) <= s.frames.Keys
    requires offset + |bytes| <= n
    ensures WriteResult(sp, s, d + offset, |bytes|) == Ok
    ensures AccessResult(sp, WriteState(s, d + offset, bytes), d, n, WRITE) == Ok
    ensures Touched(d, n) <= WriteState(s, d + offset, bytes).frames.Keys
    ensures View(WriteState(s, d + offset, bytes)) == PlainWrite(View(s), d + offset, bytes)
  {
    hide SparseRegions.Canonical, Housed, View, PlainWrite, Backable, Touched;
    ChunkAccess(sp, s, d, n, offset, |bytes|, WRITE);
    ChunkBacked(sp, s, d, n, offset, |bytes|);
    ViewWrite(sp, s, d + offset, bytes);
  }
}
