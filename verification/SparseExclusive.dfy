/**
 Load-exclusive and store-exclusive (runtime/GuestSparseMemory.c:321-350) over
 every interleaving of calls by any number of threads.
 */
module SparseExclusive {
  import opened GuestTypes
  import opened SparseFrames
  import opened SparseSpec
  import opened SparseRuns
  import SparseRegions
  import SparseScan
  import PageTable

  // ----- what disturbs a monitor -----

  /** The call wrote to the page, or changed the mappings. */
  ghost predicate Disturbs(e: Effect, page: nat) {
    e.Changes? || (e.Writes? && page in Touched(e.a, |e.bytes|))
  }

  /** The call gave the thread's monitor a new value. */
  ghost predicate Rearms(call: Call, answer: Answer, t: Thread) {
    answer.status == Ok && (call.LoadExclusive? || call.StoreExclusive?) && call.thread == t
  }

  ghost predicate Calm(sp: Space, sys: System, calls: seq<Call>, k: nat, t: Thread, a: nat)
    requires Legal(sp, sys.mem) && SaneRun(calls) && k < |calls|
  {
    && !Disturbs(EffectAt(sp, sys, calls, k), PageBase(a))
    && !Rearms(calls[k], AnswerAt(sp, sys, calls, k), t)
  }

  /**
   Call `i` is an accepted load-exclusive of `[a, a + n)` by thread `t`, and up
   to call `j` nobody has written to its page or changed a mapping, and the
   thread has used its monitor for nothing else.
   */
  ghost predicate Watch(sp: Space, sys: System, calls: seq<Call>, i: nat, j: nat, t: Thread, a: nat, n: nat)
    requires Legal(sp, sys.mem) && SaneRun(calls) && j <= |calls|
  {
    && i < j && calls[i] == LoadExclusive(t, a, n) && AnswerAt(sp, sys, calls, i).status == Ok
    && forall k :: i < k < j ==> Calm(sp, sys, calls, k, t, a)
  }

  ghost function MonitorAt(sp: Space, sys: System, calls: seq<Call>, j: nat, t: Thread): Monitor
    requires Legal(sp, sys.mem) && SaneRun(calls) && j <= |calls|
  {
    MonitorOf(Before(sp, sys, calls, j).monitors, t)
  }

  // ----- one effect -----

  lemma ChangesCount(sp: Space, s: State, e: Effect)
    requires Legal(sp, s)
    ensures Apply(sp, s, e).changes == s.changes + if e.Changes? then 1 else 0
    ensures Apply(sp, s, e).writes >= s.writes
  {
    hide SparseRegions.Changed, SparseRegions.Lookup, WriteFrames;
  }

  lemma WriteGeneration(s: State, a: nat, bytes: seq<byte>, page: nat)
    requires Whole(s.frames)
    ensures GenerationAt(WriteState(s, a, bytes).frames, page)
         == if page in Touched(a, |bytes|) then s.writes + 1 else GenerationAt(s.frames, page)
  {
    hide Touched, WriteFrames;
    TouchedNothing(a);
    if page in s.frames.Keys + Touched(a, |bytes|) { WrittenFrame(s.frames, a, bytes, s.writes + 1, page); }
  }

  lemma PrepareGeneration(sp: Space, s: State, a: nat, n: nat, permissions: Prot, page: nat)
    requires Whole(s.frames)
    ensures GenerationAt(AfterPrepare(sp, s, a, n, permissions).frames, page) == GenerationAt(s.frames, page)
  {
    hide Touched, PrepareFrames, PrepareResult;
    PreparedSame(s.frames, Touched(a, n), page);
  }

  lemma EffectGeneration(sp: Space, s: State, e: Effect, page: nat)
    requires Legal(sp, s) && !e.Changes?
    ensures GenerationAt(Apply(sp, s, e).frames, page)
         == if Disturbs(e, page) then s.writes + 1 else GenerationAt(s.frames, page)
    ensures GenerationAt(s.frames, page) <= s.writes
  {
    hide SparseRegions.Canonical, Touched, WriteState, AfterPrepare;
    match e
    case Nothing =>
    case Prepares(a, n, permissions) => PrepareGeneration(sp, s, a, n, permissions, page);
    case Writes(a, bytes) => WriteGeneration(s, a, bytes, page);
  }

  /** A write changes no byte of a page it does not touch. */
  lemma WriteByte(s: State, a: nat, bytes: seq<byte>, x: nat)
    requires Whole(s.frames) && PageBase(x) !in Touched(a, |bytes|)
    ensures ByteAt(WriteState(s, a, bytes).frames, x) == ByteAt(s.frames, x)
  {
    hide WriteFrames, ByteAt;
    WrittenByte(s.frames, a, bytes, s.writes + 1, x);
    PageOf(x);
  }

  lemma PrepareByte(sp: Space, s: State, a: nat, n: nat, permissions: Prot, x: nat)
    requires Whole(s.frames)
    ensures Whole(AfterPrepare(sp, s, a, n, permissions).frames)
    ensures ByteAt(AfterPrepare(sp, s, a, n, permissions).frames, x) == ByteAt(s.frames, x)
  {
    hide Touched, PrepareFrames, PrepareResult, ByteAt;
    PreparedSame(s.frames, Touched(a, n), x);
  }

  /** Bytes of an undisturbed page stay. */
  lemma EffectByte(sp: Space, s: State, e: Effect, x: nat)
    requires Legal(sp, s) && !Disturbs(e, PageBase(x)) && Whole(Apply(sp, s, e).frames)
    ensures ByteAt(Apply(sp, s, e).frames, x) == ByteAt(s.frames, x)
  {
    hide SparseRegions.Canonical, Housed, Touched, WriteState, AfterPrepare, ByteAt, PageBase, Offset;
    match e
    case Nothing =>
    case Prepares(a, n, permissions) => PrepareByte(sp, s, a, n, permissions, x);
    case Writes(a, bytes) => WriteByte(s, a, bytes, x);
  }

  // ----- along a run -----

  lemma StepOf(sp: Space, sys: System, calls: seq<Call>, k: nat)
    requires Legal(sp, sys.mem) && SaneRun(calls) && k < |calls|
    ensures Before(sp, sys, calls, k + 1).mem == Apply(sp, Before(sp, sys, calls, k).mem, EffectAt(sp, sys, calls, k))
    ensures Before(sp, sys, calls, k + 1).monitors == MonitorsAfter(sp, Before(sp, sys, calls, k), calls[k])
  {
    hide Legal, Apply, EffectOf, MonitorsAfter;
  }

  /** The mapping counter and the write counter never go back. */
  lemma {:induction false} CountersGrow(sp: Space, sys: System, calls: seq<Call>, i: nat, j: nat)
    requires Legal(sp, sys.mem) && SaneRun(calls) && i <= j <= |calls|
    ensures Before(sp, sys, calls, i).mem.changes <= Before(sp, sys, calls, j).mem.changes
    ensures Before(sp, sys, calls, i).mem.writes <= Before(sp, sys, calls, j).mem.writes
    decreases j - i
  {
    hide Legal, Apply, EffectOf, MonitorsAfter, Before;
    if i < j {
      StepOf(sp, sys, calls, i);
      ChangesCount(sp, Before(sp, sys, calls, i).mem, EffectAt(sp, sys, calls, i));
      CountersGrow(sp, sys, calls, i + 1, j);
    }
  }

  /** A call that does not re-arm a thread leaves its monitor alone. */
  lemma MonitorStays(sp: Space, sys: System, calls: seq<Call>, k: nat, t: Thread)
    requires Legal(sp, sys.mem) && SaneRun(calls) && k < |calls|
    requires !Rearms(calls[k], AnswerAt(sp, sys, calls, k), t)
    ensures MonitorAt(sp, sys, calls, k + 1, t) == MonitorAt(sp, sys, calls, k, t)
  {
    hide Legal, Apply, EffectOf, Before, BytesAt, LoadResult, StoreResult, ChangeResult, AccessResult;
    StepOf(sp, sys, calls, k);
  }

  lemma MonitorSet(sp: Space, sys: System, calls: seq<Call>, k: nat, t: Thread)
    requires Legal(sp, sys.mem) && SaneRun(calls) && k < |calls|
    requires Rearms(calls[k], AnswerAt(sp, sys, calls, k), t)
    ensures var s, m := Before(sp, sys, calls, k).mem, MonitorAt(sp, sys, calls, k + 1, t);
            if calls[k].LoadExclusive?
            then m == Monitor(calls[k].a, GenerationAt(s.frames, PageBase(calls[k].a)), s.changes, calls[k].n, true)
            else !m.valid
  {
    hide Legal, Apply, EffectOf, Before, BytesAt, LoadResult, StoreResult, ChangeResult, AccessResult;
    StepOf(sp, sys, calls, k);
  }

  /** A valid monitor comes from an accepted load-exclusive, and nothing has re-armed it since. */
  lemma {:induction false} MonitorOrigin(sp: Space, sys: System, calls: seq<Call>, j: nat, t: Thread) returns (i: nat)
    requires Legal(sp, sys.mem) && SaneRun(calls) && j <= |calls| && sys.monitors == map[]
    requires MonitorAt(sp, sys, calls, j, t).valid
    ensures i < j && calls[i].LoadExclusive? && Rearms(calls[i], AnswerAt(sp, sys, calls, i), t)
    ensures MonitorAt(sp, sys, calls, j, t) == MonitorAt(sp, sys, calls, i + 1, t)
    ensures forall k :: i < k < j ==> !Rearms(calls[k], AnswerAt(sp, sys, calls, k), t)
    decreases j
  {
    hide Legal, AnswerAt, EffectOf, MonitorsAfter, Rearms;
    if Rearms(calls[j - 1], AnswerAt(sp, sys, calls, j - 1), t) {
      MonitorSet(sp, sys, calls, j - 1, t);
      i := j - 1;
    } else {
      MonitorStays(sp, sys, calls, j - 1, t);
      i := MonitorOrigin(sp, sys, calls, j - 1, t);
    }
  }

  /** Without mapping changes a page's generation never goes back, and a write puts it past the present. */
  lemma {:induction false} GenerationGrows(sp: Space, sys: System, calls: seq<Call>, i: nat, j: nat, page: nat)
    requires Legal(sp, sys.mem) && SaneRun(calls) && i <= j <= |calls|
    requires Before(sp, sys, calls, i).mem.changes == Before(sp, sys, calls, j).mem.changes
    ensures forall k :: i <= k < j ==> !EffectAt(sp, sys, calls, k).Changes?
    ensures GenerationAt(Before(sp, sys, calls, i).mem.frames, page)
         <= GenerationAt(Before(sp, sys, calls, j).mem.frames, page)
    ensures (GenerationAt(Before(sp, sys, calls, i).mem.frames, page)
              == GenerationAt(Before(sp, sys, calls, j).mem.frames, page)) ==>
      forall k :: i <= k < j ==> !Disturbs(EffectAt(sp, sys, calls, k), page)
    decreases j - i
  {
    hide Legal, Apply, EffectAt, Before, GenerationAt, MonitorsAfter;
    if i < j {
      var s := Before(sp, sys, calls, i).mem;
      StepOf(sp, sys, calls, i);
      ChangesCount(sp, s, EffectAt(sp, sys, calls, i));
      CountersGrow(sp, sys, calls, i + 1, j);
      GenerationGrows(sp, sys, calls, i + 1, j, page);
      EffectGeneration(sp, s, EffectAt(sp, sys, calls, i), page);
    }
  }

  /** Calm calls leave the page's generation, the mapping counter and the thread's monitor as they are. */
  lemma {:induction false} CalmKeeps(sp: Space, sys: System, calls: seq<Call>, i: nat, j: nat, t: Thread, a: nat)
    requires Legal(sp, sys.mem) && SaneRun(calls) && i <= j <= |calls|
    requires forall k :: i <= k < j ==> Calm(sp, sys, calls, k, t, a)
    ensures var s, r := Before(sp, sys, calls, i).mem, Before(sp, sys, calls, j).mem;
            r.changes == s.changes && GenerationAt(r.frames, PageBase(a)) == GenerationAt(s.frames, PageBase(a))
    ensures MonitorAt(sp, sys, calls, j, t) == MonitorAt(sp, sys, calls, i, t)
    decreases j - i
  {
    hide Legal, Apply, EffectAt, Before, GenerationAt, MonitorsAfter, AnswerAt, Rearms, MonitorAt;
    if i < j {
      assert Calm(sp, sys, calls, i, t, a);
      StepOf(sp, sys, calls, i);
      MonitorStays(sp, sys, calls, i, t);
      ChangesCount(sp, Before(sp, sys, calls, i).mem, EffectAt(sp, sys, calls, i));
      EffectGeneration(sp, Before(sp, sys, calls, i).mem, EffectAt(sp, sys, calls, i), PageBase(a));
      CalmKeeps(sp, sys, calls, i + 1, j, t, a);
    }
  }

  lemma {:induction false} CalmBytes(sp: Space, sys: System, calls: seq<Call>, i: nat, j: nat, t: Thread, a: nat,
                                     x: nat)
    requires Legal(sp, sys.mem) && SaneRun(calls) && i <= j <= |calls| && PageBase(x) == PageBase(a)
    requires forall k :: i <= k < j ==> Calm(sp, sys, calls, k, t, a)
    ensures ByteAt(Before(sp, sys, calls, i).mem.frames, x) == ByteAt(Before(sp, sys, calls, j).mem.frames, x)
    decreases j - i
  {
    hide Apply, EffectAt, Before, ByteAt, MonitorsAfter, AnswerAt, Rearms, Housed, SparseRegions.Canonical;
    if i < j {
      assert Calm(sp, sys, calls, i, t, a);
      StepOf(sp, sys, calls, i);
      EffectByte(sp, Before(sp, sys, calls, i).mem, EffectAt(sp, sys, calls, i), x);
      CalmBytes(sp, sys, calls, i + 1, j, t, a, x);
    }
  }

  // ----- the theorem -----

  /**
   Over every run that starts with idle monitors, a store-exclusive finds its
   monitor holding exactly when some load-exclusive of the same thread, address
   and size is still being watched.
   */
  lemma ExclusiveExact(sp: Space, sys: System, calls: seq<Call>, j: nat, t: Thread, a: nat, n: nat)
    requires Legal(sp, sys.mem) && SaneRun(calls) && j <= |calls| && sys.monitors == map[]
    ensures Holding(Before(sp, sys, calls, j).mem, a, n, MonitorAt(sp, sys, calls, j, t))
       <==> exists i :: Watch(sp, sys, calls, i, j, t, a, n)
  {
    hide Legal, Apply, EffectAt, Before, GenerationAt, AnswerAt, MonitorAt;
    if Holding(Before(sp, sys, calls, j).mem, a, n, MonitorAt(sp, sys, calls, j, t)) {
      var i := HoldingWatched(sp, sys, calls, j, t, a, n);
    }
    if i :| Watch(sp, sys, calls, i, j, t, a, n) {
      WatchedHolds(sp, sys, calls, i, j, t, a, n);
    }
  }

  lemma HoldingWatched(sp: Space, sys: System, calls: seq<Call>, j: nat, t: Thread, a: nat, n: nat) returns (i: nat)
    requires Legal(sp, sys.mem) && SaneRun(calls) && j <= |calls| && sys.monitors == map[]
    requires Holding(Before(sp, sys, calls, j).mem, a, n, MonitorAt(sp, sys, calls, j, t))
    ensures Watch(sp, sys, calls, i, j, t, a, n)
  {
    hide Legal, Apply, EffectAt, Before, GenerationAt, AnswerAt, MonitorAt;
    i := MonitorOrigin(sp, sys, calls, j, t);
    MonitorSet(sp, sys, calls, i, t);
    LoadChangesNothing(sp, sys, calls, i);
    GenerationGrows(sp, sys, calls, i, j, PageBase(a));
  }

  lemma LoadChangesNothing(sp: Space, sys: System, calls: seq<Call>, i: nat)
    requires Legal(sp, sys.mem) && SaneRun(calls) && i < |calls| && calls[i].LoadExclusive?
    ensures Before(sp, sys, calls, i + 1).mem == Before(sp, sys, calls, i).mem
  {
    hide Legal, Before;
    StepOf(sp, sys, calls, i);
  }

  lemma WatchedHolds(sp: Space, sys: System, calls: seq<Call>, i: nat, j: nat, t: Thread, a: nat, n: nat)
    requires Legal(sp, sys.mem) && SaneRun(calls) && j <= |calls| && Watch(sp, sys, calls, i, j, t, a, n)
    ensures Holding(Before(sp, sys, calls, j).mem, a, n, MonitorAt(sp, sys, calls, j, t))
  {
    hide Legal, Apply, EffectAt, Before, GenerationAt, AnswerAt, MonitorAt, Calm;
    MonitorSet(sp, sys, calls, i, t);
    LoadChangesNothing(sp, sys, calls, i);
    CalmKeeps(sp, sys, calls, i + 1, j, t, a);
  }

  /** A reported store found the bytes its load-exclusive had returned, whatever ran in between. */
  lemma StoredSawLoaded(sp: Space, sys: System, calls: seq<Call>, j: nat)
    requires Legal(sp, sys.mem) && SaneRun(calls) && j < |calls| && sys.monitors == map[]
    requires calls[j].StoreExclusive? && AnswerAt(sp, sys, calls, j).stored
    ensures exists i ::
      && Watch(sp, sys, calls, i, j, calls[j].thread, calls[j].a, |calls[j].bytes|)
      && AnswerAt(sp, sys, calls, i).bytes == BytesAt(Before(sp, sys, calls, j).mem, calls[j].a, |calls[j].bytes|)
  {
    hide Apply, EffectAt, Before, GenerationAt, Holding, Watch, Housed, SparseRegions.Canonical;
    var t, a, n := calls[j].thread, calls[j].a, |calls[j].bytes|;
    var i := HoldingWatched(sp, sys, calls, j, t, a, n);
    WatchedBytes(sp, sys, calls, i, j, t, a, n);
  }

  lemma WatchedBytes(sp: Space, sys: System, calls: seq<Call>, i: nat, j: nat, t: Thread, a: nat, n: nat)
    requires Legal(sp, sys.mem) && SaneRun(calls) && j <= |calls|
    requires Watch(sp, sys, calls, i, j, t, a, n) && AtomicSize(a, n)
    ensures AnswerAt(sp, sys, calls, i).bytes == BytesAt(Before(sp, sys, calls, j).mem, a, n)
  {
    hide Apply, EffectAt, Before, ByteAt, Calm, Housed, SparseRegions.Canonical, LoadResult, PageBase, Offset;
    LoadChangesNothing(sp, sys, calls, i);
    var s, r := Before(sp, sys, calls, i).mem, Before(sp, sys, calls, j).mem;
    forall k | 0 <= k < n ensures BytesAt(s, a, n)[k] == BytesAt(r, a, n)[k] {
      AtomicSamePage(a, n, k);
      CalmBytes(sp, sys, calls, i + 1, j, t, a, a + k);
    }
    assert BytesAt(s, a, n) == BytesAt(r, a, n);
  }

  lemma AtomicSamePage(a: nat, n: nat, k: nat)
    requires AtomicSize(a, n) && k < n
    ensures PageBase(a + k) == PageBase(a)
  {
    hide Offset, PageBase;
    AtomicInPage(a, n);
    PageTable.SamePage(a, k);
  }

  /** A watched store-exclusive is never turned down for its monitor: only the access itself can fail. */
  lemma WatchedStores(sp: Space, sys: System, calls: seq<Call>, i: nat, j: nat)
    requires Legal(sp, sys.mem) && SaneRun(calls) && j < |calls| && calls[j].StoreExclusive?
    requires Watch(sp, sys, calls, i, j, calls[j].thread, calls[j].a, |calls[j].bytes|)
    requires AtomicSize(calls[j].a, |calls[j].bytes|)
    ensures AnswerAt(sp, sys, calls, j).status
         == WriteResult(sp, Before(sp, sys, calls, j).mem, calls[j].a, |calls[j].bytes|)
    ensures AnswerAt(sp, sys, calls, j).stored <==> AnswerAt(sp, sys, calls, j).status == Ok
  {
    hide Legal, Apply, EffectAt, Before, GenerationAt, Holding, Watch, WriteResult;
    WatchedHolds(sp, sys, calls, i, j, calls[j].thread, calls[j].a, |calls[j].bytes|);
  }
}
