/**
 Runs of the sparse memory: any sequence of calls by any number of threads,
 each with its own exclusive monitor. Two theorems hold of every run: the
 answers are those of a plain map, and a store-exclusive goes ahead exactly
 when nothing has touched its page or the mappings since its load-exclusive.
 */
module SparseRuns {
  import opened GuestTypes
  import opened SparseRegions
  import opened SparseScan
  import opened SparseFrames
  import opened SparseSpec
  import opened SparsePlain

  type Thread = nat

  datatype Call =
    | Map(a: nat, n: nat, prot: Prot, maxprot: Prot, replace: bool)
    | Unmap(a: nat, n: nat)
    | Protect(a: nat, n: nat, prot: Prot)
    | Prepare(a: nat, n: nat, permissions: Prot)
    | Read(a: nat, n: nat)
    | Write(a: nat, bytes: seq<byte>)
    | LoadExclusive(thread: Thread, a: nat, n: nat)
    | StoreExclusive(thread: Thread, a: nat, bytes: seq<byte>)
    | CompareExchange(a: nat, expected: seq<byte>, desired: seq<byte>)
    | AtomicUpdate(a: nat, n: nat, op: Atomic, operand: bv64)

  /** The status, the bytes read (previous bytes for an update) and whether an exclusive store happened. */
  datatype Answer = Answer(status: Status, bytes: seq<byte>, stored: bool)

  datatype System = System(mem: State, monitors: map<Thread, Monitor>)

  const IDLE: Monitor := Monitor(0, 0, 0, 0, false)

  function MonitorOf(ms: map<Thread, Monitor>, t: Thread): Monitor {
    if t in ms then ms[t] else IDLE
  }

  ghost predicate Sane(call: Call) {
    call.CompareExchange? ==> |call.expected| == |call.desired|
  }

  // ----- what a call does to the memory -----

  /** The only four things that happen to a state. */
  datatype Effect =
    | Nothing
    | Prepares(a: nat, n: nat, permissions: Prot)
    | Writes(a: nat, bytes: seq<byte>)
    | Changes(c: Change)

  ghost function EffectOf(sp: Space, sys: System, call: Call): Effect
    requires Whole(sys.mem.frames)
  {
    var s := sys.mem;
    match call
    case Map(a, n, prot, maxprot, replace) =>
      if ChangeResult(sp, s, a, n, prot, maxprot, replace, MAP) == Ok
      then Changes(Change(MAP, a, a + n, Attr(prot, maxprot))) else Nothing
    case Unmap(a, n) =>
      if ChangeResult(sp, s, a, n, 0, 0, false, UNMAP) == Ok
      then Changes(Change(UNMAP, a, a + n, Attr(0, 0))) else Nothing
    case Protect(a, n, prot) =>
      if ChangeResult(sp, s, a, n, prot, 7, false, PROTECT) == Ok
      then Changes(Change(PROTECT, a, a + n, Attr(prot, 7))) else Nothing
    case Prepare(a, n, permissions) => Prepares(a, n, permissions)
    case Read(_, _) => Nothing
    case Write(a, bytes) =>
      if WriteResult(sp, s, a, |bytes|) == Ok then Writes(a, bytes) else Nothing
    case LoadExclusive(_, _, _) => Nothing
    case StoreExclusive(t, a, bytes) =>
      if Stores(sp, s, a, |bytes|, MonitorOf(sys.monitors, t)) then Writes(a, bytes) else Nothing
    case CompareExchange(a, expected, desired) =>
      if CasResult(sp, s, a, expected) == Ok && BytesAt(s, a, |expected|) == expected
      then Writes(a, desired)
      else Nothing
    case AtomicUpdate(a, n, op, operand) =>
      if AtomicResult(sp, s, a, n) == Ok then Writes(a, AtomicBytes(op, BytesAt(s, a, n), operand)) else Nothing
  }

  ghost function Apply(sp: Space, s: State, e: Effect): State
    requires Whole(s.frames)
  {
    match e
    case Nothing => s
    case Prepares(a, n, permissions) => AfterPrepare(sp, s, a, n, permissions)
    case Writes(a, bytes) => WriteState(s, a, bytes)
    case Changes(c) => ChangeState(s, c)
  }

  ghost function MonitorsAfter(sp: Space, sys: System, call: Call): map<Thread, Monitor> {
    match call
    case LoadExclusive(t, a, n) => sys.monitors[t := AfterLoad(sp, sys.mem, a, n, MonitorOf(sys.monitors, t))]
    case StoreExclusive(t, a, bytes) =>
      sys.monitors[t := MonitorAfterStore(sp, sys.mem, a, |bytes|, MonitorOf(sys.monitors, t))]
    case _ => sys.monitors
  }

  /** One atomic call. */
  ghost function Step(sp: Space, sys: System, call: Call): System
    requires Whole(sys.mem.frames)
  {
    System(Apply(sp, sys.mem, EffectOf(sp, sys, call)), MonitorsAfter(sp, sys, call))
  }

  ghost function AnswerOf(sp: Space, sys: System, call: Call): Answer
    requires Whole(sys.mem.frames)
  {
    var s := sys.mem;
    match call
    case Map(a, n, prot, maxprot, replace) => Answer(ChangeResult(sp, s, a, n, prot, maxprot, replace, MAP), [], false)
    case Unmap(a, n) => Answer(ChangeResult(sp, s, a, n, 0, 0, false, UNMAP), [], false)
    case Protect(a, n, prot) => Answer(ChangeResult(sp, s, a, n, prot, 7, false, PROTECT), [], false)
    case Prepare(a, n, permissions) => Answer(PrepareResult(sp, s, a, n, permissions), [], false)
    case Read(a, n) =>
      var r := AccessResult(sp, s, a, n, READ);
      Answer(r, if r == Ok then BytesAt(s, a, n) else [], false)
    case Write(a, bytes) => Answer(WriteResult(sp, s, a, |bytes|), [], false)
    case LoadExclusive(t, a, n) =>
      var r := LoadResult(sp, s, a, n);
      Answer(r, if r == Ok then BytesAt(s, a, n) else [], false)
    case StoreExclusive(t, a, bytes) =>
      var m := MonitorOf(sys.monitors, t);
      Answer(StoreResult(sp, s, a, |bytes|, m), [], Stores(sp, s, a, |bytes|, m))
    case CompareExchange(a, expected, desired) =>
      var r := CasResult(sp, s, a, expected);
      Answer(r, if r == Ok then BytesAt(s, a, |expected|) else [], false)
    case AtomicUpdate(a, n, op, operand) =>
      var r := AtomicResult(sp, s, a, n);
      Answer(r, if r == Ok then BytesAt(s, a, n) else [], false)
  }

  // ----- every step keeps the state legal -----

  /** What is known of an effect when it happens. */
  ghost predicate Proper(sp: Space, s: State, e: Effect) {
    match e
    case Nothing => true
    case Prepares(_, _, _) => true
    case Writes(a, bytes) => WriteResult(sp, s, a, |bytes|) == Ok
    case Changes(c) => ChangeFits(c, sp.base, sp.end) && |Changed(s.rs, c)| <= REGION_LIMIT
  }

  lemma ChangeProper(sp: Space, sys: System, call: Call)
    requires Legal(sp, sys.mem) && Sane(call) && (call.Map? || call.Unmap? || call.Protect?)
    ensures Proper(sp, sys.mem, EffectOf(sp, sys, call))
  {
    hide Lookup, Changed, Refusal, Exceeds, Access, Canonical, Housed, Backable, WriteResult;
  }

  lemma UpdateProper(sp: Space, sys: System, call: Call)
    requires Legal(sp, sys.mem) && Sane(call) && (call.CompareExchange? || call.AtomicUpdate?)
    ensures Proper(sp, sys.mem, EffectOf(sp, sys, call))
  {
    hide Lookup, Changed, Access, Canonical, Housed, Allows, BytesAt, AtomicBytes, Backable, ChangeResult;
    if call.CompareExchange? && EffectOf(sp, sys, call) != Nothing {
      BothPermissions(sp, sys.mem, call.a, |call.expected|);
    }
  }

  lemma StoreProper(sp: Space, sys: System, call: Call)
    requires Legal(sp, sys.mem) && Sane(call) && !call.CompareExchange? && !call.AtomicUpdate? && !call.Map?
    requires !call.Unmap? && !call.Protect?
    ensures Proper(sp, sys.mem, EffectOf(sp, sys, call))
  {
    hide Lookup, Changed, Access, Canonical, Housed, Allows, BytesAt, Backable, ChangeResult;
  }

  lemma EffectProper(sp: Space, sys: System, call: Call)
    requires Legal(sp, sys.mem) && Sane(call)
    ensures Proper(sp, sys.mem, EffectOf(sp, sys, call))
  {
    hide Legal, Sane, Proper, EffectOf;
    if call.Map? || call.Unmap? || call.Protect? {
      ChangeProper(sp, sys, call);
    } else if call.CompareExchange? || call.AtomicUpdate? {
      UpdateProper(sp, sys, call);
    } else {
      StoreProper(sp, sys, call);
    }
  }

  lemma ApplyKeepsLegal(sp: Space, s: State, e: Effect)
    requires Legal(sp, s) && Proper(sp, s, e)
    ensures Legal(sp, Apply(sp, s, e))
  {
    hide Legal, WriteResult, WriteState, ChangeState, AfterPrepare, Changed;
    match e
    case Nothing =>
    case Prepares(a, n, permissions) => PrepareKeepsLegal(sp, s, a, n, permissions);
    case Writes(a, bytes) => WriteKeepsLegal(sp, s, a, bytes);
    case Changes(c) => ChangeKeepsLegal(sp, s, c);
  }

  lemma StepKeepsLegal(sp: Space, sys: System, call: Call)
    requires Legal(sp, sys.mem) && Sane(call)
    ensures Legal(sp, Step(sp, sys, call).mem)
  {
    hide EffectOf, Apply, Proper, Housed, Canonical;
    EffectProper(sp, sys, call);
    ApplyKeepsLegal(sp, sys.mem, EffectOf(sp, sys, call));
  }

  // ----- runs -----

  ghost predicate SaneRun(calls: seq<Call>) {
    forall i :: 0 <= i < |calls| ==> Sane(calls[i])
  }

  /** The system before call `i` of a run. */
  ghost function Before(sp: Space, sys: System, calls: seq<Call>, i: nat): (r: System)
    requires Legal(sp, sys.mem) && SaneRun(calls) && i <= |calls|
    ensures Legal(sp, r.mem)
    decreases i
  {
    if i == 0 then sys
    else
      var r := Before(sp, sys, calls, i - 1);
      StepKeepsLegal(sp, r, calls[i - 1]);
      Step(sp, r, calls[i - 1])
  }

  ghost function AnswerAt(sp: Space, sys: System, calls: seq<Call>, i: nat): Answer
    requires Legal(sp, sys.mem) && SaneRun(calls) && i < |calls|
  {
    AnswerOf(sp, Before(sp, sys, calls, i), calls[i])
  }

  ghost function EffectAt(sp: Space, sys: System, calls: seq<Call>, i: nat): Effect
    requires Legal(sp, sys.mem) && SaneRun(calls) && i < |calls|
  {
    EffectOf(sp, Before(sp, sys, calls, i), calls[i])
  }

  // ----- the answers are those of a plain map -----

  ghost function PlainVerdict(sp: Space, m: Plain, a: nat, n: nat, permission: Prot): Status {
    if SparseSpec.Contains(sp, a, n) then PlainAccess(m, a, a + n, permission) else Invalid
  }

  /** A mapping call on the plain map; `NoMem` is the one refusal that depends on more than the map. */
  ghost predicate PlainMapping(sp: Space, m: Plain, a: nat, n: nat, attr: Attr, replace: bool, op: Operation,
                               status: Status, m': Plain)
  {
    var c := Change(op, a, a + n, attr);
    if BadChange(sp, a, n, attr.prot, attr.maxprot) then status == Invalid && m' == m
    else if PlainRefusal(m, c, replace) != Ok then status == PlainRefusal(m, c, replace) && m' == m
    else (status == Ok && m' == PlainChange(m, c)) || (status == NoMem && m' == m)
  }

  /** A write of `bytes` given the verdict on its range. */
  ghost predicate PlainStore(m: Plain, verdict: Status, a: nat, bytes: seq<byte>, status: Status, m': Plain) {
    if verdict != Ok then status == verdict && m' == m
    else (status == Ok && m' == PlainWrite(m, a, bytes)) || (status == NoMem && bytes != [] && m' == m)
  }

  ghost predicate PlainNext(sp: Space, m: Plain, call: Call, answer: Answer, m': Plain) {
    match call
    case Map(a, n, prot, maxprot, replace) =>
      PlainMapping(sp, m, a, n, Attr(prot, maxprot), replace, MAP, answer.status, m')
    case Unmap(a, n) => PlainMapping(sp, m, a, n, Attr(0, 0), false, UNMAP, answer.status, m')
    case Protect(a, n, prot) => PlainMapping(sp, m, a, n, Attr(prot, 7), false, PROTECT, answer.status, m')
    case Prepare(a, n, permissions) =>
      var verdict := if Exceeds(permissions, READ | WRITE) then Invalid else PlainVerdict(sp, m, a, n, permissions);
      && m' == m
      && (answer.status == verdict || (verdict == Ok && answer.status == NoMem && n != 0 && Allows(permissions, WRITE)))
    case Read(a, n) =>
      && m' == m && answer.status == PlainVerdict(sp, m, a, n, READ)
      && (answer.status == Ok ==> answer.bytes == PlainRead(m, a, n))
    case Write(a, bytes) => PlainStore(m, PlainVerdict(sp, m, a, |bytes|, WRITE), a, bytes, answer.status, m')
    case LoadExclusive(_, a, n) =>
      && m' == m && answer.status == (if AtomicSize(a, n) then PlainVerdict(sp, m, a, n, READ) else Invalid)
      && (answer.status == Ok ==> answer.bytes == PlainRead(m, a, n))
    case StoreExclusive(_, a, bytes) =>
      if !AtomicSize(a, |bytes|) then answer.status == Invalid && !answer.stored && m' == m
      else if answer.stored then
        answer.status == Ok && PlainVerdict(sp, m, a, |bytes|, WRITE) == Ok && m' == PlainWrite(m, a, bytes)
      else m' == m && answer.status in {Ok, NoMem, PlainVerdict(sp, m, a, |bytes|, WRITE)}
    case CompareExchange(a, expected, desired) =>
      var verdict := if AtomicSize(a, |expected|) then PlainVerdict(sp, m, a, |expected|, READ | WRITE) else Invalid;
      && (answer.status == Ok ==> answer.bytes == PlainRead(m, a, |expected|))
      && (if verdict == Ok && PlainRead(m, a, |expected|) != expected then answer.status == Ok && m' == m
          else PlainStore(m, verdict, a, desired, answer.status, m'))
    case AtomicUpdate(a, n, op, operand) =>
      if n > 8 || !AtomicSize(a, n) then answer.status == Invalid && m' == m
      else if PlainVerdict(sp, m, a, n, READ) != Ok then answer.status == PlainVerdict(sp, m, a, n, READ) && m' == m
      else
        && (answer.status == Ok ==> answer.bytes == PlainRead(m, a, n))
        && PlainStore(m, PlainVerdict(sp, m, a, n, WRITE), a, AtomicBytes(op, PlainRead(m, a, n), operand),
                      answer.status, m')
  }

  /** Whatever a call answers, only `Ok` may come with a change of the plain map. */
  lemma ErrorsChangeNothing(sp: Space, m: Plain, call: Call, answer: Answer, m': Plain)
    requires PlainNext(sp, m, call, answer, m') && answer.status != Ok
    ensures m' == m
  {
    hide PlainChange, PlainWrite, PlainRefusal, PlainAccess, PlainRead;
  }

  lemma VerdictOf(sp: Space, s: State, a: nat, n: nat, permission: Prot)
    requires Legal(sp, s)
    ensures AccessResult(sp, s, a, n, permission) == PlainVerdict(sp, View(s), a, n, permission)
    ensures AccessResult(sp, s, a, n, permission) == Ok ==> BytesAt(s, a, n) == PlainRead(View(s), a, n)
  {
    hide Housed, Canonical, View, Access, PlainAccess, BytesAt, PlainRead;
    ViewAccess(sp, s, a, a + n, permission);
    if Access(s.rs, a, a + n, permission) == Ok { ViewRead(sp, s, a, n, permission); }
  }

  lemma MappingPlain(sp: Space, s: State, a: nat, n: nat, prot: Prot, maxprot: Prot, replace: bool, op: Operation)
    requires Legal(sp, s)
    ensures Whole(AfterChange(sp, s, a, n, prot, maxprot, replace, op).frames)
    ensures PlainMapping(sp, View(s), a, n, Attr(prot, maxprot), replace, op,
                         ChangeResult(sp, s, a, n, prot, maxprot, replace, op),
                         View(AfterChange(sp, s, a, n, prot, maxprot, replace, op)))
  {
    hide Housed, Canonical, View, Changed, Refusal, PlainRefusal, PlainChange, Exceeds, ChangeState;
    var c := Change(op, a, a + n, Attr(prot, maxprot));
    if !BadChange(sp, a, n, prot, maxprot) {
      ViewRefusal(sp, s, c, replace);
      ViewChange(sp, s, c);
    }
  }

  lemma WritePlain(sp: Space, s: State, a: nat, bytes: seq<byte>)
    requires Legal(sp, s)
    ensures PlainStore(View(s), PlainVerdict(sp, View(s), a, |bytes|, WRITE), a, bytes,
                       WriteResult(sp, s, a, |bytes|), View(AfterWrite(sp, s, a, bytes)))
  {
    hide Housed, Canonical, View, PlainVerdict, PlainWrite, WriteState, AccessResult, Backable;
    VerdictOf(sp, s, a, |bytes|, WRITE);
    ViewWrite(sp, s, a, bytes);
  }

  lemma PreparePlain(sp: Space, s: State, a: nat, n: nat, permissions: Prot)
    requires Legal(sp, s)
    ensures Whole(AfterPrepare(sp, s, a, n, permissions).frames)
    ensures View(AfterPrepare(sp, s, a, n, permissions)) == View(s)
  {
    hide Housed, Canonical, View, AccessResult, Backable, PrepareFrames, Touched;
    ViewPrepare(sp, s, Touched(a, n));
  }

  lemma StorePlain(sp: Space, sys: System, call: Call)
    requires Legal(sp, sys.mem) && call.StoreExclusive? && Whole(Step(sp, sys, call).mem.frames)
    ensures PlainNext(sp, View(sys.mem), call, AnswerOf(sp, sys, call), View(Step(sp, sys, call).mem))
  {
    hide Legal, View, PlainVerdict, PlainWrite, WriteState, AccessResult, Backable, Holding;
    VerdictOf(sp, sys.mem, call.a, |call.bytes|, WRITE);
    ViewWrite(sp, sys.mem, call.a, call.bytes);
  }

  lemma CasPlain(sp: Space, sys: System, call: Call)
    requires Legal(sp, sys.mem) && call.CompareExchange? && Sane(call) && Whole(Step(sp, sys, call).mem.frames)
    ensures PlainNext(sp, View(sys.mem), call, AnswerOf(sp, sys, call), View(Step(sp, sys, call).mem))
  {
    hide Legal, View, PlainVerdict, PlainWrite, WriteState, AccessResult, Backable, BytesAt, PlainRead;
    VerdictOf(sp, sys.mem, call.a, |call.expected|, READ | WRITE);
    ViewWrite(sp, sys.mem, call.a, call.desired);
  }

  lemma AtomicPlain(sp: Space, sys: System, call: Call)
    requires Legal(sp, sys.mem) && call.AtomicUpdate? && Whole(Step(sp, sys, call).mem.frames)
    ensures PlainNext(sp, View(sys.mem), call, AnswerOf(sp, sys, call), View(Step(sp, sys, call).mem))
  {
    hide Canonical, Housed, View, PlainVerdict, PlainWrite, WriteState, AccessResult, Backable, BytesAt, PlainRead,
         AtomicBytes;
    VerdictOf(sp, sys.mem, call.a, call.n, READ);
    VerdictOf(sp, sys.mem, call.a, call.n, WRITE);
    if AtomicResult(sp, sys.mem, call.a, call.n) == Ok {
      ViewWrite(sp, sys.mem, call.a, AtomicBytes(call.op, BytesAt(sys.mem, call.a, call.n), call.operand));
    }
  }

  /** Every call of a legal system is a step of the plain map. */
  lemma StepPlain(sp: Space, sys: System, call: Call)
    requires Legal(sp, sys.mem) && Sane(call) && Whole(Step(sp, sys, call).mem.frames)
    ensures PlainNext(sp, View(sys.mem), call, AnswerOf(sp, sys, call), View(Step(sp, sys, call).mem))
  {
    hide Legal, View, PlainVerdict, PlainMapping, PlainStore, ChangeResult, ChangeState, WriteResult, WriteState,
         AccessResult,
      Backable, BytesAt, PlainRead, AtomicBytes, AfterPrepare, Holding;
    match call
    case Map(a, n, prot, maxprot, replace) => MappingPlain(sp, sys.mem, a, n, prot, maxprot, replace, MAP);
    case Unmap(a, n) => MappingPlain(sp, sys.mem, a, n, 0, 0, false, UNMAP);
    case Protect(a, n, prot) => MappingPlain(sp, sys.mem, a, n, prot, 7, false, PROTECT);
    case Prepare(a, n, permissions) =>
      VerdictOf(sp, sys.mem, a, n, permissions);
      PreparePlain(sp, sys.mem, a, n, permissions);
    case Read(a, n) => VerdictOf(sp, sys.mem, a, n, READ);
    case Write(a, bytes) => WritePlain(sp, sys.mem, a, bytes);
    case LoadExclusive(_, a, n) => VerdictOf(sp, sys.mem, a, n, READ);
    case StoreExclusive(_, _, _) => StorePlain(sp, sys, call);
    case CompareExchange(_, _, _) => CasPlain(sp, sys, call);
    case AtomicUpdate(_, _, _, _) => AtomicPlain(sp, sys, call);
  }

  /** Over every run, each answer is the plain map's, and so is what it leaves behind. */
  lemma RunPlain(sp: Space, sys: System, calls: seq<Call>, i: nat)
    requires Legal(sp, sys.mem) && SaneRun(calls) && i < |calls|
    ensures PlainNext(sp, View(Before(sp, sys, calls, i).mem), calls[i], AnswerAt(sp, sys, calls, i),
                      View(Before(sp, sys, calls, i + 1).mem))
  {
    hide View, PlainNext, AnswerOf, Step, Canonical, Housed;
    var r := Before(sp, sys, calls, i);
    StepKeepsLegal(sp, r, calls[i]);
    StepPlain(sp, r, calls[i]);
  }
}
