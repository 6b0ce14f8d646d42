/**
 The sparse memory as a value: what every public call of
 runtime/GuestSparseMemory.c does to the region table, the resident pages, the
 write counter and the mapping counter, and what it answers.
 */
module SparseSpec {
  import opened GuestTypes
  import opened SparseRegions
  import opened SparseScan
  import opened SparseFrames
  import PageTable

  /** The fixed part of a space: its addresses and how many pages it can back. */
  datatype Space = Space(base: nat, end: nat, capacity: nat)

  predicate Sound(sp: Space) {
    && PAGE <= sp.base <= sp.end <= U64_MAX && sp.base % PAGE == 0 && sp.end % PAGE == 0
    && 0 < sp.capacity
  }

  datatype State = State(rs: seq<Region>, frames: map<nat, Frame>, writes: nat, changes: nat)

  /** Every resident page is a page of the space, mapped, and stamped no later than the last write. */
  ghost predicate Housed(sp: Space, s: State) {
    forall p :: p in s.frames ==>
      p % PAGE == 0 && sp.base <= p < sp.end && MappedAt(s.rs, p) && s.frames[p].generation <= s.writes
  }

  ghost predicate Legal(sp: Space, s: State) {
    && Sound(sp) && Canonical(s.rs, sp.base, sp.end) && |s.rs| <= REGION_LIMIT
    && Whole(s.frames) && |s.frames| <= sp.capacity && Housed(sp, s)
  }

  predicate Contains(sp: Space, a: nat, n: nat) {
    a >= sp.base && a <= sp.end && n <= sp.end - a
  }

  // ----- mapping calls -----

  predicate BadChange(sp: Space, a: nat, n: nat, prot: Prot, maxprot: Prot) {
    !Aligned(a, n) || !Contains(sp, a, n) || Exceeds(maxprot, 7) || Exceeds(prot, maxprot)
  }

  ghost function ChangeResult(sp: Space, s: State, a: nat, n: nat, prot: Prot, maxprot: Prot, replace: bool,
                              op: Operation): Status
  {
    if BadChange(sp, a, n, prot, maxprot) then Invalid
    else
      var c := Change(op, a, a + n, Attr(prot, maxprot));
      if Refusal(s.rs, c, replace) != Ok then Refusal(s.rs, c, replace)
      else if |Changed(s.rs, c)| > REGION_LIMIT then NoMem
      else Ok
  }

  /** The table is rebuilt, pages of a mapped or unmapped range are discarded, and every monitor goes stale. */
  ghost function ChangeState(s: State, c: Change): State {
    s.(rs := Changed(s.rs, c),
       frames := if c.op == PROTECT then s.frames else Without(s.frames, c.start, c.end),
       changes := s.changes + 1)
  }

  ghost function AfterChange(sp: Space, s: State, a: nat, n: nat, prot: Prot, maxprot: Prot, replace: bool,
                             op: Operation): State
  {
    if ChangeResult(sp, s, a, n, prot, maxprot, replace, op) == Ok
    then ChangeState(s, Change(op, a, a + n, Attr(prot, maxprot)))
    else s
  }

  // ----- accesses -----

  ghost function AccessResult(sp: Space, s: State, a: nat, n: nat, permission: Prot): Status {
    if Contains(sp, a, n) then Access(s.rs, a, a + n, permission) else Invalid
  }

  ghost function BytesAt(s: State, a: nat, n: nat): (bytes: seq<byte>)
    requires Whole(s.frames)
    ensures |bytes| == n
  {
    seq(n, k requires 0 <= k < n => ByteAt(s.frames, a + k))
  }

  /** Whether the arena can back every missing page of the range. */
  ghost predicate Backable(sp: Space, s: State, a: nat, n: nat) {
    PageTable.Missing(a, n, s.frames.Keys) <= sp.capacity - |s.frames|
  }

  ghost function WriteResult(sp: Space, s: State, a: nat, n: nat): Status {
    var r := AccessResult(sp, s, a, n, WRITE);
    if r != Ok || n == 0 || Backable(sp, s, a, n) then r else NoMem
  }

  ghost function WriteState(s: State, a: nat, bytes: seq<byte>): (t: State)
    requires Whole(s.frames)
    ensures Whole(t.frames) && t.rs == s.rs
  {
    if bytes == [] then s
    else s.(frames := WriteFrames(s.frames, a, bytes, s.writes + 1), writes := s.writes + 1)
  }

  ghost function AfterWrite(sp: Space, s: State, a: nat, bytes: seq<byte>): State
    requires Whole(s.frames)
  {
    if WriteResult(sp, s, a, |bytes|) == Ok then WriteState(s, a, bytes) else s
  }

  ghost function PrepareResult(sp: Space, s: State, a: nat, n: nat, permissions: Prot): Status {
    if Exceeds(permissions, READ | WRITE) then Invalid
    else
      var r := AccessResult(sp, s, a, n, permissions);
      if r != Ok || n == 0 || !Allows(permissions, WRITE) || Backable(sp, s, a, n) then r else NoMem
  }

  ghost function AfterPrepare(sp: Space, s: State, a: nat, n: nat, permissions: Prot): State {
    if PrepareResult(sp, s, a, n, permissions) == Ok && n != 0 && Allows(permissions, WRITE)
    then s.(frames := PrepareFrames(s.frames, Touched(a, n)))
    else s
  }

  // ----- exclusive and atomic accesses -----

  predicate AtomicSize(a: nat, n: nat) {
    (n == 1 || n == 2 || n == 4 || n == 8 || n == 16) && a % n == 0
  }

  datatype Monitor = Monitor(address: nat, generation: nat, changes: nat, size: nat, valid: bool)

  ghost function LoadResult(sp: Space, s: State, a: nat, n: nat): Status {
    if AtomicSize(a, n) then AccessResult(sp, s, a, n, READ) else Invalid
  }

  ghost function AfterLoad(sp: Space, s: State, a: nat, n: nat, monitor: Monitor): Monitor {
    if LoadResult(sp, s, a, n) == Ok
    then Monitor(a, GenerationAt(s.frames, PageBase(a)), s.changes, n, true)
    else monitor
  }

  /** The monitor still vouches for `[a, a + n)`. */
  ghost predicate Holding(s: State, a: nat, n: nat, monitor: Monitor) {
    && monitor.valid && monitor.address == a && monitor.size == n
    && monitor.changes == s.changes && monitor.generation == GenerationAt(s.frames, PageBase(a))
  }

  ghost function StoreResult(sp: Space, s: State, a: nat, n: nat, monitor: Monitor): Status {
    if !AtomicSize(a, n) then Invalid
    else if Holding(s, a, n, monitor) then WriteResult(sp, s, a, n)
    else Ok
  }

  ghost predicate Stores(sp: Space, s: State, a: nat, n: nat, monitor: Monitor) {
    StoreResult(sp, s, a, n, monitor) == Ok && Holding(s, a, n, monitor)
  }

  ghost function AfterStore(sp: Space, s: State, a: nat, bytes: seq<byte>, monitor: Monitor): State
    requires Whole(s.frames)
  {
    if Stores(sp, s, a, |bytes|, monitor) then WriteState(s, a, bytes) else s
  }

  ghost function MonitorAfterStore(sp: Space, s: State, a: nat, n: nat, monitor: Monitor): Monitor {
    if StoreResult(sp, s, a, n, monitor) == Ok then monitor.(valid := false) else monitor
  }

  /** Compare-and-exchange needs both permissions even when the comparison fails. */
  ghost function CasResult(sp: Space, s: State, a: nat, expected: seq<byte>): Status
    requires Whole(s.frames)
  {
    var n := |expected|;
    if !AtomicSize(a, n) then Invalid
    else
      var r := AccessResult(sp, s, a, n, READ | WRITE);
      if r != Ok || BytesAt(s, a, n) != expected || Backable(sp, s, a, n) then r else NoMem
  }

  ghost function AfterCas(sp: Space, s: State, a: nat, expected: seq<byte>, desired: seq<byte>): State
    requires Whole(s.frames)
  {
    if CasResult(sp, s, a, expected) == Ok && BytesAt(s, a, |expected|) == expected
    then WriteState(s, a, desired)
    else s
  }

  datatype Atomic = ADD | CLEAR | XOR | SET | SIGNED_MAX | SIGNED_MIN | UNSIGNED_MAX | UNSIGNED_MIN | SWAP

  /** Little-endian value of at most eight bytes. */
  function Join(bytes: seq<byte>): bv64
    requires |bytes| <= 8
  {
    if bytes == [] then 0 else (Join(bytes[1..]) << 8) | (bytes[0] as bv64)
  }

  /** The `n` low bytes of a value, little-endian. */
  function Split(value: bv64, n: nat): (bytes: seq<byte>)
    ensures |bytes| == n
  {
    if n == 0 then [] else [(value & 255) as byte] + Split(value >> 8, n - 1)
  }

  function AtomicMask(n: nat): bv64
    requires 0 < n <= 8
  {
    if n == 8 then 0xFFFF_FFFF_FFFF_FFFF else ((1 as bv64) << (8 * n)) - 1
  }

  /** The value an atomic update leaves, from the old value and the operand cut to size. */
  function AtomicValue(op: Atomic, was: bv64, operand: bv64, n: nat): bv64
    requires 0 < n <= 8
  {
    var sign := (1 as bv64) << (8 * n - 1);
    match op
    case ADD => was + operand
    case CLEAR => was & !operand
    case XOR => was ^ operand
    case SET => was | operand
    case SIGNED_MAX => if (was ^ sign) > (operand ^ sign) then was else operand
    case SIGNED_MIN => if (was ^ sign) < (operand ^ sign) then was else operand
    case UNSIGNED_MAX => if was > operand then was else operand
    case UNSIGNED_MIN => if was < operand then was else operand
    case SWAP => operand
  }

  function AtomicBytes(op: Atomic, was: seq<byte>, operand: bv64): (bytes: seq<byte>)
    requires 0 < |was| <= 8
    ensures |bytes| == |was|
  {
    Split(AtomicValue(op, Join(was), operand & AtomicMask(|was|), |was|), |was|)
  }

  ghost function AtomicResult(sp: Space, s: State, a: nat, n: nat): Status {
    if n > 8 || !AtomicSize(a, n) then Invalid
    else if AccessResult(sp, s, a, n, READ) != Ok then AccessResult(sp, s, a, n, READ)
    else WriteResult(sp, s, a, n)
  }

  ghost function AfterAtomic(sp: Space, s: State, a: nat, n: nat, op: Atomic, operand: bv64): State
    requires Whole(s.frames)
  {
    if AtomicResult(sp, s, a, n) == Ok then WriteState(s, a, AtomicBytes(op, BytesAt(s, a, n), operand)) else s
  }

  /** What may be read and written together may be read, and may be written. */
  lemma BothPermissions(sp: Space, s: State, a: nat, n: nat)
    ensures AccessResult(sp, s, a, n, READ | WRITE) == Ok
        ==> AccessResult(sp, s, a, n, READ) == Ok && AccessResult(sp, s, a, n, WRITE) == Ok
  {
    hide Lookup;
    AccessOk(s.rs, a, a + n, READ | WRITE);
    AccessOk(s.rs, a, a + n, READ);
    AccessOk(s.rs, a, a + n, WRITE);
    assert forall p: Prot :: Allows(p, READ | WRITE) ==> Allows(p, READ) && Allows(p, WRITE);
  }

  /** An aligned access of at most 16 bytes stays inside one page. */
  lemma AtomicInPage(a: nat, n: nat)
    requires AtomicSize(a, n)
    ensures Offset(a) + n <= PAGE
  {
    var q, o := a / PAGE, a % PAGE;
    assert a == PAGE * q + o;
    if n == 16 { assert o == 16 * (a / 16 - 1024 * q); }
    else if n == 8 { assert o == 8 * (a / 8 - 2048 * q); }
    else if n == 4 { assert o == 4 * (a / 4 - 4096 * q); }
    else if n == 2 { assert o == 2 * (a / 2 - 8192 * q); }
  }
}
