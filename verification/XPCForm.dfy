/**
 Remote XPC values and the bytes they stand for
 (authorization/Transport/RemoteXPCWire.swift:5-17, 78-127).
 */
module XPCForm {
  import opened Octets

  const MAX_PAYLOAD: nat := 1_048_576
  const MAX_NODES: nat := 16_384
  const MAX_DEPTH: nat := 32

  type i64 = x: int | -0x8000_0000_0000_0000 <= x < 0x8000_0000_0000_0000

  predicate Tail(b: octet) { 0x80 <= b <= 0xBF }

  /** Well-formed UTF-8 (section 4 of RFC 3629). */
  predicate Utf8(s: seq<octet>) {
    if s == [] then true
    else if s[0] < 0x80 then Utf8(s[1..])
    else if 0xC2 <= s[0] <= 0xDF then |s| >= 2 && Tail(s[1]) && Utf8(s[2..])
    else if 0xE0 <= s[0] <= 0xEF then
      && |s| >= 3 && Tail(s[1]) && Tail(s[2])
      && (s[0] == 0xE0 ==> s[1] >= 0xA0) && (s[0] == 0xED ==> s[1] <= 0x9F) && Utf8(s[3..])
    else if 0xF0 <= s[0] <= 0xF4 then
      && |s| >= 4 && Tail(s[1]) && Tail(s[2]) && Tail(s[3])
      && (s[0] == 0xF0 ==> s[1] >= 0x90) && (s[0] == 0xF4 ==> s[1] <= 0x8F)
      && Utf8(s[4..])
    else false
  }

  /** A string, as its UTF-8 bytes. */
  type Text = s: seq<octet> | Utf8(s) witness []

  /** Doubles are their bit patterns. */
  datatype Value =
    | Null | Bool(flag: bool) | Int(number: i64) | UInt(natural: u64) | Double(bits: u64) | Date(time: u64)
    | Data(data: seq<octet>) | Str(text: Text) | Uuid(uuid: seq<octet>)
    | Array(values: seq<Value>) | Dictionary(entries: map<Text, Value>)

  // ----- the order of keys -----

  predicate Before(a: seq<octet>, b: seq<octet>) {
    if b == [] then false
    else if a == [] then true
    else a[0] < b[0] || (a[0] == b[0] && Before(a[1..], b[1..]))
  }

  lemma {:induction false} BeforeTotal(a: seq<octet>, b: seq<octet>)
    ensures a == b || Before(a, b) || Before(b, a)
  {
    if a != [] && b != [] && a[0] == b[0] {
      BeforeTotal(a[1..], b[1..]);
      assert a == [a[0]] + a[1..] && b == [b[0]] + b[1..];
    }
  }

  lemma {:induction false} BeforeTransitive(a: seq<octet>, b: seq<octet>, c: seq<octet>)
    requires Before(a, b) && Before(b, c)
    ensures Before(a, c)
  {
    if a != [] && a[0] == b[0] == c[0] { BeforeTransitive(a[1..], b[1..], c[1..]); }
  }

  lemma {:induction false} BeforeIrreflexive(a: seq<octet>)
    ensures !Before(a, a)
  {
    if a != [] { BeforeIrreflexive(a[1..]); }
  }

  predicate Least(k: Text, s: set<Text>) {
    k in s && forall x :: x in s ==> x == k || Before(k, x)
  }

  lemma {:induction false} LeastExists(s: set<Text>)
    requires s != {}
    ensures exists k :: Least(k, s)
  {
    hide Before;
    var x :| x in s;
    var rest := s - {x};
    if rest == {} {
      assert s == {x};
      assert Least(x, s);
    } else {
      LeastExists(rest);
      var k: Text :| Least(k, rest);
      BeforeTotal(x, k);
      if Before(x, k) {
        forall y | y in s ensures y == x || Before(x, y) {
          if y != x && y != k {
            assert y in rest;
            BeforeTransitive(x, k, y);
          }
        }
        assert Least(x, s);
      } else {
        assert Least(k, s);
      }
    }
  }

  lemma LeastUnique(k: Text, l: Text, s: set<Text>)
    requires Least(k, s) && Least(l, s)
    ensures k == l
  {
    if k != l {
      BeforeTransitive(k, l, k);
      BeforeIrreflexive(k);
    }
  }

  predicate Increasing(keys: seq<Text>) {
    forall i, j :: 0 <= i < j < |keys| ==> Before(keys[i], keys[j]) && keys[i] != keys[j]
  }

  lemma LeastFirst(k: Text, s: set<Text>, rest: seq<Text>)
    requires Least(k, s) && Increasing(rest) && forall x :: x in rest <==> x in s - {k}
    ensures Increasing([k] + rest) && forall x :: x in [k] + rest <==> x in s
  {
    hide Before;
    var keys := [k] + rest;
    forall i, j | 0 <= i < j < |keys| ensures Before(keys[i], keys[j]) && keys[i] != keys[j] {
      if i == 0 { assert keys[j] in rest; } else { assert keys[i] == rest[i - 1] && keys[j] == rest[j - 1]; }
    }
  }

  /** The keys in increasing order. */
  ghost function Ordered(s: set<Text>): (keys: seq<Text>)
    ensures |keys| == |s| && forall k :: k in keys <==> k in s
    ensures Increasing(keys)
    decreases |s|
  {
    if s == {} then []
    else
      LeastExists(s);
      var k: Text :| Least(k, s);
      LeastFirst(k, s, Ordered(s - {k}));
      [k] + Ordered(s - {k})
  }

  // ----- bytes -----

  function Padding(length: nat): seq<octet> { Blank((4 - length % 4) % 4) }

  function Kind(v: Value): nat {
    match v
    case Null => 0x1000
    case Bool(_) => 0x2000
    case Int(_) => 0x3000
    case UInt(_) => 0x4000
    case Double(_) => 0x5000
    case Date(_) => 0x7000
    case Data(_) => 0x8000
    case Str(_) => 0x9000
    case Uuid(_) => 0xa000
    case Array(_) => 0xe000
    case Dictionary(_) => 0xf000
  }

  function Pattern(n: i64): u64 { if n < 0 then n + TWO64 else n }

  /** Bytes preceded by their length and padded to a multiple of four. */
  function Counted(b: seq<octet>): seq<octet> { Spread(|b|, 4) + b + Padding(|b|) }

  function Ended(s: Text): seq<octet> { s + [0] }

  function KeyForm(k: Text): seq<octet> { Ended(k) + Padding(|k| + 1) }

  /** A container: the length of what follows it, the number of items, the items. */
  function Boxed(count: nat, items: seq<octet>): seq<octet> { Spread(|items| + 4, 4) + (Spread(count, 4) + items) }

  ghost function Form(v: Value): seq<octet>
    decreases v, 1, 0
  {
    Spread(Kind(v), 4) + Body(v)
  }

  ghost function Body(v: Value): seq<octet>
    decreases v, 0, 1, 0
  {
    match v
    case Null => []
    case Bool(b) => Spread(if b then 1 else 0, 4)
    case Int(n) => Spread(Pattern(n), 8)
    case UInt(n) => Spread(n, 8)
    case Double(n) => Spread(n, 8)
    case Date(n) => Spread(n, 8)
    case Data(d) => Counted(d)
    case Str(s) => Counted(Ended(s))
    case Uuid(d) => d
    case Array(values) => Boxed(|values|, Items(v, |values|))
    case Dictionary(entries) => Boxed(|entries|, Entries(v, Ordered(entries.Keys), |entries|))
  }

  /** The first `n` values of an array. */
  ghost function Items(v: Value, n: nat): seq<octet>
    requires v.Array? && n <= |v.values|
    decreases v, 0, 0, n
  {
    if n == 0 then [] else Items(v, n - 1) + Form(v.values[n - 1])
  }

  predicate Keys(v: Value, keys: seq<Text>) {
    v.Dictionary? && forall k :: k in keys ==> k in v.entries
  }

  /** The first `n` entries of a dictionary whose keys are taken in the order of `keys`. */
  ghost function Entries(v: Value, keys: seq<Text>, n: nat): seq<octet>
    requires Keys(v, keys) && n <= |keys|
    decreases v, 0, 0, n
  {
    if n == 0 then [] else Entries(v, keys, n - 1) + (KeyForm(keys[n - 1]) + Form(v.entries[keys[n - 1]]))
  }

  // ----- limits -----

  ghost function Nodes(v: Value): (n: nat)
    ensures n > 0
    decreases v, 1, 0
  {
    match v
    case Array(values) => 1 + ItemNodes(v, |values|)
    case Dictionary(entries) => 1 + EntryNodes(v, Ordered(entries.Keys), |entries|)
    case _ => 1
  }

  ghost function ItemNodes(v: Value, n: nat): nat
    requires v.Array? && n <= |v.values|
    decreases v, 0, n
  {
    if n == 0 then 0 else ItemNodes(v, n - 1) + Nodes(v.values[n - 1])
  }

  ghost function EntryNodes(v: Value, keys: seq<Text>, n: nat): nat
    requires Keys(v, keys) && n <= |keys|
    decreases v, 0, n
  {
    if n == 0 then 0 else EntryNodes(v, keys, n - 1) + Nodes(v.entries[keys[n - 1]])
  }

  predicate NoZero(s: seq<octet>) { forall i :: 0 <= i < |s| ==> s[i] != 0 }

  /** Nowhere too deep, every UUID sixteen bytes, no NUL in a string. */
  ghost predicate Legal(v: Value, depth: nat)
    decreases v
  {
    depth <= MAX_DEPTH
    && match v
       case Str(s) => NoZero(s)
       case Uuid(d) => |d| == 16
       case Array(values) => forall i :: 0 <= i < |values| ==> Legal(values[i], depth + 1)
       case Dictionary(entries) => forall k :: k in entries ==> NoZero(k) && Legal(entries[k], depth + 1)
       case _ => true
  }

  /** What can still be written after `size` bytes and `nodes` values. */
  ghost predicate Fits(v: Value, depth: nat, nodes: nat, size: nat) {
    Legal(v, depth) && nodes + Nodes(v) <= MAX_NODES && size + |Form(v)| <= MAX_PAYLOAD
  }

  lemma ItemsEmpty(v: Value)
    requires v.Array?
    ensures Items(v, 0) == [] && ItemNodes(v, 0) == 0
  {
  }

  lemma ItemsStep(v: Value, i: nat)
    requires v.Array? && i < |v.values|
    ensures Items(v, i + 1) == Items(v, i) + Form(v.values[i])
    ensures ItemNodes(v, i + 1) == ItemNodes(v, i) + Nodes(v.values[i])
  {
  }

  lemma EntriesEmpty(v: Value, keys: seq<Text>)
    requires Keys(v, keys)
    ensures Entries(v, keys, 0) == [] && EntryNodes(v, keys, 0) == 0
  {
  }

  lemma EntriesStep(v: Value, keys: seq<Text>, i: nat)
    requires Keys(v, keys) && i < |keys|
    ensures Entries(v, keys, i + 1) == Entries(v, keys, i) + (KeyForm(keys[i]) + Form(v.entries[keys[i]]))
    ensures EntryNodes(v, keys, i + 1) == EntryNodes(v, keys, i) + Nodes(v.entries[keys[i]])
  {
  }

  lemma {:induction false} ItemsGrow(v: Value, m: nat, n: nat)
    requires v.Array? && m <= n <= |v.values|
    ensures |Items(v, m)| <= |Items(v, n)| && ItemNodes(v, m) + n - m <= ItemNodes(v, n)
    decreases n
  {
    if m < n { ItemsGrow(v, m, n - 1); }
  }

  lemma {:induction false} EntriesGrow(v: Value, keys: seq<Text>, m: nat, n: nat)
    requires Keys(v, keys) && m <= n <= |keys|
    ensures |Entries(v, keys, m)| <= |Entries(v, keys, n)| && EntryNodes(v, keys, m) + n - m <= EntryNodes(v, keys, n)
    decreases n
  {
    if m < n { EntriesGrow(v, keys, m, n - 1); }
  }

  lemma BoxedSize(count: nat, items: seq<octet>)
    ensures |Boxed(count, items)| == 8 + |items|
  {
  }
}
