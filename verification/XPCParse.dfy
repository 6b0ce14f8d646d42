/**
 What the recursive reader computes (authorization/Transport/RemoteXPCWire.swift:18-77),
 and that it reads back every form.
 */
module XPCParse {
  import opened Octets
  import opened XPCForm

  datatype Parsed<+T> = Got(value: T, at: nat, nodes: nat) | Bad

  function NumberAt(bytes: seq<octet>, at: nat, n: nat): nat
    requires at + n <= |bytes|
  {
    Little(bytes[at..at + n])
  }

  function WordAt(bytes: seq<octet>, at: nat): u64
    requires at + 8 <= |bytes|
  {
    LittleBelow(bytes[at..at + 8]);
    assert Power(8) == TWO64 by { assert Power(4) == 0x1_0000_0000; }
    NumberAt(bytes, at, 8)
  }

  function FromPattern(n: u64): i64 {
    if n < 0x8000_0000_0000_0000 then n else n - TWO64
  }

  function PadLength(length: nat): nat { (4 - length % 4) % 4 }

  predicate AllZero(bytes: seq<octet>, from: nat, to: nat)
    requires to <= |bytes|
  {
    forall i :: from <= i < to ==> bytes[i] == 0
  }

  /** Padding after `length` bytes that end at `at`: where it ends, if it is there and zero. */
  predicate Padded(bytes: seq<octet>, at: nat, length: nat, end: nat)
    requires end <= |bytes|
  {
    at + PadLength(length) <= end && AllZero(bytes, at, at + PadLength(length))
  }

  /** The first zero at or after `at`, or `limit`. */
  function KeyStop(bytes: seq<octet>, at: nat, limit: nat): (stop: nat)
    requires at <= limit <= |bytes|
    ensures at <= stop <= limit && (stop < limit ==> bytes[stop] == 0)
    ensures forall i :: at <= i < stop ==> bytes[i] != 0
    decreases limit - at
  {
    if at == limit || bytes[at] == 0 then at else KeyStop(bytes, at + 1, limit)
  }

  predicate IsText(b: seq<octet>) {
    |b| > 0 && b[|b| - 1] == 0 && NoZero(b[..|b| - 1]) && Utf8(b[..|b| - 1])
  }

  function Deeper(depth: nat): nat { if depth <= MAX_DEPTH then MAX_DEPTH + 1 - depth else 0 }

  function ParseObject(bytes: seq<octet>, at: nat, end: nat, nodes: nat, depth: nat): (r: Parsed<Value>)
    requires end <= |bytes|
    ensures r.Got? ==> at <= r.at <= end
    decreases Deeper(depth), 3, 0
  {
    if depth > MAX_DEPTH || nodes + 1 > MAX_NODES || at + 4 > end then Bad
    else ParseBody(bytes, NumberAt(bytes, at, 4), at + 4, end, nodes + 1, depth)
  }

  function ParseBody(bytes: seq<octet>, kind: nat, at: nat, end: nat, nodes: nat, depth: nat): (r: Parsed<Value>)
    requires at <= end <= |bytes| && depth <= MAX_DEPTH
    ensures r.Got? ==> at <= r.at <= end
    decreases Deeper(depth), 2, 0
  {
    if kind == 0x1000 then Got(Null, at, nodes)
    else if kind == 0x2000 then
      if at + 4 <= end && NumberAt(bytes, at, 4) <= 1
      then Got(Bool(NumberAt(bytes, at, 4) == 1), at + 4, nodes)
      else Bad
    else if kind == 0x3000 then if at + 8 <= end then Got(Int(FromPattern(WordAt(bytes, at))), at + 8, nodes) else Bad
    else if kind == 0x4000 then if at + 8 <= end then Got(UInt(WordAt(bytes, at)), at + 8, nodes) else Bad
    else if kind == 0x5000 then if at + 8 <= end then Got(Double(WordAt(bytes, at)), at + 8, nodes) else Bad
    else if kind == 0x7000 then if at + 8 <= end then Got(Date(WordAt(bytes, at)), at + 8, nodes) else Bad
    else if kind == 0x8000 || kind == 0x9000 then ParseCounted(bytes, kind, at, end, nodes)
    else if kind == 0xa000 then if at + 16 <= end then Got(Uuid(bytes[at..at + 16]), at + 16, nodes) else Bad
    else if kind == 0xe000 || kind == 0xf000 then ParseBox(bytes, kind, at, end, nodes, depth)
    else Bad
  }

  function ParseCounted(bytes: seq<octet>, kind: nat, at: nat, end: nat, nodes: nat): (r: Parsed<Value>)
    requires at <= end <= |bytes|
    ensures r.Got? ==> at <= r.at <= end
  {
    if at + 4 > end then Bad
    else
      var length := NumberAt(bytes, at, 4);
      var stop := at + 4 + length;
      if stop > end || !Padded(bytes, stop, length, end) then Bad
      else
        var b := bytes[at + 4..stop];
        if kind == 0x8000 then Got(Data(b), stop + PadLength(length), nodes)
        else if IsText(b) then Got(Str(b[..|b| - 1]), stop + PadLength(length), nodes)
        else Bad
  }

  function ParseBox(bytes: seq<octet>, kind: nat, at: nat, end: nat, nodes: nat, depth: nat): (r: Parsed<Value>)
    requires at <= end <= |bytes| && depth <= MAX_DEPTH
    ensures r.Got? ==> at <= r.at <= end
    decreases Deeper(depth), 1, 0
  {
    if at + 4 > end then Bad
    else
      var length := NumberAt(bytes, at, 4);
      if length < 4 || at + 4 + length > end then Bad
      else
        var limit, count := at + 4 + length, NumberAt(bytes, at + 4, 4);
        if count + nodes > MAX_NODES then Bad
        else
          var r := if kind == 0xf000 then ParseEntries(bytes, at + 8, limit, nodes, depth, count, map[])
                   else ParseItems(bytes, at + 8, limit, nodes, depth, count, []);
          if r.Got? && r.at == limit then r else Bad
  }

  function ParseItems(bytes: seq<octet>, at: nat, limit: nat, nodes: nat, depth: nat, count: nat,
                      read: seq<Value>): (r: Parsed<Value>)
    requires at <= limit <= |bytes| && depth <= MAX_DEPTH
    ensures r.Got? ==> at <= r.at <= limit
    decreases Deeper(depth), 0, count
  {
    if count == 0 then Got(Array(read), at, nodes)
    else
      var item := ParseObject(bytes, at, limit, nodes, depth + 1);
      if item.Bad? then Bad else ParseItems(bytes, item.at, limit, item.nodes, depth, count - 1, read + [item.value])
  }

  function ParseEntries(bytes: seq<octet>, at: nat, limit: nat, nodes: nat, depth: nat, count: nat,
                        dictionary: map<Text, Value>): (r: Parsed<Value>)
    requires at <= limit <= |bytes| && depth <= MAX_DEPTH
    ensures r.Got? ==> at <= r.at <= limit
    decreases Deeper(depth), 0, count
  {
    if count == 0 then Got(Dictionary(dictionary), at, nodes)
    else
      var key := ParseKey(bytes, at, limit);
      if key.Bad? || key.value in dictionary then Bad
      else
        var item := ParseObject(bytes, key.at, limit, nodes, depth + 1);
        if item.Bad? then Bad
        else ParseEntries(bytes, item.at, limit, item.nodes, depth, count - 1, dictionary[key.value := item.value])
  }

  function ParseKey(bytes: seq<octet>, at: nat, limit: nat): (r: Parsed<Text>)
    requires at <= limit <= |bytes|
    ensures r.Got? ==> at <= r.at <= limit
  {
    var stop := KeyStop(bytes, at, limit);
    if stop == limit || !Utf8(bytes[at..stop]) || !Padded(bytes, stop + 1, stop + 1 - at, limit) then Bad
    else Got(bytes[at..stop], stop + 1 + PadLength(stop + 1 - at), 0)
  }

  // ----- reading back -----

  /** `f` stands in `bytes` at `at`. */
  predicate At(bytes: seq<octet>, at: nat, f: seq<octet>) {
    at + |f| <= |bytes| && bytes[at..at + |f|] == f
  }

  lemma AtSplit(bytes: seq<octet>, at: nat, f: seq<octet>, g: seq<octet>)
    requires At(bytes, at, f + g)
    ensures At(bytes, at, f) && At(bytes, at + |f|, g)
  {
    var whole := bytes[at..at + |f + g|];
    assert bytes[at..at + |f|] == whole[..|f|];
    assert bytes[at + |f|..at + |f| + |g|] == whole[|f|..];
  }

  lemma AtIndex(bytes: seq<octet>, at: nat, f: seq<octet>, k: nat)
    requires At(bytes, at, f) && k < |f|
    ensures bytes[at + k] == f[k]
  {
    assert bytes[at..at + |f|][k] == f[k];
  }

  lemma Power4()
    ensures Power(4) == 0x1_0000_0000 && Power(8) == TWO64
  {
    assert Power(4) == 0x1_0000_0000;
  }

  lemma NumberRead(bytes: seq<octet>, at: nat, n: nat, value: nat)
    requires At(bytes, at, Spread(value, n)) && value < Power(n)
    ensures NumberAt(bytes, at, n) == value
  {
    SpreadLittle(value, n);
  }

  lemma PaddingRead(bytes: seq<octet>, at: nat, length: nat, end: nat)
    requires At(bytes, at, Padding(length)) && at + |Padding(length)| <= end <= |bytes|
    ensures Padded(bytes, at, length, end) && |Padding(length)| == PadLength(length)
  {
    var p := Padding(length);
    forall i | at <= i < at + |p| ensures bytes[i] == 0 {
      AtIndex(bytes, at, p, i - at);
    }
  }

  lemma CountedRead(bytes: seq<octet>, at: nat, b: seq<octet>, end: nat)
    requires At(bytes, at, Counted(b)) && at + |Counted(b)| <= end <= |bytes| && |b| < 0x1_0000_0000
    ensures at + 4 + |b| + PadLength(|b|) == at + |Counted(b)|
    ensures NumberAt(bytes, at, 4) == |b| && bytes[at + 4..at + 4 + |b|] == b && Padded(bytes, at + 4 + |b|, |b|, end)
  {
    hide Spread, Padding;
    Power4();
    AtSplit(bytes, at, Spread(|b|, 4) + b, Padding(|b|));
    AtSplit(bytes, at, Spread(|b|, 4), b);
    NumberRead(bytes, at, 4, |b|);
    PaddingRead(bytes, at + 4 + |b|, |b|, end);
  }

  /** A value that is no container reads back. */
  lemma LeafRead(bytes: seq<octet>, at: nat, end: nat, nodes: nat, depth: nat, v: Value)
    requires At(bytes, at, Body(v)) && at + |Body(v)| <= end <= |bytes| && Legal(v, depth) && |Body(v)| <= MAX_PAYLOAD
    requires !v.Array? && !v.Dictionary?
    ensures ParseBody(bytes, Kind(v), at, end, nodes, depth) == Got(v, at + |Body(v)|, nodes)
  {
    hide Spread, Counted, Padded, PadLength, NoZero, Utf8, Little;
    Power4();
    match v
    case Null =>
    case Bool(b) => NumberRead(bytes, at, 4, if b then 1 else 0);
    case Int(n) => NumberRead(bytes, at, 8, Pattern(n));
    case UInt(n) => NumberRead(bytes, at, 8, n);
    case Double(n) => NumberRead(bytes, at, 8, n);
    case Date(n) => NumberRead(bytes, at, 8, n);
    case Data(d) =>
      CountedSize(d);
      CountedRead(bytes, at, d, end);
    case Str(s) =>
      CountedSize(Ended(s));
      CountedRead(bytes, at, Ended(s), end);
      assert Ended(s)[..|s|] == s;
    case Uuid(d) =>
  }

  lemma CountedSize(b: seq<octet>)
    ensures |b| < |Counted(b)|
  {
  }

  /** The key, its zero and its padding read back as the key. */
  lemma KeyRead(bytes: seq<octet>, at: nat, limit: nat, k: Text)
    requires At(bytes, at, KeyForm(k)) && at + |KeyForm(k)| <= limit <= |bytes| && NoZero(k)
    ensures ParseKey(bytes, at, limit) == Got(k, at + |KeyForm(k)|, 0)
  {
    hide Padding, Padded, PadLength, Utf8;
    AtSplit(bytes, at, Ended(k), Padding(|k| + 1));
    AtSplit(bytes, at, k, [0]);
    AtIndex(bytes, at + |k|, [0], 0);
    forall i | at <= i < at + |k| ensures bytes[i] != 0 { AtIndex(bytes, at, k, i - at); }
    var stop := KeyStop(bytes, at, limit);
    assert stop == at + |k|;
    PaddingRead(bytes, stop + 1, |k| + 1, limit);
  }

  lemma {:induction false} ItemAt(bytes: seq<octet>, at: nat, v: Value, i: nat, n: nat)
    requires v.Array? && i < n <= |v.values| && At(bytes, at, Items(v, n))
    ensures At(bytes, at + |Items(v, i)|, Form(v.values[i])) && |Items(v, i + 1)| == |Items(v, i)| + |Form(v.values[i])|
    decreases n
  {
    hide Form;
    AtSplit(bytes, at, Items(v, n - 1), Form(v.values[n - 1]));
    if i < n - 1 { ItemAt(bytes, at, v, i, n - 1); }
  }

  ghost function EntryForm(v: Value, keys: seq<Text>, i: nat): seq<octet>
    requires Keys(v, keys) && i < |keys|
  {
    KeyForm(keys[i]) + Form(v.entries[keys[i]])
  }

  lemma {:induction false} EntryAt(bytes: seq<octet>, at: nat, v: Value, keys: seq<Text>, i: nat, n: nat)
    requires Keys(v, keys) && i < n <= |keys| && At(bytes, at, Entries(v, keys, n))
    ensures At(bytes, at + |Entries(v, keys, i)|, EntryForm(v, keys, i))
    ensures |Entries(v, keys, i + 1)| == |Entries(v, keys, i)| + |EntryForm(v, keys, i)|
    decreases n
  {
    hide Form, KeyForm;
    AtSplit(bytes, at, Entries(v, keys, n - 1), EntryForm(v, keys, n - 1));
    if i < n - 1 { EntryAt(bytes, at, v, keys, i, n - 1); }
  }

  /** Every form that fits reads back as the value it came from, with as many nodes. */
  lemma {:induction false} ReadBack(bytes: seq<octet>, at: nat, end: nat, nodes: nat, depth: nat, v: Value)
    requires At(bytes, at, Form(v)) && at + |Form(v)| <= end <= |bytes|
    requires Legal(v, depth) && nodes + Nodes(v) <= MAX_NODES && |Form(v)| <= MAX_PAYLOAD
    ensures ParseObject(bytes, at, end, nodes, depth) == Got(v, at + |Form(v)|, nodes + Nodes(v))
    decreases v, 2, 0
  {
    hide Spread, Little, ParseBody, Body, Nodes;
    Power4();
    AtSplit(bytes, at, Spread(Kind(v), 4), Body(v));
    NumberRead(bytes, at, 4, Kind(v));
    LegalShallow(v, depth);
    if v.Array? || v.Dictionary? {
      BoxRead(bytes, at + 4, end, nodes + 1, depth, v);
    } else {
      LeafRead(bytes, at + 4, end, nodes + 1, depth, v);
      LeafNodes(v);
    }
  }

  lemma LegalShallow(v: Value, depth: nat)
    requires Legal(v, depth)
    ensures depth <= MAX_DEPTH
  {
  }

  lemma LeafNodes(v: Value)
    requires !v.Array? && !v.Dictionary?
    ensures Nodes(v) == 1
  {
  }

  /** The items of a container as bytes and as a number of nodes. */
  ghost function Content(v: Value): seq<octet>
    requires v.Array? || v.Dictionary?
  {
    match v
    case Array(values) => Items(v, |values|)
    case Dictionary(entries) => Entries(v, Ordered(entries.Keys), |entries|)
  }

  ghost function Count(v: Value): nat
    requires v.Array? || v.Dictionary?
  {
    if v.Array? then |v.values| else |v.entries|
  }

  lemma ContentMeans(v: Value)
    requires v.Array? || v.Dictionary?
    ensures Body(v) == Boxed(Count(v), Content(v)) && Count(v) + 1 <= Nodes(v)
  {
    hide Items, Entries, Ordered, ItemNodes, EntryNodes, Boxed;
    if v.Array? {
      ItemsGrow(v, 0, |v.values|);
    } else {
      EntriesGrow(v, Ordered(v.entries.Keys), 0, |v.entries|);
    }
  }

  lemma {:induction false} BoxRead(bytes: seq<octet>, at: nat, end: nat, nodes: nat, depth: nat, v: Value)
    requires v.Array? || v.Dictionary?
    requires At(bytes, at, Body(v)) && at + |Body(v)| <= end <= |bytes|
    requires Legal(v, depth) && depth <= MAX_DEPTH && nodes + Nodes(v) <= MAX_NODES + 1 && |Body(v)| <= MAX_PAYLOAD
    ensures ParseBody(bytes, Kind(v), at, end, nodes, depth) == Got(v, at + |Body(v)|, nodes + Nodes(v) - 1)
    decreases v, 1, 0
  {
    hide Spread, Little, Body, Nodes, Content, ParseItems, ParseEntries, Legal;
    Power4();
    ContentMeans(v);
    var items := Content(v);
    AtSplit(bytes, at, Spread(|items| + 4, 4), Spread(Count(v), 4) + items);
    AtSplit(bytes, at + 4, Spread(Count(v), 4), items);
    NumberRead(bytes, at, 4, |items| + 4);
    NumberRead(bytes, at + 4, 4, Count(v));
    if v.Array? {
      WholeArray(bytes, at + 8, nodes, depth, v);
    } else {
      WholeDictionary(bytes, at + 8, nodes, depth, v);
    }
  }

  lemma {:induction false} WholeArray(bytes: seq<octet>, at: nat, nodes: nat, depth: nat, v: Value)
    requires v.Array? && At(bytes, at, Content(v)) && Legal(v, depth) && depth <= MAX_DEPTH
    requires nodes + Nodes(v) <= MAX_NODES + 1 && |Content(v)| <= MAX_PAYLOAD
    ensures ParseItems(bytes, at, at + |Content(v)|, nodes, depth, |v.values|, [])
         == Got(v, at + |Content(v)|, nodes + Nodes(v) - 1)
    decreases v, 0, |v.values| + 1
  {
    hide Items, ItemNodes, ParseItems;
    ItemsEmpty(v);
    ItemsRead(bytes, at, nodes, depth, v, 0);
    assert v.values[..0] == [];
  }

  /** The array from its item `i` on. */
  lemma {:induction false} ItemsRead(bytes: seq<octet>, at: nat, nodes: nat, depth: nat, v: Value, i: nat)
    requires v.Array? && i <= |v.values| && At(bytes, at, Items(v, |v.values|)) && Legal(v, depth) && depth <= MAX_DEPTH
    requires nodes + ItemNodes(v, |v.values|) <= MAX_NODES && |Items(v, |v.values|)| <= MAX_PAYLOAD
    requires |Items(v, i)| <= |Items(v, |v.values|)|
    ensures ParseItems(bytes, at + |Items(v, i)|, at + |Items(v, |v.values|)|, nodes + ItemNodes(v, i), depth,
                       |v.values| - i, v.values[..i])
            == Got(v, at + |Items(v, |v.values|)|, nodes + ItemNodes(v, |v.values|))
    decreases v, 0, |v.values| - i
  {
    hide Items, ItemNodes, Form, ParseObject;
    var n := |v.values|;
    if i == n {
      assert v.values[..n] == v.values;
    } else {
      ItemAt(bytes, at, v, i, n);
      ItemsGrow(v, i + 1, n);
      ItemsStep(v, i);
      ReadBack(bytes, at + |Items(v, i)|, at + |Items(v, n)|, nodes + ItemNodes(v, i), depth + 1, v.values[i]);
      ItemsRead(bytes, at, nodes, depth, v, i + 1);
      assert v.values[..i] + [v.values[i]] == v.values[..i + 1];
    }
  }

  // ----- dictionaries -----

  /** The entries of the first `i` keys. */
  function Taken(v: Value, keys: seq<Text>, i: nat): map<Text, Value>
    requires Keys(v, keys) && i <= |keys|
  {
    map k | k in keys[..i] :: v.entries[k]
  }

  lemma TakenStep(v: Value, keys: seq<Text>, i: nat)
    requires Keys(v, keys) && i < |keys| && forall a, b :: 0 <= a < b < |keys| ==> keys[a] != keys[b]
    ensures keys[i] !in Taken(v, keys, i)
    ensures Taken(v, keys, i)[keys[i] := v.entries[keys[i]]] == Taken(v, keys, i + 1)
  {
    assert keys[..i + 1] == keys[..i] + [keys[i]];
  }

  lemma TakenAll(v: Value, keys: seq<Text>)
    requires v.Dictionary? && keys == Ordered(v.entries.Keys)
    ensures Taken(v, keys, |keys|) == v.entries
  {
    hide Ordered;
    assert keys[..|keys|] == keys;
  }

  lemma {:induction false} WholeDictionary(bytes: seq<octet>, at: nat, nodes: nat, depth: nat, v: Value)
    requires v.Dictionary? && At(bytes, at, Content(v)) && Legal(v, depth) && depth <= MAX_DEPTH
    requires nodes + Nodes(v) <= MAX_NODES + 1 && |Content(v)| <= MAX_PAYLOAD
    ensures ParseEntries(bytes, at, at + |Content(v)|, nodes, depth, |v.entries|, map[])
         == Got(v, at + |Content(v)|, nodes + Nodes(v) - 1)
    decreases v, 0, |v.entries| + 1
  {
    hide Entries, EntryNodes, ParseEntries, Ordered;
    var keys := Ordered(v.entries.Keys);
    EntriesEmpty(v, keys);
    EntriesRead(bytes, at, nodes, depth, v, keys, 0);
    assert Taken(v, keys, 0) == map[];
  }

  lemma AtFits(bytes: seq<octet>, at: nat, f: seq<octet>)
    requires At(bytes, at, f)
    ensures at + |f| <= |bytes|
  {}

  lemma OrderedApart(s: set<Text>)
    ensures var keys := Ordered(s); forall a, b :: 0 <= a < b < |keys| ==> keys[a] != keys[b]
  {
    hide Ordered;
  }

  /** One entry read, the others follow. */
  lemma EntryOn(bytes: seq<octet>, at: nat, limit: nat, nodes: nat, depth: nat, count: nat,
                dictionary: map<Text, Value>, key: Text, value: Value, middle: nat, after: nat, more: nat)
    requires at <= middle <= after <= limit <= |bytes| && depth < MAX_DEPTH && count > 0
    requires ParseKey(bytes, at, limit) == Got(key, middle, 0) && key !in dictionary
    requires ParseObject(bytes, middle, limit, nodes, depth + 1) == Got(value, after, more)
    ensures ParseEntries(bytes, at, limit, nodes, depth, count, dictionary)
         == ParseEntries(bytes, after, limit, more, depth, count - 1, dictionary[key := value])
  {
    hide ParseKey, ParseObject;
  }

  /** The value of an entry lies one level below its dictionary. */
  lemma EntryLegal(v: Value, depth: nat, key: Text)
    requires v.Dictionary? && key in v.entries && Legal(v, depth) && depth <= MAX_DEPTH
    ensures NoZero(key) && Legal(v.entries[key], depth + 1) && depth < MAX_DEPTH
  {
  }

  /** The dictionary from its key `i` on. */
  lemma {:induction false} EntriesRead(bytes: seq<octet>, at: nat, nodes: nat, depth: nat, v: Value, keys: seq<Text>,
                                       i: nat)
    requires v.Dictionary? && keys == Ordered(v.entries.Keys) && i <= |keys| && At(bytes, at, Entries(v, keys, |keys|))
    requires Legal(v, depth) && depth <= MAX_DEPTH
    requires nodes + EntryNodes(v, keys, |keys|) <= MAX_NODES && |Entries(v, keys, |keys|)| <= MAX_PAYLOAD
    requires |Entries(v, keys, i)| <= |Entries(v, keys, |keys|)|
    ensures ParseEntries(bytes, at + |Entries(v, keys, i)|, at + |Entries(v, keys, |keys|)|,
                         nodes + EntryNodes(v, keys, i), depth, |keys| - i, Taken(v, keys, i))
            == Got(v, at + |Entries(v, keys, |keys|)|, nodes + EntryNodes(v, keys, |keys|))
    decreases v, 0, |keys| - i
  {
    hide Entries, EntryNodes, Form, KeyForm, ParseObject, ParseKey, Ordered, Taken, Legal, Increasing, Nodes, At;
    var n := |keys|;
    if i == n {
      TakenAll(v, keys);
    } else {
      hide ParseEntries;
      var key := keys[i];
      assert key in v.entries;
      EntryAt(bytes, at, v, keys, i, n);
      EntriesGrow(v, keys, i + 1, n);
      EntriesStep(v, keys, i);
      EntryLegal(v, depth, key);
      var start, limit := at + |Entries(v, keys, i)|, at + |Entries(v, keys, n)|;
      var middle, used := start + |KeyForm(key)|, nodes + EntryNodes(v, keys, i);
      AtFits(bytes, at, Entries(v, keys, n));
      AtSplit(bytes, start, KeyForm(key), Form(v.entries[key]));
      KeyRead(bytes, start, limit, key);
      ReadBack(bytes, middle, limit, used, depth + 1, v.entries[key]);
      OrderedApart(v.entries.Keys);
      TakenStep(v, keys, i);
      EntryOn(bytes, start, limit, used, depth, n - i, Taken(v, keys, i), key, v.entries[key],
              middle, middle + |Form(v.entries[key])|, used + Nodes(v.entries[key]));
      EntriesRead(bytes, at, nodes, depth, v, keys, i + 1);
    }
  }
}
