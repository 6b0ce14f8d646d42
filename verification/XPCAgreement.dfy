/**
 The reader accepts nothing the writer would refuse: whatever is read is legal,
 within the same limits, and as long as its own form
 (authorization/Transport/RemoteXPCWire.swift:37-127).
 */
module XPCAgreement {
  import opened GuestTypes
  import opened Octets
  import opened XPCForm
  import opened XPCParse
  import opened XPCMessages

  // ----- the order of keys does not matter to sizes -----

  ghost function Load(v: Value, keys: seq<Text>): nat
    requires Keys(v, keys)
  {
    |Entries(v, keys, |keys|)|
  }

  ghost function Members(v: Value, keys: seq<Text>): nat
    requires Keys(v, keys)
  {
    EntryNodes(v, keys, |keys|)
  }

  lemma {:induction false} EntriesSame(v: Value, a: seq<Text>, b: seq<Text>, n: nat)
    requires Keys(v, a) && Keys(v, b) && n <= |a| && n <= |b| && a[..n] == b[..n]
    ensures Entries(v, a, n) == Entries(v, b, n) && EntryNodes(v, a, n) == EntryNodes(v, b, n)
    decreases n
  {
    hide Form, Nodes, KeyForm;
    if n > 0 {
      assert a[..n - 1] == a[..n][..n - 1] == b[..n - 1];
      assert a[n - 1] == a[..n][n - 1] == b[n - 1];
      EntriesSame(v, a, b, n - 1);
    }
  }

  lemma {:induction false} LoadConcat(v: Value, a: seq<Text>, b: seq<Text>)
    requires Keys(v, a) && Keys(v, b)
    ensures Keys(v, a + b) && Load(v, a + b) == Load(v, a) + Load(v, b)
    ensures Members(v, a + b) == Members(v, a) + Members(v, b)
    decreases |b|
  {
    hide Form, Nodes, KeyForm;
    if b == [] {
      assert a + b == a;
    } else {
      var n := |b| - 1;
      LoadConcat(v, a, b[..n]);
      EntriesSame(v, a + b, a + b[..n], |a| + n);
      EntriesSame(v, b, b[..n], n);
    }
  }

  predicate Distinct(keys: seq<Text>) {
    forall i, j :: 0 <= i < j < |keys| ==> keys[i] != keys[j]
  }

  lemma {:induction false} LoadSame(v: Value, a: seq<Text>, b: seq<Text>)
    requires Keys(v, a) && Keys(v, b) && Distinct(a) && Distinct(b) && forall k :: k in a <==> k in b
    ensures Load(v, a) == Load(v, b) && Members(v, a) == Members(v, b)
    decreases |a|
  {
    hide Entries, EntryNodes;
    if b != [] { assert b[0] in b; }
    if a != [] {
      assert a[0] in b;
      var j :| 0 <= j < |b| && b[j] == a[0];
      var x, y, k := b[..j], b[j + 1..], [a[0]];
      Remaining(a, b, j);
      LoadSame(v, a[1..], x + y);
      assert a == k + a[1..] && b == x + (k + y);
      LoadConcat(v, k, a[1..]);
      LoadConcat(v, x, y);
      LoadConcat(v, k, y);
      LoadConcat(v, x, k + y);
    }
  }

  lemma Remaining(a: seq<Text>, b: seq<Text>, j: nat)
    requires a != [] && Distinct(a) && Distinct(b) && j < |b| && b[j] == a[0] && forall k :: k in a <==> k in b
    ensures Distinct(a[1..]) && Distinct(b[..j] + b[j + 1..])
    ensures forall k :: k in a[1..] <==> k in b[..j] + b[j + 1..]
  {
    var c := b[..j] + b[j + 1..];
    forall k ensures k in a[1..] <==> k in a && k != a[0] {
      if k in a && k != a[0] {
        var i :| 0 <= i < |a| && a[i] == k;
        assert a[1..][i - 1] == k;
      }
    }
    forall k ensures k in c <==> k in b && k != b[j] {
      if k in b && k != b[j] {
        var i :| 0 <= i < |b| && b[i] == k;
        assert c[if i < j then i else i - 1] == k;
      }
      if k in c {
        var i :| 0 <= i < |c| && c[i] == k;
        assert b[if i < j then i else i + 1] == k;
      }
    }
  }

  // ----- what is read -----

  /** A value read from `at` on fits where it stood. */
  ghost predicate Honest(r: Parsed<Value>, at: nat, nodes: nat, depth: nat) {
    r.Got? ==>
      Legal(r.value, depth) && r.nodes == nodes + Nodes(r.value) && r.nodes <= MAX_NODES && r.at == at + |Form(r.value)|
  }

  lemma {:induction false} ObjectHonest(bytes: seq<octet>, at: nat, end: nat, nodes: nat, depth: nat)
    requires end <= |bytes|
    ensures Honest(ParseObject(bytes, at, end, nodes, depth), at, nodes, depth)
    decreases Deeper(depth), 3, 0
  {
    hide ParseBody, Body, Nodes, Legal, NumberAt;
    if !(depth > MAX_DEPTH || nodes + 1 > MAX_NODES || at + 4 > end) {
      BodyHonest(bytes, NumberAt(bytes, at, 4), at + 4, end, nodes + 1, depth);
    }
  }

  ghost predicate HonestBody(r: Parsed<Value>, at: nat, nodes: nat, depth: nat) {
    r.Got? ==>
      && Legal(r.value, depth) && r.nodes + 1 == nodes + Nodes(r.value) && r.nodes <= MAX_NODES
      && r.at == at + |Body(r.value)|
  }

  lemma {:induction false} BodyHonest(bytes: seq<octet>, kind: nat, at: nat, end: nat, nodes: nat, depth: nat)
    requires at <= end <= |bytes| && depth <= MAX_DEPTH && nodes <= MAX_NODES
    ensures HonestBody(ParseBody(bytes, kind, at, end, nodes, depth), at, nodes, depth)
    decreases Deeper(depth), 2, 0
  {
    hide ParseBox, ParseCounted, NumberAt, Items, Entries, ItemNodes, EntryNodes;
    if kind == 0x8000 || kind == 0x9000 {
      CountedHonest(bytes, kind, at, end, nodes, depth);
    } else if kind == 0xe000 || kind == 0xf000 {
      BoxHonest(bytes, kind, at, end, nodes, depth);
    }
  }

  lemma CountedHonest(bytes: seq<octet>, kind: nat, at: nat, end: nat, nodes: nat, depth: nat)
    requires at <= end <= |bytes| && depth <= MAX_DEPTH && nodes <= MAX_NODES
    ensures HonestBody(ParseCounted(bytes, kind, at, end, nodes), at, nodes, depth)
  {
    hide Utf8, Padded;
    var r := ParseCounted(bytes, kind, at, end, nodes);
    if r.Got? && r.value.Str? {
      var b := bytes[at + 4..at + 4 + NumberAt(bytes, at, 4)];
      assert Ended(r.value.text) == b;
    }
  }

  lemma {:induction false} BoxHonest(bytes: seq<octet>, kind: nat, at: nat, end: nat, nodes: nat, depth: nat)
    requires at <= end <= |bytes| && depth <= MAX_DEPTH && nodes <= MAX_NODES
    ensures HonestBody(ParseBox(bytes, kind, at, end, nodes, depth), at, nodes, depth)
    decreases Deeper(depth), 1, 0
  {
    hide NumberAt, ParseItems, ParseEntries, Body, Nodes, Legal;
    if ParseBox(bytes, kind, at, end, nodes, depth).Got? {
      var limit, count := at + 4 + NumberAt(bytes, at, 4), NumberAt(bytes, at + 4, 4);
      if kind == 0xf000 {
        DictionaryHonest(bytes, at + 8, limit, nodes, depth, count);
      } else {
        ArrayHonest(bytes, at + 8, limit, nodes, depth, count);
      }
    }
  }

  /** A container read from the items at `at`. */
  ghost predicate HonestItems(r: Parsed<Value>, at: nat, nodes: nat, depth: nat) {
    r.Got? ==>
      && Legal(r.value, depth) && r.nodes + 1 == nodes + Nodes(r.value) && r.nodes <= MAX_NODES
      && r.at + 8 == at + |Body(r.value)|
  }

  lemma {:induction false} ArrayHonest(bytes: seq<octet>, at: nat, limit: nat, nodes: nat, depth: nat, count: nat)
    requires at <= limit <= |bytes| && depth <= MAX_DEPTH && nodes <= MAX_NODES
    ensures HonestItems(ParseItems(bytes, at, limit, nodes, depth, count, []), at, nodes, depth)
    decreases Deeper(depth), 0, count + 1
  {
    hide ParseItems, Items, ItemNodes;
    ItemsHonest(bytes, at, limit, nodes, depth, count, []);
    var r := ParseItems(bytes, at, limit, nodes, depth, count, []);
    if r.Got? { ItemsEmpty(r.value); }
  }

  /** What the items from `at` on add to those already read. */
  ghost predicate MoreItems(r: Parsed<Value>, at: nat, nodes: nat, depth: nat, count: nat, read: seq<Value>) {
    r.Got? ==>
      r.value.Array? && |r.value.values| == |read| + count && read <= r.value.values && r.nodes <= MAX_NODES
      && r.at + |Items(r.value, |read|)| == at + |Items(r.value, |read| + count)|
      && r.nodes + ItemNodes(r.value, |read|) == nodes + ItemNodes(r.value, |read| + count)
      && forall i :: |read| <= i < |read| + count ==> Legal(r.value.values[i], depth + 1)
  }

  lemma {:induction false} ItemsHonest(bytes: seq<octet>, at: nat, limit: nat, nodes: nat, depth: nat, count: nat,
                                       read: seq<Value>)
    requires at <= limit <= |bytes| && depth <= MAX_DEPTH && nodes <= MAX_NODES
    ensures MoreItems(ParseItems(bytes, at, limit, nodes, depth, count, read), at, nodes, depth, count, read)
    decreases Deeper(depth), 0, count
  {
    hide ParseObject, Items, ItemNodes, Legal, Form, Nodes;
    if count > 0 {
      var item := ParseObject(bytes, at, limit, nodes, depth + 1);
      if item.Got? {
        ObjectHonest(bytes, at, limit, nodes, depth + 1);
        var more := read + [item.value];
        ItemsHonest(bytes, item.at, limit, item.nodes, depth, count - 1, more);
        var r := ParseItems(bytes, item.at, limit, item.nodes, depth, count - 1, more);
        if r.Got? {
          assert r.value.values[|read|] == more[|read|];
          ItemsStep(r.value, |read|);
        }
      }
    }
  }

  // ----- dictionaries -----

  /** What the entries of `keys` add to those already read. */
  ghost predicate MoreEntries(r: Parsed<Value>, at: nat, nodes: nat, depth: nat, read: map<Text, Value>,
                              keys: seq<Text>)
  {
    r.Got? && r.value.Dictionary? && r.nodes <= MAX_NODES && Keys(r.value, keys) && Distinct(keys)
    && (forall k :: k in keys ==> k !in read && NoZero(k) && Legal(r.value.entries[k], depth + 1))
    && (forall k :: k in read ==> k in r.value.entries && r.value.entries[k] == read[k])
    && (forall k :: k in r.value.entries ==> k in read || k in keys)
    && r.at == at + Load(r.value, keys) && r.nodes == nodes + Members(r.value, keys)
  }

  lemma KeyHonest(bytes: seq<octet>, at: nat, limit: nat)
    requires at <= limit <= |bytes|
    ensures var k := ParseKey(bytes, at, limit); k.Got? ==> NoZero(k.value) && k.at == at + |KeyForm(k.value)|
  {
    hide Utf8, Padded;
  }

  lemma LoadOne(v: Value, k: Text)
    requires v.Dictionary? && k in v.entries
    ensures Keys(v, [k]) && Load(v, [k]) == |KeyForm(k)| + |Form(v.entries[k])|
    ensures Members(v, [k]) == Nodes(v.entries[k])
  {
    hide Form, Nodes, KeyForm;
    assert Entries(v, [k], 0) == [] && EntryNodes(v, [k], 0) == 0;
  }

  lemma {:induction false} EntriesHonest(bytes: seq<octet>, at: nat, limit: nat, nodes: nat, depth: nat, count: nat,
                                         read: map<Text, Value>)
    returns (keys: seq<Text>)
    requires at <= limit <= |bytes| && depth <= MAX_DEPTH && nodes <= MAX_NODES
    requires ParseEntries(bytes, at, limit, nodes, depth, count, read).Got?
    ensures MoreEntries(ParseEntries(bytes, at, limit, nodes, depth, count, read), at, nodes, depth, read, keys)
    decreases Deeper(depth), 0, count
  {
    hide ParseObject, ParseKey, Entries, EntryNodes, Legal, Form, Nodes, NoZero, KeyForm;
    keys := [];
    if count == 0 {
      LoadNone(ParseEntries(bytes, at, limit, nodes, depth, count, read).value);
    } else {
      var key := ParseKey(bytes, at, limit);
      KeyHonest(bytes, at, limit);
      var item := ParseObject(bytes, key.at, limit, nodes, depth + 1);
      ObjectHonest(bytes, key.at, limit, nodes, depth + 1);
      var more := read[key.value := item.value];
      var rest := EntriesHonest(bytes, item.at, limit, item.nodes, depth, count - 1, more);
      keys := [key.value] + rest;
      var v := ParseEntries(bytes, item.at, limit, item.nodes, depth, count - 1, more).value;
      assert key.value in more;
      LoadOne(v, key.value);
      LoadConcat(v, [key.value], rest);
    }
  }

  lemma LoadNone(v: Value)
    requires v.Dictionary?
    ensures Load(v, []) == 0 && Members(v, []) == 0
  {
  }

  lemma {:induction false} DictionaryHonest(bytes: seq<octet>, at: nat, limit: nat, nodes: nat, depth: nat, count: nat)
    requires at <= limit <= |bytes| && depth <= MAX_DEPTH && nodes <= MAX_NODES
    ensures HonestItems(ParseEntries(bytes, at, limit, nodes, depth, count, map[]), at, nodes, depth)
    decreases Deeper(depth), 0, count + 1
  {
    hide ParseEntries, Entries, EntryNodes, Ordered, Form;
    var r := ParseEntries(bytes, at, limit, nodes, depth, count, map[]);
    if r.Got? {
      var keys := EntriesHonest(bytes, at, limit, nodes, depth, count, map[]);
      var v := r.value;
      forall k ensures k in keys <==> k in Ordered(v.entries.Keys) {
      }
      LoadSame(v, keys, Ordered(v.entries.Keys));
      BoxedSize(|v.entries|, Entries(v, Ordered(v.entries.Keys), |v.entries|));
    }
  }

  /** Whatever decodes can be encoded again, to as many bytes, and these decode to the same message. */
  lemma DecodedEncodable(data: seq<octet>)
    requires Decoded(data).Some?
    ensures var m := Decoded(data).value; Encodable(m) && |Wire(m)| == |data| && Decoded(Wire(m)) == Some(m)
  {
    hide ParseObject, Form, NumberAt, Nodes, Legal;
    var m := Decoded(data).value;
    if m.value.Some? {
      ObjectHonest(data, 32, |data|, 0, 0);
    }
    hide Decoded;
    FlagsOdd(data);
    RoundTrip(m);
  }

  lemma FlagsOdd(data: seq<octet>)
    requires Decoded(data).Some?
    ensures Decoded(data).value.flags % 2 == 1
  {
    hide ParseObject, Little;
  }
}
