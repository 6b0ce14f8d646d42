/** The recursive writer (authorization/Transport/RemoteXPCWire.swift:78-127). */
module XPCWriter {
  import opened Octets
  import opened XPCForm

  /** The keys of a dictionary, sorted. */
  method SortedKeys(s: set<Text>) returns (keys: seq<Text>)
    ensures keys == Ordered(s)
  {
    hide Before, Ordered, Least;
    keys := [];
    var rest := s;
    OrderedNothing();
    while rest != {}
      invariant keys + Ordered(rest) == Ordered(s)
      decreases |rest|
    {
      var k := Smallest(rest);
      OrderedHead(rest, k);
      keys := keys + [k];
      rest := rest - {k};
    }
  }

  lemma OrderedNothing()
    ensures Ordered({}) == []
  {
  }

  lemma OrderedHead(s: set<Text>, k: Text)
    requires Least(k, s)
    ensures Ordered(s) == [k] + Ordered(s - {k})
  {
    hide Before;
    forall l: Text | Least(l, s) ensures l == k { LeastUnique(k, l, s); }
  }

  method Smallest(s: set<Text>) returns (k: Text)
    requires s != {}
    ensures Least(k, s)
  {
    hide Before;
    k :| k in s;
    var rest := s - {k};
    while rest != {}
      invariant rest <= s && k in s
      invariant forall x :: x in s - rest ==> x == k || Before(k, x)
      decreases |rest|
    {
      var x: Text :| x in rest;
      ghost var was := rest;
      BeforeTotal(x, k);
      var less := Before(x, k);
      forall y | y in s - (rest - {x}) && less ensures y == x || Before(x, y) {
        if y != x && y != k { BeforeTransitive(x, k, y); }
      }
      if less { k := x; }
      rest := rest - {x};
    }
  }

  /** Bytes `old` followed by `more`, when that fits. */
  predicate Room(size: nat, more: nat) { size + more <= MAX_PAYLOAD }

  class Writer {
    var bytes: seq<octet>
    var nodes: nat

    constructor ()
      ensures bytes == [] && nodes == 0
    {
      bytes, nodes := [], 0;
    }

    method Add(b: seq<octet>) returns (ok: bool)
      modifies this`bytes
      ensures ok <==> Room(|old(bytes)|, |b|)
      ensures bytes == if ok then old(bytes) + b else old(bytes)
    {
      if |bytes| + |b| > MAX_PAYLOAD { return false; }
      bytes := bytes + b;
      return true;
    }

    method PutNumber(n: nat, count: nat) returns (ok: bool)
      modifies this`bytes
      ensures ok <==> Room(|old(bytes)|, count)
      ensures bytes == if ok then old(bytes) + Spread(n, count) else old(bytes)
    {
      ok := Add(Spread(n, count));
    }

    method PutPadded(b: seq<octet>) returns (ok: bool)
      modifies this`bytes
      ensures ok <==> Room(|old(bytes)|, |b + Padding(|b|)|)
      ensures ok ==> bytes == old(bytes) + b + Padding(|b|)
    {
      ok := Add(b);
      if !ok { return; }
      ok := Add(Padding(|b|));
    }

    method PutText(s: Text, prefixed: bool) returns (ok: bool)
      modifies this`bytes
      ensures var f := if prefixed then Counted(Ended(s)) else KeyForm(s);
        (ok <==> NoZero(s) && Room(|old(bytes)|, |f|)) && (ok ==> bytes == old(bytes) + f)
    {
      hide Spread, NoZero;
      ok := CheckNoZero(s);
      if !ok || |s| >= MAX_PAYLOAD { return false; }
      if prefixed {
        ok := PutNumber(|s| + 1, 4);
        if !ok { return; }
      }
      ok := PutPadded(Ended(s));
    }

    method PatchLength(at: nat)
      requires at + 4 <= |bytes|
      modifies this`bytes
      ensures bytes == old(bytes[..at]) + Spread(|old(bytes)| - at - 4, 4) + old(bytes[at + 4..])
    {
      var count := |bytes| - at - 4;
      bytes := bytes[..at] + Spread(count, 4) + bytes[at + 4..];
    }

    /** Writes a value: exactly its form, and exactly when it fits. */
    method Object(v: Value, depth: nat) returns (ok: bool)
      modifies this
      ensures ok <==> Fits(v, depth, old(nodes), |old(bytes)|)
      ensures ok ==> bytes == old(bytes) + Form(v) && nodes == old(nodes) + Nodes(v)
      decreases v, 2, 0
    {
      hide Body, Legal, Nodes, Spread;
      nodes := nodes + 1;
      if depth > MAX_DEPTH || nodes > MAX_NODES {
        LegalDepth(v, depth);
        return false;
      }
      ok := PutNumber(Kind(v), 4);
      if !ok { return; }
      ok := PutBody(v, depth);
    }

    method PutBody(v: Value, depth: nat) returns (ok: bool)
      requires depth <= MAX_DEPTH && nodes <= MAX_NODES && |bytes| <= MAX_PAYLOAD
      modifies this
      ensures ok <==> Legal(v, depth) && old(nodes) + Nodes(v) <= MAX_NODES + 1 && Room(|old(bytes)|, |Body(v)|)
      ensures ok ==> bytes == old(bytes) + Body(v) && nodes + 1 == old(nodes) + Nodes(v)
      decreases v, 1, 0
    {
      hide Items, Entries, ItemNodes, EntryNodes, Spread, Ordered, Boxed;
      match v
      case Null => ok := true;
      case Bool(b) => ok := PutNumber(if b then 1 else 0, 4);
      case Int(n) => ok := PutNumber(Pattern(n), 8);
      case UInt(n) => ok := PutNumber(n, 8);
      case Date(n) => ok := PutNumber(n, 8);
      case Double(n) => ok := PutNumber(n, 8);
      case Uuid(d) =>
        if |d| != 16 { return false; }
        ok := Add(d);
      case Data(d) => ok := PutData(d);
      case Str(s) => ok := PutText(s, true);
      case Array(values) =>
        BoxedSize(|values|, Items(v, |values|));
        ok := PutArray(v, depth);
      case Dictionary(entries) =>
        BoxedSize(|entries|, Entries(v, Ordered(entries.Keys), |entries|));
        ok := PutDictionary(v, depth);
    }

    method PutArray(v: Value, depth: nat) returns (ok: bool)
      requires v.Array? && depth <= MAX_DEPTH && nodes <= MAX_NODES
      modifies this
      ensures var items := Items(v, |v.values|);
        (ok <==> (forall i :: 0 <= i < |v.values| ==> Legal(v.values[i], depth + 1))
                 && old(nodes) + ItemNodes(v, |v.values|) <= MAX_NODES && Room(|old(bytes)|, 8 + |items|))
        && (ok ==> bytes == old(bytes) + Boxed(|v.values|, items) && nodes == old(nodes) + ItemNodes(v, |v.values|))
      decreases v, 0, 1
    {
      hide Legal, Nodes, Spread, Form, Items, ItemNodes, Boxed;
      var count := |v.values|;
      ItemsGrow(v, 0, count);
      if count > MAX_NODES - nodes { return false; }
      var start := |bytes|;
      ok := PutNumber(0, 4);
      if !ok { return; }
      ok := PutNumber(count, 4);
      if !ok { return; }
      ghost var head := bytes;
      ItemsEmpty(v);
      var i := 0;
      while i < count
        invariant i <= count && bytes == head + Items(v, i) && nodes == old(nodes) + ItemNodes(v, i)
        invariant Room(|head|, |Items(v, i)|) && old(nodes) + ItemNodes(v, i) <= MAX_NODES
        invariant forall k :: 0 <= k < i ==> Legal(v.values[k], depth + 1)
      {
        ItemsStep(v, i);
        ItemsGrow(v, i + 1, count);
        ok := Object(v.values[i], depth + 1);
        if !ok { return; }
        i := i + 1;
      }
      ok := true;
      PatchLength(start);
      Patched(old(bytes), count, Items(v, count));
    }

    method PutEntry(v: Value, k: Text, depth: nat) returns (ok: bool)
      requires v.Dictionary? && k in v.entries
      modifies this
      ensures var f := KeyForm(k) + Form(v.entries[k]); var n := Nodes(v.entries[k]);
        (ok <==> NoZero(k) && Legal(v.entries[k], depth + 1) && old(nodes) + n <= MAX_NODES && Room(|old(bytes)|, |f|))
        && (ok ==> bytes == old(bytes) + f && nodes == old(nodes) + n)
      decreases v, 0, 0
    {
      hide Legal, Nodes, Form, KeyForm, NoZero;
      ok := PutText(k, false);
      if !ok { return; }
      ok := Object(v.entries[k], depth + 1);
    }

    method PutEntries(v: Value, keys: seq<Text>, depth: nat) returns (ok: bool)
      requires Keys(v, keys) && nodes <= MAX_NODES && |bytes| <= MAX_PAYLOAD
      modifies this
      ensures ok <==> KeysLegal(v, keys, |keys|, depth)
                      && old(nodes) + EntryNodes(v, keys, |keys|) <= MAX_NODES
                      && Room(|old(bytes)|, |Entries(v, keys, |keys|)|)
      ensures ok ==> bytes == old(bytes) + Entries(v, keys, |keys|) && nodes == old(nodes) + EntryNodes(v, keys, |keys|)
      decreases v, 0, 1
    {
      hide Legal, Nodes, Spread, Form, Entries, EntryNodes, KeyForm, NoZero;
      EntriesEmpty(v, keys);
      var i := 0;
      while i < |keys|
        invariant i <= |keys| && Keys(v, keys)
        invariant bytes == old(bytes) + Entries(v, keys, i) && nodes == old(nodes) + EntryNodes(v, keys, i)
        invariant |bytes| <= MAX_PAYLOAD && nodes <= MAX_NODES && KeysLegal(v, keys, i, depth)
      {
        EntriesStep(v, keys, i);
        EntriesGrow(v, keys, i + 1, |keys|);
        assert keys[i] in v.entries;
        ok := PutEntry(v, keys[i], depth);
        if !ok { return; }
        i := i + 1;
      }
      ok := true;
    }

    method PutDictionary(v: Value, depth: nat) returns (ok: bool)
      requires v.Dictionary? && depth <= MAX_DEPTH && nodes <= MAX_NODES
      modifies this
      ensures var keys := Ordered(v.entries.Keys); var items := Entries(v, keys, |keys|);
        (ok <==> (forall k :: k in v.entries ==> NoZero(k) && Legal(v.entries[k], depth + 1))
                 && old(nodes) + EntryNodes(v, keys, |keys|) <= MAX_NODES && Room(|old(bytes)|, 8 + |items|))
        && (ok ==> bytes == old(bytes) + Boxed(|v.entries|, items) && nodes == old(nodes) + EntryNodes(v, keys, |keys|))
      decreases v, 0, 2
    {
      hide Legal, Nodes, Spread, Form, Entries, EntryNodes, KeyForm, NoZero, Ordered, Boxed, KeysLegal;
      var count := |v.entries|;
      var keys := SortedKeys(v.entries.Keys);
      AllKeysLegal(v, keys, depth);
      EntriesGrow(v, keys, 0, count);
      if count > MAX_NODES - nodes { return false; }
      var start := |bytes|;
      ok := PutNumber(0, 4);
      if !ok { return; }
      ok := PutNumber(count, 4);
      if !ok { return; }
      ok := PutEntries(v, keys, depth);
      if !ok { return; }
      PatchLength(start);
      Patched(old(bytes), count, Entries(v, keys, count));
    }

    method PutData(d: seq<octet>) returns (ok: bool)
      modifies this`bytes
      ensures ok <==> Room(|old(bytes)|, |Counted(d)|)
      ensures ok ==> bytes == old(bytes) + Counted(d)
    {
      if |d| > MAX_PAYLOAD { return false; }
      ok := PutNumber(|d|, 4);
      if !ok { return; }
      ok := PutPadded(d);
    }
  }

  method CheckNoZero(s: seq<octet>) returns (ok: bool)
    ensures ok == NoZero(s)
  {
    for i := 0 to |s|
      invariant forall k :: 0 <= k < i ==> s[k] != 0
    {
      if s[i] == 0 { return false; }
    }
    return true;
  }

  lemma LegalDepth(v: Value, depth: nat)
    ensures Legal(v, depth) ==> depth <= MAX_DEPTH
  {
  }

  ghost predicate KeysLegal(v: Value, keys: seq<Text>, n: nat, depth: nat)
    requires Keys(v, keys) && n <= |keys|
  {
    forall i :: 0 <= i < n ==> NoZero(keys[i]) && Legal(v.entries[keys[i]], depth + 1)
  }

  lemma AllKeysLegal(v: Value, keys: seq<Text>, depth: nat)
    requires v.Dictionary? && keys == Ordered(v.entries.Keys)
    ensures KeysLegal(v, keys, |keys|, depth) <==>
      forall k :: k in v.entries ==> NoZero(k) && Legal(v.entries[k], depth + 1)
  {
    hide Legal, NoZero, Ordered;
    forall k | k in v.entries ensures exists i :: 0 <= i < |keys| && keys[i] == k { assert k in keys; }
  }

  /** A length written as zero and patched afterwards is the length of the box. */
  lemma Patched(before: seq<octet>, count: nat, items: seq<octet>)
    ensures var b := before + Spread(0, 4) + Spread(count, 4) + items;
      b[..|before|] + Spread(|b| - |before| - 4, 4) + b[|before| + 4..] == before + Boxed(count, items)
  {
    hide Spread;
    var b := before + Spread(0, 4) + Spread(count, 4) + items;
    assert b[..|before|] == before;
    assert b[|before| + 4..] == Spread(count, 4) + items;
  }
}
