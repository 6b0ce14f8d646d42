/** The recursive reader (authorization/Transport/RemoteXPCWire.swift:18-77). */
module XPCReader {
  import opened GuestTypes
  import opened Octets
  import opened XPCForm
  import opened XPCParse

  class Reader {
    const bytes: seq<octet>
    var at: nat
    var nodes: nat

    constructor (bytes: seq<octet>)
      ensures this.bytes == bytes && at == 0 && nodes == 0
    {
      this.bytes := bytes;
      at, nodes := 0, 0;
    }

    /** The result and the new position are those of `p`. */
    predicate Follows(r: Option<Value>, p: Parsed<Value>)
      reads this
    {
      if p.Bad? then r.None? else r == Some(p.value) && at == p.at && nodes == p.nodes
    }

    method Take(count: nat, end: nat) returns (b: Option<seq<octet>>)
      requires at <= end <= |bytes|
      modifies this`at
      ensures b.Some? <==> old(at) + count <= end
      ensures if b.Some? then b.value == bytes[old(at)..old(at) + count] && at == old(at) + count else at == old(at)
    {
      if count > end - at { return None; }
      b := Some(bytes[at..at + count]);
      at := at + count;
    }

    method Number(count: nat, end: nat) returns (n: Option<nat>)
      requires at <= end <= |bytes|
      modifies this`at
      ensures n.Some? <==> old(at) + count <= end
      ensures if n.Some? then n.value == NumberAt(bytes, old(at), count) && at == old(at) + count else at == old(at)
    {
      var b := Take(count, end);
      if b.None? { return None; }
      return Some(Little(b.value));
    }

    method SkipPadding(length: nat, end: nat) returns (ok: bool)
      requires at <= end <= |bytes|
      modifies this`at
      ensures ok <==> Padded(bytes, old(at), length, end)
      ensures ok ==> at == old(at) + PadLength(length)
    {
      var start := at;
      var pad := Take(PadLength(length), end);
      if pad.None? { return false; }
      ok := CheckZeros(bytes, start, at);
    }

    /** Reads one value. */
    method Object(end: nat, depth: nat) returns (r: Option<Value>)
      requires at <= end <= |bytes|
      modifies this
      ensures Follows(r, ParseObject(bytes, old(at), end, old(nodes), depth))
      decreases Deeper(depth), 3, 0
    {
      hide ParseBody;
      nodes := nodes + 1;
      if depth > MAX_DEPTH || nodes > MAX_NODES { return None; }
      var kind := Number(4, end);
      if kind.None? { return None; }
      r := ObjectOf(kind.value, end, depth);
    }

    method ObjectOf(kind: nat, end: nat, depth: nat) returns (r: Option<Value>)
      requires at <= end <= |bytes| && depth <= MAX_DEPTH
      modifies this
      ensures Follows(r, ParseBody(bytes, kind, old(at), end, old(nodes), depth))
      decreases Deeper(depth), 2, 0
    {
      hide ParseCounted, ParseBox, NumberAt;
      if kind == 0x1000 { return Some(Null); }
      if kind == 0x2000 {
        var n := Number(4, end);
        if n.None? || n.value > 1 { return None; }
        return Some(Bool(n.value == 1));
      }
      if kind == 0x3000 || kind == 0x4000 || kind == 0x5000 || kind == 0x7000 {
        r := Word(kind, end);
        return;
      }
      if kind == 0x8000 || kind == 0x9000 {
        r := Counted(kind, end);
        return;
      }
      if kind == 0xa000 {
        var b := Take(16, end);
        if b.None? { return None; }
        return Some(Uuid(b.value));
      }
      if kind == 0xe000 || kind == 0xf000 {
        r := Box(kind, end, depth);
        return;
      }
      return None;
    }

    method Word(kind: nat, end: nat) returns (r: Option<Value>)
      requires at <= end <= |bytes| && (kind == 0x3000 || kind == 0x4000 || kind == 0x5000 || kind == 0x7000)
      modifies this
      ensures Follows(r, ParseBody(bytes, kind, old(at), end, old(nodes), 0))
    {
      hide Little;
      var start := at;
      var n := Number(8, end);
      if n.None? { return None; }
      var w := WordAt(bytes, start);
      return Some(if kind == 0x3000 then Int(FromPattern(w)) else if kind == 0x4000 then UInt(w)
                  else if kind == 0x5000 then Double(w) else Date(w));
    }

    method Counted(kind: nat, end: nat) returns (r: Option<Value>)
      requires at <= end <= |bytes|
      modifies this
      ensures Follows(r, ParseCounted(bytes, kind, old(at), end, old(nodes)))
    {
      hide Little, Padded, Utf8, NoZero;
      var length := Number(4, end);
      if length.None? { return None; }
      var b := Take(length.value, end);
      if b.None? { return None; }
      var ok := SkipPadding(length.value, end);
      if !ok { return None; }
      if kind == 0x8000 { return Some(Data(b.value)); }
      if !IsText(b.value) { return None; }
      return Some(Str(b.value[..|b.value| - 1]));
    }

    method Box(kind: nat, end: nat, depth: nat) returns (r: Option<Value>)
      requires at <= end <= |bytes| && depth <= MAX_DEPTH
      modifies this
      ensures Follows(r, ParseBox(bytes, kind, old(at), end, old(nodes), depth))
      decreases Deeper(depth), 1, 0
    {
      hide NumberAt, ParseItems, ParseEntries;
      var length := Number(4, end);
      if length.None? || length.value < 4 || length.value > end - at { return None; }
      var limit := at + length.value;
      var count := Number(4, limit);
      if count.None? || count.value + nodes > MAX_NODES { return None; }
      if kind == 0xf000 {
        r := Entries(limit, depth, count.value);
      } else {
        r := Items(limit, depth, count.value);
      }
      if r.None? || at != limit { return None; }
    }

    method Items(limit: nat, depth: nat, count: nat) returns (r: Option<Value>)
      requires at <= limit <= |bytes| && depth <= MAX_DEPTH
      modifies this
      ensures Follows(r, ParseItems(bytes, old(at), limit, old(nodes), depth, count, []))
      decreases Deeper(depth), 0, count
    {
      hide ParseObject;
      var read: seq<Value> := [];
      var left := count;
      while left > 0
        invariant at <= limit
        invariant ParseItems(bytes, at, limit, nodes, depth, left, read)
               == ParseItems(bytes, old(at), limit, old(nodes), depth, count, [])
      {
        var item := Object(limit, depth + 1);
        if item.None? { return None; }
        read := read + [item.value];
        left := left - 1;
      }
      return Some(Array(read));
    }

    method Key(limit: nat) returns (k: Option<Text>)
      requires at <= limit <= |bytes|
      modifies this`at
      ensures var p := ParseKey(bytes, old(at), limit); if p.Bad? then k.None? else k == Some(p.value) && at == p.at
    {
      hide Utf8, Padded;
      var start := at;
      while at < limit && bytes[at] != 0
        invariant start <= at <= limit
        invariant KeyStop(bytes, at, limit) == KeyStop(bytes, start, limit)
      {
        at := at + 1;
      }
      if at == limit { return None; }
      at := at + 1;
      var key := bytes[start..at - 1];
      if !Utf8(key) { return None; }
      var ok := SkipPadding(at - start, limit);
      return if ok then Some(key) else None;
    }

    method Entries(limit: nat, depth: nat, count: nat) returns (r: Option<Value>)
      requires at <= limit <= |bytes| && depth <= MAX_DEPTH
      modifies this
      ensures Follows(r, ParseEntries(bytes, old(at), limit, old(nodes), depth, count, map[]))
      decreases Deeper(depth), 0, count
    {
      hide ParseObject, ParseKey;
      var dictionary: map<Text, Value> := map[];
      var left := count;
      while left > 0
        invariant at <= limit
        invariant ParseEntries(bytes, at, limit, nodes, depth, left, dictionary)
               == ParseEntries(bytes, old(at), limit, old(nodes), depth, count, map[])
      {
        var key := Key(limit);
        if key.None? || key.value in dictionary { return None; }
        var item := Object(limit, depth + 1);
        if item.None? { return None; }
        dictionary := dictionary[key.value := item.value];
        left := left - 1;
      }
      return Some(Dictionary(dictionary));
    }
  }

  method CheckZeros(bytes: seq<octet>, from: nat, to: nat) returns (ok: bool)
    requires from <= to <= |bytes|
    ensures ok == AllZero(bytes, from, to)
  {
    for i := from to to
      invariant forall k :: from <= k < i ==> bytes[k] == 0
    {
      if bytes[i] != 0 { return false; }
    }
    return true;
  }
}
