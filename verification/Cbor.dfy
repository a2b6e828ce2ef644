/**
 CBOR values, and how the firmware takes records out of them: a map is destructured by ascending
 keys, and each field is unwrapped before its type is looked at, so a missing field panics where a
 field of the wrong type is rejected. Reading and writing the bytes of a value are parameters.
 */
module Cbor {
  import opened Wrappers

  type byte = n: nat | n < 256

  const U64_LIMIT: nat := 0x1_0000_0000_0000_0000
  const I64_LIMIT: int := 0x8000_0000_0000_0000

  type uint64 = n: nat | n < U64_LIMIT
  type int64 = i: int | -I64_LIMIT <= i < I64_LIMIT

  datatype SimpleValue = FalseValue | TrueValue | NullValue | Undefined

  datatype Value =
    | Unsigned(unsigned: uint64)
    | Negative(negative: int64)
    | ByteString(bytes: seq<byte>)
    | TextString(text: string)
    | Array(items: seq<Value>)
    | Map(pairs: seq<(Value, Value)>)
    | Tag(tag: uint64, inner: Value)
    | Simple(simple: SimpleValue)

  /** `Value::integer`. */
  function Integer(i: int64): Value { if i >= 0 then Unsigned(i) else Negative(i) }

  /** A 64-bit number reread as signed: `as i64`. */
  function AsSigned(n: uint64): int64 {
    if n < I64_LIMIT then n else n - U64_LIMIT
  }

  function Boolean(b: bool): Value { Simple(if b then TrueValue else FalseValue) }

  // ----- bytes

  /** The byte codec of values. */
  datatype Codec = Codec(read: seq<byte> -> Option<Value>, write: Value -> seq<byte>)

  predicate Ascending(pairs: seq<(Value, Value)>) {
    forall i, j :: 0 <= i < j < |pairs| ==>
      pairs[i].0.Unsigned? && pairs[j].0.Unsigned? && pairs[i].0.unsigned < pairs[j].0.unsigned
  }

  predicate IsLeaf(v: Value) { !v.Array? && !v.Map? && !v.Tag? && (v.Negative? ==> v.negative < 0) }

  /** A map from ascending numeric keys to leaves. */
  predicate IsRow(v: Value) { v.Map? && Ascending(v.pairs) && forall i :: 0 <= i < |v.pairs| ==> IsField(v.pairs[i]) }

  predicate IsField(pair: (Value, Value)) { pair.0.Unsigned? && IsLeaf(pair.1) }

  predicate IsTable(v: Value) { v.Array? && forall i :: 0 <= i < |v.items| ==> IsRow(v.items[i]) }

  /** The values the firmware writes: short maps from ascending numeric keys to leaves and lists of rows. */
  predicate Writable(v: Value) {
    && v.Map? && |v.pairs| < 24 && Ascending(v.pairs)
    && forall i :: 0 <= i < |v.pairs| ==> v.pairs[i].0.Unsigned? && (IsLeaf(v.pairs[i].1) || IsTable(v.pairs[i].1))
  }

  /**
   What the codec is trusted for: a written value reads back, and does not when bytes are left over; its
   first byte is its number of fields under the map's major type, and an empty map is that byte alone.
   */
  ghost predicate Faithful(c: Codec) {
    && (forall v :: Writable(v) ==> c.read(c.write(v)) == Some(v))
    && (forall v, more :: Writable(v) && more != [] ==> c.read(c.write(v) + more) == None)
    && (forall v :: Writable(v) ==> c.write(v) != [] && c.write(v)[0] == 0xA0 + |v.pairs|)
    && c.write(Map([])) == [0xA0]
  }

  lemma EmptyMapReads(c: Codec)
    requires Faithful(c)
    ensures c.read([0xA0]) == Some(Map([]))
  {
    assert Writable(Map([]));
    assert c.read(c.write(Map([]))) == Some(Map([]));
  }

  // ----- fields of a map

  /** The value under a numeric key, from the front; what is left starts after it, or at the first greater key. */
  function Peek(pairs: seq<(Value, Value)>, key: uint64): (r: (Option<Value>, seq<(Value, Value)>))
    ensures |r.1| <= |pairs|
    decreases |pairs|
  {
    if pairs == [] then (None, pairs)
    else if pairs[0].0.Unsigned? && pairs[0].0.unsigned < key then Peek(pairs[1..], key)
    else if pairs[0].0 == Unsigned(key) then (Some(pairs[0].1), pairs[1..])
    else (None, pairs)
  }

  /** `destructure_cbor_map_peek_value`: skip smaller keys, take an equal one, stop at a greater one. */
  method PeekValue(pairs: seq<(Value, Value)>, needle: uint64) returns (value: Option<Value>, rest: seq<(Value, Value)>)
    ensures (value, rest) == Peek(pairs, needle)
  {
    rest := pairs;
    while rest != []
      invariant Peek(rest, needle) == Peek(pairs, needle)
      decreases |rest|
    {
      var key := rest[0].0;
      if key.Unsigned? && key.unsigned < needle {
        rest := rest[1..];
      } else if key == Unsigned(needle) {
        return Some(rest[0].1), rest[1..];
      } else {
        return None, rest;
      }
    }
    return None, rest;
  }

  /** The fields of a map under the given keys, taken in one pass. */
  function Destructure(pairs: seq<(Value, Value)>, keys: seq<uint64>): (fields: seq<Option<Value>>)
    ensures |fields| == |keys|
    decreases |keys|
  {
    if keys == [] then []
    else
      var (field, rest) := Peek(pairs, keys[0]);
      [field] + Destructure(rest, keys[1..])
  }

  /** `v` stands in the map under the key `k`. */
  predicate Holds(pairs: seq<(Value, Value)>, k: uint64, v: Value) { (Unsigned(k), v) in pairs }

  /** Keys in the order the reader insists on: the numeric ones first, ascending, and any others after them. */
  predicate Ordered(pairs: seq<(Value, Value)>) {
    forall i, j :: 0 <= i < j < |pairs| && pairs[j].0.Unsigned? ==>
      pairs[i].0.Unsigned? && pairs[i].0.unsigned < pairs[j].0.unsigned
  }

  lemma OrderedTail(pairs: seq<(Value, Value)>)
    requires Ordered(pairs) && pairs != []
    ensures Ordered(pairs[1..]) && forall p :: p in pairs <==> p == pairs[0] || p in pairs[1..]
  {
    var tail := pairs[1..];
    assert forall i :: 0 <= i < |tail| ==> tail[i] == pairs[i + 1];
    assert pairs == [pairs[0]] + tail;
  }

  lemma {:induction false} PeekFinds(pairs: seq<(Value, Value)>, key: uint64, v: Value)
    requires Ordered(pairs)
    ensures Peek(pairs, key).0 == Some(v) <==> Holds(pairs, key, v)
    decreases |pairs|
  {
    if pairs != [] {
      OrderedTail(pairs);
      if pairs[0].0.Unsigned? && pairs[0].0.unsigned < key {
        PeekFinds(pairs[1..], key, v);
      }
    }
  }

  lemma {:induction false} PeekLeaves(pairs: seq<(Value, Value)>, key: uint64)
    requires Ordered(pairs)
    ensures var rest := Peek(pairs, key).1;
            Ordered(rest) && forall k: uint64, w :: k > key ==> (Holds(rest, k, w) <==> Holds(pairs, k, w))
    decreases |pairs|
  {
    if pairs != [] {
      OrderedTail(pairs);
      if pairs[0].0.Unsigned? && pairs[0].0.unsigned < key {
        PeekLeaves(pairs[1..], key);
      }
    }
  }

  /** In a map with keys in order, one pass with ascending keys finds exactly what stands under each of them. */
  lemma {:induction false} DestructureFinds(pairs: seq<(Value, Value)>, keys: seq<uint64>, i: nat, v: Value)
    requires Ordered(pairs) && i < |keys| && forall a, b :: 0 <= a < b < |keys| ==> keys[a] < keys[b]
    ensures Destructure(pairs, keys)[i] == Some(v) <==> Holds(pairs, keys[i], v)
    decreases |keys|
  {
    PeekFinds(pairs, keys[0], v);
    PeekLeaves(pairs, keys[0]);
    if i > 0 {
      assert keys[0] < keys[i];
      DestructureFinds(Peek(pairs, keys[0]).1, keys[1..], i - 1, v);
    }
  }

  lemma {:induction false} NoFields(keys: seq<uint64>)
    ensures forall i :: 0 <= i < |keys| ==> Destructure([], keys)[i] == None
    decreases |keys|
  {
    if keys != [] {
      NoFields(keys[1..]);
    }
  }

  // ----- records

  /** The keys 1, 2, ... n, under which every record of this protocol keeps its fields. */
  function Keys(n: nat): (keys: seq<uint64>)
    requires n < 24
    ensures |keys| == n && forall i :: 0 <= i < n ==> keys[i] == i + 1
  {
    if n == 0 then [] else Keys(n - 1) + [n]
  }

  function PairsFrom(values: seq<Value>): (pairs: seq<(Value, Value)>)
    requires |values| < 24
    ensures |pairs| == |values| && forall i :: 0 <= i < |pairs| ==> pairs[i] == (Unsigned(i + 1), values[i])
  {
    if values == [] then []
    else PairsFrom(values[..|values| - 1]) + [(Unsigned(|values|), values[|values| - 1])]
  }

  /** `cbor_map!` with those keys. */
  function Record(values: seq<Value>): Value
    requires |values| < 24
  {
    Map(PairsFrom(values))
  }

  function Fields(v: Value, n: nat): (f: seq<Option<Value>>)
    requires v.Map? && n < 24
    ensures |f| == n
  {
    Destructure(v.pairs, Keys(n))
  }

  lemma RecordIsOrdered(values: seq<Value>)
    requires |values| < 24
    ensures Ordered(Record(values).pairs) && Ascending(Record(values).pairs)
  {
  }

  /** Taking a record apart gives its values back; a field it was not given is missing. */
  lemma RecordFields(values: seq<Value>, n: nat, i: nat)
    requires |values| < 24 && i < n < 24
    ensures Fields(Record(values), n)[i] == if i < |values| then Some(values[i]) else None
  {
    var pairs := Record(values).pairs;
    RecordIsOrdered(values);
    if i < |values| {
      assert pairs[i] in pairs;
      DestructureFinds(pairs, Keys(n), i, values[i]);
    } else {
      var field := Fields(Record(values), n)[i];
      if field.Some? {
        DestructureFinds(pairs, Keys(n), i, field.value);
      }
    }
  }

  // ----- conversions

  /** A conversion gives a result, returns an error, or panics. */
  datatype Conversion<+T> = Converted(result: T) | Rejected | Panics

  /** `extract(field.unwrap())?`. */
  function Need<T>(field: Option<Value>, extract: Value -> Option<T>): Conversion<T> {
    if field.None? then Panics
    else
      match extract(field.value)
      case Some(t) => Converted(t)
      case None => Rejected
  }

  function ExtractUnsigned(v: Value): Option<uint64> { if v.Unsigned? then Some(v.unsigned) else None }

  function ExtractBytes(v: Value): Option<seq<byte>> { if v.ByteString? then Some(v.bytes) else None }

  function ExtractText(v: Value): Option<string> { if v.TextString? then Some(v.text) else None }

  function ExtractBool(v: Value): Option<bool> {
    if v == Boolean(true) then Some(true) else if v == Boolean(false) then Some(false) else None
  }

  /** The items of an array, each of which must convert: one that does not is unwrapped all the same. */
  function AllConverted<T>(items: seq<Value>, convert: Value -> Conversion<T>): Conversion<seq<T>> {
    if items == [] then Converted([])
    else
      var n := |items| - 1;
      match AllConverted(items[..n], convert)
      case Converted(init) => (match convert(items[n]) case Converted(t) => Converted(init + [t]) case _ => Panics)
      case _ => Panics
  }

  /** The loop of the two entry lists. */
  method ConvertItems<T>(items: seq<Value>, convert: Value -> Conversion<T>) returns (r: Conversion<seq<T>>)
    ensures r == AllConverted(items, convert)
  {
    var ret: seq<T> := [];
    var i := 0;
    while i < |items|
      invariant 0 <= i <= |items| && AllConverted(items[..i], convert) == Converted(ret)
    {
      assert items[..i + 1][..i] == items[..i];
      var t := convert(items[i]);
      if !t.Converted? {
        StaysPanicked(items, convert, i + 1);
        return Panics;
      }
      ret := ret + [t.result];
      i := i + 1;
    }
    assert items[..|items|] == items;
    return Converted(ret);
  }

  lemma {:induction false} StaysPanicked<T>(items: seq<Value>, convert: Value -> Conversion<T>, i: nat)
    requires i <= |items| && AllConverted(items[..i], convert) == Panics
    ensures AllConverted(items, convert) == Panics
    decreases |items| - i
  {
    if i == |items| {
      assert items[..i] == items;
    } else {
      assert items[..i + 1][..i] == items[..i];
      StaysPanicked(items, convert, i + 1);
    }
  }

  /** The list converts exactly when each of its items does, to the items' results in order; otherwise it panics. */
  lemma {:induction false} AllConvertedIff<T>(items: seq<Value>, convert: Value -> Conversion<T>)
    ensures var r := AllConverted(items, convert);
            && (r.Converted? <==> forall i :: 0 <= i < |items| ==> convert(items[i]).Converted?)
            && (r == Panics <==> !r.Converted?)
            && (r.Converted? ==> |r.result| == |items|
                                 && forall i :: 0 <= i < |items| ==> convert(items[i]) == Converted(r.result[i]))
  {
    if items != [] {
      var n := |items| - 1;
      AllConvertedIff(items[..n], convert);
      assert forall i :: 0 <= i < n ==> items[..n][i] == items[i];
    }
  }

  lemma ConvertsTo<T>(items: seq<Value>, convert: Value -> Conversion<T>, results: seq<T>)
    requires |results| == |items| && forall i :: 0 <= i < |items| ==> convert(items[i]) == Converted(results[i])
    ensures AllConverted(items, convert) == Converted(results)
  {
    AllConvertedIff(items, convert);
    assert AllConverted(items, convert).result == results;
  }
}
