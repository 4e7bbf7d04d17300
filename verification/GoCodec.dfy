/** The host-side CBOR codec: dynamically typed values, their encoding, and the lax decoder. */
module GoCodec {
  import opened Bytes
  import opened CborHead
  import opened CborItem

  const I64_LIMIT := 0x8000_0000_0000_0000

  type int64 = i: int | -I64_LIMIT <= i < I64_LIMIT

  /** The dynamic types the codec knows; `Other` is any type it does not. */
  datatype Value =
    | Null
    | Bool(b: bool)
    | Int(i: int64)
    | Uint(u: u64)
    | Text(text: blob)
    | Bytes(bytes: blob)
    | Array(items: seq<Value>)
    | Object(fields: map<blob, Value>)
    | Other

  /** Slices and maps have fewer than 2^64 elements. */
  predicate Sized(v: Value)
    decreases v, 0
  {
    match v
    case Array(items) => |items| <= U64_MAX && AllSized(items)
    case Object(fields) => |fields| <= U64_MAX && forall k :: k in fields ==> Sized(fields[k])
    case _ => true
  }

  predicate AllSized(vs: seq<Value>)
    decreases vs, 1
  {
    vs == [] || (Sized(vs[0]) && AllSized(vs[1..]))
  }

  /** No value of an unknown type anywhere inside. */
  predicate Known(v: Value)
    decreases v, 0
  {
    match v
    case Array(items) => AllKnown(items)
    case Object(fields) => forall k :: k in fields ==> Known(fields[k])
    case Other => false
    case _ => true
  }

  predicate AllKnown(vs: seq<Value>)
    decreases vs, 1
  {
    vs == [] || (Known(vs[0]) && AllKnown(vs[1..]))
  }

  // ----- key order -----

  predicate Ascending(keys: seq<blob>) {
    forall i, j :: 0 <= i < j < |keys| ==> LengthFirstLess(keys[i], keys[j])
  }

  function Elements(keys: seq<blob>): set<blob> { set k | k in keys }

  predicate IsLeast(k: blob, keys: set<blob>) {
    k in keys && forall j :: j in keys && j != k ==> LengthFirstLess(k, j)
  }

  lemma {:induction false} LeastExists(keys: set<blob>)
    requires keys != {}
    ensures exists k: blob :: IsLeast(k, keys)
  {
    hide LengthFirstLess;
    var k: blob :| k in keys;
    if keys == {k} {
      assert IsLeast(k, keys);
    } else {
      var rest := keys - {k};
      LeastExists(rest);
      var m: blob :| IsLeast(m, rest);
      LengthFirstTotal(k, m);
      if LengthFirstLess(m, k) {
        assert IsLeast(m, keys);
      } else {
        forall j | j in keys && j != k
          ensures LengthFirstLess(k, j)
        {
          if j != m {
            LengthFirstTransitive(k, m, j);
          }
        }
        assert IsLeast(k, keys);
      }
    }
  }

  lemma LeastFirst(k: blob, keys: set<blob>, rest: seq<blob>)
    requires IsLeast(k, keys) && Ascending(rest) && Elements(rest) == keys - {k}
    ensures Ascending([k] + rest) && Elements([k] + rest) == keys
  {
    hide LengthFirstLess;
    assert forall j :: j in rest <==> j in Elements(rest);
    var all := [k] + rest;
    forall i, j | 0 <= i < j < |all|
      ensures LengthFirstLess(all[i], all[j])
    {
      assert all[j] == rest[j - 1] && all[j] in rest;
    }
  }

  /** The keys in the order the encoder writes them. */
  ghost function SortKeys(keys: set<blob>): (sorted: seq<blob>)
    ensures Ascending(sorted) && Elements(sorted) == keys && |sorted| == |keys|
  {
    if keys == {} then []
    else
      LeastExists(keys);
      var k: blob :| IsLeast(k, keys);
      var rest := SortKeys(keys - {k});
      LeastFirst(k, keys, rest);
      [k] + rest
  }

  /** Only one ascending sequence has a given set of keys, so the order in which they were collected is forgotten. */
  lemma {:induction false} SortedUnique(a: seq<blob>, b: seq<blob>)
    requires Ascending(a) && Ascending(b) && Elements(a) == Elements(b)
    ensures a == b
  {
    hide LengthFirstLess;
    if a == [] || b == [] {
      SameEmptiness(a, b);
    } else {
      assert a[0] in Elements(b);
      assert b[0] in Elements(a);
      FirstIsLeast(a, b[0]);
      FirstIsLeast(b, a[0]);
      LengthFirstTotal(a[0], b[0]);
      TailElements(a);
      TailElements(b);
      SortedUnique(a[1..], b[1..]);
    }
  }

  lemma SameEmptiness(a: seq<blob>, b: seq<blob>)
    requires Elements(a) == Elements(b)
    ensures a == [] <==> b == []
  {
    assert forall k :: k in a <==> k in Elements(a);
    assert forall k :: k in b <==> k in Elements(b);
    if a != [] {
      assert a[0] in b;
    }
    if b != [] {
      assert b[0] in a;
    }
  }

  lemma FirstIsLeast(a: seq<blob>, k: blob)
    requires Ascending(a) && k in a
    ensures k == a[0] || LengthFirstLess(a[0], k)
  {
  }

  lemma TailElements(a: seq<blob>)
    requires Ascending(a) && a != []
    ensures Elements(a[1..]) == Elements(a) - {a[0]} && Ascending(a[1..])
  {
    hide LengthFirstLess;
    forall k | k in a[1..]
      ensures k != a[0]
    {
      LengthFirstTotal(a[0], k);
    }
  }

  // ----- the encoding -----

  /** The item a value is written as: a non-negative integer is unsigned whatever its type, a map goes by sorted keys. */
  ghost function ToItem(v: Value): (item: Item)
    requires Sized(v) && Known(v)
    decreases v, 2, 0
  {
    match v
    case Null => Simple(22)
    case Bool(b) => Simple(if b then 21 else 20)
    case Int(i) => if i >= 0 then Item.Uint(i) else Nint(-1 - i)
    case Uint(u) => Item.Uint(u)
    case Text(text) => Tstr(text)
    case Bytes(bytes) => Bstr(bytes)
    case Array(items) => Arr(ToItems(items))
    case Object(fields) => Map(ToEntries(v, SortKeys(fields.Keys)))
  }

  ghost function ToItems(vs: seq<Value>): (items: seq<Item>)
    requires AllSized(vs) && AllKnown(vs)
    ensures |items| == |vs|
    decreases vs, 3, 0
  {
    if vs == [] then [] else [ToItem(vs[0])] + ToItems(vs[1..])
  }

  ghost function ToEntries(v: Value, keys: seq<blob>): (entries: seq<Item>)
    requires v.Object? && Sized(v) && Known(v) && forall k :: k in keys ==> k in v.fields
    ensures |entries| == 2 * |keys|
    decreases v, 1, |keys|
  {
    if keys == [] then [] else [Tstr(keys[0]), ToItem(v.fields[keys[0]])] + ToEntries(v, keys[1..])
  }

  lemma {:induction false} ItemIsEncodable(v: Value)
    requires Sized(v) && Known(v)
    ensures Encodable(ToItem(v))
    decreases v, 2, 0
  {
    hide SortKeys;
    match v
    case Array(items) => ItemsAreEncodable(items);
    case Object(fields) => EntriesAreEncodable(v, SortKeys(fields.Keys));
    case _ =>
  }

  lemma {:induction false} ItemsAreEncodable(vs: seq<Value>)
    requires AllSized(vs) && AllKnown(vs)
    ensures AllEncodable(ToItems(vs))
    decreases vs, 3, 0
  {
    if vs != [] {
      ItemIsEncodable(vs[0]);
      ItemsAreEncodable(vs[1..]);
      assert ToItems(vs)[1..] == ToItems(vs[1..]);
    }
  }

  lemma {:induction false} EntriesAreEncodable(v: Value, keys: seq<blob>)
    requires v.Object? && Sized(v) && Known(v) && forall k :: k in keys ==> k in v.fields
    ensures AllEncodable(ToEntries(v, keys))
    decreases v, 1, |keys|
  {
    if keys != [] {
      hide ToItem;
      ItemIsEncodable(v.fields[keys[0]]);
      EntriesAreEncodable(v, keys[1..]);
      var all := ToEntries(v, keys);
      assert all[1..][0] == ToItem(v.fields[keys[0]]) && all[1..][1..] == ToEntries(v, keys[1..]);
    }
  }

  /** encodeValue. */
  ghost function EncodeValue(v: Value): (s: bytes)
    requires Sized(v) && Known(v)
    ensures s != []
  {
    ItemIsEncodable(v);
    Encode(ToItem(v))
  }

  ghost function EncodedItems(vs: seq<Value>): bytes
    requires AllSized(vs) && AllKnown(vs)
  {
    ItemsAreEncodable(vs);
    EncodeAll(ToItems(vs))
  }

  ghost function EncodedFields(v: Value, keys: seq<blob>): bytes
    requires v.Object? && Sized(v) && Known(v) && forall k :: k in keys ==> k in v.fields
  {
    EntriesAreEncodable(v, keys);
    EncodeAll(ToEntries(v, keys))
  }

  lemma ItemsStep(vs: seq<Value>)
    requires AllSized(vs) && AllKnown(vs) && vs != []
    ensures EncodedItems(vs) == EncodeValue(vs[0]) + EncodedItems(vs[1..])
  {
    hide Encode, Encodable, Sized, Known, ToItem;
    ItemsAreEncodable(vs);
    ItemIsEncodable(vs[0]);
    assert ToItems(vs)[1..] == ToItems(vs[1..]);
  }

  lemma FieldsStep(v: Value, keys: seq<blob>)
    requires v.Object? && Sized(v) && Known(v) && keys != [] && forall k :: k in keys ==> k in v.fields
    ensures EncodedFields(v, keys)
            == EncodeValue(Text(keys[0])) + EncodeValue(v.fields[keys[0]]) + EncodedFields(v, keys[1..])
  {
    var x := v.fields[keys[0]];
    assert ToItem(Text(keys[0])) == Tstr(keys[0]);
    hide Encode, EncodeAll, Encodable, AllEncodable, ToItem;
    var entries := ToEntries(v, keys);
    EntriesAreEncodable(v, keys);
    assert entries[0] == Tstr(keys[0]) && entries[1] == ToItem(x) && entries[2..] == ToEntries(v, keys[1..]);
    FirstEntry(entries, []);
    var a, b, c := Encode(entries[0]), Encode(entries[1]), EncodeAll(entries[2..]);
    assert EncodeAll(entries) + [] == EncodeAll(entries) && c + [] == c && a + (b + c) == a + b + c;
  }

  // ----- the decoder -----

  /** int64(-1 - int64(n)) in two's complement. */
  function NegativeOf(n: u64): (r: int64)
    ensures (r + 1 + n) % (U64_MAX + 1) == 0
  {
    if n < I64_LIMIT then -1 - n else U64_MAX - n
  }

  /** decoder.value: any head width, text keys only, the last of equal keys wins, no tags. */
  function Decode(s: bytes): (p: Parsed<Value>)
    ensures p.Ok? ==> |p.rest| < |s|
    decreases |s|, 0
  {
    var h := ReadHead(s);
    if h.Fail? then Fail
    else
      var n, rest := h.value.value, h.rest;
      match h.value.major
      case 0 => Ok(Value.Uint(n), rest)
      case 1 => Ok(Int(NegativeOf(n)), rest)
      case 2 => if n <= |rest| then Ok(Bytes(rest[..n]), rest[n..]) else Fail
      case 3 => if n <= |rest| then Ok(Text(rest[..n]), rest[n..]) else Fail
      case 4 =>
        var (items, rest) :- DecodeMany(rest, n);
        Ok(Array(items), rest)
      case 5 =>
        var (fields, rest) :- DecodeFields(rest, n, map[]);
        Ok(Object(fields), rest)
      case 7 =>
        if h.value.info == 20 then Ok(Bool(false), rest)
        else if h.value.info == 21 then Ok(Bool(true), rest)
        else if h.value.info == 22 then Ok(Null, rest)
        else Fail
      case _ => Fail
  }

  function DecodeMany(s: bytes, n: nat): (p: Parsed<seq<Value>>)
    ensures p.Ok? ==> |p.rest| <= |s| && |p.value| == n
    decreases |s|, 1
  {
    if n == 0 then Ok([], s)
    else
      var (v, rest) :- Decode(s);
      var (vs, rest) :- DecodeMany(rest, n - 1);
      Ok([v] + vs, rest)
  }

  function DecodeFields(s: bytes, n: nat, seen: map<blob, Value>): (p: Parsed<map<blob, Value>>)
    ensures p.Ok? ==> |p.rest| <= |s|
    decreases |s|, 1
  {
    if n == 0 then Ok(seen, s)
    else
      var (k, rest) :- Decode(s);
      if !k.Text? then Fail
      else
        var (v, rest) :- Decode(rest);
        DecodeFields(rest, n - 1, seen[k.text := v])
  }

  /** decodeValue: nothing may follow. */
  function DecodeValue(s: bytes): (r: Option<Value>) {
    var p := Decode(s);
    if p.Ok? && p.rest == [] then Some(p.value) else None
  }

  // ----- round trip -----

  /** A value as it comes back: non-negative signed integers have become unsigned. */
  function Normal(v: Value): (r: Value)
    decreases v, 0
  {
    match v
    case Int(i) => if i >= 0 then Value.Uint(i) else v
    case Array(items) => Array(NormalAll(items))
    case Object(fields) => Object(map k | k in fields :: Normal(fields[k]))
    case _ => v
  }

  function NormalAll(vs: seq<Value>): (r: seq<Value>)
    decreases vs, 1
  {
    if vs == [] then [] else [Normal(vs[0])] + NormalAll(vs[1..])
  }

  ghost function PutAll(seen: map<blob, Value>, v: Value, keys: seq<blob>): map<blob, Value>
    requires v.Object? && forall k :: k in keys ==> k in v.fields
    decreases |keys|
  {
    if keys == [] then seen else PutAll(seen[keys[0] := Normal(v.fields[keys[0]])], v, keys[1..])
  }

  lemma {:induction false} PutAllIs(seen: map<blob, Value>, v: Value, keys: seq<blob>)
    requires v.Object? && forall k :: k in keys ==> k in v.fields
    ensures var all := PutAll(seen, v, keys);
            forall k: blob :: if k in keys then k in all && all[k] == Normal(v.fields[k])
                              else (k in all <==> k in seen) && (k in seen ==> all[k] == seen[k])
    decreases |keys|
  {
    hide Normal;
    if keys != [] {
      PutAllIs(seen[keys[0] := Normal(v.fields[keys[0]])], v, keys[1..]);
    }
  }

  /** Every encoded value decodes to itself, leaving exactly what followed. */
  lemma {:induction false} DecodeInvertsEncode(v: Value, t: bytes)
    requires Sized(v) && Known(v)
    ensures Decode(EncodeValue(v) + t) == Ok(Normal(v), t)
    decreases v, 2, 0
  {
    hide Decode, EncodeValue, EncodeAll, AllEncodable, SortKeys, Normal, NormalAll, ToItem, ToItems, ToEntries, PutAll;
    match v
    case Array(items) =>
      ManyRoundTrip(items, t);
      ArrayRoundTrip(items, t);
    case Object(fields) =>
      var keys := SortKeys(fields.Keys);
      SortedKeysAreFields(v);
      EntriesAreEncodable(v, keys);
      FieldsRoundTrip(v, keys, map[], t);
      PutSorted(v);
      ObjectRoundTrip(v, t);
    case _ => LeafRoundTrip(v, t);
  }

  lemma SortedKeysAreFields(v: Value)
    requires v.Object?
    ensures forall k :: k in SortKeys(v.fields.Keys) <==> k in v.fields
    ensures |SortKeys(v.fields.Keys)| == |v.fields|
  {
    hide SortKeys;
    assert forall k :: k in SortKeys(v.fields.Keys) <==> k in Elements(SortKeys(v.fields.Keys));
  }

  lemma PutSorted(v: Value)
    requires v.Object?
    ensures Normal(v).Object?
    ensures (forall k :: k in SortKeys(v.fields.Keys) ==> k in v.fields)
            && PutAll(map[], v, SortKeys(v.fields.Keys)) == Normal(v).fields
  {
    hide SortKeys, PutAll, Normal, Elements, Ascending;
    NormalFields(v);
    SortedKeysAreFields(v);
    var keys := SortKeys(v.fields.Keys);
    PutAllIs(map[], v, keys);
    var put := PutAll(map[], v, keys);
    assert put.Keys == Normal(v).fields.Keys;
    assert put == Normal(v).fields;
  }

  lemma NormalFields(v: Value)
    requires v.Object?
    ensures Normal(v).Object?
    ensures forall k: blob :: k in Normal(v).fields <==> k in v.fields
    ensures forall k: blob :: k in v.fields ==> Normal(v).fields[k] == Normal(v.fields[k])
  {
  }

  lemma ArrayRoundTrip(items: seq<Value>, t: bytes)
    requires Sized(Array(items)) && Known(Array(items)) && AllEncodable(ToItems(items))
    requires DecodeMany(EncodeAll(ToItems(items)) + t, |items|) == Ok(NormalAll(items), t)
    ensures Decode(EncodeValue(Array(items)) + t) == Ok(Normal(Array(items)), t)
  {
    hide ReadHead, HeadBytes, EncodeAll, DecodeMany, ToItems, NormalAll;
    HeadCases(4, |items|, EncodeAll(ToItems(items)), t);
  }

  lemma ObjectRoundTrip(v: Value, t: bytes)
    requires v.Object? && Sized(v) && Known(v)
    requires var entries := ToEntries(v, SortKeys(v.fields.Keys));
             AllEncodable(entries) && Normal(v).Object?
             && DecodeFields(EncodeAll(entries) + t, |v.fields|, map[]) == Ok(Normal(v).fields, t)
    ensures Decode(EncodeValue(v) + t) == Ok(Normal(v), t)
  {
    hide ReadHead, HeadBytes, EncodeAll, DecodeFields, ToEntries, SortKeys, Normal, Known;
    HeadCases(5, |v.fields|, EncodeAll(ToEntries(v, SortKeys(v.fields.Keys))), t);
  }

  lemma {:induction false} ManyRoundTrip(vs: seq<Value>, t: bytes)
    requires AllSized(vs) && AllKnown(vs)
    ensures AllEncodable(ToItems(vs)) && DecodeMany(EncodeAll(ToItems(vs)) + t, |vs|) == Ok(NormalAll(vs), t)
    decreases vs, 3, 0
  {
    hide Decode, Encode, EncodeAll, Encodable, ToItem, Normal, Sized, Known;
    ItemsAreEncodable(vs);
    var items := ToItems(vs);
    if vs == [] {
      NoItems(t);
    } else {
      FirstItem(items, t);
      assert items[1..] == ToItems(vs[1..]);
      DecodeInvertsEncode(vs[0], EncodeAll(items[1..]) + t);
      ManyRoundTrip(vs[1..], t);
    }
  }

  lemma {:induction false} FieldsRoundTrip(v: Value, keys: seq<blob>, seen: map<blob, Value>, t: bytes)
    requires v.Object? && Sized(v) && Known(v) && forall k :: k in keys ==> k in v.fields
    requires AllEncodable(ToEntries(v, keys))
    ensures DecodeFields(EncodeAll(ToEntries(v, keys)) + t, |keys|, seen) == Ok(PutAll(seen, v, keys), t)
    decreases v, 1, |keys|
  {
    hide Decode, Encode, EncodeAll, Encodable, AllEncodable, ToItem, Normal;
    var entries := ToEntries(v, keys);
    if keys == [] {
      NoItems(t);
    } else {
      FirstEntry(entries, t);
      var k, x := keys[0], v.fields[keys[0]];
      assert entries[0] == Tstr(k) && entries[1] == ToItem(x) && entries[2..] == ToEntries(v, keys[1..]);
      var rest := EncodeAll(entries[2..]) + t;
      TextRoundTrip(k, Encode(entries[1]) + rest);
      DecodeInvertsEncode(x, rest);
      FieldsRoundTrip(v, keys[1..], seen[k := Normal(x)], t);
    }
  }

  lemma TextRoundTrip(k: blob, t: bytes)
    ensures Decode(Encode(Tstr(k)) + t) == Ok(Text(k), t)
  {
    hide Decode, Encode;
    LeafRoundTrip(Text(k), t);
  }

  lemma LeafRoundTrip(v: Value, t: bytes)
    requires !v.Array? && !v.Object? && !v.Other?
    ensures Decode(EncodeValue(v) + t) == Ok(Normal(v), t)
  {
    hide ReadHead, HeadBytes;
    match v
    case Null => SimpleHead(22, t);
    case Bool(b) => SimpleHead(if b then 21 else 20, t);
    case Int(i) => HeadDecodes(if i >= 0 then 0 else 1, if i >= 0 then i else -1 - i, t);
    case Uint(u) => HeadDecodes(0, u, t);
    case Text(b) =>
      HeadCases(3, |b|, b, t);
      assert (b + t)[..|b|] == b && (b + t)[|b|..] == t;
    case Bytes(b) =>
      HeadCases(2, |b|, b, t);
      assert (b + t)[..|b|] == b && (b + t)[|b|..] == t;
  }

  lemma EntryDecodes(k: blob, v: Value, t: bytes, n: nat, seen: map<blob, Value>)
    requires Sized(v) && Known(v) && n > 0
    ensures DecodeFields(Encode(Tstr(k)) + (EncodeValue(v) + t), n, seen) == DecodeFields(t, n - 1, seen[k := Normal(v)])
  {
    hide Decode, Encode, EncodeValue, Normal, Sized, Known;
    TextRoundTrip(k, EncodeValue(v) + t);
    DecodeInvertsEncode(v, t);
  }

  /** The decoder takes a map that repeats a key, which the encoder never writes, and keeps the later value. */
  lemma LastOfEqualKeysWins(k: blob, v: Value, w: Value, t: bytes)
    requires Sized(v) && Known(v) && Sized(w) && Known(w)
    ensures Decode(HeadBytes(5, 2) + (Encode(Tstr(k)) + (EncodeValue(v) + (Encode(Tstr(k)) + (EncodeValue(w) + t)))))
            == Ok(Object(map[k := Normal(w)]), t)
  {
    hide Decode, DecodeFields, Encode, EncodeValue, Normal, Sized, Known, HeadBytes;
    var s := Encode(Tstr(k)) + (EncodeValue(w) + t);
    TwoEntries(Encode(Tstr(k)) + (EncodeValue(v) + s));
    EntryDecodes(k, v, s, 2, map[]);
    EntryDecodes(k, w, t, 1, map[k := Normal(v)]);
    assert map[k := Normal(v)][k := Normal(w)] == map[k := Normal(w)];
    NoFieldsLeft(t, map[k := Normal(w)]);
  }

  lemma NoFieldsLeft(t: bytes, seen: map<blob, Value>)
    ensures DecodeFields(t, 0, seen) == Ok(seen, t)
  {
  }

  lemma TwoEntries(s: bytes)
    ensures Decode(HeadBytes(5, 2) + s)
            == (var p := DecodeFields(s, 2, map[]); if p.Ok? then Ok(Object(p.value), p.rest) else Fail)
  {
    hide HeadBytes, ReadHead, DecodeFields;
    HeadDecodes(5, 2, s);
  }
}
