/** What the device side makes of bytes the host codec writes. */
module GoInterop {
  import opened Bytes
  import opened CborHead
  import opened CborItem
  import opened GoCodec
  import opened CatalogValidator

  // ----- the items the encoder writes -----

  /** No tags, no floats, and of the simple values only false, true and null. */
  predicate Plain(v: Item)
    decreases v, 0
  {
    match v
    case Arr(items) => AllPlain(items)
    case Map(entries) => AllPlain(entries)
    case Tag(_, _) => false
    case Simple(n) => 20 <= n <= 22
    case Float(_, _) => false
    case _ => true
  }

  predicate AllPlain(vs: seq<Item>)
    decreases vs, 1
  {
    vs == [] || (Plain(vs[0]) && AllPlain(vs[1..]))
  }

  lemma {:induction false} ItemIsPlain(v: Value)
    requires Sized(v) && Known(v)
    ensures Plain(ToItem(v))
    decreases v, 2, 0
  {
    hide SortKeys;
    match v
    case Array(items) => ItemsArePlain(items);
    case Object(fields) => EntriesArePlain(v, SortKeys(fields.Keys));
    case _ =>
  }

  lemma {:induction false} ItemsArePlain(vs: seq<Value>)
    requires AllSized(vs) && AllKnown(vs)
    ensures AllPlain(ToItems(vs))
    decreases vs, 3, 0
  {
    hide ToItem, Sized, Known, Plain;
    if vs != [] {
      ItemIsPlain(vs[0]);
      ItemsArePlain(vs[1..]);
      assert ToItems(vs)[1..] == ToItems(vs[1..]);
    }
  }

  lemma {:induction false} EntriesArePlain(v: Value, keys: seq<blob>)
    requires v.Object? && Sized(v) && Known(v) && forall k :: k in keys ==> k in v.fields
    ensures AllPlain(ToEntries(v, keys))
    decreases v, 1, |keys|
  {
    hide ToItem;
    if keys != [] {
      ItemIsPlain(v.fields[keys[0]]);
      EntriesArePlain(v, keys[1..]);
      var all := ToEntries(v, keys);
      assert all[1..][0] == ToItem(v.fields[keys[0]]) && all[1..][1..] == ToEntries(v, keys[1..]);
    }
  }

  // ----- skipping -----

  /** Every argument fits a head of at most four bytes. */
  predicate Narrow(v: Item)
    decreases v, 0
  {
    match v
    case Uint(n) => n <= U32_MAX
    case Nint(n) => n <= U32_MAX
    case Bstr(b) => |b| <= U32_MAX
    case Tstr(b) => |b| <= U32_MAX
    case Arr(items) => |items| <= U32_MAX && AllNarrow(items)
    case Map(entries) => |entries| / 2 <= U32_MAX && AllNarrow(entries)
    case Tag(n, item) => n <= U32_MAX && Narrow(item)
    case _ => true
  }

  predicate AllNarrow(vs: seq<Item>)
    decreases vs, 1
  {
    vs == [] || (Narrow(vs[0]) && AllNarrow(vs[1..]))
  }

  /** The skipper's own limits: head width and nesting. */
  predicate WithinLimits(p: Profile, v: Item, depth: nat) {
    (p.wide || Narrow(v)) && (p.limit.None? || depth + Depth(v) <= p.limit.value + 1)
  }

  predicate AllWithinLimits(p: Profile, vs: seq<Item>, depth: nat) {
    (p.wide || AllNarrow(vs)) && (p.limit.None? || depth + DepthOfAll(vs) <= p.limit.value + 1)
  }

  lemma {:induction false} PlainIsSupported(p: Profile, v: Item, depth: nat)
    requires Plain(v) && WithinLimits(p, v, depth)
    ensures Supported(p, v, depth)
    decreases v, 0
  {
    hide AllPlain, AllNarrow, DepthOfAll, AllSupported;
    match v
    case Arr(items) => AllPlainSupported(p, items, depth + 1);
    case Map(entries) => AllPlainSupported(p, entries, depth + 1);
    case _ =>
  }

  lemma {:induction false} AllPlainSupported(p: Profile, vs: seq<Item>, depth: nat)
    requires AllPlain(vs) && AllWithinLimits(p, vs, depth)
    ensures AllSupported(p, vs, depth)
    decreases vs, 1
  {
    hide Plain, Narrow, Depth, Supported;
    if vs != [] {
      PlainIsSupported(p, vs[0], depth);
      AllPlainSupported(p, vs[1..], depth);
    }
  }

  /** Each skipper passes over exactly the bytes of any host-written value within its own limits. */
  lemma SkipPassesGoOutput(p: Profile, v: Value, t: bytes, depth: nat)
    requires Sized(v) && Known(v) && WithinLimits(p, ToItem(v), depth)
    ensures Skip(p, EncodeValue(v) + t, depth) == Some(t)
  {
    hide Skip, Encode, Supported, Plain, ToItem, Sized, Known, WithinLimits, Encodable;
    ItemIsEncodable(v);
    ItemIsPlain(v);
    PlainIsSupported(p, ToItem(v), depth);
    SkipPassesItem(p, ToItem(v), t, depth);
  }

  // ----- the agent's validator -----

  /** Arguments within usize and text in UTF-8. */
  predicate Fits(r: Rules, v: Item)
    decreases v, 0
  {
    match v
    case Uint(n) => n <= r.usizeMax
    case Nint(n) => n <= r.usizeMax
    case Bstr(b) => |b| <= r.usizeMax
    case Tstr(b) => |b| <= r.usizeMax && r.utf8(b)
    case Arr(items) => |items| <= r.usizeMax && AllFit(r, items)
    case Map(entries) => |entries| / 2 <= r.usizeMax && AllFit(r, entries)
    case Tag(n, item) => n <= r.usizeMax && Fits(r, item)
    case _ => true
  }

  predicate AllFit(r: Rules, vs: seq<Item>)
    decreases vs, 1
  {
    vs == [] || (Fits(r, vs[0]) && AllFit(r, vs[1..]))
  }

  /** Text keys keep their order when encoded: a longer key has no shorter head, equal lengths have equal heads. */
  lemma EncodedKeyOrder(a: blob, b: blob)
    requires LengthFirstLess(a, b)
    ensures LengthFirstLess(Encode(Tstr(a)), Encode(Tstr(b)))
  {
    hide HeadBytes, LexLess;
    if |a| == |b| {
      LexPrefix(HeadBytes(3, |a|), a, b);
    }
  }

  lemma {:induction false} GoKeysAscend(v: Value, keys: seq<blob>, prev: Option<blob>)
    requires v.Object? && Sized(v) && Known(v) && forall k :: k in keys ==> k in v.fields
    requires Ascending(keys) && (prev.Some? && keys != [] ==> LengthFirstLess(prev.value, keys[0]))
    ensures AllEncodable(ToEntries(v, keys))
    ensures KeysAscend(ToEntries(v, keys), if prev.None? then None else Some(Encode(Tstr(prev.value))))
    decreases |keys|
  {
    hide ToItem, Encode, Encodable, LengthFirstLess;
    EntriesAreEncodable(v, keys);
    if keys != [] {
      var all := ToEntries(v, keys);
      assert all[0] == Tstr(keys[0]) && all[1..][0] == ToItem(v.fields[keys[0]]) && all[2..] == ToEntries(v, keys[1..]);
      assert all[1..][1..] == all[2..];
      if prev.Some? {
        EncodedKeyOrder(prev.value, keys[0]);
      }
      GoKeysAscend(v, keys[1..], Some(keys[0]));
    }
  }

  lemma {:induction false} GoItemIsWellFormed(r: Rules, v: Value)
    requires Sized(v) && Known(v) && Fits(r, ToItem(v))
    ensures WellFormed(r, ToItem(v))
    decreases v, 2, 0
  {
    hide SortKeys, KeysAscend, AllFit, AllWellFormed, AllEncodable, ToItems, ToEntries;
    ItemIsEncodable(v);
    match v
    case Array(items) => GoItemsAreWellFormed(r, items);
    case Object(fields) =>
      var keys := SortKeys(fields.Keys);
      SortedKeysAreFields(v);
      GoEntriesAreWellFormed(r, v, keys);
      GoKeysAscend(v, keys, None);
    case _ =>
  }

  lemma {:induction false} GoItemsAreWellFormed(r: Rules, vs: seq<Value>)
    requires AllSized(vs) && AllKnown(vs) && AllFit(r, ToItems(vs))
    ensures AllWellFormed(r, ToItems(vs))
    decreases vs, 3, 0
  {
    hide ToItem, Sized, Known, Fits, WellFormed;
    if vs != [] {
      assert ToItems(vs)[1..] == ToItems(vs[1..]);
      GoItemIsWellFormed(r, vs[0]);
      GoItemsAreWellFormed(r, vs[1..]);
    }
  }

  lemma {:induction false} GoEntriesAreWellFormed(r: Rules, v: Value, keys: seq<blob>)
    requires v.Object? && Sized(v) && Known(v) && (forall k :: k in keys ==> k in v.fields)
    requires AllFit(r, ToEntries(v, keys))
    ensures AllWellFormed(r, ToEntries(v, keys))
    decreases v, 1, |keys|
  {
    hide ToItem;
    if keys != [] {
      var all := ToEntries(v, keys);
      assert all[1..][0] == ToItem(v.fields[keys[0]]) && all[1..][1..] == ToEntries(v, keys[1..]);
      GoItemIsWellFormed(r, v.fields[keys[0]]);
      GoEntriesAreWellFormed(r, v, keys[1..]);
    }
  }

  /** The agent accepts as canonical any host-written value whose sizes, text and nesting it can take. */
  lemma GoOutputIsCanonical(r: Rules, v: Value)
    requires Sized(v) && Known(v) && Fits(r, ToItem(v)) && Depth(ToItem(v)) <= MAX_NESTING
    ensures IsCanonical(r, EncodeValue(v))
  {
    hide IsCanonical, Encode, Encodable, ToItem, Sized, Known, Fits, WellFormed, Depth;
    ItemIsEncodable(v);
    GoItemIsWellFormed(r, v);
    assert Admissible(r, ToItem(v));
    CanonicalIff(r, EncodeValue(v));
  }
}
