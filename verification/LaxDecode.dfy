/** What the host's decoder makes of any item with text keys, in whatever order its entries come. */
module LaxDecode {
  import opened Bytes
  import opened CborHead
  import opened CborItem
  import opened GoCodec

  /** No tags, no floats, of the simple values false, true and null, and text keys. */
  predicate Readable(v: Item)
    decreases v, 0
  {
    match v
    case Arr(items) => AllReadable(items)
    case Map(entries) => EntriesReadable(entries)
    case Tag(_, _) => false
    case Simple(n) => 20 <= n <= 22
    case Float(_, _) => false
    case _ => true
  }

  predicate AllReadable(vs: seq<Item>)
    decreases vs, 1
  {
    vs == [] || (Readable(vs[0]) && AllReadable(vs[1..]))
  }

  predicate EntriesReadable(es: seq<Item>)
    decreases es, 1
  {
    |es| < 2 || (es[0].Tstr? && Readable(es[1]) && EntriesReadable(es[2..]))
  }

  function FromItem(v: Item): Value
    requires Readable(v)
    decreases v, 0
  {
    match v
    case Uint(n) => Value.Uint(n)
    case Nint(n) => Int(NegativeOf(n))
    case Bstr(b) => Bytes(b)
    case Tstr(b) => Text(b)
    case Arr(items) => Array(FromItems(items))
    case Map(entries) => Object(FromEntries(entries, map[]))
    case Simple(n) => if n == 22 then Null else Bool(n == 21)
  }

  function FromItems(vs: seq<Item>): seq<Value>
    requires AllReadable(vs)
    decreases vs, 1
  {
    if vs == [] then [] else [FromItem(vs[0])] + FromItems(vs[1..])
  }

  function FromEntries(es: seq<Item>, seen: map<blob, Value>): map<blob, Value>
    requires EntriesReadable(es)
    decreases es, 1
  {
    if |es| < 2 then seen else FromEntries(es[2..], seen[es[0].b := FromItem(es[1])])
  }

  lemma LeafDecodes(v: Item, t: bytes)
    requires Encodable(v) && Readable(v) && !v.Arr? && !v.Map?
    ensures Decode(Encode(v) + t) == Ok(FromItem(v), t)
  {
    hide ReadHead, HeadBytes;
    match v
    case Uint(n) => HeadDecodes(0, n, t);
    case Nint(n) => HeadDecodes(1, n, t);
    case Bstr(b) =>
      HeadCases(2, |b|, b, t);
      assert (b + t)[..|b|] == b && (b + t)[|b|..] == t;
    case Tstr(b) =>
      HeadCases(3, |b|, b, t);
      assert (b + t)[..|b|] == b && (b + t)[|b|..] == t;
    case Simple(n) => SimpleHead(n, t);
  }

  lemma ArrayDecodes(items: seq<Item>, t: bytes)
    requires Encodable(Arr(items)) && AllReadable(items)
    requires DecodeMany(EncodeAll(items) + t, |items|) == Ok(FromItems(items), t)
    ensures Decode(Encode(Arr(items)) + t) == Ok(FromItem(Arr(items)), t)
  {
    hide ReadHead, HeadBytes, EncodeAll, DecodeMany, FromItems, AllReadable, AllEncodable;
    HeadCases(4, |items|, EncodeAll(items), t);
  }

  lemma MapDecodes(entries: seq<Item>, t: bytes)
    requires Encodable(Map(entries)) && EntriesReadable(entries)
    requires DecodeFields(EncodeAll(entries) + t, |entries| / 2, map[]) == Ok(FromEntries(entries, map[]), t)
    ensures Decode(Encode(Map(entries)) + t) == Ok(FromItem(Map(entries)), t)
  {
    hide ReadHead, HeadBytes, EncodeAll, DecodeFields, FromEntries, EntriesReadable, AllEncodable;
    HeadCases(5, |entries| / 2, EncodeAll(entries), t);
  }

  /** The decoder reads every such item, whatever the order of its entries, the last of equal keys winning. */
  lemma {:induction false} ItemDecodes(v: Item, t: bytes)
    requires Encodable(v) && Readable(v)
    ensures Decode(Encode(v) + t) == Ok(FromItem(v), t)
    decreases v, 0
  {
    hide Decode, Encode, EncodeAll, AllEncodable, FromItem, AllReadable, EntriesReadable;
    match v
    case Arr(items) =>
      ItemsDecode(items, t);
      ArrayDecodes(items, t);
    case Map(entries) =>
      EntriesDecode(entries, map[], t);
      MapDecodes(entries, t);
    case _ => LeafDecodes(v, t);
  }

  lemma {:induction false} ItemsDecode(vs: seq<Item>, t: bytes)
    requires AllEncodable(vs) && AllReadable(vs)
    ensures DecodeMany(EncodeAll(vs) + t, |vs|) == Ok(FromItems(vs), t)
    decreases vs, 1
  {
    hide Decode, Encode, EncodeAll, Encodable, Readable, FromItem;
    if vs == [] {
      NoItems(t);
    } else {
      FirstItem(vs, t);
      ItemDecodes(vs[0], EncodeAll(vs[1..]) + t);
      ItemsDecode(vs[1..], t);
    }
  }

  lemma {:induction false} EntriesDecode(es: seq<Item>, seen: map<blob, Value>, t: bytes)
    requires AllEncodable(es) && EntriesReadable(es) && |es| % 2 == 0
    ensures DecodeFields(EncodeAll(es) + t, |es| / 2, seen) == Ok(FromEntries(es, seen), t)
    decreases es, 1
  {
    hide Decode, Encode, EncodeAll, Encodable, AllEncodable, Readable, FromItem;
    if es == [] {
      NoItems(t);
    } else {
      FirstEntry(es, t);
      var rest := EncodeAll(es[2..]) + t;
      TextRoundTrip(es[0].b, Encode(es[1]) + rest);
      ItemDecodes(es[1], rest);
      EntriesDecode(es[2..], seen[es[0].b := FromItem(es[1])], t);
    }
  }
}
