/** That deterministic CBOR is deterministic: equal data, whatever its order of entries was, has one accepted form. */
module Determinism {
  import opened Bytes
  import opened CborItem
  import opened FloatWidth
  import opened CatalogValidator

  /** The data an item stands for: a map is unordered, a short float is its number. */
  datatype Data =
    | Unsigned(n: u64)
    | Negative(n: u64)
    | Binary(b: blob)
    | Text(b: blob)
    | Sequence(items: seq<Data>)
    | Mapping(entries: map<Data, Data>)
    | Tagged(n: u64, data: Data)
    | SimpleValue(simple: nat)
    | Real(number: Number)
    | Bits(info: nat, bits: bytes)

  function Decoded(v: Item): Data
    decreases v, 0
  {
    match v
    case Uint(n) => Unsigned(n)
    case Nint(n) => Negative(n)
    case Bstr(b) => Binary(b)
    case Tstr(b) => Text(b)
    case Arr(items) => Sequence(DecodedAll(items))
    case Map(entries) => Mapping(DecodedEntries(entries))
    case Tag(n, item) => Tagged(n, Decoded(item))
    case Simple(n) => SimpleValue(n)
    case Float(info, bits) => if IsShortNumber(v) then Real(NumberOf(v)) else Bits(info, bits)
  }

  function DecodedAll(vs: seq<Item>): (ds: seq<Data>)
    ensures |ds| == |vs|
    decreases vs, 1
  {
    if vs == [] then [] else [Decoded(vs[0])] + DecodedAll(vs[1..])
  }

  function DecodedEntries(es: seq<Item>): map<Data, Data>
    decreases es, 1
  {
    if |es| < 2 then map[] else DecodedEntries(es[2..])[Decoded(es[0]) := Decoded(es[1])]
  }

  // ----- entries -----

  /** A key of the map is the data of some key item. */
  lemma {:induction false} KeyHasItem(es: seq<Item>, k: Data) returns (j: nat)
    requires k in DecodedEntries(es)
    ensures 2 * j + 1 < |es| && Decoded(es[2 * j]) == k
    decreases |es|
  {
    hide Decoded;
    if k == Decoded(es[0]) {
      j := 0;
    } else {
      var i := KeyHasItem(es[2..], k);
      j := i + 1;
      assert es[2..][2 * i] == es[2 * j];
    }
  }

  /** A well-formed entry list, taken apart. */
  lemma Entry(r: Rules, es: seq<Item>, prev: Option<bytes>)
    requires AllWellFormed(r, es) && AllEncodable(es) && KeysAscend(es, prev) && |es| % 2 == 0 && es != []
    ensures WellFormed(r, es[0]) && WellFormed(r, es[1]) && Encodable(es[0])
    ensures AllWellFormed(r, es[2..]) && AllEncodable(es[2..]) && KeysAscend(es[2..], Some(Encode(es[0])))
    ensures es == [es[0], es[1]] + es[2..]
  {
    hide WellFormed, Encode, Encodable, LengthFirstLess;
    assert es[1..][0] == es[1] && es[1..][1..] == es[2..];
  }

  lemma {:induction false} EveryWellFormed(r: Rules, vs: seq<Item>, i: nat)
    requires AllWellFormed(r, vs) && i < |vs|
    ensures WellFormed(r, vs[i])
  {
    hide WellFormed;
    if i > 0 {
      EveryWellFormed(r, vs[1..], i - 1);
    }
  }

  /** The first key is the least in the encoded order: equal to another key of the list, or before it. */
  lemma FirstKeyIsLeast(r: Rules, es: seq<Item>, prev: Option<bytes>, j: nat)
    requires AllWellFormed(r, es) && AllEncodable(es) && KeysAscend(es, prev) && |es| % 2 == 0 && 2 * j + 1 < |es|
    ensures Encodable(es[0]) && Encodable(es[2 * j])
    ensures j == 0 || LengthFirstLess(Encode(es[0]), Encode(es[2 * j]))
  {
    hide WellFormed, Encode, Encodable, LengthFirstLess;
    Entry(r, es, prev);
    if j > 0 {
      KeysAbove(es[2..], Encode(es[0]), j - 1);
      assert es[2..][2 * (j - 1)] == es[2 * j];
    }
  }

  /** Entry lists in key order with the same mapping are the same list. */
  lemma {:induction false} EntriesAreUnique(r: Rules, es: seq<Item>, prev: Option<bytes>, fs: seq<Item>, before: Option<bytes>)
    requires AllWellFormed(r, es) && AllEncodable(es) && KeysAscend(es, prev) && |es| % 2 == 0
    requires AllWellFormed(r, fs) && AllEncodable(fs) && KeysAscend(fs, before) && |fs| % 2 == 0
    requires DecodedEntries(es) == DecodedEntries(fs)
    ensures es == fs
    decreases es, 1
  {
    hide Decoded, WellFormed, Encode, Encodable, LengthFirstLess, AllWellFormed, AllEncodable, KeysAscend;
    if es == [] || fs == [] {
      NoEntries(es, fs);
    } else {
      Entry(r, es, prev);
      Entry(r, fs, before);
      var j := KeyHasItem(fs, Decoded(es[0]));
      EveryWellFormed(r, fs, 2 * j);
      DataIsUnique(r, es[0], fs[2 * j]);
      var i := KeyHasItem(es, Decoded(fs[0]));
      EveryWellFormed(r, es, 2 * i);
      DataIsUnique(r, es[2 * i], fs[0]);
      FirstKeyIsLeast(r, es, prev, i);
      FirstKeyIsLeast(r, fs, before, j);
      LengthFirstTotal(Encode(es[0]), Encode(fs[0]));
      assert i == 0 && j == 0;
      DataIsUnique(r, es[1], fs[1]);
      KeyIsGone(r, es, prev, es[0]);
      KeyIsGone(r, fs, before, es[0]);
      assert DecodedEntries(es[2..]) == DecodedEntries(es) - {Decoded(es[0])};
      assert DecodedEntries(fs[2..]) == DecodedEntries(fs) - {Decoded(fs[0])};
      EntriesAreUnique(r, es[2..], Some(Encode(es[0])), fs[2..], Some(Encode(fs[0])));
    }
  }

  lemma NoEntries(es: seq<Item>, fs: seq<Item>)
    requires |es| % 2 == 0 && |fs| % 2 == 0 && DecodedEntries(es) == DecodedEntries(fs)
    ensures es == [] <==> fs == []
  {
    hide Decoded;
    assert es != [] ==> Decoded(es[0]) in DecodedEntries(es);
    assert fs != [] ==> Decoded(fs[0]) in DecodedEntries(fs);
  }

  /** The first key does not come again later. */
  lemma KeyIsGone(r: Rules, es: seq<Item>, prev: Option<bytes>, key: Item)
    requires AllWellFormed(r, es) && AllEncodable(es) && KeysAscend(es, prev) && |es| % 2 == 0 && es != [] && key == es[0]
    ensures Decoded(key) !in DecodedEntries(es[2..])
    decreases key, 2
  {
    hide Decoded, WellFormed, Encode, Encodable, LengthFirstLess, AllWellFormed, AllEncodable, KeysAscend;
    Entry(r, es, prev);
    if Decoded(key) in DecodedEntries(es[2..]) {
      var j := KeyHasItem(es[2..], Decoded(key));
      EveryWellFormed(r, es[2..], 2 * j);
      DataIsUnique(r, key, es[2..][2 * j]);
      assert es[2..][2 * j] == es[2 * (j + 1)];
      KeysAreDistinct(es, prev, 0, j + 1);
    }
  }

  lemma {:induction false} SequencesAreUnique(r: Rules, vs: seq<Item>, ws: seq<Item>)
    requires AllWellFormed(r, vs) && AllWellFormed(r, ws) && DecodedAll(vs) == DecodedAll(ws)
    ensures vs == ws
    decreases vs, 1
  {
    hide Decoded, WellFormed;
    if vs != [] {
      assert DecodedAll(vs)[0] == DecodedAll(ws)[0] && DecodedAll(vs)[1..] == DecodedAll(ws)[1..];
      DataIsUnique(r, vs[0], ws[0]);
      SequencesAreUnique(r, vs[1..], ws[1..]);
      assert vs == [vs[0]] + vs[1..] && ws == [ws[0]] + ws[1..];
    }
  }

  lemma FloatsAreUnique(r: Rules, v: Item, w: Item)
    requires v.Float? && w.Float? && WellFormed(r, v) && WellFormed(r, w) && Decoded(v) == Decoded(w)
    ensures v == w
  {
    hide NumberOf;
    if IsShortNumber(v) {
      AcceptedNumbersAreUnique(r, v, w);
    }
  }

  /** Two well-formed items that stand for the same data are the same item. */
  lemma {:induction false} DataIsUnique(r: Rules, v: Item, w: Item)
    requires WellFormed(r, v) && WellFormed(r, w) && Decoded(v) == Decoded(w)
    ensures v == w
    decreases v, 0
  {
    hide NumberOf, IsShortNumber, Shortest, KeysAscend, DecodedAll, DecodedEntries, AllWellFormed;
    match v
    case Arr(items) => SequencesAreUnique(r, items, w.items);
    case Map(entries) => EntriesAreUnique(r, entries, None, w.entries, None);
    case Tag(_, item) => DataIsUnique(r, item, w.item);
    case Float(_, _) => FloatsAreUnique(r, v, w);
    case _ =>
  }

  /** Two accepted inputs that stand for the same data are the same bytes. */
  lemma DeterministicIsUnique(r: Rules, a: bytes, b: bytes)
    requires IsCanonical(r, a) && IsCanonical(r, b)
    requires Decoded(ParseItem(r, a, 1).value) == Decoded(ParseItem(r, b, 1).value)
    ensures a == b
  {
    hide ParseItem, Encode, Encodable, WellFormed, Depth, Decoded;
    var v, w := ParseItem(r, a, 1).value, ParseItem(r, b, 1).value;
    ParseItemSound(r, a, 1);
    ParseItemSound(r, b, 1);
    DataIsUnique(r, v, w);
    assert Encode(v) + [] == Encode(v);
  }
}
