/** The agent's deterministic-CBOR validator (sections 4.1, 4.2.1 and 4.2.3 of RFC 8949). */
module CatalogValidator {
  import opened Bytes
  import opened CborHead
  import opened CborItem
  import opened FloatWidth

  const MAX_NESTING := 16

  /**
   * What the validator takes from its platform: the largest usize, the UTF-8 test, and whether the binary64
   * number with the given bits comes back from binary32 unchanged.
   */
  datatype Rules = Rules(usizeMax: nat, utf8: bytes -> bool, narrows: bytes -> bool)

  /** Whether a float of this width is in its shortest form. The one accepted NaN is the binary16 0x7e00. */
  predicate Shortest(r: Rules, info: nat, bits: bytes)
    requires 25 <= info <= 27 && |bits| == InfoWidth(info)
  {
    var n := FromBigEndian(bits);
    if info == 25 then !IsNaN16(n) || n == 0x7e00
    else if info == 26 then !IsNaN32(n) && !F32IsExactF16(n)
    else !IsNaN64(n) && !r.narrows(bits)
  }

  predicate IsNaN64(n: nat) { n / 0x10_0000_0000_0000 % 0x800 == 0x7ff && n % 0x10_0000_0000_0000 != 0 }

  // ----- the values a canonical encoding can stand for -----

  predicate WellFormed(r: Rules, v: Item)
    decreases v, 0
  {
    Encodable(v)
    && match v
       case Uint(n) => n <= r.usizeMax
       case Nint(n) => n <= r.usizeMax
       case Bstr(b) => |b| <= r.usizeMax
       case Tstr(b) => |b| <= r.usizeMax && r.utf8(b)
       case Arr(items) => |items| <= r.usizeMax && AllWellFormed(r, items)
       case Map(entries) => |entries| / 2 <= r.usizeMax && AllWellFormed(r, entries) && KeysAscend(entries, None)
       case Tag(n, item) => n <= r.usizeMax && WellFormed(r, item)
       case Simple(_) => true
       case Float(info, bits) => Shortest(r, info, bits)
  }

  predicate AllWellFormed(r: Rules, vs: seq<Item>)
    decreases vs, 1
  {
    vs == [] || (WellFormed(r, vs[0]) && AllWellFormed(r, vs[1..]))
  }

  /** The encoded keys of a flat entry list are strictly increasing, starting above `prev`. */
  predicate KeysAscend(entries: seq<Item>, prev: Option<bytes>)
    requires AllEncodable(entries)
  {
    |entries| < 2 ||
    ((prev.Some? ==> LengthFirstLess(prev.value, Encode(entries[0])))
     && AllEncodable(entries[1..]) && KeysAscend(entries[2..], Some(Encode(entries[0]))))
  }

  function Depth(v: Item): (d: nat)
    ensures d > 0
    decreases v, 0
  {
    match v
    case Arr(items) => 1 + DepthOfAll(items)
    case Map(entries) => 1 + DepthOfAll(entries)
    case Tag(_, item) => 1 + Depth(item)
    case _ => 1
  }

  function DepthOfAll(vs: seq<Item>): nat
    decreases vs, 1
  {
    if vs == [] then 0
    else if Depth(vs[0]) > DepthOfAll(vs[1..]) then Depth(vs[0]) else DepthOfAll(vs[1..])
  }

  // ----- the validator, yielding the value it has seen -----

  /** parse_simple_or_float. */
  function ParseSimple(r: Rules, s: bytes): (p: Parsed<Item>)
    ensures p.Ok? ==> |p.rest| < |s|
  {
    var h := ReadHead(s);
    if h.Fail? then Fail
    else
      var Head(_, info, n) := h.value;
      if info < 24 then Ok(Simple(info), h.rest)
      else if info == 24 then if 32 <= n < 256 then Ok(Simple(n), h.rest) else Fail
      else
        var bits := s[1..1 + InfoWidth(info)];
        if Shortest(r, info, bits) then Ok(Float(info, bits), h.rest) else Fail
  }

  function ParseItem(r: Rules, s: bytes, depth: nat): (p: Parsed<Item>)
    ensures p.Ok? ==> |p.rest| < |s|
    decreases |s|, 0
  {
    var h := ReadHead(s);
    if depth > MAX_NESTING || h.Fail? then Fail
    else if h.value.major == 7 then ParseSimple(r, s)
    else if !Minimal(h.value) || h.value.value > r.usizeMax then Fail
    else
      var n, rest := h.value.value, h.rest;
      match h.value.major
      case 0 => Ok(Uint(n), rest)
      case 1 => Ok(Nint(n), rest)
      case 2 => if n <= |rest| then Ok(Bstr(rest[..n]), rest[n..]) else Fail
      case 3 => if n <= |rest| && r.utf8(rest[..n]) then Ok(Tstr(rest[..n]), rest[n..]) else Fail
      case 4 =>
        var (items, rest) :- ParseItems(r, rest, n, depth + 1);
        Ok(Arr(items), rest)
      case 5 =>
        var (entries, rest) :- ParseEntries(r, rest, n, depth + 1, None);
        Ok(Map(entries), rest)
      case _ =>
        var (item, rest) :- ParseItem(r, rest, depth + 1);
        Ok(Tag(n, item), rest)
  }

  function ParseItems(r: Rules, s: bytes, n: nat, depth: nat): (p: Parsed<seq<Item>>)
    ensures p.Ok? ==> |p.rest| <= |s| && |p.value| == n
    decreases |s|, 1
  {
    if n == 0 then Ok([], s)
    else
      var (item, rest) :- ParseItem(r, s, depth);
      var (items, rest) :- ParseItems(r, rest, n - 1, depth);
      Ok([item] + items, rest)
  }

  function ParseEntries(r: Rules, s: bytes, n: nat, depth: nat, prev: Option<bytes>): (p: Parsed<seq<Item>>)
    ensures p.Ok? ==> |p.rest| <= |s| && |p.value| == 2 * n
    decreases |s|, 1
  {
    if n == 0 then Ok([], s)
    else
      var (key, rest) :- ParseItem(r, s, depth);
      var encoded := s[..|s| - |rest|];
      if prev.Some? && !LengthFirstLess(prev.value, encoded) then Fail
      else
        var (value, rest) :- ParseItem(r, rest, depth);
        var (entries, rest) :- ParseEntries(r, rest, n - 1, depth, Some(encoded));
        Ok([key, value] + entries, rest)
  }

  predicate IsCanonical(r: Rules, input: bytes) {
    var p := ParseItem(r, input, 1);
    p.Ok? && p.rest == []
  }

  // ----- accepted bytes are the encoding of the value -----

  /** What parsing an item tells about the item and the bytes. */
  predicate Describes(r: Rules, s: bytes, depth: nat, v: Item, rest: bytes) {
    Encodable(v) && WellFormed(r, v) && s == Encode(v) + rest && depth + Depth(v) <= MAX_NESTING + 1
  }

  predicate DescribesAll(r: Rules, s: bytes, depth: nat, vs: seq<Item>, rest: bytes) {
    AllWellFormed(r, vs) && AllEncodable(vs) && s == EncodeAll(vs) + rest && depth + DepthOfAll(vs) <= MAX_NESTING + 1
  }

  lemma SimpleBytes(s: bytes)
    requires ReadHead(s).Ok? && ReadHead(s).value.major == 7
    ensures var h := ReadHead(s); var info := h.value.info; var bits := s[1..1 + InfoWidth(info)];
            s == [0xe0 + info] + bits + h.rest && |bits| == InfoWidth(info) && (info == 24 ==> bits == [h.value.value])
  {
    var w := InfoWidth(s[0] % 32);
    assert s == [s[0]] + s[1..1 + w] + s[1 + w..];
    if s[0] % 32 == 24 {
      assert s[1..2][..0] == [];
    }
  }

  lemma SimpleSound(r: Rules, s: bytes, depth: nat)
    requires ParseSimple(r, s).Ok? && ReadHead(s).value.major == 7 && depth <= MAX_NESTING
    ensures var p := ParseSimple(r, s); Describes(r, s, depth, p.value, p.rest)
  {
    hide ReadHead, Shortest;
    SimpleBytes(s);
    var h := ReadHead(s);
    var bits := s[1..1 + InfoWidth(h.value.info)];
    if h.value.info < 24 {
      assert bits == [] && [0xe0 + h.value.info] + bits == [0xe0 + h.value.info];
    } else if h.value.info == 24 {
      assert [0xf8] + bits == [0xf8, h.value.value];
    }
  }

  lemma NumberSound(r: Rules, depth: nat, n: u64, rest: bytes)
    requires n <= r.usizeMax && depth <= MAX_NESTING
    ensures Describes(r, HeadBytes(0, n) + rest, depth, Uint(n), rest)
    ensures Describes(r, HeadBytes(1, n) + rest, depth, Nint(n), rest)
  {
    hide HeadBytes;
  }

  lemma StringSound(r: Rules, depth: nat, n: u64, rest: bytes)
    requires n <= r.usizeMax && n <= |rest| && depth <= MAX_NESTING
    ensures Describes(r, HeadBytes(2, n) + rest, depth, Bstr(rest[..n]), rest[n..])
    ensures r.utf8(rest[..n]) ==> Describes(r, HeadBytes(3, n) + rest, depth, Tstr(rest[..n]), rest[n..])
  {
    hide HeadBytes;
    assert rest == rest[..n] + rest[n..];
    assert HeadBytes(2, n) + rest == HeadBytes(2, n) + rest[..n] + rest[n..];
    assert HeadBytes(3, n) + rest == HeadBytes(3, n) + rest[..n] + rest[n..];
  }

  lemma ArraySound(r: Rules, depth: nat, items: seq<Item>, body: bytes, rest: bytes)
    requires |items| <= r.usizeMax && |items| <= U64_MAX && DescribesAll(r, body, depth + 1, items, rest)
    ensures Describes(r, HeadBytes(4, |items|) + body, depth, Arr(items), rest)
  {
    hide HeadBytes, EncodeAll, AllWellFormed, AllEncodable, DepthOfAll;
  }

  lemma MapSound(r: Rules, depth: nat, entries: seq<Item>, body: bytes, rest: bytes)
    requires |entries| % 2 == 0 && |entries| / 2 <= r.usizeMax && |entries| / 2 <= U64_MAX
    requires DescribesAll(r, body, depth + 1, entries, rest) && KeysAscend(entries, None)
    ensures Describes(r, HeadBytes(5, |entries| / 2) + body, depth, Map(entries), rest)
  {
    hide HeadBytes, EncodeAll, AllWellFormed, AllEncodable, DepthOfAll, KeysAscend;
  }

  lemma TagSound(r: Rules, depth: nat, n: u64, item: Item, body: bytes, rest: bytes)
    requires n <= r.usizeMax && Describes(r, body, depth + 1, item, rest)
    ensures Describes(r, HeadBytes(6, n) + body, depth, Tag(n, item), rest)
  {
    hide HeadBytes;
  }

  /** Accepted bytes are the one encoding of a well-formed value within the nesting limit. */
  lemma {:induction false} ParseItemSound(r: Rules, s: bytes, depth: nat)
    requires ParseItem(r, s, depth).Ok?
    ensures Describes(r, s, depth, ParseItem(r, s, depth).value, ParseItem(r, s, depth).rest)
    decreases |s|, 0
  {
    hide ReadHead, HeadBytes, Describes, DescribesAll, InfoOf, KeysAscend, ParseSimple;
    var h := ReadHead(s);
    if h.value.major == 7 {
      SimpleSound(r, s, depth);
    } else {
      HeadEncodes(s);
      var n, rest := h.value.value, h.rest;
      match h.value.major
      case 0 => NumberSound(r, depth, n, rest);
      case 1 => NumberSound(r, depth, n, rest);
      case 2 => StringSound(r, depth, n, rest);
      case 3 => StringSound(r, depth, n, rest);
      case 4 =>
        ParseItemsSound(r, rest, n, depth + 1);
        var p := ParseItems(r, rest, n, depth + 1);
        ArraySound(r, depth, p.value, rest, p.rest);
      case 5 =>
        ParseEntriesSound(r, rest, n, depth + 1, None);
        var p := ParseEntries(r, rest, n, depth + 1, None);
        AllAreEncodable(r, rest, depth + 1, p.value, p.rest);
        MapSound(r, depth, p.value, rest, p.rest);
      case _ =>
        ParseItemSound(r, rest, depth + 1);
        var p := ParseItem(r, rest, depth + 1);
        TagSound(r, depth, n, p.value, rest, p.rest);
    }
  }

  lemma AllAreEncodable(r: Rules, s: bytes, depth: nat, vs: seq<Item>, rest: bytes)
    requires DescribesAll(r, s, depth, vs, rest)
    ensures AllEncodable(vs)
  {
  }

  lemma {:induction false} ParseItemsSound(r: Rules, s: bytes, n: nat, depth: nat)
    requires depth <= MAX_NESTING + 1 && ParseItems(r, s, n, depth).Ok?
    ensures DescribesAll(r, s, depth, ParseItems(r, s, n, depth).value, ParseItems(r, s, n, depth).rest)
    decreases |s|, 1
  {
    hide ParseItem, Encode, WellFormed;
    if n > 0 {
      var a := ParseItem(r, s, depth);
      ParseItemSound(r, s, depth);
      ParseItemsSound(r, a.rest, n - 1, depth);
      var b := ParseItems(r, a.rest, n - 1, depth);
      AllCons(r, s, depth, a.value, b.value, a.rest, b.rest);
    }
  }

  /** One described item in front of described items. */
  lemma AllCons(r: Rules, s: bytes, depth: nat, v: Item, vs: seq<Item>, mid: bytes, rest: bytes)
    requires Describes(r, s, depth, v, mid) && DescribesAll(r, mid, depth, vs, rest)
    ensures DescribesAll(r, s, depth, [v] + vs, rest)
  {
    hide Encode;
    var all := [v] + vs;
    assert all[0] == v && all[1..] == vs;
    assert Encode(v) + (EncodeAll(vs) + rest) == Encode(v) + EncodeAll(vs) + rest;
  }

  lemma {:induction false} ParseEntriesSound(r: Rules, s: bytes, n: nat, depth: nat, prev: Option<bytes>)
    requires depth <= MAX_NESTING + 1 && ParseEntries(r, s, n, depth, prev).Ok?
    ensures var p := ParseEntries(r, s, n, depth, prev);
            DescribesAll(r, s, depth, p.value, p.rest) && KeysAscend(p.value, prev)
    decreases |s|, 1
  {
    hide ParseItem, Encode, WellFormed, LengthFirstLess;
    if n > 0 {
      var k := ParseItem(r, s, depth);
      ParseItemSound(r, s, depth);
      var encoded := s[..|s| - |k.rest|];
      assert encoded == Encode(k.value);
      var v := ParseItem(r, k.rest, depth);
      ParseItemSound(r, k.rest, depth);
      ParseEntriesSound(r, v.rest, n - 1, depth, Some(encoded));
      var e := ParseEntries(r, v.rest, n - 1, depth, Some(encoded));
      AllCons(r, k.rest, depth, v.value, e.value, v.rest, e.rest);
      AllCons(r, s, depth, k.value, [v.value] + e.value, k.rest, e.rest);
      var all := [k.value, v.value] + e.value;
      assert [k.value] + ([v.value] + e.value) == all;
      assert all[1..] == [v.value] + e.value && all[2..] == e.value;
    }
  }

  // ----- every well-formed value's encoding is accepted -----

  lemma SimpleComplete(r: Rules, v: Item, t: bytes, depth: nat)
    requires (v.Simple? || v.Float?) && WellFormed(r, v) && depth <= MAX_NESTING
    ensures ParseItem(r, Encode(v) + t, depth) == Ok(v, t)
  {
    hide ReadHead, FromBigEndian, Shortest;
    match v
    case Simple(n) => SimpleHead(n, t);
    case Float(info, bits) =>
      var s := Encode(v) + t;
      RawHead(s, info, bits, t);
      assert s[1..1 + InfoWidth(info)] == bits;
  }

  lemma StringComplete(r: Rules, v: Item, t: bytes, depth: nat)
    requires (v.Bstr? || v.Tstr?) && WellFormed(r, v) && depth <= MAX_NESTING
    ensures ParseItem(r, Encode(v) + t, depth) == Ok(v, t)
  {
    hide ReadHead, HeadBytes, InfoOf;
    HeadCases(if v.Bstr? then 2 else 3, |v.b|, v.b, t);
    assert (v.b + t)[..|v.b|] == v.b && (v.b + t)[|v.b|..] == t;
  }

  lemma NumberComplete(r: Rules, v: Item, t: bytes, depth: nat)
    requires (v.Uint? || v.Nint?) && WellFormed(r, v) && depth <= MAX_NESTING
    ensures ParseItem(r, Encode(v) + t, depth) == Ok(v, t)
  {
    hide ReadHead, HeadBytes, InfoOf;
    HeadDecodes(if v.Uint? then 0 else 1, v.n, t);
  }

  lemma ArrayComplete(r: Rules, items: seq<Item>, t: bytes, depth: nat)
    requires WellFormed(r, Arr(items)) && depth <= MAX_NESTING
    requires ParseItems(r, EncodeAll(items) + t, |items|, depth + 1) == Ok(items, t)
    ensures ParseItem(r, Encode(Arr(items)) + t, depth) == Ok(Arr(items), t)
  {
    hide ReadHead, HeadBytes, InfoOf, EncodeAll, ParseItems;
    HeadCases(4, |items|, EncodeAll(items), t);
  }

  lemma MapComplete(r: Rules, entries: seq<Item>, t: bytes, depth: nat)
    requires WellFormed(r, Map(entries)) && depth <= MAX_NESTING
    requires ParseEntries(r, EncodeAll(entries) + t, |entries| / 2, depth + 1, None) == Ok(entries, t)
    ensures ParseItem(r, Encode(Map(entries)) + t, depth) == Ok(Map(entries), t)
  {
    hide ReadHead, HeadBytes, InfoOf, EncodeAll, ParseEntries, KeysAscend;
    HeadCases(5, |entries| / 2, EncodeAll(entries), t);
  }

  lemma TagComplete(r: Rules, n: u64, item: Item, t: bytes, depth: nat)
    requires WellFormed(r, Tag(n, item)) && depth <= MAX_NESTING
    requires ParseItem(r, Encode(item) + t, depth + 1) == Ok(item, t)
    ensures ParseItem(r, Encode(Tag(n, item)) + t, depth) == Ok(Tag(n, item), t)
  {
    hide ReadHead, HeadBytes, InfoOf;
    HeadCases(6, n, Encode(item), t);
  }

  /** The encoding of a well-formed value within the nesting limit is accepted, and read back as that value. */
  lemma {:induction false} ParseItemComplete(r: Rules, v: Item, t: bytes, depth: nat)
    requires WellFormed(r, v) && depth + Depth(v) <= MAX_NESTING + 1
    ensures ParseItem(r, Encode(v) + t, depth) == Ok(v, t)
    decreases v, 0
  {
    hide ParseItem, Encode, KeysAscend, EncodeAll, AllEncodable, DepthOfAll, AllWellFormed;
    match v
    case Uint(_) => NumberComplete(r, v, t, depth);
    case Nint(_) => NumberComplete(r, v, t, depth);
    case Bstr(_) => StringComplete(r, v, t, depth);
    case Tstr(_) => StringComplete(r, v, t, depth);
    case Arr(items) =>
      ParseItemsComplete(r, items, t, depth + 1);
      ArrayComplete(r, items, t, depth);
    case Map(entries) =>
      ParseEntriesComplete(r, entries, None, t, depth + 1);
      MapComplete(r, entries, t, depth);
    case Tag(n, item) =>
      ParseItemComplete(r, item, t, depth + 1);
      TagComplete(r, n, item, t, depth);
    case Simple(_) => SimpleComplete(r, v, t, depth);
    case Float(_, _) => SimpleComplete(r, v, t, depth);
  }

  lemma {:induction false} ParseItemsComplete(r: Rules, vs: seq<Item>, t: bytes, depth: nat)
    requires AllWellFormed(r, vs) && AllEncodable(vs) && depth + DepthOfAll(vs) <= MAX_NESTING + 1
    ensures ParseItems(r, EncodeAll(vs) + t, |vs|, depth) == Ok(vs, t)
    decreases vs, 1
  {
    hide ParseItem, Encode, EncodeAll, WellFormed, Encodable, Depth;
    if vs == [] {
      NoItems(t);
    } else {
      FirstItem(vs, t);
      ParseItemComplete(r, vs[0], EncodeAll(vs[1..]) + t, depth);
      ParseItemsComplete(r, vs[1..], t, depth);
    }
  }

  lemma FirstEntryFits(r: Rules, vs: seq<Item>)
    requires AllWellFormed(r, vs) && |vs| % 2 == 0 && vs != []
    ensures WellFormed(r, vs[0]) && WellFormed(r, vs[1]) && AllWellFormed(r, vs[2..])
    ensures Depth(vs[0]) <= DepthOfAll(vs) && Depth(vs[1]) <= DepthOfAll(vs) && DepthOfAll(vs[2..]) <= DepthOfAll(vs)
  {
    hide WellFormed, Depth;
    assert vs[1..][0] == vs[1] && vs[1..][1..] == vs[2..];
  }

  lemma {:induction false} ParseEntriesComplete(r: Rules, vs: seq<Item>, prev: Option<bytes>, t: bytes, depth: nat)
    requires AllWellFormed(r, vs) && AllEncodable(vs) && depth + DepthOfAll(vs) <= MAX_NESTING + 1
    requires |vs| % 2 == 0 && KeysAscend(vs, prev)
    ensures ParseEntries(r, EncodeAll(vs) + t, |vs| / 2, depth, prev) == Ok(vs, t)
    decreases vs, 1
  {
    hide ParseItem, Encode, EncodeAll, WellFormed, LengthFirstLess, Encodable, AllEncodable, Depth, DepthOfAll,
      AllWellFormed;
    if vs == [] {
      NoItems(t);
    } else {
      FirstEntry(vs, t);
      FirstEntryFits(r, vs);
      var rest := EncodeAll(vs[2..]) + t;
      ParseItemComplete(r, vs[0], Encode(vs[1]) + rest, depth);
      ParseItemComplete(r, vs[1], rest, depth);
      ParseEntriesComplete(r, vs[2..], Some(Encode(vs[0])), t, depth);
    }
  }

  // ----- what the validator decides -----

  /** A value the validator's rules admit, within the nesting limit. */
  predicate Admissible(r: Rules, v: Item) {
    Encodable(v) && WellFormed(r, v) && Depth(v) <= MAX_NESTING
  }

  /** An input is accepted exactly when it is the encoding of an admissible value. */
  lemma CanonicalIff(r: Rules, input: bytes)
    ensures IsCanonical(r, input) <==> exists v :: Admissible(r, v) && input == Encode(v)
  {
    hide ParseItem, Encode, WellFormed, Depth;
    if IsCanonical(r, input) {
      ParseItemSound(r, input, 1);
      var v := ParseItem(r, input, 1).value;
      assert Encode(v) + [] == Encode(v);
      assert Admissible(r, v) && input == Encode(v);
    }
    forall v | Admissible(r, v) && input == Encode(v)
      ensures IsCanonical(r, input)
    {
      ParseItemComplete(r, v, [], 1);
      assert Encode(v) + [] == Encode(v);
    }
  }

  /** No two accepted values share an encoding, and none encodes to a prefix of another. */
  lemma EncodingIsPrefixFree(r: Rules, v: Item, w: Item, t: bytes, u: bytes)
    requires Admissible(r, v) && Admissible(r, w) && Encode(v) + t == Encode(w) + u
    ensures v == w && t == u
  {
    hide ParseItem, Encode, WellFormed, Depth;
    ParseItemComplete(r, v, t, 1);
    ParseItemComplete(r, w, u, 1);
  }

  lemma {:induction false} KeysAbove(entries: seq<Item>, prev: bytes, j: nat)
    requires AllEncodable(entries) && KeysAscend(entries, Some(prev)) && 2 * j + 1 < |entries|
    ensures Encodable(entries[2 * j]) && LengthFirstLess(prev, Encode(entries[2 * j]))
  {
    hide Encode, LengthFirstLess, Encodable;
    if j > 0 {
      assert AllEncodable(entries[1..][1..]) && entries[1..][1..] == entries[2..];
      KeysAbove(entries[2..], Encode(entries[0]), j - 1);
      assert entries[2..][2 * (j - 1)] == entries[2 * j];
      LengthFirstTransitive(prev, Encode(entries[0]), Encode(entries[2 * j]));
    }
  }

  /** The keys of an accepted map differ pairwise, so a repeated key is never accepted. */
  lemma {:induction false} KeysAreDistinct(entries: seq<Item>, prev: Option<bytes>, i: nat, j: nat)
    requires AllEncodable(entries) && KeysAscend(entries, prev) && i < j && 2 * j + 1 < |entries|
    ensures entries[2 * i] != entries[2 * j]
  {
    hide Encode, LengthFirstLess, Encodable;
    assert AllEncodable(entries[1..][1..]) && entries[1..][1..] == entries[2..];
    assert entries[2..][2 * (j - 1)] == entries[2 * j];
    if i == 0 {
      KeysAbove(entries[2..], Encode(entries[0]), j - 1);
      LengthFirstTotal(Encode(entries[0]), Encode(entries[0]));
    } else {
      KeysAreDistinct(entries[2..], Some(Encode(entries[0])), i - 1, j - 1);
      assert entries[2..][2 * (i - 1)] == entries[2 * i];
    }
  }

  // ----- floats -----

  /** A binary16 or binary32 item that stands for a number. */
  predicate IsShortNumber(v: Item) {
    v.Float? && Encodable(v) && v.info < 27
    && if v.info == 25 then !IsNaN16(FromBigEndian(v.bits)) else !IsNaN32(FromBigEndian(v.bits))
  }

  function NumberOf(v: Item): Number
    requires IsShortNumber(v)
  {
    PowersOf256();
    if v.info == 25 then Number16(FromBigEndian(v.bits)) else Number32(FromBigEndian(v.bits))
  }

  /** A binary32 number is accepted exactly when no binary16 number equals it. */
  lemma SingleAcceptedIff(r: Rules, v: Item)
    requires IsShortNumber(v) && v.info == 26
    ensures Admissible(r, v) <==> forall w :: IsShortNumber(w) && w.info == 25 ==> NumberOf(w) != NumberOf(v)
  {
    hide Number16, Number32, F32IsExactF16, IsNaN16, IsNaN32;
    var n := FromBigEndian(v.bits);
    PowersOf256();
    ExactHalfIff(n);
    if F32IsExactF16(n) {
      var h :| 0 <= h < 0x1_0000 && !IsNaN16(h) && Number16(h) == Number32(n);
      BigEndianDecodes(h, 2);
      assert NumberOf(Float(25, BigEndian(h, 2))) == NumberOf(v);
    }
  }

  /** Each number has at most one accepted binary16 or binary32 form. */
  lemma AcceptedNumbersAreUnique(r: Rules, v: Item, w: Item)
    requires IsShortNumber(v) && IsShortNumber(w) && Admissible(r, v) && Admissible(r, w) && NumberOf(v) == NumberOf(w)
    ensures v == w
  {
    hide Number16, Number32, F32IsExactF16, IsNaN16, IsNaN32;
    var a, b := FromBigEndian(v.bits), FromBigEndian(w.bits);
    PowersOf256();
    BigEndianEncodes(v.bits);
    BigEndianEncodes(w.bits);
    if v.info != w.info {
      SingleAcceptedIff(r, if v.info == 26 then v else w);
    } else if v.info == 25 {
      Number16Injective(a, b);
    } else {
      Number32Injective(a, b);
    }
  }
}
