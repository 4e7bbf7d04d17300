/** CBOR data items as values, their one deterministic byte form, and the skippers over both. */
module CborItem {
  import opened Bytes
  import opened CborHead

  /** Floats are kept as their bits; a map is the list of its entries in encoded order. */
  datatype Item =
    | Uint(n: u64)
    | Nint(n: u64)
    | Bstr(b: blob)
    | Tstr(b: blob)
    | Arr(items: seq<Item>)
    | Map(entries: seq<Item>)
    | Tag(n: u64, item: Item)
    | Simple(simple: nat)
    | Float(info: nat, bits: bytes)

  /** The argument fits its head: counts below 2^64, map entries in pairs, simple values and floats of their size. */
  predicate Encodable(v: Item)
    decreases v, 0
  {
    match v
    case Arr(items) => |items| <= U64_MAX && AllEncodable(items)
    case Map(entries) => |entries| % 2 == 0 && |entries| / 2 <= U64_MAX && AllEncodable(entries)
    case Tag(_, item) => Encodable(item)
    case Simple(n) => n < 24 || 32 <= n < 256
    case Float(info, bits) => 25 <= info <= 27 && |bits| == InfoWidth(info)
    case _ => true
  }

  predicate AllEncodable(vs: seq<Item>)
    decreases vs, 1
  {
    vs == [] || (Encodable(vs[0]) && AllEncodable(vs[1..]))
  }

  function Encode(v: Item): (s: bytes)
    requires Encodable(v)
    ensures |s| > 0
    decreases v, 0
  {
    match v
    case Uint(n) => HeadBytes(0, n)
    case Nint(n) => HeadBytes(1, n)
    case Bstr(b) => HeadBytes(2, |b|) + b
    case Tstr(b) => HeadBytes(3, |b|) + b
    case Arr(items) => HeadBytes(4, |items|) + EncodeAll(items)
    case Map(entries) => HeadBytes(5, |entries| / 2) + EncodeAll(entries)
    case Tag(n, item) => HeadBytes(6, n) + Encode(item)
    case Simple(n) => if n < 24 then [0xe0 + n] else [0xf8, n]
    case Float(info, bits) => [0xe0 + info] + bits
  }

  function EncodeAll(vs: seq<Item>): bytes
    requires AllEncodable(vs)
    decreases vs, 1
  {
    if vs == [] then [] else Encode(vs[0]) + EncodeAll(vs[1..])
  }

  lemma NoItems(t: bytes)
    ensures EncodeAll([]) + t == t
  {
    assert [] + t == t;
  }

  lemma FirstItem(vs: seq<Item>, t: bytes)
    requires AllEncodable(vs) && vs != []
    ensures EncodeAll(vs) + t == Encode(vs[0]) + (EncodeAll(vs[1..]) + t) && vs == [vs[0]] + vs[1..]
  {
    hide Encode, Encodable;
    assert Encode(vs[0]) + EncodeAll(vs[1..]) + t == Encode(vs[0]) + (EncodeAll(vs[1..]) + t);
  }

  lemma FirstEntry(vs: seq<Item>, t: bytes)
    requires AllEncodable(vs) && |vs| % 2 == 0 && vs != []
    ensures Encodable(vs[0]) && Encodable(vs[1]) && AllEncodable(vs[2..])
    ensures var s, rest := EncodeAll(vs) + t, EncodeAll(vs[2..]) + t;
            s == Encode(vs[0]) + (Encode(vs[1]) + rest) && s[..|s| - |Encode(vs[1]) + rest|] == Encode(vs[0])
    ensures vs == [vs[0], vs[1]] + vs[2..]
  {
    hide Encode, Encodable;
    assert vs[1..][0] == vs[1] && vs[1..][1..] == vs[2..];
    FirstItem(vs, t);
    FirstItem(vs[1..], t);
    hide *;
    CutTail(Encode(vs[0]), Encode(vs[1]) + (EncodeAll(vs[2..]) + t));
  }

  lemma CutTail(a: bytes, b: bytes)
    ensures (a + b)[..|a + b| - |b|] == a
  {
  }

  // ----- skipping -----

  /** What distinguishes the repository's three skippers. */
  datatype Profile = Profile(wide: bool, tags: bool, anySimple: bool, limit: Option<nat>)

  /** twep_wr_cbor_skip_value: four-byte arguments at most, no tags, any major-7 head. */
  const C_SKIP := Profile(false, false, true, None)
  /** cbor::skip of the agent: the same, and tags. */
  const RUST_SKIP := Profile(false, true, true, None)
  /** cbor_skip_item of the trusted application: eight-byte arguments, false/true/null/undefined, depth 8. */
  const TA_SKIP := Profile(true, false, false, Some(8))

  function Skip(p: Profile, s: bytes, depth: nat): (r: Option<bytes>)
    ensures r.Some? ==> |r.value| < |s|
    decreases |s|, 0
  {
    var h := ReadHead(s);
    if (p.limit.Some? && depth > p.limit.value) || h.Fail? || (h.value.info == 27 && !p.wide) then None
    else
      var Head(major, info, n) := h.value;
      if major <= 1 then Some(h.rest)
      else if major <= 3 then if n <= |h.rest| then Some(h.rest[n..]) else None
      else if major == 4 then SkipMany(p, h.rest, n, depth + 1)
      else if major == 5 then SkipMany(p, h.rest, 2 * n, depth + 1)
      else if major == 6 then if p.tags then Skip(p, h.rest, depth + 1) else None
      else if p.anySimple || 20 <= info <= 23 then Some(h.rest) else None
  }

  function SkipMany(p: Profile, s: bytes, n: nat, depth: nat): (r: Option<bytes>)
    ensures r.Some? ==> |r.value| <= |s|
    decreases |s|, 1
  {
    if n == 0 then Some(s)
    else
      var r := Skip(p, s, depth);
      if r.None? then None else SkipMany(p, r.value, n - 1, depth)
  }

  /** The item stays within what the profile supports, starting at the given depth. */
  predicate Supported(p: Profile, v: Item, depth: nat)
    decreases v, 0
  {
    (p.limit.None? || depth <= p.limit.value)
    && match v
       case Uint(n) => p.wide || n <= U32_MAX
       case Nint(n) => p.wide || n <= U32_MAX
       case Bstr(b) => p.wide || |b| <= U32_MAX
       case Tstr(b) => p.wide || |b| <= U32_MAX
       case Arr(items) => (p.wide || |items| <= U32_MAX) && AllSupported(p, items, depth + 1)
       case Map(entries) => (p.wide || |entries| / 2 <= U32_MAX) && AllSupported(p, entries, depth + 1)
       case Tag(n, item) => p.tags && (p.wide || n <= U32_MAX) && Supported(p, item, depth + 1)
       case Simple(n) => p.anySimple || 20 <= n < 24
       case Float(info, _) => p.anySimple && (p.wide || info < 27)
  }

  predicate AllSupported(p: Profile, vs: seq<Item>, depth: nat)
    decreases vs, 1
  {
    vs == [] || (Supported(p, vs[0], depth) && AllSupported(p, vs[1..], depth))
  }

  lemma RawHead(s: bytes, info: nat, arg: bytes, t: bytes)
    requires 24 <= info <= 27 && |arg| == InfoWidth(info) && s == [0xe0 + info] + arg + t
    ensures ReadHead(s) == Ok(Head(7, info, FromBigEndian(arg)), t)
  {
    assert s[1..1 + |arg|] == arg && s[1 + |arg|..] == t;
  }

  lemma HeadCases(major: nat, n: u64, body: bytes, t: bytes)
    requires major < 8
    ensures HeadBytes(major, n) + body + t == HeadBytes(major, n) + (body + t)
    ensures ReadHead(HeadBytes(major, n) + body + t) == Ok(Head(major, InfoOf(n), n), body + t)
  {
    HeadDecodes(major, n, body + t);
    assert HeadBytes(major, n) + body + t == HeadBytes(major, n) + (body + t);
  }

  /** A skipper passes over exactly the encoding of any item it supports, and a skip never stands still. */
  lemma {:induction false} SkipPassesItem(p: Profile, v: Item, t: bytes, depth: nat)
    requires Encodable(v) && Supported(p, v, depth)
    ensures Skip(p, Encode(v) + t, depth) == Some(t)
    decreases v, 0
  {
    hide HeadBytes, ReadHead, FromBigEndian, SkipMany, EncodeAll, AllSupported, AllEncodable, Width;
    match v
    case Uint(n) => HeadDecodes(0, n, t);
    case Nint(n) => HeadDecodes(1, n, t);
    case Bstr(b) => HeadCases(2, |b|, b, t);
      assert (b + t)[|b|..] == t;
    case Tstr(b) => HeadCases(3, |b|, b, t);
      assert (b + t)[|b|..] == t;
    case Arr(items) =>
      HeadCases(4, |items|, EncodeAll(items), t);
      SkipPassesAll(p, items, t, depth + 1);
    case Map(entries) =>
      HeadCases(5, |entries| / 2, EncodeAll(entries), t);
      SkipPassesAll(p, entries, t, depth + 1);
    case Tag(n, item) =>
      HeadCases(6, n, Encode(item), t);
      SkipPassesItem(p, item, t, depth + 1);
    case Simple(n) => SimpleHead(n, t);
    case Float(info, bits) => RawHead(Encode(v) + t, info, bits, t);
  }

  lemma SimpleHead(n: nat, t: bytes)
    requires n < 24 || 32 <= n < 256
    ensures ReadHead(Encode(Simple(n)) + t) == Ok(Head(7, if n < 24 then n else 24, n), t)
  {
    var s := Encode(Simple(n)) + t;
    if n < 24 {
      assert s[1..] == t;
    } else {
      RawHead(s, 24, [n], t);
      assert FromBigEndian([n]) == n by {
        assert [n][..0] == [];
      }
    }
  }

  lemma {:induction false} SkipPassesAll(p: Profile, vs: seq<Item>, t: bytes, depth: nat)
    requires AllEncodable(vs) && AllSupported(p, vs, depth)
    ensures SkipMany(p, EncodeAll(vs) + t, |vs|, depth) == Some(t)
    decreases vs, 1
  {
    hide Skip;
    if vs == [] {
      assert EncodeAll(vs) + t == t;
    } else {
      var rest := EncodeAll(vs[1..]) + t;
      assert EncodeAll(vs) + t == Encode(vs[0]) + rest;
      SkipPassesItem(p, vs[0], rest, depth);
      SkipPassesAll(p, vs[1..], t, depth);
    }
  }

  /** Two skippers that both get over the same bytes stop at the same place. */
  lemma {:induction false} SkippersAgree(p: Profile, q: Profile, s: bytes, d: nat, e: nat)
    requires Skip(p, s, d).Some? && Skip(q, s, e).Some?
    ensures Skip(p, s, d) == Skip(q, s, e)
    decreases |s|, 0
  {
    hide ReadHead;
    var h := ReadHead(s);
    if h.value.major == 4 {
      SkipManyAgree(p, q, h.rest, h.value.value, d + 1, e + 1);
    } else if h.value.major == 5 {
      SkipManyAgree(p, q, h.rest, 2 * h.value.value, d + 1, e + 1);
    } else if h.value.major == 6 {
      SkippersAgree(p, q, h.rest, d + 1, e + 1);
    }
  }

  lemma {:induction false} SkipManyAgree(p: Profile, q: Profile, s: bytes, n: nat, d: nat, e: nat)
    requires SkipMany(p, s, n, d).Some? && SkipMany(q, s, n, e).Some?
    ensures SkipMany(p, s, n, d) == SkipMany(q, s, n, e)
    decreases |s|, 1
  {
    if n > 0 {
      SkippersAgree(p, q, s, d, e);
      SkipManyAgree(p, q, Skip(p, s, d).value, n - 1, d, e);
    }
  }

  /** A skipper without a depth limit does not care how deep it starts. */
  lemma {:induction false} DepthIsFree(p: Profile, s: bytes, d: nat, e: nat)
    requires p.limit.None?
    ensures Skip(p, s, d) == Skip(p, s, e)
    decreases |s|, 0
  {
    hide ReadHead;
    var h := ReadHead(s);
    if h.Ok? {
      if h.value.major == 4 {
        ManyDepthIsFree(p, h.rest, h.value.value, d + 1, e + 1);
      } else if h.value.major == 5 {
        ManyDepthIsFree(p, h.rest, 2 * h.value.value, d + 1, e + 1);
      } else if h.value.major == 6 {
        DepthIsFree(p, h.rest, d + 1, e + 1);
      }
    }
  }

  lemma {:induction false} ManyDepthIsFree(p: Profile, s: bytes, n: nat, d: nat, e: nat)
    requires p.limit.None?
    ensures SkipMany(p, s, n, d) == SkipMany(p, s, n, e)
    decreases |s|, 1
  {
    if n > 0 {
      DepthIsFree(p, s, d, e);
      var r := Skip(p, s, d);
      if r.Some? {
        ManyDepthIsFree(p, r.value, n - 1, d, e);
      }
    }
  }
}
