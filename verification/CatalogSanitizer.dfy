/** The agent's in-place rewriting of simple values its CBOR library cannot represent. */
module CatalogSanitizer {
  import opened Bytes
  import opened CborHead
  import opened CborItem
  import opened CborCursor
  import opened CatalogValidator
  import opened CatalogCursor

  // ----- on values -----

  /** Unassigned simple values become null: alone when one byte long, tagged when two. */
  function Sanitized(v: Item): (w: Item)
    decreases v, 0
  {
    match v
    case Arr(items) => Arr(SanitizedAll(items))
    case Map(entries) => Map(SanitizedAll(entries))
    case Tag(n, item) => Tag(n, Sanitized(item))
    case Simple(n) => if n < 20 then Simple(22) else if n < 24 then v else Tag(0, Simple(22))
    case _ => v
  }

  function SanitizedAll(vs: seq<Item>): (ws: seq<Item>)
    ensures |ws| == |vs|
    decreases vs, 1
  {
    if vs == [] then [] else [Sanitized(vs[0])] + SanitizedAll(vs[1..])
  }

  lemma {:induction false} SanitizedIsEncodable(v: Item)
    requires Encodable(v)
    ensures Encodable(Sanitized(v))
    decreases v, 0
  {
    match v
    case Arr(items) => SanitizedAreEncodable(items);
    case Map(entries) => SanitizedAreEncodable(entries);
    case Tag(_, item) => SanitizedIsEncodable(item);
    case _ =>
  }

  lemma {:induction false} SanitizedAreEncodable(vs: seq<Item>)
    requires AllEncodable(vs)
    ensures AllEncodable(SanitizedAll(vs))
    decreases vs, 1
  {
    if vs != [] {
      SanitizedIsEncodable(vs[0]);
      SanitizedAreEncodable(vs[1..]);
      assert SanitizedAll(vs)[1..] == SanitizedAll(vs[1..]);
    }
  }

  // ----- on bytes -----

  /** sanitize_unknown_simple_values: the rewritten bytes of one item, and the bytes after it. */
  function Sanitize(r: Rules, s: bytes): (p: Parsed<bytes>)
    ensures p.Ok? ==> |p.rest| < |s| && |p.value| + |p.rest| == |s|
    decreases |s|, 0
  {
    if s == [] then Fail
    else if s[0] / 32 == 7 then
      var info := s[0] % 32;
      if info < 20 then Ok([0xf6], s[1..])
      else if info < 24 then Ok(s[..1], s[1..])
      else if info > 27 || 1 + InfoWidth(info) > |s| then Fail
      else if info == 24 then Ok([0xc0, 0xf6], s[2..])
      else Ok(s[..1 + InfoWidth(info)], s[1 + InfoWidth(info)..])
    else
      var h := ReadHead(s);
      if h.Fail? || !Minimal(h.value) || h.value.value > r.usizeMax then Fail
      else
        var n, rest := h.value.value, h.rest;
        var head := s[..|s| - |rest|];
        match h.value.major
        case 0 => Ok(head, rest)
        case 1 => Ok(head, rest)
        case 2 => if n <= |rest| then Ok(head + rest[..n], rest[n..]) else Fail
        case 3 => if n <= |rest| then Ok(head + rest[..n], rest[n..]) else Fail
        case 4 =>
          var (body, rest) :- SanitizeMany(r, rest, n);
          Ok(head + body, rest)
        case 5 =>
          var (body, rest) :- SanitizeMany(r, rest, 2 * n);
          Ok(head + body, rest)
        case _ =>
          var (body, rest) :- Sanitize(r, rest);
          Ok(head + body, rest)
  }

  function SanitizeMany(r: Rules, s: bytes, n: nat): (p: Parsed<bytes>)
    ensures p.Ok? ==> |p.value| + |p.rest| == |s|
    decreases |s|, 1
  {
    if n == 0 then Ok([], s)
    else
      var (a, rest) :- Sanitize(r, s);
      var (b, rest) :- SanitizeMany(r, rest, n - 1);
      Ok(a + b, rest)
  }

  /** The rewriting goes over complete heads only: shortest ones within usize, and of major type 7 any but the reserved. */
  lemma SanitizeRefuses(r: Rules, s: bytes)
    requires Sanitize(r, s).Ok?
    ensures ReadHead(s).Ok? && s[0] % 32 <= 27
    ensures s[0] / 32 != 7 ==> Minimal(ReadHead(s).value) && ReadHead(s).value.value <= r.usizeMax
  {
    hide SanitizeMany, FromBigEndian;
  }

  /** On the encoding of a value the rewriting is that of the value: same length, same item boundaries. */
  predicate Rewrites(r: Rules, v: Item, t: bytes) {
    Encodable(v) && Encodable(Sanitized(v)) && Sanitize(r, Encode(v) + t) == Ok(Encode(Sanitized(v)), t)
  }

  lemma SimpleRewrites(r: Rules, v: Item, t: bytes)
    requires (v.Simple? || v.Float?) && Encodable(v)
    ensures Rewrites(r, v, t)
  {
    var s := Encode(v) + t;
    match v
    case Simple(n) =>
      assert HeadBytes(6, 0) == [0xc0];
      if n < 24 {
        assert s[1..] == t && s[..1] == [0xe0 + n];
      } else {
        assert s[2..] == t && [0xc0] + [0xf6] == [0xc0, 0xf6];
      }
    case Float(info, bits) =>
      var k := 1 + InfoWidth(info);
      assert s[..k] == [0xe0 + info] + bits && s[k..] == t;
  }

  /** What a head of another major type contributes. */
  lemma HeadKept(major: nat, n: u64, rest: bytes)
    requires major < 7
    ensures var s := HeadBytes(major, n) + rest;
            && s != [] && s[0] / 32 == major && ReadHead(s) == Ok(Head(major, InfoOf(n), n), rest)
            && s[..|s| - |rest|] == HeadBytes(major, n)
  {
    HeadDecodes(major, n, rest);
    hide HeadBytes, ReadHead;
    assert (HeadBytes(major, n) + rest)[0] == HeadBytes(major, n)[0];
  }

  lemma NumberRewrites(r: Rules, v: Item, t: bytes)
    requires (v.Uint? || v.Nint?) && v.n <= r.usizeMax
    ensures Rewrites(r, v, t)
  {
    hide HeadBytes, ReadHead, InfoOf;
    HeadKept(if v.Uint? then 0 else 1, v.n, t);
  }

  lemma StringRewrites(r: Rules, v: Item, t: bytes)
    requires (v.Bstr? || v.Tstr?) && |v.b| <= r.usizeMax
    ensures Rewrites(r, v, t)
  {
    hide HeadBytes, ReadHead, InfoOf;
    var major := if v.Bstr? then 2 else 3;
    HeadKept(major, |v.b|, v.b + t);
    assert Encode(v) + t == HeadBytes(major, |v.b|) + (v.b + t);
    assert (v.b + t)[..|v.b|] == v.b && (v.b + t)[|v.b|..] == t;
  }

  lemma ArrayRewrites(r: Rules, items: seq<Item>, t: bytes)
    requires Encodable(Arr(items)) && |items| <= r.usizeMax && AllEncodable(SanitizedAll(items))
    requires SanitizeMany(r, EncodeAll(items) + t, |items|) == Ok(EncodeAll(SanitizedAll(items)), t)
    ensures Rewrites(r, Arr(items), t)
  {
    hide HeadBytes, ReadHead, InfoOf, EncodeAll, AllEncodable, SanitizeMany, SanitizedAll;
    HeadKept(4, |items|, EncodeAll(items) + t);
    assert Encode(Arr(items)) + t == HeadBytes(4, |items|) + (EncodeAll(items) + t);
  }

  lemma MapRewrites(r: Rules, entries: seq<Item>, t: bytes)
    requires Encodable(Map(entries)) && |entries| / 2 <= r.usizeMax && AllEncodable(SanitizedAll(entries))
    requires SanitizeMany(r, EncodeAll(entries) + t, |entries|) == Ok(EncodeAll(SanitizedAll(entries)), t)
    ensures Rewrites(r, Map(entries), t)
  {
    hide HeadBytes, ReadHead, InfoOf, EncodeAll, AllEncodable, SanitizeMany, SanitizedAll;
    HeadKept(5, |entries| / 2, EncodeAll(entries) + t);
    assert Encode(Map(entries)) + t == HeadBytes(5, |entries| / 2) + (EncodeAll(entries) + t);
  }

  lemma TagRewrites(r: Rules, n: u64, item: Item, t: bytes)
    requires n <= r.usizeMax && Rewrites(r, item, t)
    ensures Rewrites(r, Tag(n, item), t)
  {
    hide HeadBytes, ReadHead, InfoOf;
    HeadKept(6, n, Encode(item) + t);
    assert Encode(Tag(n, item)) + t == HeadBytes(6, n) + (Encode(item) + t);
  }

  lemma {:induction false} ItemRewrites(r: Rules, v: Item, t: bytes)
    requires WellFormed(r, v)
    ensures Rewrites(r, v, t)
    decreases v, 0
  {
    hide Rewrites, EncodeAll, AllEncodable, SanitizeMany, SanitizedAll, AllWellFormed, KeysAscend, Shortest;
    match v
    case Uint(_) => NumberRewrites(r, v, t);
    case Nint(_) => NumberRewrites(r, v, t);
    case Bstr(_) => StringRewrites(r, v, t);
    case Tstr(_) => StringRewrites(r, v, t);
    case Arr(items) =>
      AllRewrite(r, items, t);
      ArrayRewrites(r, items, t);
    case Map(entries) =>
      AllRewrite(r, entries, t);
      MapRewrites(r, entries, t);
    case Tag(n, item) =>
      ItemRewrites(r, item, t);
      TagRewrites(r, n, item, t);
    case _ => SimpleRewrites(r, v, t);
  }

  lemma {:induction false} AllRewrite(r: Rules, vs: seq<Item>, t: bytes)
    requires AllWellFormed(r, vs) && AllEncodable(vs)
    ensures AllEncodable(SanitizedAll(vs))
    ensures SanitizeMany(r, EncodeAll(vs) + t, |vs|) == Ok(EncodeAll(SanitizedAll(vs)), t)
    decreases vs, 1
  {
    hide Sanitize, Encode, Encodable, WellFormed, Sanitized, EncodeAll;
    SanitizedAreEncodable(vs);
    var ws := SanitizedAll(vs);
    if vs == [] {
      NoItems(t);
      NoBytes();
    } else {
      FirstItem(vs, t);
      ItemRewrites(r, vs[0], EncodeAll(vs[1..]) + t);
      AllRewrite(r, vs[1..], t);
      assert ws[1..] == SanitizedAll(vs[1..]);
      FirstItem(ws, []);
      assert EncodeAll(ws) + [] == EncodeAll(ws) && EncodeAll(ws[1..]) + [] == EncodeAll(ws[1..]);
    }
  }

  lemma NoBytes()
    ensures EncodeAll([]) == []
  {
  }

  /** A canonical input is rewritten to its end, into the encoding of the sanitized value, without changing its length. */
  lemma CanonicalIsRewritten(r: Rules, input: bytes)
    requires IsCanonical(r, input)
    ensures var v := ParseItem(r, input, 1).value;
            && Encodable(v) && input == Encode(v) && Encodable(Sanitized(v))
            && Sanitize(r, input) == Ok(Encode(Sanitized(v)), []) && |Encode(Sanitized(v))| == |input|
  {
    hide ParseItem, Encode, Encodable, WellFormed, Depth, Sanitize, Sanitized;
    ParseItemSound(r, input, 1);
    var v := ParseItem(r, input, 1).value;
    assert Encode(v) + [] == Encode(v);
    ItemRewrites(r, v, []);
  }

  // ----- in place -----

  /** What a call leaves in the buffer: its item rewritten and everything else as it was. */
  twostate predicate Rewritten(p: Parsed<bytes>, input: array<byte>, start: nat, ok: bool, off: nat)
    reads input
  {
    && start <= off <= input.Length && input[..start] == old(input[..start])
    && if ok then p == Ok(input[start..off], input[off..]) else p.Fail?
  }

  /** The major-7 cases. */
  method SanitizeSimpleAt(r: Rules, input: array<byte>, start: nat) returns (ok: bool, off: nat)
    requires start < input.Length && input[start] / 32 == 7
    modifies input
    ensures Rewritten(Sanitize(r, old(input[start..])), input, start, ok, off) && (ok ==> start < off)
  {
    var info := input[start] % 32;
    ghost var s := input[start..];
    var width := if info <= 23 then 1 else if info == 24 then 2 else if info == 25 then 3 else if info == 26 then 5 else 9;
    off := start;
    ok := info <= 27 && start + width <= input.Length;
    if ok {
      off := start + width;
      if info < 20 {
        input[start] := 0xf6;
        assert input[start..off] == [0xf6];
      } else if info == 24 {
        input[start] := 0xc0;
        input[start + 1] := 0xf6;
        assert input[start..off] == [0xc0, 0xf6];
      }
      assert input[off..] == s[width..];
      assert 20 <= info && info != 24 ==> input[start..off] == s[..width];
    }
  }

  lemma EmptyFails(r: Rules)
    ensures Sanitize(r, []).Fail?
  {
  }

  /** sanitize_unknown_simple_values. */
  method SanitizeAt(r: Rules, input: array<byte>, start: nat) returns (ok: bool, off: nat)
    requires start <= input.Length
    modifies input
    ensures Rewritten(Sanitize(r, old(input[start..])), input, start, ok, off) && (ok ==> start < off)
    decreases input.Length - start, 0, 1
  {
    hide Sanitize;
    EmptyFails(r);
    ok, off := false, start;
    if start >= input.Length {
      return;
    }
    if input[start] / 32 == 7 {
      ok, off := SanitizeSimpleAt(r, input, start);
      return;
    }
    ok, off := SanitizeHeadedAt(r, input, start);
  }

  /** Every other major type: a canonical head, then a string or further items. */
  method SanitizeHeadedAt(r: Rules, input: array<byte>, start: nat) returns (ok: bool, off: nat)
    requires start < input.Length && input[start] / 32 != 7
    modifies input
    ensures Rewritten(Sanitize(r, old(input[start..])), input, start, ok, off) && (ok ==> start < off)
    decreases input.Length - start, 0, 0
  {
    hide ReadHead, Sanitize, SanitizeMany, InfoOf, Continues;
    ghost var b := input[..];
    var major, value;
    assert input[start..] == b[start..];
    ok, major, value, off := CanonicalHeadAt(r, input[..], start);
    InitialByte(b[start..]);
    if !ok {
      HeadRefused(r, b[start..]);
      off := start;
      return;
    }
    ghost var head := off;
    HeadTaken(r, b, start, head, major, value);
    assert input[start..head] == b[start..head] && input[head..] == b[head..];
    if major <= 1 {
      return;
    }
    if major <= 3 {
      ok := value <= input.Length - off;
      if ok {
        off := off + value;
        assert input[start..off] == b[start..off] && input[off..] == b[off..];
      }
      return;
    }
    if major == 6 {
      ok, off := SanitizeAt(r, input, off);
    } else {
      ok, off := SanitizeManyAt(r, input, off, if major == 4 then value else 2 * value);
    }
    assert input[..start] == input[..head][..start];
    assert input[start..head] == input[..head][start..] == b[start..head];
    assert input[start..head] + input[head..off] == input[start..off];
    Joined(Sanitize(r, b[start..]), b[start..head], input[head..off], input[off..]);
  }

  lemma HeadRefused(r: Rules, s: bytes)
    requires s != [] && s[0] / 32 != 7
    requires var h := ReadHead(s); h.Fail? || !Minimal(h.value) || h.value.value > r.usizeMax
    ensures Sanitize(r, s).Fail?
  {
    hide ReadHead;
  }

  /** What follows a canonical head decides the item. */
  lemma HeadTaken(r: Rules, b: bytes, start: nat, head: nat, major: nat, value: u64)
    requires start < head <= |b| && b[start] / 32 != 7
    requires var h := ReadHead(b[start..]);
             h.Ok? && Minimal(h.value) && h.value.value == value <= r.usizeMax && h.value.major == major && h.rest == b[head..]
    ensures var p := Sanitize(r, b[start..]);
            && major != 7
            && (major <= 1 ==> p == Ok(b[start..head], b[head..]))
            && (2 <= major <= 3 ==>
                  p == if value <= |b| - head then Ok(b[start..head + value], b[head + value..]) else Fail)
            && (4 <= major <= 5 ==>
                  Continues(p, b[start..head], SanitizeMany(r, b[head..], if major == 4 then value else 2 * value)))
            && (major == 6 ==> Continues(p, b[start..head], Sanitize(r, b[head..])))
  {
    hide ReadHead, SanitizeMany, InfoOf;
    InitialByte(b[start..]);
    assert b[start..][..head - start] == b[start..head];
    if 2 <= major <= 3 && value <= |b| - head {
      TakeSlices(b, start, head, value);
    }
  }

  lemma Joined(whole: Parsed<bytes>, head: bytes, body: bytes, rest: bytes)
    ensures Continues(whole, head, Ok(body, rest)) ==> whole == Ok(head + body, rest)
    ensures Continues(whole, head, Fail) ==> whole.Fail?
  {
  }

  lemma TakeSlices(b: bytes, start: nat, head: nat, n: nat)
    requires start <= head && head + n <= |b|
    ensures b[head..][..n] == b[head..head + n] && b[head..][n..] == b[head + n..]
    ensures b[start..head] + b[head..head + n] == b[start..head + n]
  {
  }

  /** The loops over elements and entries. */
  method SanitizeManyAt(r: Rules, input: array<byte>, start: nat, count: nat) returns (ok: bool, off: nat)
    requires start <= input.Length
    modifies input
    ensures Rewritten(SanitizeMany(r, old(input[start..]), count), input, start, ok, off)
    decreases input.Length - start, 1
  {
    hide Sanitize, SanitizeMany, Continues;
    ok, off := true, start;
    ghost var b := input[..];
    ghost var whole := SanitizeMany(r, b[start..], count);
    NothingDone(whole, b, start);
    assert b[start..] == input[start..];
    var i := 0;
    while i < count
      invariant i <= count && start <= off <= input.Length && ok && b == input[..] && b[..start] == old(input[..start])
      invariant Continues(whole, b[start..off], SanitizeMany(r, b[off..], count - i))
    {
      ghost var at, before := off, b;
      assert input[off..] == b[off..];
      ok, off := SanitizeAt(r, input, off);
      b := input[..];
      assert b[..at] == input[..at] == before[..at];
      assert b[..start] == b[..at][..start];
      if !ok {
        ManyFails(r, before, start, at, count - i, whole);
        return;
      }
      assert b[at..off] == input[at..off] && b[off..] == input[off..];
      ManyStep(r, before, b, start, at, off, count - i, whole);
      i := i + 1;
    }
    ManyDone(r, b, start, off, whole);
    assert b[start..off] == input[start..off] && b[off..] == input[off..];
  }

  lemma NothingDone(whole: Parsed<bytes>, b: bytes, start: nat)
    requires start <= |b|
    ensures Continues(whole, b[start..start], whole)
  {
    assert whole.Ok? ==> b[start..start] + whole.value == whole.value;
  }

  lemma ManyFails(r: Rules, b: bytes, start: nat, at: nat, n: nat, whole: Parsed<bytes>)
    requires start <= at <= |b| && n > 0 && Sanitize(r, b[at..]).Fail?
    requires Continues(whole, b[start..at], SanitizeMany(r, b[at..], n))
    ensures whole.Fail?
  {
    hide Sanitize;
  }

  lemma ManyStep(r: Rules, b: bytes, c: bytes, start: nat, at: nat, off: nat, n: nat, whole: Parsed<bytes>)
    requires start <= at <= off <= |c| == |b| && c[..at] == b[..at] && n > 0
    requires Sanitize(r, b[at..]) == Ok(c[at..off], c[off..])
    requires Continues(whole, b[start..at], SanitizeMany(r, b[at..], n))
    ensures Continues(whole, c[start..off], SanitizeMany(r, c[off..], n - 1))
  {
    hide Sanitize;
    var done := b[start..at];
    assert c[start..at] == c[..at][start..] == done;
    assert c[start..off] == done + c[at..off];
    var p := SanitizeMany(r, c[off..], n - 1);
    assert p.Ok? ==> done + (c[at..off] + p.value) == c[start..off] + p.value;
  }

  lemma ManyDone(r: Rules, b: bytes, start: nat, off: nat, whole: Parsed<bytes>)
    requires start <= off <= |b| && Continues(whole, b[start..off], SanitizeMany(r, b[off..], 0))
    ensures whole == Ok(b[start..off], b[off..])
  {
    assert b[start..off] + [] == b[start..off];
  }

  /** The whole rewriting is what is done so far and what is left. */
  ghost predicate Continues(whole: Parsed<bytes>, done: bytes, left: Parsed<bytes>) {
    whole == if left.Ok? then Ok(done + left.value, left.rest) else Fail
  }
}
