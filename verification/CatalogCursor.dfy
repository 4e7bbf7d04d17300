/** The agent's validator as it runs: one offset moved over the input. */
module CatalogCursor {
  import opened Bytes
  import opened CborHead
  import opened CborItem
  import opened CborCursor
  import opened CatalogValidator

  /** canonical_head: every wider form is refused when a narrower one would do. */
  method CanonicalHeadAt(r: Rules, input: bytes, start: nat) returns (ok: bool, major: nat, value: u64, off: nat)
    requires start <= |input|
    ensures start <= off <= |input| && (ok ==> start < off)
    ensures var h := ReadHead(input[start..]);
            if ok then h.Ok? && Minimal(h.value) && h.value.value <= r.usizeMax
                       && h.value.major == major && h.value.value == value && h.rest == input[off..]
            else h.Fail? || !Minimal(h.value) || h.value.value > r.usizeMax
  {
    hide FromBigEndian;
    ok, major, value, off := false, 0, 0, start;
    if start >= |input| {
      return;
    }
    var first := input[start];
    off := start + 1;
    major := first / 32;
    var additional := first % 32;
    Suffix(input, start, 1);
    if additional < 24 {
      return additional <= r.usizeMax, major, additional, off;
    }
    var width := if additional == 24 then 1 else if additional == 25 then 2 else if additional == 26 then 4 else 8;
    if additional > 27 || off + width > |input| {
      return;
    }
    Suffix(input, start, 1 + width);
    assert input[start..][1..1 + width] == input[off..off + width];
    PowersOf256();
    value := FromBigEndian(input[off..off + width]);
    off := off + width;
    var least := if additional == 24 then 24 else if additional == 25 then 0x100
                 else if additional == 26 then 0x1_0000 else U32_MAX + 1;
    ok := value >= least && value <= r.usizeMax;
  }

  /** parse_simple_or_float. */
  method ParseSimpleAt(r: Rules, input: bytes, start: nat) returns (ok: bool, off: nat)
    requires start < |input| && input[start] / 32 == 7
    ensures start <= off <= |input| && (ok ==> start < off)
    ensures var p := ParseSimple(r, input[start..]); if ok then p.Ok? && p.rest == input[off..] else p.Fail?
  {
    hide FromBigEndian, Shortest;
    var info := input[start] % 32;
    ok, off := false, start + 1;
    Suffix(input, start, 1);
    if info < 24 {
      return true, off;
    }
    var width := if info == 24 then 1 else if info == 25 then 2 else if info == 26 then 4 else 8;
    if info > 27 || off + width > |input| {
      return;
    }
    Suffix(input, start, 1 + width);
    var bits := input[off..off + width];
    assert input[start..][1..1 + width] == bits;
    off := off + width;
    if info == 24 {
      ShortNumbers(bits);
      return bits[0] >= 32, off;
    }
    ok := Shortest(r, info, bits);
  }

  /** parse_item. */
  method ParseItemAt(r: Rules, input: bytes, start: nat, depth: nat) returns (ok: bool, off: nat)
    requires start <= |input|
    ensures start <= off <= |input| && (ok ==> start < off)
    ensures var p := ParseItem(r, input[start..], depth); if ok then p.Ok? && p.rest == input[off..] else p.Fail?
    decreases |input| - start, 0
  {
    hide ReadHead, ParseSimple, ParseItems, ParseEntries;
    ok, off := false, start;
    if depth > MAX_NESTING || start >= |input| {
      EmptyHead();
      return;
    }
    InitialByte(input[start..]);
    if input[start] / 32 == 7 {
      ok, off := ParseSimpleAt(r, input, start);
      SimpleNeedsHead(r, input[start..]);
      return;
    }
    var major, value;
    ok, major, value, off := CanonicalHeadAt(r, input, start);
    if !ok || major <= 1 {
      return;
    }
    if major <= 3 {
      if value > |input| - off || (major == 3 && !r.utf8(input[off..off + value])) {
        assert value <= |input| - off ==> input[off..][..value] == input[off..off + value];
        ok := false;
        return;
      }
      assert input[off..][..value] == input[off..off + value];
      Suffix(input, off, value);
      off := off + value;
    } else if major == 4 {
      ok, off := ParseItemsAt(r, input, off, value, depth + 1);
    } else if major == 5 {
      ok, off := ParseEntriesAt(r, input, off, value, depth + 1);
    } else {
      ok, off := ParseItemAt(r, input, off, depth + 1);
    }
  }

  lemma EmptyHead()
    ensures ReadHead([]).Fail?
  {
  }

  lemma SimpleNeedsHead(r: Rules, s: bytes)
    ensures ReadHead(s).Fail? ==> ParseSimple(r, s).Fail?
  {
  }

  /** The loop over an array's elements. */
  method ParseItemsAt(r: Rules, input: bytes, start: nat, count: nat, depth: nat) returns (ok: bool, off: nat)
    requires start <= |input|
    ensures start <= off <= |input|
    ensures var p := ParseItems(r, input[start..], count, depth); if ok then p.Ok? && p.rest == input[off..] else p.Fail?
    decreases |input| - start, 1
  {
    hide ParseItem;
    off := start;
    ghost var whole := ParseItems(r, input[start..], count, depth);
    var i := 0;
    while i < count
      invariant start <= off <= |input| && i <= count
      invariant SameFate(whole, ParseItems(r, input[off..], count - i, depth))
    {
      ok, off := ParseItemAt(r, input, off, depth);
      if !ok {
        return;
      }
      i := i + 1;
    }
    ok := true;
  }

  /** The loop over a map's entries, remembering where the previous key began and ended. */
  method ParseEntriesAt(r: Rules, input: bytes, start: nat, count: nat, depth: nat) returns (ok: bool, off: nat)
    requires start <= |input|
    ensures start <= off <= |input|
    ensures var p := ParseEntries(r, input[start..], count, depth, None);
            if ok then p.Ok? && p.rest == input[off..] else p.Fail?
    decreases |input| - start, 1
  {
    hide ParseItem, LengthFirstLess;
    off := start;
    ghost var whole := ParseEntries(r, input[start..], count, depth, None);
    var previous: Option<(nat, nat)> := None;
    var i := 0;
    while i < count
      invariant start <= off <= |input| && i <= count
      invariant previous.Some? ==> previous.value.0 <= previous.value.1 <= |input|
      invariant SameFate(whole, ParseEntries(r, input[off..], count - i, depth, KeyAt(input, previous)))
    {
      var keyStart := off;
      ok, off := ParseItemAt(r, input, off, depth);
      if !ok {
        return;
      }
      assert input[keyStart..][..off - keyStart] == input[keyStart..off];
      if previous.Some? && !LengthFirstLess(input[previous.value.0..previous.value.1], input[keyStart..off]) {
        return false, off;
      }
      previous := Some((keyStart, off));
      ok, off := ParseItemAt(r, input, off, depth);
      if !ok {
        return;
      }
      i := i + 1;
    }
    ok := true;
  }

  /** Two parses fail together or stop at the same place. */
  predicate SameFate<T>(a: Parsed<T>, b: Parsed<T>) {
    if a.Fail? then b.Fail? else b.Ok? && a.rest == b.rest
  }

  ghost function KeyAt(input: bytes, range: Option<(nat, nat)>): Option<bytes>
    requires range.Some? ==> range.value.0 <= range.value.1 <= |input|
  {
    if range.None? then None else Some(input[range.value.0..range.value.1])
  }

  /** is_canonical_cbor. */
  method IsCanonicalCbor(r: Rules, input: bytes) returns (ok: bool)
    ensures ok == IsCanonical(r, input)
    ensures ok <==> exists v :: Admissible(r, v) && input == Encode(v)
  {
    hide ParseItem;
    var off;
    assert input[0..] == input;
    ok, off := ParseItemAt(r, input, 0, 1);
    ok := ok && off == |input|;
    CanonicalIff(r, input);
  }
}
