/** The acceptance-state record: generation, sorted component sequences, last consumed digest. */
module AcceptanceRecord {
  import opened Bytes
  import opened CborHead
  import opened StrictCbor

  const MAX_SIZE := 4096
  const MAX_COMPONENTS := 32

  datatype Component = Component(id: blob, sequence: u64)
  datatype Record = Record(generation: u64, components: seq<Component>, digest: digest)
  datatype SlotParse = Valid(record: Record) | Malformed | Unsupported

  /** Strictly increasing, non-empty ids; `prev` is the id read just before. */
  predicate Ordered(cs: seq<Component>, prev: Option<bytes>) {
    cs == [] ||
    (cs[0].id != [] && (prev.Some? ==> LengthFirstLess(prev.value, cs[0].id)) && Ordered(cs[1..], Some(cs[0].id)))
  }

  predicate Sorted(cs: seq<Component>) { Ordered(cs, None) }

  function EncodeComponents(cs: seq<Component>): bytes {
    if cs == [] then [] else Bstr(cs[0].id) + (Uint(cs[0].sequence) + EncodeComponents(cs[1..]))
  }

  function ReadComponents(s: bytes, n: nat, prev: Option<bytes>): (r: Parsed<seq<Component>>)
    ensures r.Ok? ==> |r.value| == n
  {
    if n == 0 then Ok([], s)
    else
      var (id, s) :- ReadBytes(s, 2);
      var (sequence, s) :- ReadUint(s, 0);
      if id == [] || (prev.Some? && !LengthFirstLess(prev.value, id)) then Fail
      else
        var (tail, s) :- ReadComponents(s, n - 1, Some(id));
        Ok([Component(id, sequence)] + tail, s)
  }

  function ParseComponents(s: bytes): (r: Parsed<seq<Component>>)
    ensures r.Ok? ==> |r.value| <= MAX_COMPONENTS
  {
    var (count, s) :- ReadUint(s, 5);
    if count > MAX_COMPONENTS then Fail else ReadComponents(s, count, None)
  }

  function ParseFields(s: bytes): Parsed<(Record, u64)> {
    var (count, s) :- ReadUint(s, 5);
    var (_, s) :- ReadExpectedText(s, "generation");
    var (generation, s) :- ReadUint(s, 0);
    var (_, s) :- ReadExpectedText(s, "schema_version");
    var (schema, s) :- ReadUint(s, 0);
    var (_, s) :- ReadExpectedText(s, "component_sequences");
    var (components, s) :- ParseComponents(s);
    var (_, s) :- ReadExpectedText(s, "last_consumed_query_response_sha256");
    var (digest, s) :- ReadBytes(s, 2);
    if count != 4 || generation == 0 || |digest| != 32 then Fail
    else Ok((Record(generation, components, digest), schema), s)
  }

  function ParseSlot(raw: bytes): SlotParse {
    var r := ParseFields(raw);
    if r.Fail? || r.rest != [] then Malformed
    else if r.value.1 == 1 then Valid(r.value.0) else Unsupported
  }

  predicate WellFormed(r: Record) {
    r.generation > 0 && Sorted(r.components) && |r.components| <= MAX_COMPONENTS
  }

  /** The one byte form of a record with the given schema version, before the bytes `t`. */
  function EncodeFields(r: Record, schema: u64, t: bytes): bytes
    requires |r.components| <= MAX_COMPONENTS
  {
    HeadBytes(5, 4) + (Text("generation") + (Uint(r.generation) +
    (Text("schema_version") + (Uint(schema) +
    (Text("component_sequences") + (HeadBytes(5, |r.components|) + (EncodeComponents(r.components) +
    (Text("last_consumed_query_response_sha256") + (Bstr(r.digest) + t)))))))))
  }

  function EncodeRecord(r: Record): bytes
    requires |r.components| <= MAX_COMPONENTS
  {
    EncodeFields(r, 1, [])
  }

  lemma {:induction false} ComponentsRead(prev: Option<bytes>, cs: seq<Component>, t: bytes)
    requires Ordered(cs, prev)
    ensures ReadComponents(EncodeComponents(cs) + t, |cs|, prev) == Ok(cs, t)
    decreases |cs|
  {
    hide EncodeComponents, HeadBytes, Bstr, ReadUint, ReadBytes, LengthFirstLess;
    var s := EncodeComponents(cs) + t;
    if cs == [] {
      EncodeNone();
      assert s == t;
    } else {
      var c, tail := cs[0], cs[1..];
      var s2 := EncodeComponents(tail) + t;
      var s1 := Uint(c.sequence) + s2;
      assert cs == [c] + tail;
      EncodeCons(c, tail, t);
      ReadBstrIff(s, c.id, s1);
      ReadUintIff(s1, 0, c.sequence, s2);
      ComponentsRead(Some(c.id), tail, t);
    }
  }

  lemma EncodeNone()
    ensures EncodeComponents([]) == []
  {
  }

  lemma EncodeCons(c: Component, tail: seq<Component>, t: bytes)
    ensures EncodeComponents([c] + tail) + t == Bstr(c.id) + (Uint(c.sequence) + (EncodeComponents(tail) + t))
  {
    assert ([c] + tail)[1..] == tail;
  }

  lemma {:induction false} ComponentsWritten(s: bytes, n: nat, prev: Option<bytes>)
    requires ReadComponents(s, n, prev).Ok?
    ensures var r := ReadComponents(s, n, prev); s == EncodeComponents(r.value) + r.rest && Ordered(r.value, prev)
    decreases n
  {
    hide HeadBytes, Bstr, ReadUint, ReadBytes, LengthFirstLess;
    if n > 0 {
      var a := ReadBytes(s, 2);
      var b := ReadUint(a.rest, 0);
      var c := Component(a.value, b.value);
      var tail := ReadComponents(b.rest, n - 1, Some(a.value));
      assert ReadComponents(s, n, prev) == Ok([c] + tail.value, tail.rest);
      ComponentsWritten(b.rest, n - 1, Some(a.value));
      assert s == Bstr(c.id) + (Uint(c.sequence) + b.rest) by {
        ReadBstrIff(s, a.value, a.rest);
        ReadUintIff(a.rest, 0, b.value, b.rest);
      }
      EncodeCons(c, tail.value, tail.rest);
      assert ([c] + tail.value)[1..] == tail.value;
    }
  }

  lemma ParseComponentsIff(s: bytes, cs: seq<Component>, t: bytes)
    requires |cs| <= MAX_COMPONENTS
    ensures ParseComponents(s) == Ok(cs, t) <==> s == HeadBytes(5, |cs|) + (EncodeComponents(cs) + t) && Sorted(cs)
  {
    var s1 := EncodeComponents(cs) + t;
    ReadUintIff(s, 5, |cs|, s1);
    if Sorted(cs) {
      ComponentsRead(None, cs, t);
    }
    if ParseComponents(s) == Ok(cs, t) {
      var c := ReadUint(s, 5);
      ReadUintIff(s, 5, c.value, c.rest);
      ComponentsWritten(c.rest, c.value, None);
    }
  }

  lemma FieldsParse(r: Record, schema: u64, t: bytes)
    requires WellFormed(r)
    ensures ParseFields(EncodeFields(r, schema, t)) == Ok((r, schema), t)
  {
    hide HeadBytes, Bstr, Text, ReadUint, ReadBytes, EncodeComponents, ParseComponents, Ordered;
    var s9 := Bstr(r.digest) + t;
    var s8 := Text("last_consumed_query_response_sha256") + s9;
    var s7 := HeadBytes(5, |r.components|) + (EncodeComponents(r.components) + s8);
    var s6 := Text("component_sequences") + s7;
    var s5 := Uint(schema) + s6;
    var s4 := Text("schema_version") + s5;
    var s3 := Uint(r.generation) + s4;
    var s2 := Text("generation") + s3;
    var s1 := HeadBytes(5, 4) + s2;
    ReadUintIff(s1, 5, 4, s2);
    ReadExpectedTextIff(s2, "generation", s3);
    ReadUintIff(s3, 0, r.generation, s4);
    ReadExpectedTextIff(s4, "schema_version", s5);
    ReadUintIff(s5, 0, schema, s6);
    ReadExpectedTextIff(s6, "component_sequences", s7);
    ParseComponentsIff(s7, r.components, s8);
    ReadExpectedTextIff(s8, "last_consumed_query_response_sha256", s9);
    ReadBstrIff(s9, r.digest, t);
  }

  lemma FieldsEncode(s: bytes)
    requires ParseFields(s).Ok?
    ensures var p := ParseFields(s); WellFormed(p.value.0) && s == EncodeFields(p.value.0, p.value.1, p.rest)
  {
    hide HeadBytes, Bstr, Text, ReadUint, ReadBytes, EncodeComponents, ParseComponents, Ordered;
    var a := ReadUint(s, 5);
    var b := ReadExpectedText(a.rest, "generation");
    var c := ReadUint(b.rest, 0);
    var d := ReadExpectedText(c.rest, "schema_version");
    var e := ReadUint(d.rest, 0);
    var f := ReadExpectedText(e.rest, "component_sequences");
    var g := ParseComponents(f.rest);
    var h := ReadExpectedText(g.rest, "last_consumed_query_response_sha256");
    var i := ReadBytes(h.rest, 2);
    ReadUintIff(s, 5, a.value, a.rest);
    ReadExpectedTextIff(a.rest, "generation", b.rest);
    ReadUintIff(b.rest, 0, c.value, c.rest);
    ReadExpectedTextIff(c.rest, "schema_version", d.rest);
    ReadUintIff(d.rest, 0, e.value, e.rest);
    ReadExpectedTextIff(e.rest, "component_sequences", f.rest);
    ParseComponentsIff(f.rest, g.value, g.rest);
    ReadExpectedTextIff(g.rest, "last_consumed_query_response_sha256", h.rest);
    ReadBstrIff(h.rest, i.value, i.rest);
  }

  /** parse_slot accepts exactly the byte forms of well-formed records, and each has only one. */
  lemma ParseSlotIff(raw: bytes, r: Record)
    ensures ParseSlot(raw) == Valid(r) <==> WellFormed(r) && raw == EncodeRecord(r)
  {
    hide ParseFields, EncodeFields;
    if WellFormed(r) {
      FieldsParse(r, 1, []);
    }
    if ParseSlot(raw) == Valid(r) {
      FieldsEncode(raw);
    }
  }

  // ----- the cursor form -----

  /** parse_components: one id and one sequence per round, each id above the one before. */
  method ParseComponentsAt(buf: bytes, start: nat) returns (ok: bool, components: seq<Component>, off: nat)
    requires start <= |buf|
    ensures off <= |buf|
    ensures ParseComponents(buf[start..]) == if ok then Ok(components, buf[off..]) else Fail
  {
    hide ReadUint, ReadBytes, LengthFirstLess;
    var count;
    components := [];
    ok, count, off := ReadUintAt(buf, 5, start);
    if !ok || count > MAX_COMPONENTS {
      ok := false;
      return;
    }
    ghost var whole := ReadComponents(buf[off..], count, None);
    assert whole.Ok? ==> [] + whole.value == whole.value;
    var i := 0;
    while i < count
      invariant off <= |buf| && i <= count && |components| == i
      invariant var r := ReadComponents(buf[off..], count - i, if i == 0 then None else Some(components[i - 1].id));
                whole == if r.Ok? then Ok(components + r.value, r.rest) else Fail
    {
      var id, sequence;
      ok, id, off := ReadBytesAt(buf, 2, off);
      if !ok || id == [] {
        ok := false;
        return;
      }
      ok, sequence, off := ReadUintAt(buf, 0, off);
      if !ok || (i > 0 && !LengthFirstLess(components[i - 1].id, id)) {
        ok := false;
        return;
      }
      ghost var tail := ReadComponents(buf[off..], count - i - 1, Some(id));
      assert tail.Ok? ==> components + ([Component(id, sequence)] + tail.value)
                          == components + [Component(id, sequence)] + tail.value;
      components := components + [Component(id, sequence)];
      i := i + 1;
    }
    assert components + [] == components;
    ok := true;
  }

  /** parse_slot. */
  method ParseSlotBytes(raw: bytes) returns (status: SlotParse)
    ensures status == ParseSlot(raw)
  {
    hide ReadUint, ReadBytes, ReadExpectedText, ParseComponents;
    assert raw[0..] == raw;
    status := Malformed;
    var ok, count, off := ReadUintAt(raw, 5, 0);
    if !ok || count != 4 { return; }
    var generation, schema, components, digest;
    ok, off := ReadExpectedTextAt(raw, "generation", off);
    if !ok { return; }
    ok, generation, off := ReadUintAt(raw, 0, off);
    if !ok || generation == 0 { return; }
    ok, off := ReadExpectedTextAt(raw, "schema_version", off);
    if !ok { return; }
    ok, schema, off := ReadUintAt(raw, 0, off);
    if !ok { return; }
    ok, off := ReadExpectedTextAt(raw, "component_sequences", off);
    if !ok { return; }
    ok, components, off := ParseComponentsAt(raw, off);
    if !ok { return; }
    ok, off := ReadExpectedTextAt(raw, "last_consumed_query_response_sha256", off);
    if !ok { return; }
    ok, digest, off := ReadBytesAt(raw, 2, off);
    if !ok || |digest| != 32 || off != |raw| { return; }
    return if schema == 1 then Valid(Record(generation, components, digest)) else Unsupported;
  }
}
