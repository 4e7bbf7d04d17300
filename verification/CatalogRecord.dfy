/** The staged catalog record: payload, digest, sequence and the generation it was staged for. */
module CatalogRecord {
  import opened Bytes
  import opened CborHead
  import opened StrictCbor

  const MAX_PAYLOAD := 65536
  const MAX_RECORD := 65536 + 512

  /** [h'twep-catalog-v1', h'default'] in CBOR. */
  const DEFAULT_ID: blob := [0x82, 0x4f] + Ascii("twep-catalog-v1") + [0x47] + Ascii("default")

  datatype CatalogRecord = CatalogRecord(generation: u64, sequence: u64, catalog: blob)
  datatype CatalogParse = Valid(record: CatalogRecord) | Malformed | Unsupported

  datatype Fields =
    Fields(catalog: blob, digest: blob, schema: u64, sequence: u64, id: blob, generation: u64)

  function ParseFields(s: bytes): Parsed<Fields> {
    var (count, s) :- ReadUint(s, 5);
    var (_, s) :- ReadExpectedText(s, "catalog_cbor");
    var (catalog, s) :- ReadBytes(s, 2);
    var (_, s) :- ReadExpectedText(s, "catalog_sha256");
    var (digest, s) :- ReadBytes(s, 2);
    var (_, s) :- ReadExpectedText(s, "schema_version");
    var (schema, s) :- ReadUint(s, 0);
    var (_, s) :- ReadExpectedText(s, "sequence_number");
    var (sequence, s) :- ReadUint(s, 0);
    var (_, s) :- ReadExpectedText(s, "component_id_cbor");
    var (id, s) :- ReadBytes(s, 2);
    var (_, s) :- ReadExpectedText(s, "acceptance_generation");
    var (generation, s) :- ReadUint(s, 0);
    if count != 6 then Fail else Ok(Fields(catalog, digest, schema, sequence, id, generation), s)
  }

  function ParseCatalog(sha: bytes -> digest, raw: bytes): CatalogParse {
    var p := ParseFields(raw);
    if p.Fail? || p.rest != [] then Malformed
    else
      var f := p.value;
      if f.catalog == [] || |f.catalog| > MAX_PAYLOAD || |f.digest| != 32 || f.sequence == 0 || f.generation == 0
      then Malformed
      else if f.schema != 1 then Unsupported
      else if f.id != DEFAULT_ID || f.digest != sha(f.catalog) then Malformed
      else Valid(CatalogRecord(f.generation, f.sequence, f.catalog))
  }

  function EncodeFields(f: Fields): bytes {
    HeadBytes(5, 6) + (Text("catalog_cbor") + (Bstr(f.catalog) + (Text("catalog_sha256") + (Bstr(f.digest) +
    (Text("schema_version") + (Uint(f.schema) + (Text("sequence_number") + (Uint(f.sequence) +
    (Text("component_id_cbor") + (Bstr(f.id) + (Text("acceptance_generation") + (Uint(f.generation) + []))))))))))))
  }

  predicate WellFormed(r: CatalogRecord) {
    r.generation > 0 && r.sequence > 0 && 0 < |r.catalog| <= MAX_PAYLOAD
  }

  function FieldsOf(sha: bytes -> digest, r: CatalogRecord): Fields {
    Fields(r.catalog, sha(r.catalog), 1, r.sequence, DEFAULT_ID, r.generation)
  }

  function EncodeCatalog(sha: bytes -> digest, r: CatalogRecord): bytes {
    EncodeFields(FieldsOf(sha, r))
  }

  lemma FieldsParse(f: Fields)
    ensures ParseFields(EncodeFields(f)) == Ok(f, [])
  {
    hide HeadBytes, Bstr, Text, ReadUint, ReadBytes;
    var sc := Uint(f.generation) + [];
    var sb := Text("acceptance_generation") + sc;
    var sa := Bstr(f.id) + sb;
    var s9 := Text("component_id_cbor") + sa;
    var s8 := Uint(f.sequence) + s9;
    var s7 := Text("sequence_number") + s8;
    var s6 := Uint(f.schema) + s7;
    var s5 := Text("schema_version") + s6;
    var s4 := Bstr(f.digest) + s5;
    var s3 := Text("catalog_sha256") + s4;
    var s2 := Bstr(f.catalog) + s3;
    var s1 := Text("catalog_cbor") + s2;
    ReadUintIff(HeadBytes(5, 6) + s1, 5, 6, s1);
    ReadExpectedTextIff(s1, "catalog_cbor", s2);
    ReadBstrIff(s2, f.catalog, s3);
    ReadExpectedTextIff(s3, "catalog_sha256", s4);
    ReadBstrIff(s4, f.digest, s5);
    ReadExpectedTextIff(s5, "schema_version", s6);
    ReadUintIff(s6, 0, f.schema, s7);
    ReadExpectedTextIff(s7, "sequence_number", s8);
    ReadUintIff(s8, 0, f.sequence, s9);
    ReadExpectedTextIff(s9, "component_id_cbor", sa);
    ReadBstrIff(sa, f.id, sb);
    ReadExpectedTextIff(sb, "acceptance_generation", sc);
    ReadUintIff(sc, 0, f.generation, []);
  }

  lemma FieldsEncode(s: bytes)
    requires ParseFields(s).Ok? && ParseFields(s).rest == []
    ensures s == EncodeFields(ParseFields(s).value)
  {
    hide HeadBytes, Bstr, Text, ReadUint, ReadBytes;
    var a := ReadUint(s, 5);
    var b := ReadExpectedText(a.rest, "catalog_cbor");
    var c := ReadBytes(b.rest, 2);
    var d := ReadExpectedText(c.rest, "catalog_sha256");
    var e := ReadBytes(d.rest, 2);
    var f := ReadExpectedText(e.rest, "schema_version");
    var g := ReadUint(f.rest, 0);
    var h := ReadExpectedText(g.rest, "sequence_number");
    var i := ReadUint(h.rest, 0);
    var j := ReadExpectedText(i.rest, "component_id_cbor");
    var k := ReadBytes(j.rest, 2);
    var l := ReadExpectedText(k.rest, "acceptance_generation");
    var m := ReadUint(l.rest, 0);
    ReadUintIff(s, 5, a.value, a.rest);
    ReadExpectedTextIff(a.rest, "catalog_cbor", b.rest);
    ReadBstrIff(b.rest, c.value, c.rest);
    ReadExpectedTextIff(c.rest, "catalog_sha256", d.rest);
    ReadBstrIff(d.rest, e.value, e.rest);
    ReadExpectedTextIff(e.rest, "schema_version", f.rest);
    ReadUintIff(f.rest, 0, g.value, g.rest);
    ReadExpectedTextIff(g.rest, "sequence_number", h.rest);
    ReadUintIff(h.rest, 0, i.value, i.rest);
    ReadExpectedTextIff(i.rest, "component_id_cbor", j.rest);
    ReadBstrIff(j.rest, k.value, k.rest);
    ReadExpectedTextIff(k.rest, "acceptance_generation", l.rest);
    ReadUintIff(l.rest, 0, m.value, m.rest);
  }

  /** parse_catalog_record accepts exactly the encodings of well-formed records. */
  lemma ParseCatalogIff(sha: bytes -> digest, raw: bytes, r: CatalogRecord)
    ensures ParseCatalog(sha, raw) == Valid(r) <==> WellFormed(r) && raw == EncodeCatalog(sha, r)
  {
    hide ParseFields, EncodeFields;
    FieldsParse(FieldsOf(sha, r));
    if ParseCatalog(sha, raw) == Valid(r) {
      FieldsEncode(raw);
    }
  }

  /** A staged record always fits the record buffer, so staging never runs short of space. */
  lemma CatalogFits(sha: bytes -> digest, r: CatalogRecord)
    requires WellFormed(r)
    ensures 0 < |EncodeCatalog(sha, r)| <= MAX_RECORD
  {
    hide HeadBytes, Text, Bstr, Uint;
    assert |DEFAULT_ID| == 25;
  }

  // ----- the cursor form -----

  /** parse_catalog_record: the exact key order leaves no room for duplicates or other encodings. */
  method ParseCatalogBytes(sha: bytes -> digest, raw: bytes) returns (status: CatalogParse)
    ensures status == ParseCatalog(sha, raw)
  {
    hide ReadUint, ReadBytes, ReadExpectedText;
    assert raw[0..] == raw;
    status := Malformed;
    var ok, count, off := ReadUintAt(raw, 5, 0);
    if !ok || count != 6 { return; }
    var catalog, hash, schema, sequence, id, generation;
    ok, off := ReadExpectedTextAt(raw, "catalog_cbor", off);
    if !ok { return; }
    ok, catalog, off := ReadBytesAt(raw, 2, off);
    if !ok || |catalog| == 0 || |catalog| > MAX_PAYLOAD { return; }
    ok, off := ReadExpectedTextAt(raw, "catalog_sha256", off);
    if !ok { return; }
    ok, hash, off := ReadBytesAt(raw, 2, off);
    if !ok || |hash| != 32 { return; }
    ok, off := ReadExpectedTextAt(raw, "schema_version", off);
    if !ok { return; }
    ok, schema, off := ReadUintAt(raw, 0, off);
    if !ok { return; }
    ok, off := ReadExpectedTextAt(raw, "sequence_number", off);
    if !ok { return; }
    ok, sequence, off := ReadUintAt(raw, 0, off);
    if !ok || sequence == 0 { return; }
    ok, off := ReadExpectedTextAt(raw, "component_id_cbor", off);
    if !ok { return; }
    ok, id, off := ReadBytesAt(raw, 2, off);
    if !ok { return; }
    ok, off := ReadExpectedTextAt(raw, "acceptance_generation", off);
    if !ok { return; }
    ok, generation, off := ReadUintAt(raw, 0, off);
    if !ok || generation == 0 || off != |raw| { return; }
    if schema != 1 {
      return Unsupported;
    }
    if id != DEFAULT_ID || sha(catalog) != hash { return; }
    return Valid(CatalogRecord(generation, sequence, catalog));
  }

  lemma CatalogFlat(f: Fields)
    ensures EncodeFields(f) == [] + HeadBytes(5, 6) + Text("catalog_cbor") + Bstr(f.catalog) + Text("catalog_sha256")
                               + Bstr(f.digest) + Text("schema_version") + Uint(f.schema) + Text("sequence_number")
                               + Uint(f.sequence) + Text("component_id_cbor") + Bstr(f.id)
                               + Text("acceptance_generation") + Uint(f.generation)
  {
    hide HeadBytes, Text, Uint, Bstr;
    Reassociate12(HeadBytes(5, 6), Text("catalog_cbor"), Bstr(f.catalog), Text("catalog_sha256"), Bstr(f.digest),
                  Text("schema_version"), Uint(f.schema), Text("sequence_number"), Uint(f.sequence),
                  Text("component_id_cbor"), Bstr(f.id), Text("acceptance_generation"), Uint(f.generation) + []);
    assert Uint(f.generation) + [] == Uint(f.generation);
  }

  /** encode_catalog_record: the precomputed size is the written one and always fits. */
  method EncodeCatalogBytes(hash: digest, r: CatalogRecord) returns (ok: bool, out: bytes)
    requires WellFormed(r)
    ensures ok && out == EncodeFields(Fields(r.catalog, hash, 1, r.sequence, DEFAULT_ID, r.generation))
  {
    hide HeadBytes, Text, Bstr, EncodeFields;
    var needed := HeadSize(6) + (HeadSize(12) + 12) + (HeadSize(|r.catalog|) + |r.catalog|) + (HeadSize(14) + 14)
      + (HeadSize(32) + 32) + (HeadSize(14) + 14) + HeadSize(1) + (HeadSize(15) + 15) + HeadSize(r.sequence)
      + (HeadSize(17) + 17) + (HeadSize(25) + 25) + (HeadSize(21) + 21) + HeadSize(r.generation);
    if needed > MAX_RECORD {
      return false, [];
    }
    out := WriteTypeLen([], 5, 6);
    out := WriteText(out, "catalog_cbor");
    out := WriteBstr(out, r.catalog);
    out := WriteText(out, "catalog_sha256");
    out := WriteBstr(out, hash);
    out := WriteText(out, "schema_version");
    out := WriteTypeLen(out, 0, 1);
    out := WriteText(out, "sequence_number");
    out := WriteTypeLen(out, 0, r.sequence);
    out := WriteText(out, "component_id_cbor");
    out := WriteBstr(out, DEFAULT_ID);
    out := WriteText(out, "acceptance_generation");
    out := WriteTypeLen(out, 0, r.generation);
    CatalogFlat(Fields(r.catalog, hash, 1, r.sequence, DEFAULT_ID, r.generation));
    assert |DEFAULT_ID| == 25;
    ok := |out| == needed;
  }
}
