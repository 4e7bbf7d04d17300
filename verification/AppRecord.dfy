/** The staged application record, a fixed binary header followed by component id and module. */
module AppRecord {
  import opened Bytes
  import opened CborHead
  import opened StrictCbor
  import opened Tee

  const HEADER := 68
  const MAX_APP := 131072
  const MAX_RECORD := 131072 + 512
  const MAGIC: bytes := Ascii("TWEPAPP") + [1]
  const TAG: bytes := Ascii("twep-app-v1")

  // ----- component ids -----

  /** twep_app_component_id_is_valid, test by test. */
  predicate IsAppId(id: bytes) {
    |id| >= 15 && id[0] == 0x82 && id[1] == 0x4b && id[2..13] == TAG
    && (if 0x41 <= id[13] <= 0x57 then 14 + (id[13] - 0x40) == |id| && 0 !in id[14..]
        else id[13] == 0x58 && id[14] >= 24 && id[14] == |id| - 15 && 0 !in id[15..])
  }

  predicate IsCommand(command: bytes) {
    0 < |command| <= 255 && 0 !in command
  }

  /** The canonical CBOR array [h'twep-app-v1', h'command']. */
  function AppId(command: blob): blob
    requires IsCommand(command)
  {
    HeadBytes(4, 2) + Bstr(TAG) + Bstr(command)
  }

  lemma HeadShapes(n: nat)
    requires n <= 255
    ensures n < 24 ==> HeadBytes(2, n) == [0x40 + n]
    ensures n >= 24 ==> HeadBytes(2, n) == [0x58, n]
    ensures HeadBytes(4, 2) == [0x82]
  {
    PowersOf256();
    assert BigEndian(n, 1) == [n] by {
      assert BigEndian(0, 0) == [];
    }
  }

  lemma AppIdShape(command: blob)
    requires IsCommand(command)
    ensures AppId(command) == [0x82, 0x4b] + TAG + (if |command| < 24 then [0x40 + |command|] else [0x58, |command|]) + command
  {
    hide HeadBytes;
    HeadShapes(11);
    HeadShapes(|command|);
  }

  lemma IdHasCommand(id: bytes) returns (command: blob)
    requires IsAppId(id)
    ensures IsCommand(command) && id == AppId(command)
  {
    hide AppId;
    command := if id[13] <= 0x57 then id[14..] else id[15..];
    AppIdShape(command);
    assert id == id[..2] + id[2..13] + id[13..|id| - |command|] + command;
  }

  lemma AppIdPasses(command: blob)
    requires IsCommand(command)
    ensures IsAppId(AppId(command))
  {
    hide AppId;
    AppIdShape(command);
    var id := AppId(command);
    assert id[2..13] == TAG;
    assert if |command| < 24 then id[14..] == command else id[15..] == command;
  }

  /** An id passes the test exactly when it is the canonical encoding for some command. */
  lemma IsAppIdIff(id: bytes)
    ensures IsAppId(id) <==> exists command: blob :: IsCommand(command) && id == AppId(command)
  {
    hide IsAppId, AppId;
    if IsAppId(id) {
      var command := IdHasCommand(id);
    }
    forall command: blob | IsCommand(command) && id == AppId(command)
      ensures IsAppId(id)
    {
      AppIdPasses(command);
    }
  }

  lemma AppIdLength(id: bytes)
    requires IsAppId(id)
    ensures 0 < |id| <= 270
  {
  }

  /** The scan over the command bytes. */
  method ComponentIdIsValid(id: bytes) returns (ok: bool)
    ensures ok == IsAppId(id)
  {
    if |id| < 2 + 11 + 2 || id[0] != 0x82 || id[1] != 0x40 + 11 || id[2..13] != TAG {
      return false;
    }
    var off, commandLen := 13, 0;
    if 0x41 <= id[off] <= 0x57 {
      commandLen, off := id[off] - 0x40, off + 1;
    } else if id[off] == 0x58 && off + 1 < |id| && id[off + 1] >= 24 {
      commandLen, off := id[off + 1], off + 2;
    } else {
      return false;
    }
    if commandLen == 0 || off + commandLen != |id| {
      return false;
    }
    ghost var start := off;
    while off < |id|
      invariant start <= off <= |id|
      invariant 0 !in id[start..off]
    {
      if id[off] == 0 {
        assert id[start..][off - start] == 0;
        return false;
      }
      off := off + 1;
    }
    return true;
  }

  // ----- records -----

  datatype AppRecord = AppRecord(generation: u64, sequence: u64, id: bytes, wasm: bytes)

  predicate WellFormed(r: AppRecord) {
    r.generation > 0 && r.sequence > 0 && IsAppId(r.id) && 0 < |r.wasm| <= MAX_APP
  }

  function Header(sha: bytes -> digest, r: AppRecord): (h: bytes)
    requires |r.id| <= U32_MAX && |r.wasm| <= U32_MAX
    ensures |h| == HEADER
  {
    PowersOf256();
    MAGIC + BigEndian(r.generation, 8) + BigEndian(r.sequence, 8) + BigEndian(|r.id|, 4) + BigEndian(|r.wasm|, 4)
    + sha(r.wasm) + [0, 0, 0, 0]
  }

  function EncodeApp(sha: bytes -> digest, r: AppRecord): bytes
    requires |r.id| <= U32_MAX && |r.wasm| <= U32_MAX
  {
    Header(sha, r) + r.id + r.wasm
  }

  /** The header fields at their fixed offsets. */
  datatype HeaderFields = HeaderFields(generation: u64, sequence: u64, idLen: nat, wasmLen: nat, digest: digest)

  function ReadHeader(raw: bytes): HeaderFields
    requires |raw| >= HEADER
  {
    PowersOf256();
    HeaderFields(FromBigEndian(raw[8..16]), FromBigEndian(raw[16..24]), FromBigEndian(raw[24..28]),
                 FromBigEndian(raw[28..32]), raw[32..64])
  }

  function ParseApp(sha: bytes -> digest, raw: bytes): (r: Result<AppRecord>)
    ensures r.Done? ==> WellFormed(r.value)
  {
    if |raw| < HEADER || raw[..8] != MAGIC then Err(BadFormat)
    else
      var h := ReadHeader(raw);
      if h.generation == 0 || h.sequence == 0 || h.idLen == 0 || h.wasmLen == 0 || h.wasmLen > MAX_APP
         || HEADER + h.idLen + h.wasmLen != |raw| then Err(BadFormat)
      else
        var id, wasm := raw[HEADER..HEADER + h.idLen], raw[HEADER + h.idLen..];
        if !IsAppId(id) || sha(wasm) != h.digest then Err(Security)
        else Done(AppRecord(h.generation, h.sequence, id, wasm))
  }

  lemma HeaderReads(sha: bytes -> digest, r: AppRecord, t: bytes)
    requires |r.id| <= U32_MAX && |r.wasm| <= U32_MAX
    ensures var raw := Header(sha, r) + t;
            raw[..8] == MAGIC
            && ReadHeader(raw) == HeaderFields(r.generation, r.sequence, |r.id|, |r.wasm|, sha(r.wasm))
  {
    hide BigEndian, FromBigEndian;
    PowersOf256();
    var raw := Header(sha, r) + t;
    assert raw[..8] == MAGIC;
    assert raw[8..16] == BigEndian(r.generation, 8);
    assert raw[16..24] == BigEndian(r.sequence, 8);
    assert raw[24..28] == BigEndian(|r.id|, 4);
    assert raw[28..32] == BigEndian(|r.wasm|, 4);
    assert raw[32..64] == sha(r.wasm);
    BigEndianDecodes(r.generation, 8);
    BigEndianDecodes(r.sequence, 8);
    BigEndianDecodes(|r.id|, 4);
    BigEndianDecodes(|r.wasm|, 4);
  }

  /** A staged application reads back as itself and fits the record limit. */
  lemma AppRoundTrip(sha: bytes -> digest, r: AppRecord)
    requires WellFormed(r)
    ensures |r.id| <= 270 && |r.wasm| <= MAX_APP
    ensures 0 < |EncodeApp(sha, r)| <= MAX_RECORD
    ensures ParseApp(sha, EncodeApp(sha, r)) == Done(r)
  {
    hide Header, IsAppId, ReadHeader;
    AppIdLength(r.id);
    HeaderReads(sha, r, r.id + r.wasm);
    var raw := EncodeApp(sha, r);
    assert raw == Header(sha, r) + (r.id + r.wasm);
    assert raw[HEADER..HEADER + |r.id|] == r.id && raw[HEADER + |r.id|..] == r.wasm;
  }

  // ----- filling the record buffer -----

  function Zeros(n: nat): (s: bytes)
    ensures |s| == n
  {
    seq(n, i => 0)
  }

  /** TEE_MemMove of a field to the first byte not yet written. */
  method Fill(record: array<byte>, ghost done: bytes, off: nat, data: bytes)
    requires |done| == off && off + |data| <= record.Length
    requires record[..] == done + Zeros(record.Length - off)
    modifies record
    ensures record[..] == done + data + Zeros(record.Length - off - |data|)
  {
    for i := 0 to |data|
      invariant record[..off + i] == done + data[..i]
      invariant record[off + i..] == Zeros(record.Length - off - i)
    {
      record[off + i] := data[i];
      assert record[..off + i + 1] == record[..off + i] + [data[i]];
      assert data[..i] + [data[i]] == data[..i + 1];
      assert record[off + i + 1..] == Zeros(record.Length - off - i - 1);
    }
    assert record[..] == record[..off + |data|] + record[off + |data|..];
    assert data[..|data|] == data;
  }

  /** write_be32 and write_be64, least significant byte last. */
  method BigEndianBytes(value: nat, k: nat) returns (out: bytes)
    requires value < Pow256(k)
    ensures out == BigEndian(value, k)
  {
    out := WriteBigEndian([], value, k);
    assert [] + BigEndian(value, k) == BigEndian(value, k);
  }

  /** The record of twep_app_commit: a zeroed buffer filled field by field. */
  method BuildRecord(r: AppRecord, hash: digest) returns (record: array<byte>)
    requires |r.id| <= U32_MAX && |r.wasm| <= U32_MAX
    ensures fresh(record)
    ensures forall sha: bytes -> digest :: sha(r.wasm) == hash ==> record[..] == EncodeApp(sha, r)
  {
    hide BigEndian;
    PowersOf256();
    var n := HEADER + |r.id| + |r.wasm|;
    record := new byte[n](i => 0);
    assert record[..] == [] + Zeros(n);
    ghost var p := MAGIC;
    Fill(record, [], 0, MAGIC);
    assert record[..] == p + Zeros(n - |p|);
    var field := BigEndianBytes(r.generation, 8);
    Fill(record, p, 8, field);
    p := p + field;
    field := BigEndianBytes(r.sequence, 8);
    Fill(record, p, 16, field);
    p := p + field;
    field := BigEndianBytes(|r.id|, 4);
    Fill(record, p, 24, field);
    p := p + field;
    field := BigEndianBytes(|r.wasm|, 4);
    Fill(record, p, 28, field);
    p := p + field;
    Fill(record, p, 32, hash);
    p := p + hash;
    assert Zeros(n - 64) == [0, 0, 0, 0] + Zeros(n - HEADER);
    p := p + [0, 0, 0, 0];
    Fill(record, p, HEADER, r.id);
    Fill(record, p + r.id, HEADER + |r.id|, r.wasm);
    assert Zeros(0) == [];
    assert record[..] == p + r.id + r.wasm;
  }
}
