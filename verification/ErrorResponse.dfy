/** The runtime's response to an application that failed. */
module ErrorResponse {
  import opened Bytes
  import opened CborHead
  import opened CborItem
  import opened GoCodec
  import opened LaxDecode
  import opened HostResponse
  import S = StrictCbor

  type int32 = i: int | -0x8000_0000 <= i < 0x8000_0000

  /** The code and message of an application status. */
  function CodeOf(status: int32): (r: (string, string))
    ensures |r.0| <= 23 && |r.1| <= 23
  {
    match status
    case 1 => ("app.input_cbor", "invalid input")
    case 2 => ("app.invalid_argument", "invalid argument")
    case 3 => ("app.output_generation", "output generation error")
    case 4 => ("app.no_memory", "no memory")
    case 5 => ("app.unsupported_command", "unsupported command")
    case 6 => ("app.unsupported_format", "unsupported format")
    case 7 => ("app.resource_limit", "resource limit exceeded")
    case 127 => ("app.internal", "internal app error")
    case _ => ("app.runtime", "runtime error")
  }

  function Number(status: int32): Item { if status >= 0 then Item.Uint(status) else Nint(-1 - status) }

  function Magnitude(status: int32): nat { if status < 0 then -1 - status else status }

  /** One entry with a literal key in front of the others. */
  function With(key: string, v: Item, rest: seq<Item>): (entries: seq<Item>)
    requires |key| < 24
    ensures |entries| == 2 + |rest|
  {
    [Tstr(Key(key)), v] + rest
  }

  function Details(status: int32, command: blob, wasm: blob): (entries: seq<Item>)
    ensures |entries| == 6
  {
    With("return_code", Number(status), With("command", Tstr(command), With("wasm_file", Tstr(wasm), [])))
  }

  function Failure(status: int32, command: blob, wasm: blob): (entries: seq<Item>)
    ensures |entries| == 6
  {
    var (code, message) := CodeOf(status);
    With("code", Tstr(Key(code)), With("message", Tstr(Key(message)), With("details", Map(Details(status, command, wasm)), [])))
  }

  /** The response in the order it is written: a map of five, whose error is a map of three, whose details are a map of three. */
  function ErrorEntries(id: blob, status: int32, command: blob, wasm: blob): (entries: seq<Item>)
    ensures |entries| == 10
  {
    With("schema_version", Item.Uint(1), With("request_id", Tstr(id), With("status", Tstr(Key("error")),
      With("exit_code", Item.Uint(1), With("error", Map(Failure(status, command, wasm)), [])))))
  }

  // ----- the encoding and its length -----

  lemma WithEncodes(key: string, v: Item, rest: seq<Item>)
    requires |key| < 24 && Encodable(v) && AllEncodable(rest)
    ensures AllEncodable(With(key, v, rest))
    ensures EncodeAll(With(key, v, rest)) == S.Text(key) + (Encode(v) + EncodeAll(rest))
    ensures |EncodeAll(With(key, v, rest))| == 1 + |key| + |Encode(v)| + |EncodeAll(rest)|
  {
    hide Ascii, HeadBytes;
    var all := With(key, v, rest);
    assert all[0] == Tstr(Key(key)) && all[1..][0] == v && all[1..][1..] == rest;
    assert EncodeAll(all[1..]) == Encode(v) + EncodeAll(rest);
  }

  lemma NestedMap(entries: seq<Item>)
    requires AllEncodable(entries) && |entries| % 2 == 0 && |entries| < 48
    ensures Encodable(Map(entries)) && Encode(Map(entries)) == [0xa0 + |entries| / 2] + EncodeAll(entries)
  {
    hide EncodeAll, AllEncodable, HeadBytes;
    SmallMapHead(|entries| / 2);
  }

  lemma SmallMapHead(n: nat)
    requires n < 24
    ensures HeadBytes(5, n) == [0xa0 + n]
  {
    assert BigEndian(0, 0) == [];
  }

  lemma Sizes(b: blob, status: int32, short: string)
    requires |short| < 24
    ensures Encodable(Tstr(b)) && |Encode(Tstr(b))| == HeadSize(|b|) + |b|
    ensures Encodable(Number(status)) && |Encode(Number(status))| == HeadSize(Magnitude(status))
    ensures Encodable(Tstr(Key(short))) && |Encode(Tstr(Key(short)))| == 1 + |short|
    ensures Encodable(Item.Uint(1)) && |Encode(Item.Uint(1))| == 1
  {
    hide Ascii;
  }

  lemma DetailsSize(status: int32, command: blob, wasm: blob)
    ensures var d := Details(status, command, wasm);
            AllEncodable(d) && |EncodeAll(d)| == 12 + HeadSize(Magnitude(status)) + 8 + HeadSize(|command|) + |command|
                                                 + 10 + HeadSize(|wasm|) + |wasm|
  {
    hide With, Encode, Encodable, Number, Key, HeadSize;
    Sizes(command, status, "");
    Sizes(wasm, status, "");
    WithEncodes("wasm_file", Tstr(wasm), []);
    var a := With("wasm_file", Tstr(wasm), []);
    WithEncodes("command", Tstr(command), a);
    WithEncodes("return_code", Number(status), With("command", Tstr(command), a));
  }

  lemma FailureSize(status: int32, command: blob, wasm: blob)
    ensures var d, f := Details(status, command, wasm), Failure(status, command, wasm); var (code, message) := CodeOf(status);
            AllEncodable(d) && AllEncodable(f)
            && |EncodeAll(f)| == 5 + (1 + |code|) + 8 + (1 + |message|) + 8 + 1 + |EncodeAll(d)|
  {
    hide With, Encode, Encodable, Number, Key, HeadSize, CodeOf, Details;
    var d := Details(status, command, wasm);
    var (code, message) := CodeOf(status);
    DetailsSize(status, command, wasm);
    NestedMap(d);
    Sizes([], 0, code);
    Sizes([], 0, message);
    WithEncodes("details", Map(d), []);
    var a := With("details", Map(d), []);
    WithEncodes("message", Tstr(Key(message)), a);
    WithEncodes("code", Tstr(Key(code)), With("message", Tstr(Key(message)), a));
  }

  lemma EntriesSize(id: blob, status: int32, command: blob, wasm: blob)
    ensures var f, e := Failure(status, command, wasm), ErrorEntries(id, status, command, wasm);
            AllEncodable(f) && AllEncodable(e)
            && |EncodeAll(e)| == 15 + 1 + 11 + HeadSize(|id|) + |id| + 7 + 6 + 10 + 1 + 6 + 1 + |EncodeAll(f)|
  {
    hide With, Encode, Encodable, Number, Key, HeadSize, Failure;
    var f := Failure(status, command, wasm);
    FailureSize(status, command, wasm);
    NestedMap(f);
    Sizes(id, 0, "error");
    var e1 := With("error", Map(f), []);
    WithEncodes("error", Map(f), []);
    var e2 := With("exit_code", Item.Uint(1), e1);
    WithEncodes("exit_code", Item.Uint(1), e1);
    var e3 := With("status", Tstr(Key("error")), e2);
    WithEncodes("status", Tstr(Key("error")), e2);
    WithEncodes("request_id", Tstr(id), e3);
    WithEncodes("schema_version", Item.Uint(1), With("request_id", Tstr(id), e3));
  }

  function ErrorBytes(id: blob, status: int32, command: blob, wasm: blob): bytes {
    EntriesSize(id, status, command, wasm);
    [0xa5] + EncodeAll(ErrorEntries(id, status, command, wasm))
  }

  /** The length computed before the buffer is allocated. */
  function ErrorLength(id: nat, status: int32, command: nat, wasm: nat): nat {
    var (code, message) := CodeOf(status);
    1 + 1 + 14 + 1 + 1 + 10 + HeadSize(id) + id + 1 + 6 + 1 + 5 + 1 + 9 + 1 + 1 + 5 + 1 + 4 + 1 + |code|
    + 1 + 7 + 1 + |message| + 1 + 7 + 1 + 1 + 11 + HeadSize(Magnitude(status))
    + 1 + 7 + HeadSize(command) + command + 1 + 9 + HeadSize(wasm) + wasm
  }

  /** The computed length leaves out the head of the error map: for every input what is written is one byte longer. */
  lemma ErrorLengthIsOneShort(id: blob, status: int32, command: blob, wasm: blob)
    ensures |ErrorBytes(id, status, command, wasm)| == ErrorLength(|id|, status, |command|, |wasm|) + 1
  {
    hide EncodeAll, Details, Failure, ErrorEntries, CodeOf, HeadSize;
    DetailsSize(status, command, wasm);
    FailureSize(status, command, wasm);
    EntriesSize(id, status, command, wasm);
  }

  // ----- the writer -----

  /** Writes the next piece of the whole response. */
  method Put(out: bytes, data: bytes, ghost rest: bytes, ghost whole: bytes) returns (out': bytes)
    requires out + (data + rest) == whole
    ensures out' + rest == whole
  {
    out' := out + data;
  }

  /** write_text, of a literal of at most 23 characters. */
  method PutShort(out: bytes, text: string, ghost rest: bytes, ghost whole: bytes) returns (out': bytes)
    requires |text| < 24 && out + (S.Text(text) + rest) == whole
    ensures out' + rest == whole
  {
    assert S.Text(text) == [0x60 + |text|] + Ascii(text);
    out' := Put(out, [0x60 + |text|] + Ascii(text), rest, whole);
  }

  /** write_text_view. */
  method PutView(out: bytes, text: blob, ghost rest: bytes, ghost whole: bytes) returns (out': bytes)
    requires out + (Encode(Tstr(text)) + rest) == whole
    ensures out' + rest == whole
  {
    hide HeadBytes;
    var head := S.WriteTypeLen([], 3, |text|);
    assert [] + HeadBytes(3, |text|) == HeadBytes(3, |text|);
    out' := Put(out, head + text, rest, whole);
  }

  /** The return code as an unsigned or negative number. */
  method PutStatus(out: bytes, status: int32, ghost rest: bytes, ghost whole: bytes) returns (out': bytes)
    requires Encodable(Number(status)) && out + (Encode(Number(status)) + rest) == whole
    ensures out' + rest == whole
  {
    hide HeadBytes;
    var head;
    if status >= 0 {
      head := S.WriteTypeLen([], 0, status);
    } else {
      head := S.WriteTypeLen([], 1, -1 - status);
    }
    assert head == Encode(Number(status));
    out' := Put(out, head, rest, whole);
  }

  method PutDetails(out: bytes, status: int32, command: blob, wasm: blob, ghost whole: bytes) returns (out': bytes)
    requires AllEncodable(Details(status, command, wasm)) && out + EncodeAll(Details(status, command, wasm)) == whole
    ensures out' == whole
  {
    hide With, Encode, Encodable, S.Text, EncodeAll, AllEncodable, Number;
    Sizes(command, status, "");
    Sizes(wasm, status, "");
    NoneEncodes();
    ghost var c := With("wasm_file", Tstr(wasm), []);
    ghost var b := With("command", Tstr(command), c);
    WithEncodes("wasm_file", Tstr(wasm), []);
    WithEncodes("command", Tstr(command), c);
    WithEncodes("return_code", Number(status), b);
    out' := PutShort(out, "return_code", Encode(Number(status)) + EncodeAll(b), whole);
    out' := PutStatus(out', status, EncodeAll(b), whole);
    out' := PutShort(out', "command", Encode(Tstr(command)) + EncodeAll(c), whole);
    out' := PutView(out', command, EncodeAll(c), whole);
    out' := PutShort(out', "wasm_file", Encode(Tstr(wasm)) + [], whole);
    out' := PutView(out', wasm, [], whole);
    assert out' + [] == out';
  }

  lemma NoneEncodes()
    ensures AllEncodable([]) && EncodeAll([]) == []
  {
  }

  method PutFailure(out: bytes, status: int32, command: blob, wasm: blob, ghost whole: bytes) returns (out': bytes)
    requires AllEncodable(Failure(status, command, wasm)) && out + EncodeAll(Failure(status, command, wasm)) == whole
    ensures out' == whole
  {
    hide With, Encode, Encodable, S.Text, EncodeAll, AllEncodable, Details, CodeOf, Key;
    var (code, message) := CodeOf(status);
    ghost var d := Details(status, command, wasm);
    DetailsSize(status, command, wasm);
    NestedMap(d);
    Sizes([], 0, code);
    Sizes([], 0, message);
    NoneEncodes();
    ghost var c := With("details", Map(d), []);
    ghost var b := With("message", Tstr(Key(message)), c);
    WithEncodes("details", Map(d), []);
    WithEncodes("message", Tstr(Key(message)), c);
    WithEncodes("code", Tstr(Key(code)), b);
    ShortKey(code);
    ShortKey(message);
    out' := PutShort(out, "code", S.Text(code) + EncodeAll(b), whole);
    out' := PutShort(out', code, EncodeAll(b), whole);
    out' := PutShort(out', "message", S.Text(message) + EncodeAll(c), whole);
    out' := PutShort(out', message, EncodeAll(c), whole);
    out' := PutShort(out', "details", Encode(Map(d)) + [], whole);
    assert [0xa3] + EncodeAll(d) + [] == [0xa3] + EncodeAll(d);
    out' := Put(out', [0xa3], EncodeAll(d), whole);
    out' := PutDetails(out', status, command, wasm, whole);
  }

  lemma ShortKey(text: string)
    requires |text| < 24
    ensures Encode(Tstr(Key(text))) == S.Text(text)
  {
  }

  /** twep_wr_make_app_error_response: the length it allocates, and the bytes it writes. */
  method MakeErrorResponse(id: blob, status: int32, command: blob, wasm: blob) returns (len: nat, out: bytes)
    ensures out == ErrorBytes(id, status, command, wasm) && len + 1 == |out|
  {
    hide With, Encode, Encodable, S.Text, EncodeAll, AllEncodable, Failure, Key, HeadSize, ErrorLength;
    len := ErrorLength(|id|, status, |command|, |wasm|);
    ErrorLengthIsOneShort(id, status, command, wasm);
    ghost var whole := ErrorBytes(id, status, command, wasm);
    ghost var f := Failure(status, command, wasm);
    FailureSize(status, command, wasm);
    NestedMap(f);
    Sizes(id, 0, "error");
    NoneEncodes();
    OneEncodes();
    ShortKey("error");
    ghost var e := With("error", Map(f), []);
    ghost var d := With("exit_code", Item.Uint(1), e);
    ghost var c := With("status", Tstr(Key("error")), d);
    ghost var b := With("request_id", Tstr(id), c);
    WithEncodes("error", Map(f), []);
    WithEncodes("exit_code", Item.Uint(1), e);
    WithEncodes("status", Tstr(Key("error")), d);
    WithEncodes("request_id", Tstr(id), c);
    WithEncodes("schema_version", Item.Uint(1), b);
    out := [0xa5];
    out := PutShort(out, "schema_version", [1] + EncodeAll(b), whole);
    out := Put(out, [1], EncodeAll(b), whole);
    out := PutShort(out, "request_id", Encode(Tstr(id)) + EncodeAll(c), whole);
    out := PutView(out, id, EncodeAll(c), whole);
    out := PutShort(out, "status", S.Text("error") + EncodeAll(d), whole);
    out := PutShort(out, "error", EncodeAll(d), whole);
    out := PutShort(out, "exit_code", [1] + EncodeAll(e), whole);
    out := Put(out, [1], EncodeAll(e), whole);
    out := PutShort(out, "error", Encode(Map(f)) + [], whole);
    assert [0xa3] + EncodeAll(f) + [] == [0xa3] + EncodeAll(f);
    out := Put(out, [0xa3], EncodeAll(f), whole);
    out := PutFailure(out, status, command, wasm, whole);
  }

  lemma OneEncodes()
    ensures Encodable(Item.Uint(1)) && Encode(Item.Uint(1)) == [1]
  {
  }

  // ----- what the host reads -----

  lemma WithReads(key: string, v: Item, rest: seq<Item>, seen: map<blob, Value>)
    requires |key| < 24 && Readable(v) && EntriesReadable(rest)
    ensures EntriesReadable(With(key, v, rest))
    ensures FromEntries(With(key, v, rest), seen) == FromEntries(rest, seen[Key(key) := FromItem(v)])
  {
    hide Key, Readable, FromItem;
    var all := With(key, v, rest);
    assert all[0] == Tstr(Key(key)) && all[1] == v && all[2..] == rest;
  }

  /** The details the host hands on: the application's own status, the command and the module. */
  function DetailFields(status: int32, command: blob, wasm: blob): map<blob, Value> {
    map[][Key("return_code") := if status >= 0 then Value.Uint(status) else Int(status)]
         [Key("command") := Text(command)][Key("wasm_file") := Text(wasm)]
  }

  lemma DetailsRead(status: int32, command: blob, wasm: blob)
    ensures var d := Details(status, command, wasm);
            EntriesReadable(d) && FromEntries(d, map[]) == DetailFields(status, command, wasm)
  {
    hide With, Key;
    var c := With("wasm_file", Tstr(wasm), []);
    var b := With("command", Tstr(command), c);
    var m: map<blob, Value> := map[];
    WithReads("wasm_file", Tstr(wasm), [], m[Key("return_code") := FromItem(Number(status))][Key("command") := Text(command)]);
    WithReads("command", Tstr(command), c, m[Key("return_code") := FromItem(Number(status))]);
    WithReads("return_code", Number(status), b, m);
  }

  function FailureFields(status: int32, command: blob, wasm: blob): map<blob, Value> {
    var (code, message) := CodeOf(status);
    map[][Key("code") := Text(Key(code))][Key("message") := Text(Key(message))]
         [Key("details") := Object(DetailFields(status, command, wasm))]
  }

  lemma FailureReads(status: int32, command: blob, wasm: blob)
    ensures var f := Failure(status, command, wasm);
            EntriesReadable(f) && FromEntries(f, map[]) == FailureFields(status, command, wasm)
  {
    hide With, Key, CodeOf, Details, DetailFields;
    var (code, message) := CodeOf(status);
    var d := Details(status, command, wasm);
    DetailsRead(status, command, wasm);
    var c := With("details", Map(d), []);
    var b := With("message", Tstr(Key(message)), c);
    var m: map<blob, Value> := map[];
    WithReads("details", Map(d), [], m[Key("code") := Text(Key(code))][Key("message") := Text(Key(message))]);
    WithReads("message", Tstr(Key(message)), c, m[Key("code") := Text(Key(code))]);
    WithReads("code", Tstr(Key(code)), b, m);
  }

  function ErrorFields(id: blob, status: int32, command: blob, wasm: blob): map<blob, Value> {
    map[][Key("schema_version") := Value.Uint(1)][Key("request_id") := Text(id)][Key("status") := Text(Key("error"))]
         [Key("exit_code") := Value.Uint(1)][Key("error") := Object(FailureFields(status, command, wasm))]
  }

  lemma EntriesRead(id: blob, status: int32, command: blob, wasm: blob)
    ensures var e := ErrorEntries(id, status, command, wasm);
            EntriesReadable(e) && FromEntries(e, map[]) == ErrorFields(id, status, command, wasm)
  {
    hide With, Key, Failure, FailureFields;
    var f := Failure(status, command, wasm);
    FailureReads(status, command, wasm);
    var e := With("error", Map(f), []);
    var d := With("exit_code", Item.Uint(1), e);
    var c := With("status", Tstr(Key("error")), d);
    var b := With("request_id", Tstr(id), c);
    var m0: map<blob, Value> := map[];
    var m1 := m0[Key("schema_version") := Value.Uint(1)];
    var m2 := m1[Key("request_id") := Text(id)];
    var m3 := m2[Key("status") := Text(Key("error"))];
    var m4 := m3[Key("exit_code") := Value.Uint(1)];
    WithReads("error", Map(f), [], m4);
    WithReads("exit_code", Item.Uint(1), e, m3);
    WithReads("status", Tstr(Key("error")), d, m2);
    WithReads("request_id", Tstr(id), c, m1);
    WithReads("schema_version", Item.Uint(1), b, m0);
  }

  /** The host recovers the request id, status error, exit code 1, the code and message of the status, and the details. */
  lemma HostReadsErrorResponse(id: blob, status: int32, command: blob, wasm: blob)
    ensures var (code, message) := CodeOf(status);
            DecodeResponse(ErrorBytes(id, status, command, wasm))
            == Some(Response(1, id, Key("error"), 1, None, None, None, Null,
                             Some(TwepError(Key(code), Key(message), Object(DetailFields(status, command, wasm))))))
  {
    hide Key, Decode, Encode, EncodeAll, AllEncodable, FromItem, FromEntries, EntriesReadable, ErrorEntries, CodeOf, DetailFields;
    var e := ErrorEntries(id, status, command, wasm);
    EntriesSize(id, status, command, wasm);
    NestedMap(e);
    EntriesRead(id, status, command, wasm);
    MapReads(e);
    ItemDecodes(Map(e), []);
    assert Encode(Map(e)) + [] == Encode(Map(e));
    KeysDiffer();
  }

  lemma MapReads(e: seq<Item>)
    requires EntriesReadable(e)
    ensures Readable(Map(e)) && FromItem(Map(e)) == Object(FromEntries(e, map[]))
  {
  }
}
