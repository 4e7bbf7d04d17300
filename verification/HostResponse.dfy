/** The runtime's success response and the host's response codec. */
module HostResponse {
  import opened Bytes
  import opened CborHead
  import opened CborItem
  import opened GoCodec
  import S = StrictCbor

  // ----- the host's view of a response -----

  /** A missing or nil value is Null; a missing byte string is None. */
  datatype TwepError = TwepError(code: blob, message: blob, details: Value)

  datatype Response = Response(schema: int64, id: blob, status: blob, exitCode: int64, stdout: Option<blob>,
                               stderr: Option<blob>, appOutput: Option<blob>, result: Value, error: Option<TwepError>)

  function Key(text: string): blob
    requires |text| < 24
  {
    Ascii(text)
  }

  function Lookup(m: map<blob, Value>, key: string): Value
    requires |key| < 24
  {
    if Key(key) in m then m[Key(key)] else Null
  }

  /** uint64(x) and int64(x). */
  function Unsigned(i: int64): u64 { if i < 0 then i + U64_MAX + 1 else i }
  function Signed(u: u64): int64 { if u < I64_LIMIT then u else u - U64_MAX - 1 }

  function AsUint(v: Value): u64 { if v.Uint? then v.u else if v.Int? then Unsigned(v.i) else 0 }
  function AsInt(v: Value): int64 { if v.Uint? then Signed(v.u) else if v.Int? then v.i else 0 }
  function AsString(v: Value): blob { if v.Text? then v.text else [] }
  function AsBytes(v: Value): Option<blob> { if v.Bytes? then Some(v.bytes) else None }

  /** The fields of a response map, before they are judged. */
  function FieldsOf(m: map<blob, Value>): Response {
    var e := Lookup(m, "error");
    Response(Signed(AsUint(Lookup(m, "schema_version"))), AsString(Lookup(m, "request_id")),
             AsString(Lookup(m, "status")), AsInt(Lookup(m, "exit_code")), AsBytes(Lookup(m, "stdout")),
             AsBytes(Lookup(m, "stderr")), AsBytes(Lookup(m, "app_output")), Lookup(m, "result"),
             if e.Object? then Some(TwepError(AsString(Lookup(e.fields, "code")), AsString(Lookup(e.fields, "message")),
                                              Lookup(e.fields, "details"))) else None)
  }

  /** DecodeResponse. */
  function DecodeResponse(b: bytes): Option<Response> {
    var v := DecodeValue(b);
    if v.None? || !v.value.Object? then None
    else
      var r := FieldsOf(v.value.fields);
      if r.schema != 1 || r.status == [] then None else Some(r)
  }

  // ----- the runtime's response -----

  /** The entries of a success response, in the order the runtime writes them. */
  function Entries(id: blob, out: blob, app: blob): bytes {
    S.Text("schema_version") + ([1] + (S.Text("request_id") + (Encode(Tstr(id)) + (S.Text("status") + (S.Text("ok")
    + (S.Text("exit_code") + ([0] + (S.Text("stdout") + (S.Bstr(out) + (S.Text("app_output") + S.Bstr(app)))))))))))
  }

  function ResponseBytes(id: blob, out: blob, app: blob): bytes { [0xa6] + Entries(id, out, app) }

  function ResponseLength(id: nat, out: nat, app: nat): nat {
    1 + 1 + 14 + 1 + 1 + 10 + HeadSize(id) + id + 1 + 6 + 1 + 2 + 1 + 9 + 1 + 1 + 6 + HeadSize(out) + out
    + (1 + 10 + HeadSize(app) + app)
  }

  /** Moves the write pointer over one piece of the response. */
  method Put(buf: array<byte>, p: nat, data: bytes, ghost whole: bytes, ghost rest: bytes) returns (q: nat)
    requires |whole| == buf.Length && p <= |whole| && whole[p..] == data + rest && buf[..p] == whole[..p]
    modifies buf
    ensures q <= |whole| && whole[q..] == rest && buf[..q] == whole[..q]
  {
    assert |whole[p..]| == |data| + |rest|;
    for i := 0 to |data|
      invariant buf[..p + i] == whole[..p + i]
    {
      assert whole[p..][i] == data[i];
      buf[p + i] := data[i];
      assert buf[..p + i + 1] == buf[..p + i] + [data[i]];
    }
    q := p + |data|;
    assert whole[p..][|data|..] == whole[q..];
  }

  /** twep_wr_make_response: the buffer has the length computed beforehand and is filled to its last byte. */
  method MakeResponse(id: blob, out: blob, app: blob) returns (r: Option<array<byte>>)
    ensures r.None? <==> |out| > U32_MAX || |app| > U32_MAX
    ensures r.Some? ==> fresh(r.value) && r.value[..] == ResponseBytes(id, out, app)
  {
    hide S.Text, S.Bstr, HeadBytes, HeadSize, Ascii, ResponseLength;
    if |out| > U32_MAX || |app| > U32_MAX {
      return None;
    }
    LengthIsExact(id, out, app);
    ghost var whole := ResponseBytes(id, out, app);
    var buf := new byte[ResponseLength(|id|, |out|, |app|)];
    ghost var t9 := S.Text("stdout") + (S.Bstr(out) + (S.Text("app_output") + S.Bstr(app)));
    ghost var t7 := S.Text("exit_code") + ([0] + t9);
    ghost var t5 := S.Text("status") + (S.Text("ok") + t7);
    ghost var t3 := S.Text("request_id") + (Encode(Tstr(id)) + t5);
    var p := Put(buf, 0, [0xa6], whole, Entries(id, out, app));
    p := PutEntry(buf, p, "schema_version", [1], whole, t3);
    p := PutText(buf, p, "request_id", whole, Encode(Tstr(id)) + t5);
    var head := S.WriteTypeLen([], 3, |id|);
    Headed(3, id, t5);
    p := Put(buf, p, head, whole, id + t5);
    p := Put(buf, p, id, whole, t5);
    p := PutText(buf, p, "status", whole, S.Text("ok") + t7);
    p := PutText(buf, p, "ok", whole, t7);
    p := PutEntry(buf, p, "exit_code", [0], whole, t9);
    p := PutBytes(buf, p, "stdout", out, whole, S.Text("app_output") + S.Bstr(app));
    assert S.Text("app_output") + S.Bstr(app) == S.Text("app_output") + (S.Bstr(app) + []);
    p := PutBytes(buf, p, "app_output", app, whole, []);
    assert p == buf.Length && buf[..p] == buf[..];
    r := Some(buf);
  }

  lemma Headed(major: nat, b: blob, t: bytes)
    requires major < 8
    ensures [] + HeadBytes(major, |b|) + (b + t) == HeadBytes(major, |b|) + b + t
  {
  }

  /** A literal key with its one-byte head. */
  method PutText(buf: array<byte>, p: nat, text: string, ghost whole: bytes, ghost rest: bytes) returns (q: nat)
    requires |text| < 24
    requires |whole| == buf.Length && p <= |whole| && whole[p..] == S.Text(text) + rest && buf[..p] == whole[..p]
    modifies buf
    ensures q <= |whole| && whole[q..] == rest && buf[..q] == whole[..q]
  {
    assert S.Text(text) == [0x60 + |text|] + Ascii(text);
    hide S.Text;
    assert [0x60 + |text|] + Ascii(text) + rest == [0x60 + |text|] + (Ascii(text) + rest);
    q := Put(buf, p, [0x60 + |text|], whole, Ascii(text) + rest);
    q := Put(buf, q, Ascii(text), whole, rest);
  }

  method PutEntry(buf: array<byte>, p: nat, text: string, data: bytes, ghost whole: bytes, ghost rest: bytes) returns (q: nat)
    requires |text| < 24
    requires |whole| == buf.Length && p <= |whole| && whole[p..] == S.Text(text) + (data + rest) && buf[..p] == whole[..p]
    modifies buf
    ensures q <= |whole| && whole[q..] == rest && buf[..q] == whole[..q]
  {
    hide S.Text;
    q := PutText(buf, p, text, whole, data + rest);
    q := Put(buf, q, data, whole, rest);
  }

  method PutBytes(buf: array<byte>, p: nat, text: string, b: blob, ghost whole: bytes, ghost rest: bytes) returns (q: nat)
    requires |text| < 24
    requires |whole| == buf.Length && p <= |whole| && whole[p..] == S.Text(text) + (S.Bstr(b) + rest) && buf[..p] == whole[..p]
    modifies buf
    ensures q <= |whole| && whole[q..] == rest && buf[..q] == whole[..q]
  {
    hide S.Text, HeadBytes;
    q := PutText(buf, p, text, whole, S.Bstr(b) + rest);
    var head := S.WriteTypeLen([], 2, |b|);
    Headed(2, b, rest);
    q := Put(buf, q, head, whole, b + rest);
    if |b| != 0 {
      q := Put(buf, q, b, whole, rest);
    } else {
      assert b + rest == rest;
    }
  }

  lemma LengthIsExact(id: blob, out: blob, app: blob)
    ensures |ResponseBytes(id, out, app)| == ResponseLength(|id|, |out|, |app|)
  {
    hide HeadBytes, Ascii;
  }

  // ----- what the host reads -----

  /** The key texts differ pairwise. */
  lemma KeysDiffer()
    ensures |Key("schema_version")| == 14 && |Key("exit_code")| == 9 && |Key("error")| == 5
    ensures |Key("request_id")| == 10 == |Key("app_output")| && Key("request_id") != Key("app_output")
    ensures |Key("status")| == 6 == |Key("stdout")| == |Key("stderr")| == |Key("result")|
    ensures Key("status") != Key("stdout") && Key("status") != Key("stderr") && Key("stdout") != Key("stderr")
    ensures Key("status") != Key("result") && Key("stdout") != Key("result") && Key("stderr") != Key("result")
    ensures |Key("ok")| == 2 && |Key("code")| == 4 && |Key("message")| == 7 == |Key("details")| && Key("message") != Key("details")
  {
    assert Key("request_id")[0] == 'r' as int && Key("app_output")[0] == 'a' as int;
    assert Key("status")[2] == 'a' as int && Key("stdout")[2] == 'd' as int && Key("stderr")[2] == 'd' as int;
    assert Key("stdout")[3] == 'o' as int && Key("stderr")[3] == 'e' as int && Key("result")[0] == 'r' as int;
    assert Key("status")[0] == Key("stdout")[0] == Key("stderr")[0] == 's' as int;
    assert Key("message")[0] == 'm' as int && Key("details")[0] == 'd' as int;
  }

  lemma FieldStep(key: string, x: Value, t: bytes, n: nat, seen: map<blob, Value>)
    requires |key| < 24 && n > 0 && !x.Array? && !x.Object? && !x.Other? && !x.Int?
    ensures DecodeFields(S.Text(key) + (EncodeValue(x) + t), n, seen) == DecodeFields(t, n - 1, seen[Key(key) := x])
  {
    assert S.Text(key) == Encode(Tstr(Key(key)));
    hide Decode, Encode, EncodeValue, S.Text, Ascii;
    TextRoundTrip(Key(key), EncodeValue(x) + t);
    LeafRoundTrip(x, t);
  }

  lemma Literals(id: blob, b: blob)
    ensures EncodeValue(Value.Uint(1)) == [1] && EncodeValue(Value.Uint(0)) == [0]
    ensures EncodeValue(Text(Key("ok"))) == S.Text("ok") && EncodeValue(Text(id)) == Encode(Tstr(id))
    ensures EncodeValue(Bytes(b)) == S.Bstr(b)
  {
  }

  function FirstFields(id: blob): map<blob, Value> {
    map[Key("schema_version") := Value.Uint(1)][Key("request_id") := Text(id)][Key("status") := Text(Key("ok"))]
  }

  lemma FirstThree(id: blob, t: bytes)
    ensures DecodeFields(S.Text("schema_version") + ([1] + (S.Text("request_id") + (Encode(Tstr(id)) + (S.Text("status")
                         + (S.Text("ok") + t))))), 6, map[]) == DecodeFields(t, 3, FirstFields(id))
  {
    hide Decode, DecodeFields, EncodeValue, Encode, S.Text, S.Bstr, HeadBytes, Ascii, Key, ToItem, Known, Sized;
    Literals(id, []);
    var t2 := S.Text("status") + (S.Text("ok") + t);
    var t1 := S.Text("request_id") + (Encode(Tstr(id)) + t2);
    var m: map<blob, Value> := map[];
    FieldStep("schema_version", Value.Uint(1), t1, 6, m);
    m := m[Key("schema_version") := Value.Uint(1)];
    FieldStep("request_id", Text(id), t2, 5, m);
    m := m[Key("request_id") := Text(id)];
    FieldStep("status", Text(Key("ok")), t, 4, m);
  }

  lemma LastThree(m: map<blob, Value>, out: blob, app: blob)
    ensures DecodeFields(S.Text("exit_code") + ([0] + (S.Text("stdout") + (S.Bstr(out) + (S.Text("app_output")
                         + S.Bstr(app))))), 3, m)
            == Ok(m[Key("exit_code") := Value.Uint(0)][Key("stdout") := Bytes(out)][Key("app_output") := Bytes(app)], [])
  {
    hide Decode, EncodeValue, Encode, S.Text, S.Bstr, HeadBytes, Ascii, Key, ToItem, Known, Sized, Encodable;
    Literals([], out);
    Literals([], app);
    var t5 := S.Text("app_output") + S.Bstr(app);
    assert t5 == S.Text("app_output") + (S.Bstr(app) + []);
    var t4 := S.Text("stdout") + (S.Bstr(out) + t5);
    var n := m;
    FieldStep("exit_code", Value.Uint(0), t4, 3, n);
    n := n[Key("exit_code") := Value.Uint(0)];
    FieldStep("stdout", Bytes(out), t5, 2, n);
    n := n[Key("stdout") := Bytes(out)];
    FieldStep("app_output", Bytes(app), [], 1, n);
  }

  lemma ResponseDecodes(id: blob, out: blob, app: blob)
    ensures DecodeValue(ResponseBytes(id, out, app))
            == Some(Object(FirstFields(id)[Key("exit_code") := Value.Uint(0)]
                                          [Key("stdout") := Bytes(out)][Key("app_output") := Bytes(app)]))
  {
    MapOfSix(Entries(id, out, app));
    hide Decode, DecodeFields, Encode, S.Text, S.Bstr, Ascii, Key, FirstFields;
    FirstThree(id, S.Text("exit_code") + ([0] + (S.Text("stdout") + (S.Bstr(out) + (S.Text("app_output") + S.Bstr(app))))));
    LastThree(FirstFields(id), out, app);
  }

  lemma MapOfSix(entries: bytes)
    ensures Decode([0xa6] + entries)
            == (var p := DecodeFields(entries, 6, map[]); if p.Ok? then Ok(Object(p.value), p.rest) else Fail)
  {
    hide DecodeFields;
    assert ([0xa6] + entries)[1..] == entries;
  }

  /** The host recovers the request id, status ok, exit code 0, and both outputs from what the runtime wrote. */
  lemma HostReadsResponse(id: blob, out: blob, app: blob)
    ensures DecodeResponse(ResponseBytes(id, out, app))
            == Some(Response(1, id, Key("ok"), 0, Some(out), None, Some(app), Null, None))
  {
    hide Key, DecodeValue, ResponseBytes;
    ResponseDecodes(id, out, app);
    KeysDiffer();
  }

  // ----- the host's own responses -----

  function PutOptional(m: map<blob, Value>, key: string, b: Option<blob>): map<blob, Value>
    requires |key| < 24
  {
    if b.Some? then m[Key(key) := Bytes(b.value)] else m
  }

  function PutValue(m: map<blob, Value>, key: string, v: Value): map<blob, Value>
    requires |key| < 24
  {
    if v.Null? then m else m[Key(key) := v]
  }

  function ErrorFields(e: TwepError): map<blob, Value> {
    PutValue(map[Key("code") := Text(e.code), Key("message") := Text(e.message)], "details", e.details)
  }

  /** The map EncodeResponse builds. */
  function ToFields(r: Response): map<blob, Value> {
    var m := map[Key("schema_version") := Value.Uint(Unsigned(if r.schema == 0 then 1 else r.schema)),
                 Key("request_id") := Text(r.id), Key("status") := Text(r.status), Key("exit_code") := Int(r.exitCode)];
    var m := PutOptional(m, "stdout", r.stdout);
    var m := PutOptional(m, "stderr", r.stderr);
    var m := PutOptional(m, "app_output", r.appOutput);
    var m := PutValue(m, "result", r.result);
    if r.error.Some? then m[Key("error") := Object(ErrorFields(r.error.value))] else m
  }

  /** EncodeResponse; a result or detail of an unknown type is an error. */
  ghost function EncodeResponse(r: Response): Option<bytes>
    requires Sized(Object(ToFields(r)))
  {
    var v := Object(ToFields(r));
    if Known(v) then Some(EncodeValue(v)) else None
  }

  /** A response as it comes back: version filled in, dynamic parts in their decoded types. */
  function Settled(r: Response): Response {
    r.(schema := 1, result := Normal(r.result),
       error := if r.error.Some? then Some(r.error.value.(details := Normal(r.error.value.details))) else None)
  }

  lemma LookupNormal(m: map<blob, Value>, key: string)
    requires |key| < 24
    ensures Lookup(Normal(Object(m)).fields, key) == Normal(Lookup(m, key))
  {
  }

  lemma LookupRequired(r: Response)
    ensures var m := ToFields(r);
            && Lookup(m, "schema_version") == Value.Uint(Unsigned(if r.schema == 0 then 1 else r.schema))
            && Lookup(m, "request_id") == Text(r.id) && Lookup(m, "status") == Text(r.status)
            && Lookup(m, "exit_code") == Int(r.exitCode)
  {
    hide Key, ErrorFields, Unsigned;
    KeysDiffer();
  }

  lemma LookupOptional(r: Response)
    ensures var m := ToFields(r);
            && Lookup(m, "stdout") == (if r.stdout.Some? then Bytes(r.stdout.value) else Null)
            && Lookup(m, "stderr") == (if r.stderr.Some? then Bytes(r.stderr.value) else Null)
            && Lookup(m, "app_output") == (if r.appOutput.Some? then Bytes(r.appOutput.value) else Null)
  {
    hide Key, ErrorFields, Unsigned;
    KeysDiffer();
  }

  lemma LookupDynamic(r: Response)
    ensures var m := ToFields(r);
            && Lookup(m, "result") == r.result
            && Lookup(m, "error") == (if r.error.Some? then Object(ErrorFields(r.error.value)) else Null)
  {
    hide Key, ErrorFields, Unsigned;
    KeysDiffer();
  }

  lemma LookupError(e: TwepError)
    ensures var m := ErrorFields(e);
            Lookup(m, "code") == Text(e.code) && Lookup(m, "message") == Text(e.message) && Lookup(m, "details") == e.details
  {
    hide Key;
    KeysDiffer();
  }

  lemma NormalLeaf(v: Value)
    requires !v.Array? && !v.Object?
    ensures Normal(v) == if v.Int? && v.i >= 0 then Value.Uint(v.i) else v
  {
  }

  /** The scalar fields come back through the conversions. */
  lemma NormalScalars(r: Response)
    ensures var f := FieldsOf(Normal(Object(ToFields(r))).fields);
            && f.schema == (if r.schema == 0 then 1 else r.schema) && f.id == r.id && f.status == r.status
            && f.exitCode == r.exitCode && f.stdout == r.stdout && f.stderr == r.stderr && f.appOutput == r.appOutput
  {
    hide Lookup, ToFields, Normal;
    var m := ToFields(r);
    NormalIsObject(Object(m));
    LookupRequired(r);
    LookupOptional(r);
    LeafField(m, "schema_version");
    LeafField(m, "request_id");
    LeafField(m, "status");
    LeafField(m, "exit_code");
    LeafField(m, "stdout");
    LeafField(m, "stderr");
    LeafField(m, "app_output");
  }

  lemma LeafField(m: map<blob, Value>, key: string)
    requires |key| < 24 && !Lookup(m, key).Array? && !Lookup(m, key).Object?
    ensures var v := Lookup(m, key);
            Lookup(Normal(Object(m)).fields, key) == if v.Int? && v.i >= 0 then Value.Uint(v.i) else v
  {
    hide Lookup, Normal;
    LookupNormal(m, key);
    NormalLeaf(Lookup(m, key));
  }

  lemma NormalFieldsOf(r: Response)
    ensures FieldsOf(Normal(Object(ToFields(r))).fields) == Settled(r).(schema := if r.schema == 0 then 1 else r.schema)
  {
    hide Lookup, ToFields, ErrorFields, Normal;
    var m := ToFields(r);
    NormalScalars(r);
    LookupDynamic(r);
    LookupNormal(m, "result");
    LookupNormal(m, "error");
    if r.error.Some? {
      var e := ErrorFields(r.error.value);
      NormalIsObject(Object(e));
      LookupError(r.error.value);
      LeafField(e, "code");
      LeafField(e, "message");
      LookupNormal(e, "details");
    } else {
      NormalLeaf(Null);
    }
  }

  /** A host response survives its own round trip exactly when its version is 1 (or unset) and its status is not empty. */
  lemma ResponseRoundTrip(r: Response)
    requires Sized(Object(ToFields(r))) && EncodeResponse(r).Some?
    ensures DecodeResponse(EncodeResponse(r).value)
            == if (r.schema == 0 || r.schema == 1) && r.status != [] then Some(Settled(r)) else None
  {
    hide Decode, FieldsOf, ToFields, EncodeValue, Normal, Sized, Known;
    var v := Object(ToFields(r));
    DecodeInvertsEncode(v, []);
    assert EncodeValue(v) + [] == EncodeValue(v);
    NormalIsObject(v);
    NormalFieldsOf(r);
  }

  lemma NormalIsObject(v: Value)
    requires v.Object?
    ensures Normal(v).Object?
  {
  }

  /** A response is accepted exactly when it is a map whose version is the number one and whose status is a text, not empty. */
  lemma DecodeResponseIff(b: bytes)
    ensures var v, r := DecodeValue(b), DecodeResponse(b);
            && (r.Some? <==>
                  v.Some? && v.value.Object?
                  && (var n := Lookup(v.value.fields, "schema_version"); n == Value.Uint(1) || n == Int(1))
                  && (var t := Lookup(v.value.fields, "status"); t.Text? && t.text != []))
            && (r.Some? ==> r.value == FieldsOf(v.value.fields) && r.value.schema == 1)
  {
    hide DecodeValue, Lookup;
  }

  /** Which keys a response is written with: the optional ones exactly if it has them. */
  lemma WrittenKeys(r: Response)
    ensures var m := ToFields(r);
            && (Key("stdout") in m <==> r.stdout.Some?) && (Key("stderr") in m <==> r.stderr.Some?)
            && (Key("app_output") in m <==> r.appOutput.Some?) && (Key("result") in m <==> !r.result.Null?)
            && (Key("error") in m <==> r.error.Some?)
            && (r.error.Some? ==> (Key("details") in ErrorFields(r.error.value) <==> !r.error.value.details.Null?))
  {
    hide Key, Unsigned;
    KeysDiffer();
  }

  /** A response can be written exactly when its result and its error's details are of known types throughout. */
  lemma EncodeResponseIff(r: Response)
    requires Sized(Object(ToFields(r)))
    ensures EncodeResponse(r).Some? <==> Known(r.result) && (r.error.Some? ==> Known(r.error.value.details))
  {
    hide EncodeValue, Sized, Key, ToFields, ErrorFields;
    var m := ToFields(r);
    FieldsAreKnown(r);
    if r.error.Some? {
      ErrorIsKnown(r.error.value);
    }
  }

  lemma ErrorIsKnown(e: TwepError)
    ensures Known(Object(ErrorFields(e))) <==> Known(e.details)
  {
    hide Key;
    KeysDiffer();
    var m := ErrorFields(e);
    assert Key("details") in m <==> !e.details.Null?;
    assert Key("details") in m ==> m[Key("details")] == e.details;
  }

  lemma FieldsAreKnown(r: Response)
    ensures Known(Object(ToFields(r)))
            <==> Known(r.result) && (r.error.Some? ==> Known(Object(ErrorFields(r.error.value))))
  {
    hide Key, ErrorFields, Unsigned;
    KeysDiffer();
    WrittenKeys(r);
    LookupDynamic(r);
    var m := ToFields(r);
    assert Key("result") in m ==> m[Key("result")] == r.result;
    assert Key("error") in m ==> m[Key("error")] == Object(ErrorFields(r.error.value));
  }
}
