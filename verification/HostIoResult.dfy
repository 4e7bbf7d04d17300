/** The host's answer to a suspended call, and the two parsers that read it. */
module HostIoResult {
  import opened Bytes
  import opened CborHead
  import opened CborItem
  import opened Tee

  // ----- the trusted application's lax readers -----

  /** cbor_read_len: a head of the wanted major type, of any width. */
  function ReadLen(s: bytes, major: nat): (r: Parsed<u64>)
    ensures r.Ok? ==> |r.rest| < |s|
  {
    var h := ReadHead(s);
    if h.Ok? && h.value.major == major then Ok(h.value.value, h.rest) else Fail
  }

  function ReadView(s: bytes, major: nat): (r: Parsed<bytes>)
    ensures r.Ok? ==> |r.rest| < |s|
  {
    var h := ReadLen(s, major);
    if h.Ok? && h.value <= |h.rest| then Ok(h.rest[..h.value], h.rest[h.value..]) else Fail
  }

  /** A text value; parse_text_value_view refuses the empty one. */
  function ReadTextValue(s: bytes): Parsed<bytes> {
    var r := ReadView(s, 3);
    if r.Ok? && r.value == [] then Fail else r
  }

  // ----- the answer as a list of fields -----

  datatype Field = TextField(text: bytes) | UintField(n: u64) | BytesField(b: bytes) | OtherField

  datatype Entry = Entry(key: bytes, field: Field)

  function ReadField(s: bytes): (r: Parsed<Field>)
    ensures r.Ok? ==> |r.rest| < |s|
  {
    var skipped := Skip(TA_SKIP, s, 0);
    if skipped.None? then Fail
    else
      var major := ReadHead(s).value.major;
      if major == 0 then Ok(UintField(ReadLen(s, 0).value), skipped.value)
      else if major == 2 then Ok(BytesField(ReadView(s, 2).value), skipped.value)
      else if major == 3 then Ok(TextField(ReadView(s, 3).value), skipped.value)
      else Ok(OtherField, skipped.value)
  }

  function ReadEntries(s: bytes, n: nat): Parsed<seq<Entry>>
    decreases n
  {
    if n == 0 then Ok([], s)
    else
      var (key, s) :- ReadView(s, 3);
      var (field, s) :- ReadField(s);
      var (tail, s) :- ReadEntries(s, n - 1);
      Ok([Entry(key, field)] + tail, s)
  }

  /** The fields of an answer that is one complete map with text keys. */
  function Fields(result: bytes): Option<seq<Entry>> {
    var h := ReadLen(result, 5);
    if h.Fail? then None
    else
      var r := ReadEntries(h.rest, h.value);
      if r.Ok? && r.rest == [] then Some(r.value) else None
  }

  /** The last entry with the given key wins. */
  function Last(es: seq<Entry>, key: string): Option<Field> {
    if es == [] then None
    else
      var tail := Last(es[1..], key);
      if tail.Some? then tail else if es[0].key == Ascii(key) then Some(es[0].field) else None
  }

  // ----- host_io_result_ok -----

  datatype IoKind = HttpPost | CreateEvidence

  function KindText(k: IoKind): (s: bytes)
    ensures s != []
  {
    match k case HttpPost => Ascii("http_post") case CreateEvidence => Ascii("create_evidence")
  }

  /** What a suspended session remembers of its call. */
  datatype Pending =
    Pending(requestId: bytes, command: bytes, ioId: bytes, kind: IoKind, sequence: u64, inputSha: digest, bodySha: digest,
            body: bytes)

  datatype Flags = Flags(ioId: bool, kind: bool, status: bool, sequence: bool, bodySha: bool, inputSha: bool)

  /** One round of the loop after its key: the typed read its key asks for, and the flag it sets. */
  function CheckField(s: bytes, key: bytes, p: Pending, f: Flags): (r: Parsed<Flags>)
    ensures r.Ok? ==> |r.rest| < |s|
  {
    if key == Ascii("io_id") then
      var (v, s) :- ReadTextValue(s);
      Ok(f.(ioId := v == p.ioId), s)
    else if key == Ascii("kind") then
      var (v, s) :- ReadTextValue(s);
      Ok(f.(kind := v == KindText(p.kind)), s)
    else if key == Ascii("status") then
      var (v, s) :- ReadLen(s, 0);
      Ok(f.(status := v == 0), s)
    else if key == Ascii("sequence") then
      var (v, s) :- ReadLen(s, 0);
      Ok(f.(sequence := v == p.sequence), s)
    else if key == Ascii("request_body_sha256") then
      var (v, s) :- ReadView(s, 2);
      Ok(f.(bodySha := v == p.bodySha), s)
    else if key == Ascii("normalized_input_sha256") then
      var (v, s) :- ReadView(s, 2);
      Ok(f.(inputSha := v == p.inputSha), s)
    else
      var r := Skip(TA_SKIP, s, 0);
      if r.None? then Fail else Ok(f, r.value)
  }

  function CheckEntries(s: bytes, n: nat, p: Pending, f: Flags): Parsed<Flags>
    decreases n
  {
    if n == 0 then Ok(f, s)
    else
      var (key, s) :- ReadView(s, 3);
      var (f, s) :- CheckField(s, key, p, f);
      CheckEntries(s, n - 1, p, f)
  }

  const NO_FLAGS := Flags(false, false, false, false, false, false)
  const ALL_FLAGS := Flags(true, true, true, true, true, true)

  predicate ResultOk(result: bytes, p: Pending) {
    var h := ReadLen(result, 5);
    h.Ok? && CheckEntries(h.rest, h.value, p, NO_FLAGS) == Ok(ALL_FLAGS, [])
  }

  /** Every occurrence of a checked key has the type the check reads it with. */
  predicate WellTyped(e: Entry) {
    (e.key == Ascii("io_id") || e.key == Ascii("kind") ==> e.field.TextField? && e.field.text != [])
    && (e.key == Ascii("status") || e.key == Ascii("sequence") ==> e.field.UintField?)
    && (e.key == Ascii("request_body_sha256") || e.key == Ascii("normalized_input_sha256") ==> e.field.BytesField?)
  }

  /** The answer repeats exactly the pending call, with status zero. */
  predicate Answers(es: seq<Entry>, p: Pending) {
    Last(es, "io_id") == Some(TextField(p.ioId))
    && Last(es, "kind") == Some(TextField(KindText(p.kind)))
    && Last(es, "status") == Some(UintField(0))
    && Last(es, "sequence") == Some(UintField(p.sequence))
    && Last(es, "request_body_sha256") == Some(BytesField(p.bodySha))
    && Last(es, "normalized_input_sha256") == Some(BytesField(p.inputSha))
  }

  lemma FieldKinds(s: bytes)
    ensures var r := ReadField(s);
            (forall n: u64, t :: ReadLen(s, 0) == Ok(n, t) <==> r == Ok(UintField(n), t))
            && (forall b, t :: ReadView(s, 2) == Ok(b, t) <==> r == Ok(BytesField(b), t))
            && (forall b, t :: ReadView(s, 3) == Ok(b, t) <==> r == Ok(TextField(b), t))
  {
    hide ReadHead, SkipMany;
  }

  /** A flag after a field: the field decides if the key is its own. */
  function After(e: Entry, key: string, want: Field, flag: bool): bool {
    if e.key == Ascii(key) then e.field == want else flag
  }

  /** The flags one field leaves behind. */
  function SetFlags(e: Entry, p: Pending, f: Flags): Flags {
    Flags(After(e, "io_id", TextField(p.ioId), f.ioId),
          After(e, "kind", TextField(KindText(p.kind)), f.kind),
          After(e, "status", UintField(0), f.status),
          After(e, "sequence", UintField(p.sequence), f.sequence),
          After(e, "request_body_sha256", BytesField(p.bodySha), f.bodySha),
          After(e, "normalized_input_sha256", BytesField(p.inputSha), f.inputSha))
  }

  /** The checked keys have pairwise different lengths. */
  lemma KeysDiffer(key: bytes)
    ensures key == Ascii("io_id") ==> |key| == 5
    ensures key == Ascii("kind") ==> |key| == 4
    ensures key == Ascii("status") ==> |key| == 6
    ensures key == Ascii("sequence") ==> |key| == 8
    ensures key == Ascii("request_body_sha256") ==> |key| == 19
    ensures key == Ascii("normalized_input_sha256") ==> |key| == 23
  {
  }

  lemma CheckFieldIs(s: bytes, key: bytes, p: Pending, f: Flags)
    ensures var r := ReadField(s); var c := CheckField(s, key, p, f);
            if r.Ok? && WellTyped(Entry(key, r.value)) then c == Ok(SetFlags(Entry(key, r.value), p, f), r.rest)
            else c.Fail?
  {
    hide ReadLen, ReadView, ReadField, Skip, Ascii, KindText;
    FieldKinds(s);
    SkipIsField(s);
    KeysDiffer(key);
    var a, b, c := ReadLen(s, 0), ReadView(s, 2), ReadView(s, 3);
    assert a.Ok? ==> ReadField(s) == Ok(UintField(a.value), a.rest);
    assert b.Ok? ==> ReadField(s) == Ok(BytesField(b.value), b.rest);
    assert c.Ok? ==> ReadField(s) == Ok(TextField(c.value), c.rest);
  }

  lemma SkipIsField(s: bytes)
    ensures ReadField(s).Ok? <==> Skip(TA_SKIP, s, 0).Some?
    ensures ReadField(s).Ok? ==> ReadField(s).rest == Skip(TA_SKIP, s, 0).value
  {
  }

  predicate AllWellTyped(es: seq<Entry>) {
    forall i :: 0 <= i < |es| ==> WellTyped(es[i])
  }

  /** The last value of a key decides its flag; without one the flag keeps its value. */
  function Tells(last: Option<Field>, want: Field, flag: bool): bool {
    if last.Some? then last.value == want else flag
  }

  function SetAll(es: seq<Entry>, p: Pending, f: Flags): Flags {
    Flags(Tells(Last(es, "io_id"), TextField(p.ioId), f.ioId),
          Tells(Last(es, "kind"), TextField(KindText(p.kind)), f.kind),
          Tells(Last(es, "status"), UintField(0), f.status),
          Tells(Last(es, "sequence"), UintField(p.sequence), f.sequence),
          Tells(Last(es, "request_body_sha256"), BytesField(p.bodySha), f.bodySha),
          Tells(Last(es, "normalized_input_sha256"), BytesField(p.inputSha), f.inputSha))
  }

  lemma LastCons(e: Entry, tail: seq<Entry>, key: string)
    ensures Last([e] + tail, key)
            == if Last(tail, key).Some? then Last(tail, key) else if e.key == Ascii(key) then Some(e.field) else None
  {
    assert ([e] + tail)[1..] == tail;
  }

  lemma SetAllCons(e: Entry, tail: seq<Entry>, p: Pending, f: Flags)
    ensures SetAll([e] + tail, p, f) == SetAll(tail, p, SetFlags(e, p, f))
  {
    hide Last, Ascii, KindText;
    LastCons(e, tail, "io_id");
    LastCons(e, tail, "kind");
    LastCons(e, tail, "status");
    LastCons(e, tail, "sequence");
    LastCons(e, tail, "request_body_sha256");
    LastCons(e, tail, "normalized_input_sha256");
  }

  lemma {:induction false} CheckEntriesIs(s: bytes, n: nat, p: Pending, f: Flags)
    ensures var r := ReadEntries(s, n); var c := CheckEntries(s, n, p, f);
            if r.Ok? && AllWellTyped(r.value) then c == Ok(SetAll(r.value, p, f), r.rest) else c.Fail?
    decreases n
  {
    hide ReadView, ReadField, CheckField, WellTyped, SetFlags, SetAll;
    SetNone(p, f);
    if n > 0 {
      var k := ReadView(s, 3);
      if k.Ok? {
        CheckFieldIs(k.rest, k.value, p, f);
        var v := ReadField(k.rest);
        if v.Ok? {
          var e := Entry(k.value, v.value);
          CheckEntriesIs(v.rest, n - 1, p, SetFlags(e, p, f));
          var tail := ReadEntries(v.rest, n - 1);
          if tail.Ok? {
            AllWellTypedCons(e, tail.value);
            SetAllCons(e, tail.value, p, f);
          }
        }
      }
    }
  }

  lemma AllWellTypedCons(e: Entry, tail: seq<Entry>)
    ensures AllWellTyped([e] + tail) <==> WellTyped(e) && AllWellTyped(tail)
  {
    hide WellTyped;
    var es := [e] + tail;
    assert es[0] == e;
    assert forall i :: 0 <= i < |tail| ==> tail[i] == es[i + 1];
  }

  lemma SetNone(p: Pending, f: Flags)
    ensures SetAll([], p, f) == f
  {
  }

  /**
   * The check accepts exactly the answers that are one complete, well-typed map whose last values
   * repeat the pending call.
   */
  lemma ResultOkIff(result: bytes, p: Pending)
    ensures ResultOk(result, p)
            <==> Fields(result).Some? && AllWellTyped(Fields(result).value) && Answers(Fields(result).value, p)
  {
    hide ReadLen, ReadEntries, CheckEntries, Last, WellTyped, KindText;
    var h := ReadLen(result, 5);
    if h.Ok? {
      CheckEntriesIs(h.rest, h.value, p, NO_FLAGS);
    }
  }

  // ----- parse_host_io_result_payload -----

  datatype Views = Views(kind: bytes, body: bytes, evidence: bytes)

  datatype Recorded = Recorded(kind: IoKind, payload: bytes)

  function TakeField(s: bytes, key: bytes, v: Views): (r: Parsed<Views>)
    ensures r.Ok? ==> |r.rest| < |s|
  {
    if key == Ascii("kind") then
      var (x, s) :- ReadTextValue(s);
      Ok(v.(kind := x), s)
    else if key == Ascii("response_body") then
      var (x, s) :- ReadView(s, 2);
      Ok(v.(body := x), s)
    else if key == Ascii("evidence") then
      var (x, s) :- ReadView(s, 2);
      Ok(v.(evidence := x), s)
    else
      var r := Skip(TA_SKIP, s, 0);
      if r.None? then Fail else Ok(v, r.value)
  }

  function TakeEntries(s: bytes, n: nat, v: Views): Parsed<Views>
    decreases n
  {
    if n == 0 then Ok(v, s)
    else
      var (key, s) :- ReadView(s, 3);
      var (v, s) :- TakeField(s, key, v);
      TakeEntries(s, n - 1, v)
  }

  function ParsePayload(result: bytes): Result<Recorded> {
    var h := ReadLen(result, 5);
    if h.Fail? then Err(BadFormat)
    else
      var r := TakeEntries(h.rest, h.value, Views([], [], []));
      if r.Fail? || r.rest != [] then Err(BadFormat)
      else if r.value.kind == KindText(HttpPost) then Done(Recorded(HttpPost, r.value.body))
      else if r.value.kind == KindText(CreateEvidence) then Done(Recorded(CreateEvidence, r.value.evidence))
      else Err(BadFormat)
  }

  /** The text of a field, a default if the key never occurs, nothing if it is not a text. */
  function TextOr(f: Option<Field>, default: bytes): Option<bytes> {
    if f.None? then Some(default) else if f.value.TextField? then Some(f.value.text) else None
  }

  function BytesOr(f: Option<Field>, default: bytes): Option<bytes> {
    if f.None? then Some(default) else if f.value.BytesField? then Some(f.value.b) else None
  }

  lemma PayloadKeysDiffer()
    ensures Ascii("kind") != Ascii("response_body") && Ascii("kind") != Ascii("evidence")
    ensures Ascii("response_body") != Ascii("evidence")
  {
  }

  /** Every occurrence of a key the second parser reads has the type it reads it with. */
  predicate PayloadTyped(e: Entry) {
    (e.key == Ascii("kind") ==> e.field.TextField? && e.field.text != [])
    && (e.key == Ascii("response_body") || e.key == Ascii("evidence") ==> e.field.BytesField?)
  }

  predicate AllPayloadTyped(es: seq<Entry>) {
    forall i :: 0 <= i < |es| ==> PayloadTyped(es[i])
  }

  /** The views one field leaves behind. */
  function Taken(e: Entry, v: Views): Views
    requires PayloadTyped(e)
  {
    Views(if e.key == Ascii("kind") then e.field.text else v.kind,
          if e.key == Ascii("response_body") then e.field.b else v.body,
          if e.key == Ascii("evidence") then e.field.b else v.evidence)
  }

  lemma TakeFieldIs(s: bytes, key: bytes, v: Views)
    ensures var r := ReadField(s); var c := TakeField(s, key, v);
            if r.Ok? && PayloadTyped(Entry(key, r.value)) then c == Ok(Taken(Entry(key, r.value), v), r.rest) else c.Fail?
  {
    hide ReadLen, ReadView, ReadField, Skip, Ascii;
    FieldKinds(s);
    SkipIsField(s);
    PayloadKeysDiffer();
    var b, c := ReadView(s, 2), ReadView(s, 3);
    assert b.Ok? ==> ReadField(s) == Ok(BytesField(b.value), b.rest);
    assert c.Ok? ==> ReadField(s) == Ok(TextField(c.value), c.rest);
  }

  lemma AllPayloadTypedCons(e: Entry, tail: seq<Entry>)
    ensures AllPayloadTyped([e] + tail) <==> PayloadTyped(e) && AllPayloadTyped(tail)
  {
    hide PayloadTyped;
    var es := [e] + tail;
    assert es[0] == e;
    assert forall i :: 0 <= i < |tail| ==> tail[i] == es[i + 1];
  }

  /** The views are those of the last value of each key, or what was there before. */
  predicate TakesLasts(es: seq<Entry>, v: Views, w: Views) {
    TextOr(Last(es, "kind"), v.kind) == Some(w.kind) && BytesOr(Last(es, "response_body"), v.body) == Some(w.body)
    && BytesOr(Last(es, "evidence"), v.evidence) == Some(w.evidence)
  }

  lemma TakesCons(e: Entry, tail: seq<Entry>, v: Views, w: Views)
    requires PayloadTyped(e)
    ensures TakesLasts([e] + tail, v, w) <==> TakesLasts(tail, Taken(e, v), w)
  {
    hide Last, Ascii;
    LastCons(e, tail, "kind");
    LastCons(e, tail, "response_body");
    LastCons(e, tail, "evidence");
  }

  lemma TakesNone(v: Views)
    ensures TakesLasts([], v, v)
  {
  }

  /** The second parser, too, ends up with the last value of each key it reads. */
  lemma {:induction false} TakeEntriesIs(s: bytes, n: nat, v: Views)
    ensures var r := ReadEntries(s, n); var c := TakeEntries(s, n, v);
            if r.Ok? && AllPayloadTyped(r.value) then c.Ok? && c.rest == r.rest && TakesLasts(r.value, v, c.value) else c.Fail?
    decreases n
  {
    hide ReadView, ReadField, TakeField, PayloadTyped, Taken, TakesLasts;
    if n == 0 {
      TakesNone(v);
    } else {
      var k := ReadView(s, 3);
      if k.Ok? {
        TakeFieldIs(k.rest, k.value, v);
        var f := ReadField(k.rest);
        if f.Ok? {
          var e, tail := Entry(k.value, f.value), ReadEntries(f.rest, n - 1);
          if PayloadTyped(e) {
            TakeEntriesIs(f.rest, n - 1, Taken(e, v));
          }
          if tail.Ok? {
            AllPayloadTypedCons(e, tail.value);
            if PayloadTyped(e) && AllPayloadTyped(tail.value) {
              TakesCons(e, tail.value, v, TakeEntries(s, n, v).value);
            }
          }
        }
      }
    }
  }

  /** The key of the field that carries the payload of an answer of this kind. */
  function PayloadKey(k: IoKind): string { if k == HttpPost then "response_body" else "evidence" }

  /**
   * An answer yields a payload exactly when it is one complete, well-typed map whose last kind is a known one; the payload
   * is the last value of that kind's field, or empty. Anything else is badly formed.
   */
  lemma ParsePayloadIff(result: bytes, k: IoKind)
    ensures var es, r := Fields(result), ParsePayload(result);
            && (r.Done? && r.value.kind == k
                <==> es.Some? && AllPayloadTyped(es.value) && Last(es.value, "kind") == Some(TextField(KindText(k))))
            && (r.Done? && r.value.kind == k ==> BytesOr(Last(es.value, PayloadKey(k)), []) == Some(r.value.payload))
            && (r.Err? ==> r.code == BadFormat)
  {
    hide ReadLen, ReadEntries, TakeEntries, Last, Ascii, AllPayloadTyped;
    KindTextsDiffer();
    var h := ReadLen(result, 5);
    if h.Ok? {
      TakeEntriesIs(h.rest, h.value, Views([], [], []));
      if ReadEntries(h.rest, h.value).Ok? && AllPayloadTyped(ReadEntries(h.rest, h.value).value) {
        LastKindIsText(ReadEntries(h.rest, h.value).value);
      }
    }
  }

  lemma {:induction false} LastKindIsText(es: seq<Entry>)
    requires AllPayloadTyped(es)
    ensures Last(es, "kind").Some? ==> Last(es, "kind").value.TextField?
  {
    if es != [] {
      LastKindIsText(es[1..]);
    }
  }

  /** An accepted answer that also yields a payload is replayed under the kind that was pending. */
  lemma ReplayKindIsPendingKind(result: bytes, p: Pending)
    requires ResultOk(result, p) && ParsePayload(result).Done?
    ensures ParsePayload(result).value.kind == p.kind
    ensures Fields(result).Some?
    ensures BytesOr(Last(Fields(result).value, PayloadKey(p.kind)), []) == Some(ParsePayload(result).value.payload)
  {
    hide ReadLen, ReadEntries, TakeEntries, CheckEntries, Last, Ascii, AllWellTyped, ParsePayload, AllPayloadTyped;
    ResultOkIff(result, p);
    ParsePayloadIff(result, HttpPost);
    ParsePayloadIff(result, CreateEvidence);
    KindTextsDiffer();
  }

  lemma KindTextsDiffer()
    ensures KindText(HttpPost) != KindText(CreateEvidence)
  {
  }
}
