/** The signature section's payload: the signer that writes it and the two parsers that read it. */
module WasmSignature {
  import opened Bytes
  import opened CborHead
  import opened CborItem
  import opened WasmModule
  import H = HostIoResult
  import S = StrictCbor

  const TEEP_AGENT := "teep-agent"
  const APP := "app"
  const ALGORITHM := "ESP256"

  // ----- the signer -----

  /** appendBytes: a length beyond 32 bits is cut to its low four bytes. */
  function AppendedBytes(b: blob): (s: bytes)
    ensures |b| <= |s| <= |b| + 5
  {
    PowersOf256();
    if |b| <= U32_MAX then S.Bstr(b) else [0x5a] + BigEndian(|b| % (U32_MAX + 1), 4) + b
  }

  /** encodeSignaturePayload: four entries in a fixed order. */
  function EncodePayload(kid: blob, sig: blob, role: string): (s: bytes)
    requires |role| <= 16
    ensures |kid| + |sig| <= |s| <= |kid| + |sig| + 70
  {
    [0xa4] + S.Text("alg") + S.Text(ALGORITHM) + S.Text("kid") + AppendedBytes(kid) + S.Text("sig") + AppendedBytes(sig)
    + S.Text("role") + S.Text(role)
  }

  /** The section appended to a module; its size field is a 32-bit number. */
  function SignatureSection(payload: bytes): bytes {
    [0] + Leb((8 + |payload| + 1) % (U32_MAX + 1)) + Leb(8) + SigName() + payload
  }

  /** Sign, with the 64 signature bytes as an argument. */
  function Sign(wasm: bytes, role: string, kid: blob, sig: blob): (r: Option<bytes>) {
    if role != TEEP_AGENT && role != APP then None
    else
      var unsigned := Strip(wasm);
      if unsigned.None? then None else Some(unsigned.value + SignatureSection(EncodePayload(kid, sig, role)))
  }

  // ----- the host library's parser -----

  /** twep_wr_cbor_read_text_view and twep_wr_cbor_read_bytes_view: heads of at most four bytes. */
  function NarrowView(s: bytes, major: nat): (r: Parsed<bytes>)
    ensures r.Ok? ==> |r.rest| < |s|
  {
    var h := ReadHead(s);
    if h.Ok? && h.value.info == 27 then Fail else H.ReadView(s, major)
  }

  datatype SigFields = SigFields(alg: bytes, kid: bytes, role: bytes, sig: bytes)

  function TakeEntry(s: bytes, key: bytes, v: SigFields): Parsed<SigFields> {
    if key == Ascii("alg") then
      var (x, s) :- NarrowView(s, 3);
      Ok(v.(alg := x), s)
    else if key == Ascii("kid") then
      var (x, s) :- NarrowView(s, 2);
      Ok(v.(kid := x), s)
    else if key == Ascii("role") then
      var (x, s) :- NarrowView(s, 3);
      Ok(v.(role := x), s)
    else if key == Ascii("sig") then
      var (x, s) :- NarrowView(s, 2);
      Ok(v.(sig := x), s)
    else
      var r := Skip(C_SKIP, s, 0);
      if r.Some? then Ok(v, r.value) else Fail
  }

  function TakeEntries(s: bytes, n: nat, v: SigFields): Parsed<SigFields>
    decreases n
  {
    if n == 0 then Ok(v, s)
    else
      var (key, s) :- NarrowView(s, 3);
      var (v, s) :- TakeEntry(s, key, v);
      TakeEntries(s, n - 1, v)
  }

  /** parse_signature_payload of the host library: a repeated key overwrites. */
  function ParsePayload(body: bytes): Option<SigFields> {
    var h := ReadHead(body);
    if h.Fail? || h.value.info == 27 || h.value.major != 5 then None
    else
      var r := TakeEntries(h.rest, h.value.value, SigFields([], [], [], []));
      if r.Ok? && r.rest == [] && r.value.alg == Ascii(ALGORITHM) && r.value.kid != [] && |r.value.sig| == 64
      then Some(r.value) else None
  }

  datatype Verified = Verified(prefix: bytes, fields: SigFields)

  /** parse_wasm_signature. */
  function ParseModule(wasm: bytes): Option<Verified> {
    if !HasHeader(wasm) then None
    else
      var f := Find(false, wasm[8..]);
      if !f.Signed? then None
      else
        var v := ParsePayload(f.body);
        if v.Some? then Some(Verified(wasm[..8 + f.at], v.value)) else None
  }

  // ----- the trusted application's parser -----

  datatype Seen = Seen(alg: bool, kid: bool, sig: Option<bytes>, role: bool)

  /** One entry; a key may be set once only, and only to an acceptable value. */
  function CheckEntry(s: bytes, key: bytes, seen: Seen): Parsed<Seen> {
    if key == Ascii("alg") then
      var (x, s) :- H.ReadView(s, 3);
      if seen.alg || x != Ascii(ALGORITHM) then Fail else Ok(seen.(alg := true), s)
    else if key == Ascii("kid") then
      var (x, s) :- H.ReadView(s, 2);
      if seen.kid || x == [] then Fail else Ok(seen.(kid := true), s)
    else if key == Ascii("sig") then
      var (x, s) :- H.ReadView(s, 2);
      if seen.sig.Some? || |x| != 64 then Fail else Ok(seen.(sig := Some(x)), s)
    else if key == Ascii("role") then
      var (x, s) :- H.ReadView(s, 3);
      if seen.role || x != Ascii(TEEP_AGENT) then Fail else Ok(seen.(role := true), s)
    else
      var r := Skip(TA_SKIP, s, 0);
      if r.Some? then Ok(seen, r.value) else Fail
  }

  function CheckEntries(s: bytes, n: nat, seen: Seen): Parsed<Seen>
    decreases n
  {
    if n == 0 then Ok(seen, s)
    else
      var (key, s) :- H.ReadView(s, 3);
      var (seen, s) :- CheckEntry(s, key, seen);
      CheckEntries(s, n - 1, seen)
  }

  /** parse_signature_payload of the trusted application, yielding the signature. */
  function CheckPayload(body: bytes): Option<bytes> {
    var h := H.ReadLen(body, 5);
    if h.Fail? || h.value > 16 then None
    else
      var r := CheckEntries(h.rest, h.value, Seen(false, false, None, false));
      if r.Ok? && r.rest == [] && r.value.alg && r.value.kid && r.value.role then r.value.sig else None
  }

  /** find_signature: the signed prefix and the signature. */
  function CheckModule(wasm: bytes): Option<(bytes, bytes)> {
    if !HasHeader(wasm) then None
    else
      var f := Find(true, wasm[8..]);
      if !f.Signed? then None
      else
        var sig := CheckPayload(f.body);
        if sig.Some? then Some((wasm[..8 + f.at], sig.value)) else None
  }

  // ----- two verifiers, one meaning -----

  /** What the trusted application has seen once, the host library holds. */
  predicate Agrees(seen: Seen, v: SigFields) {
    (seen.alg ==> v.alg == Ascii(ALGORITHM)) && (seen.kid ==> v.kid != [])
    && (seen.sig.Some? ==> v.sig == seen.sig.value && |v.sig| == 64) && (seen.role ==> v.role == Ascii(TEEP_AGENT))
  }

  lemma KeysDiffer()
    ensures |Ascii("alg")| == 3 && |Ascii("kid")| == 3 && |Ascii("sig")| == 3 && |Ascii("role")| == 4
    ensures Ascii("alg")[0] == 'a' as int && Ascii("kid")[0] == 'k' as int && Ascii("sig")[0] == 's' as int
  {
  }

  lemma EntryAgrees(s: bytes, key: bytes, seen: Seen, v: SigFields)
    requires CheckEntry(s, key, seen).Ok? && TakeEntry(s, key, v).Ok? && Agrees(seen, v)
    ensures CheckEntry(s, key, seen).rest == TakeEntry(s, key, v).rest
    ensures Agrees(CheckEntry(s, key, seen).value, TakeEntry(s, key, v).value)
  {
    KeysDiffer();
    hide Ascii, H.ReadView, ReadHead, Skip;
    if Skip(TA_SKIP, s, 0).Some? && Skip(C_SKIP, s, 0).Some? {
      SkippersAgree(TA_SKIP, C_SKIP, s, 0, 0);
    }
  }

  lemma {:induction false} EntriesAgree(s: bytes, n: nat, seen: Seen, v: SigFields)
    requires CheckEntries(s, n, seen).Ok? && TakeEntries(s, n, v).Ok? && Agrees(seen, v)
    ensures CheckEntries(s, n, seen).rest == TakeEntries(s, n, v).rest
    ensures Agrees(CheckEntries(s, n, seen).value, TakeEntries(s, n, v).value)
    decreases n
  {
    hide CheckEntry, TakeEntry, Agrees, H.ReadView, ReadHead;
    if n > 0 {
      var key := H.ReadView(s, 3);
      EntryAgrees(key.rest, key.value, seen, v);
      var a, b := CheckEntry(key.rest, key.value, seen), TakeEntry(key.rest, key.value, v);
      EntriesAgree(a.rest, n - 1, a.value, b.value);
    }
  }

  /** When both parsers accept a module they agree on the signed prefix and the signature, and on the role. */
  lemma VerifiersAgree(wasm: bytes)
    requires CheckModule(wasm).Some? && ParseModule(wasm).Some?
    ensures var (prefix, sig) := CheckModule(wasm).value; var v := ParseModule(wasm).value;
            v.prefix == prefix && v.fields.sig == sig && v.fields.role == Ascii(TEEP_AGENT)
  {
    hide Find, ReadHead, CheckEntries, TakeEntries;
    StrictImpliesLax(wasm[8..]);
    var h := ReadHead(Find(true, wasm[8..]).body);
    EntriesAgree(h.rest, h.value.value, Seen(false, false, None, false), SigFields([], [], [], []));
  }

  // ----- when the host library accepts what the trusted application accepts -----

  /** The host's reader of a string takes what the wide one takes exactly when the host's skipper gets over it. */
  lemma ViewSkips(s: bytes, major: nat, depth: nat)
    requires 2 <= major <= 3 && H.ReadView(s, major).Ok?
    ensures NarrowView(s, major) == if Skip(C_SKIP, s, depth).Some? then H.ReadView(s, major) else Fail
    ensures Skip(C_SKIP, s, depth).Some? ==> Skip(C_SKIP, s, depth).value == H.ReadView(s, major).rest
  {
    hide ReadHead;
  }

  lemma EntrySkips(s: bytes, key: bytes, seen: Seen, v: SigFields)
    requires CheckEntry(s, key, seen).Ok?
    ensures TakeEntry(s, key, v).Ok? <==> Skip(C_SKIP, s, 1).Some?
    ensures TakeEntry(s, key, v).Ok? ==> TakeEntry(s, key, v).rest == Skip(C_SKIP, s, 1).value
  {
    KeysDiffer();
    hide Ascii, H.ReadView, NarrowView, ReadHead, Skip;
    DepthIsFree(C_SKIP, s, 0, 1);
    if key == Ascii("alg") || key == Ascii("role") {
      ViewSkips(s, 3, 1);
    } else if key == Ascii("kid") || key == Ascii("sig") {
      ViewSkips(s, 2, 1);
    }
  }

  lemma {:induction false} EntriesSkip(s: bytes, n: nat, seen: Seen, v: SigFields)
    requires CheckEntries(s, n, seen).Ok?
    ensures TakeEntries(s, n, v).Ok? <==> SkipMany(C_SKIP, s, 2 * n, 1).Some?
    ensures TakeEntries(s, n, v).Ok? ==> TakeEntries(s, n, v).rest == SkipMany(C_SKIP, s, 2 * n, 1).value
    decreases n
  {
    hide CheckEntry, TakeEntry, H.ReadView, NarrowView, Skip;
    if n > 0 {
      var key := H.ReadView(s, 3);
      ViewSkips(s, 3, 1);
      if NarrowView(s, 3).Ok? {
        EntrySkips(key.rest, key.value, seen, v);
        var a, b := CheckEntry(key.rest, key.value, seen), TakeEntry(key.rest, key.value, v);
        if b.Ok? {
          EntryRest(key.rest, key.value, seen, v);
          EntriesSkip(a.rest, n - 1, a.value, b.value);
        }
      }
    }
  }

  lemma EntryRest(s: bytes, key: bytes, seen: Seen, v: SigFields)
    requires CheckEntry(s, key, seen).Ok? && TakeEntry(s, key, v).Ok?
    ensures CheckEntry(s, key, seen).rest == TakeEntry(s, key, v).rest
  {
    hide Ascii, H.ReadView, ReadHead, Skip;
    if Skip(TA_SKIP, s, 0).Some? && Skip(C_SKIP, s, 0).Some? {
      SkippersAgree(TA_SKIP, C_SKIP, s, 0, 0);
    }
  }

  /**
   * A module the trusted application accepts is accepted by the host library exactly when the host's skipper, which
   * knows no eight-byte heads, gets over the whole signature payload.
   */
  lemma HostAcceptsIff(wasm: bytes)
    requires CheckModule(wasm).Some?
    ensures ParseModule(wasm).Some? <==> Skip(C_SKIP, Find(true, wasm[8..]).body, 0) == Some([])
  {
    hide Find, ReadHead, CheckEntries, TakeEntries, SkipMany;
    StrictImpliesLax(wasm[8..]);
    var h := ReadHead(Find(true, wasm[8..]).body);
    var seen, v := Seen(false, false, None, false), SigFields([], [], [], []);
    EntriesSkip(h.rest, h.value.value, seen, v);
    if TakeEntries(h.rest, h.value.value, v).Ok? {
      EntriesAgree(h.rest, h.value.value, seen, v);
    }
  }

  // ----- what the signer writes is what the parsers read -----

  lemma TextView(text: string, t: bytes)
    requires |text| <= 16
    ensures NarrowView(S.Text(text) + t, 3) == Ok(Ascii(text), t) == H.ReadView(S.Text(text) + t, 3)
  {
    hide HeadBytes, ReadHead, Ascii;
    HeadCases(3, |text|, Ascii(text), t);
    assert (Ascii(text) + t)[..|text|] == Ascii(text) && (Ascii(text) + t)[|text|..] == t;
  }

  lemma BytesView(b: blob, t: bytes)
    requires |b| <= U32_MAX
    ensures NarrowView(S.Bstr(b) + t, 2) == Ok(b, t) == H.ReadView(S.Bstr(b) + t, 2)
  {
    hide HeadBytes, ReadHead;
    HeadCases(2, |b|, b, t);
    assert (b + t)[..|b|] == b && (b + t)[|b|..] == t;
  }

  /** The payload as the readers take it apart. */
  function Entries(kid: blob, sig: blob, role: string): bytes
    requires |role| <= 16
  {
    S.Text("alg") + (S.Text(ALGORITHM) + (S.Text("kid") + (S.Bstr(kid) + (S.Text("sig") + (S.Bstr(sig)
    + (S.Text("role") + (S.Text(role) + [])))))))
  }

  lemma PayloadHead(kid: blob, sig: blob, role: string)
    requires |role| <= 16 && |kid| <= U32_MAX && |sig| <= U32_MAX
    ensures var body := EncodePayload(kid, sig, role);
            ReadHead(body) == Ok(Head(5, 4, 4), Entries(kid, sig, role)) && H.ReadLen(body, 5) == Ok(4, Entries(kid, sig, role))
  {
    var body := EncodePayload(kid, sig, role);
    assert body == [0xa4] + Entries(kid, sig, role) by {
      hide S.Text, S.Bstr;
      Reassociate9([0xa4], S.Text("alg"), S.Text(ALGORITHM), S.Text("kid"), S.Bstr(kid), S.Text("sig"), S.Bstr(sig),
                   S.Text("role"), S.Text(role), []);
      assert [] + [0xa4] == [0xa4];
      assert body + [] == body;
    }
    assert body[1..] == Entries(kid, sig, role);
  }

  lemma AlgStep(t: bytes, n: nat, v: SigFields, seen: Seen)
    requires n > 0
    ensures var s := S.Text("alg") + (S.Text(ALGORITHM) + t);
            TakeEntries(s, n, v) == TakeEntries(t, n - 1, v.(alg := Ascii(ALGORITHM)))
            && (!seen.alg ==> CheckEntries(s, n, seen) == CheckEntries(t, n - 1, seen.(alg := true)))
  {
    hide S.Text, NarrowView, ReadHead, Ascii, H.ReadView;
    TextView("alg", S.Text(ALGORITHM) + t);
    TextView(ALGORITHM, t);
  }

  lemma KidStep(kid: blob, t: bytes, n: nat, v: SigFields, seen: Seen)
    requires n > 0 && |kid| <= U32_MAX
    ensures var s := S.Text("kid") + (S.Bstr(kid) + t);
            TakeEntries(s, n, v) == TakeEntries(t, n - 1, v.(kid := kid))
            && (kid == [] ==> CheckEntries(s, n, seen).Fail?)
            && (kid != [] && !seen.kid ==> CheckEntries(s, n, seen) == CheckEntries(t, n - 1, seen.(kid := true)))
  {
    KeysDiffer();
    hide S.Text, S.Bstr, NarrowView, ReadHead, Ascii, H.ReadView;
    TextView("kid", S.Bstr(kid) + t);
    BytesView(kid, t);
  }

  lemma SigStep(sig: blob, t: bytes, n: nat, v: SigFields, seen: Seen)
    requires n > 0 && |sig| == 64
    ensures var s := S.Text("sig") + (S.Bstr(sig) + t);
            TakeEntries(s, n, v) == TakeEntries(t, n - 1, v.(sig := sig))
            && (seen.sig.None? ==> CheckEntries(s, n, seen) == CheckEntries(t, n - 1, seen.(sig := Some(sig))))
  {
    KeysDiffer();
    hide S.Text, S.Bstr, NarrowView, ReadHead, Ascii, H.ReadView;
    TextView("sig", S.Bstr(sig) + t);
    BytesView(sig, t);
  }

  lemma RoleStep(role: string, t: bytes, n: nat, v: SigFields, seen: Seen)
    requires n > 0 && |role| <= 16
    ensures var s := S.Text("role") + (S.Text(role) + t);
            TakeEntries(s, n, v) == TakeEntries(t, n - 1, v.(role := Ascii(role)))
            && (Ascii(role) != Ascii(TEEP_AGENT) ==> CheckEntries(s, n, seen).Fail?)
            && (Ascii(role) == Ascii(TEEP_AGENT) && !seen.role ==>
                  CheckEntries(s, n, seen) == CheckEntries(t, n - 1, seen.(role := true)))
  {
    KeysDiffer();
    hide S.Text, S.Bstr, NarrowView, ReadHead, Ascii, H.ReadView;
    TextView("role", S.Text(role) + t);
    TextView(role, t);
  }

  /** What both parsers make of the signer's payload: they read it back if there is a kid, the TA for the agent's role alone. */
  lemma PayloadRoundTrip(kid: blob, sig: blob, role: string)
    requires |role| <= 16 && |kid| <= U32_MAX && |sig| == 64
    ensures ParsePayload(EncodePayload(kid, sig, role))
            == if kid == [] then None else Some(SigFields(Ascii(ALGORITHM), kid, Ascii(role), sig))
    ensures CheckPayload(EncodePayload(kid, sig, role))
            == if kid == [] || Ascii(role) != Ascii(TEEP_AGENT) then None else Some(sig)
  {
    PayloadHead(kid, sig, role);
    hide S.Text, S.Bstr, ReadHead, Ascii, H.ReadView, H.ReadLen, EncodePayload, TakeEntry, CheckEntry, NarrowView;
    var v, seen := SigFields([], [], [], []), Seen(false, false, None, false);
    var t3 := S.Text("role") + (S.Text(role) + []);
    var t2 := S.Text("sig") + (S.Bstr(sig) + t3);
    var t1 := S.Text("kid") + (S.Bstr(kid) + t2);
    AlgStep(t1, 4, v, seen);
    v, seen := v.(alg := Ascii(ALGORITHM)), seen.(alg := true);
    KidStep(kid, t2, 3, v, seen);
    v, seen := v.(kid := kid), seen.(kid := true);
    SigStep(sig, t3, 2, v, seen);
    v, seen := v.(sig := sig), seen.(sig := Some(sig));
    RoleStep(role, [], 1, v, seen);
  }

  // ----- the appended section -----

  /** The signature section's size fits its 32-bit field. */
  predicate SectionFits(kid: blob, sig: blob, role: string)
    requires |role| <= 16
  {
    9 + |EncodePayload(kid, sig, role)| <= U32_MAX
  }

  lemma SmallLeb()
    ensures |Leb(8)| == 1
  {
  }

  /** What either scan reads of the appended section: as much as its size field says. */
  lemma SectionReads(strict: bool, payload: bytes)
    ensures var inner := Leb(8) + SigName() + payload; var size := (9 + |payload|) % (U32_MAX + 1);
            |inner| == 9 + |payload|
            && ReadSection(strict, SignatureSection(payload)) == Ok(Section(0, inner[..size]), inner[size..])
  {
    hide Leb, ReadLeb;
    var s := SignatureSection(payload);
    var inner := Leb(8) + SigName() + payload;
    var size := (9 + |payload|) % (U32_MAX + 1);
    assert |SigName()| == 8;
    SmallLeb();
    assert s[1..] == Leb(size) + inner;
    LebRoundTrip(strict, size, inner);
  }

  /** A section that fits is found by either scan, with its payload. */
  lemma SectionIsFound(strict: bool, payload: bytes)
    requires 9 + |payload| <= U32_MAX
    ensures Find(strict, SignatureSection(payload)) == Signed(0, payload)
  {
    hide Leb, ReadLeb, ReadSection, SignatureSection;
    var inner := Leb(8) + SigName() + payload;
    SectionReads(strict, payload);
    assert inner[..|inner|] == inner && inner[|inner|..] == [];
    assert |SigName()| == 8;
    assert inner == Leb(8) + (SigName() + payload);
    LebRoundTrip(strict, 8, SigName() + payload);
    assert (SigName() + payload)[..8] == SigName() && (SigName() + payload)[8..] == payload;
    SectionNotEmpty(payload);
  }

  lemma SectionNotEmpty(payload: bytes)
    ensures SignatureSection(payload) != []
  {
  }

  /** A section that does not fit leaves bytes behind it, so no scan finds a signature where it starts. */
  lemma CutSectionIsLost(strict: bool, payload: bytes)
    requires 9 + |payload| > U32_MAX
    ensures var f := Find(strict, SignatureSection(payload)); f.Signed? ==> f.at > 0
  {
    hide Leb, ReadLeb, ReadSection, SignatureSection, Classify;
    SectionReads(strict, payload);
    SectionNotEmpty(payload);
  }

  /** Where a scan over the signed module looks for the signature. */
  lemma SignedScan(strict: bool, unsigned: bytes, payload: bytes)
    requires HasHeader(unsigned) && Find(strict, unsigned[8..]).Unsigned?
    ensures var x := unsigned + SignatureSection(payload);
            HasHeader(x) && x[..|unsigned|] == unsigned && |x| > |unsigned|
            && Find(strict, x[8..]) == Shift(Find(strict, SignatureSection(payload)), |unsigned| - 8)
  {
    hide Find, SignatureSection;
    var x := unsigned + SignatureSection(payload);
    SectionNotEmpty(payload);
    assert x[..4] == unsigned[..4] && x[8..] == unsigned[8..] + SignatureSection(payload);
    FindAppend(strict, unsigned[8..], SignatureSection(payload));
  }

  // ----- what the signer writes is what the parsers read -----

  /**
   * Stripping a signed module gives what stripping the module itself gives, so signing again replaces the signature:
   * exactly when the section fits its size field.
   */
  lemma StripInvertsSignIff(wasm: bytes, role: string, kid: blob, sig: blob)
    requires Sign(wasm, role, kid, sig).Some?
    ensures |role| <= 16
    ensures Strip(Sign(wasm, role, kid, sig).value) == Strip(wasm) <==> SectionFits(kid, sig, role)
  {
    hide Find, SignatureSection, EncodePayload;
    StripIsUnsigned(wasm);
    var u, payload := Strip(wasm).value, EncodePayload(kid, sig, role);
    SignedScan(false, u, payload);
    if SectionFits(kid, sig, role) {
      SectionIsFound(false, payload);
    } else {
      CutSectionIsLost(false, payload);
    }
  }

  lemma KidFits(kid: blob, sig: blob, role: string)
    requires |role| <= 16 && SectionFits(kid, sig, role)
    ensures |kid| <= U32_MAX
  {
  }

  /**
   * The host library reads back the stripped module, the role, the kid and the signature: exactly when the section fits
   * and the kid is not empty.
   */
  lemma ParseInvertsSignIff(wasm: bytes, role: string, kid: blob, sig: blob)
    requires Sign(wasm, role, kid, sig).Some? && |sig| == 64
    ensures |role| <= 16
    ensures ParseModule(Sign(wasm, role, kid, sig).value)
            == Some(Verified(Strip(wasm).value, SigFields(Ascii(ALGORITHM), kid, Ascii(role), sig)))
            <==> SectionFits(kid, sig, role) && kid != []
  {
    hide Find, SignatureSection, EncodePayload, ParsePayload, CheckPayload, Ascii;
    StripIsUnsigned(wasm);
    var u, payload := Strip(wasm).value, EncodePayload(kid, sig, role);
    SignedScan(false, u, payload);
    if SectionFits(kid, sig, role) {
      KidFits(kid, sig, role);
      SectionIsFound(false, payload);
      PayloadRoundTrip(kid, sig, role);
    } else {
      CutSectionIsLost(false, payload);
    }
  }

  /**
   * The trusted application accepts a signed module, with that prefix and signature: exactly when it is signed for the
   * agent, the section fits, the kid is not empty, and its strict scan gets over the unsigned module.
   */
  lemma CheckInvertsSignIff(wasm: bytes, role: string, kid: blob, sig: blob)
    requires Sign(wasm, role, kid, sig).Some? && |sig| == 64
    ensures |role| <= 16
    ensures var u := Strip(wasm).value;
            CheckModule(Sign(wasm, role, kid, sig).value) == Some((u, sig))
            <==> role == TEEP_AGENT && SectionFits(kid, sig, role) && kid != [] && Find(true, u[8..]).Unsigned?
  {
    hide Find, SignatureSection, EncodePayload, ParsePayload, CheckPayload, Ascii, Strip, CheckModule;
    StripIsUnsigned(wasm);
    var u, payload := Strip(wasm).value, EncodePayload(kid, sig, role);
    if Find(true, u[8..]).Unsigned? {
      CheckedAfterPrefix(u, role, kid, sig);
    } else {
      RefusedPrefix(u, SignatureSection(payload));
    }
  }

  lemma RolesDiffer()
    ensures Ascii(APP) != Ascii(TEEP_AGENT)
  {
    assert |Ascii(APP)| == 3 && |Ascii(TEEP_AGENT)| == 10;
  }

  lemma CheckedAfterPrefix(u: bytes, role: string, kid: blob, sig: blob)
    requires HasHeader(u) && Find(true, u[8..]).Unsigned? && |sig| == 64 && (role == TEEP_AGENT || role == APP)
    ensures CheckModule(u + SignatureSection(EncodePayload(kid, sig, role))) == Some((u, sig))
            <==> role == TEEP_AGENT && SectionFits(kid, sig, role) && kid != []
  {
    hide Find, SignatureSection, EncodePayload, ParsePayload, CheckPayload, Ascii;
    RolesDiffer();
    var payload := EncodePayload(kid, sig, role);
    SignedScan(true, u, payload);
    if SectionFits(kid, sig, role) {
      KidFits(kid, sig, role);
      SectionIsFound(true, payload);
      PayloadRoundTrip(kid, sig, role);
    } else {
      CutSectionIsLost(true, payload);
    }
  }

  lemma RefusedPrefix(u: bytes, section: bytes)
    requires HasHeader(u) && Find(false, u[8..]).Unsigned? && !Find(true, u[8..]).Unsigned?
    ensures CheckModule(u + section) == None
  {
    hide Find;
    StaysMalformed(u[8..], section);
    assert (u + section)[8..] == u[8..] + section;
  }
}
