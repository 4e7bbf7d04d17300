/** What the two signature parsers accept and refuse, told by the sections of the module and the pairs of the payload. */
module SignatureParsing {
  import opened Bytes
  import opened CborHead
  import opened CborItem
  import opened WasmModule
  import opened WasmSignature
  import H = HostIoResult

  // ----- the pairs of a payload -----

  /** One value, as far as the skipper of that profile gets over it. */
  function ReadValue(p: Profile, s: bytes): (r: Parsed<H.Field>)
    ensures r.Ok? ==> |r.rest| < |s|
  {
    var skipped := Skip(p, s, 0);
    if skipped.None? then Fail
    else
      var Head(major, _, n) := ReadHead(s).value;
      if major == 0 then Ok(H.UintField(n), skipped.value)
      else if major == 2 then Ok(H.BytesField(H.ReadView(s, 2).value), skipped.value)
      else if major == 3 then Ok(H.TextField(H.ReadView(s, 3).value), skipped.value)
      else Ok(H.OtherField, skipped.value)
  }

  function ReadPairs(p: Profile, s: bytes, n: nat): Parsed<seq<H.Entry>>
    decreases n
  {
    if n == 0 then Ok([], s)
    else
      var (key, s) :- ReadValue(p, s);
      if !key.TextField? then Fail
      else
        var (field, s) :- ReadValue(p, s);
        var (tail, s) :- ReadPairs(p, s, n - 1);
        Ok([H.Entry(key.text, field)] + tail, s)
  }

  /** The pairs of a payload that is one complete map with text keys. */
  function PairsOf(p: Profile, body: bytes): Option<seq<H.Entry>> {
    var h := ReadHead(body);
    if h.Fail? || h.value.major != 5 || (h.value.info == 27 && !p.wide) then None
    else
      var r := ReadPairs(p, h.rest, h.value.value);
      if r.Ok? && r.rest == [] then Some(r.value) else None
  }

  lemma {:induction false} PairCount(p: Profile, s: bytes, n: nat)
    requires ReadPairs(p, s, n).Ok?
    ensures |ReadPairs(p, s, n).value| == n
    decreases n
  {
    hide ReadValue;
    if n > 0 {
      PairCount(p, ReadValue(p, ReadValue(p, s).rest).rest, n - 1);
    }
  }

  // ----- the host library's parser -----

  lemma HostValue(s: bytes)
    ensures var r := ReadValue(C_SKIP, s);
            (forall b, t :: NarrowView(s, 2) == Ok(b, t) <==> r == Ok(H.BytesField(b), t))
            && (forall b, t :: NarrowView(s, 3) == Ok(b, t) <==> r == Ok(H.TextField(b), t))
            && (r.Ok? <==> Skip(C_SKIP, s, 0).Some?) && (r.Ok? ==> r.rest == Skip(C_SKIP, s, 0).value)
  {
    hide ReadHead, SkipMany;
  }

  predicate HostTyped(e: H.Entry) {
    (e.key == Ascii("alg") || e.key == Ascii("role") ==> e.field.TextField?)
    && (e.key == Ascii("kid") || e.key == Ascii("sig") ==> e.field.BytesField?)
  }

  predicate AllHostTyped(es: seq<H.Entry>) { forall i :: 0 <= i < |es| ==> HostTyped(es[i]) }

  function TextIn(f: Option<H.Field>, default: bytes): bytes {
    if f.Some? && f.value.TextField? then f.value.text else default
  }

  function BytesIn(f: Option<H.Field>, default: bytes): bytes {
    if f.Some? && f.value.BytesField? then f.value.b else default
  }

  /** The fields one pair leaves behind. */
  function After(e: H.Entry, v: SigFields): SigFields
    requires HostTyped(e)
  {
    SigFields(if e.key == Ascii("alg") then e.field.text else v.alg,
              if e.key == Ascii("kid") then e.field.b else v.kid,
              if e.key == Ascii("role") then e.field.text else v.role,
              if e.key == Ascii("sig") then e.field.b else v.sig)
  }

  lemma HostEntry(s: bytes, key: bytes, v: SigFields)
    ensures var r := ReadValue(C_SKIP, s); var c := TakeEntry(s, key, v);
            if r.Ok? && HostTyped(H.Entry(key, r.value)) then c == Ok(After(H.Entry(key, r.value), v), r.rest) else c.Fail?
  {
    KeysDiffer();
    HostValue(s);
    hide Ascii, NarrowView, Skip, ReadValue;
    var b, t := NarrowView(s, 2), NarrowView(s, 3);
    assert b.Ok? ==> ReadValue(C_SKIP, s) == Ok(H.BytesField(b.value), b.rest);
    assert t.Ok? ==> ReadValue(C_SKIP, s) == Ok(H.TextField(t.value), t.rest);
  }

  /** The last value of each key, or what was there before. */
  function Lasts(es: seq<H.Entry>, v: SigFields): SigFields {
    SigFields(TextIn(H.Last(es, "alg"), v.alg), BytesIn(H.Last(es, "kid"), v.kid), TextIn(H.Last(es, "role"), v.role),
              BytesIn(H.Last(es, "sig"), v.sig))
  }

  lemma LastIsTyped(es: seq<H.Entry>)
    requires AllHostTyped(es)
    ensures var a, k, r, s := H.Last(es, "alg"), H.Last(es, "kid"), H.Last(es, "role"), H.Last(es, "sig");
            (a.Some? ==> a.value.TextField?) && (k.Some? ==> k.value.BytesField?)
            && (r.Some? ==> r.value.TextField?) && (s.Some? ==> s.value.BytesField?)
  {
    hide Ascii;
    LastIsThere(es, "alg");
    LastIsThere(es, "kid");
    LastIsThere(es, "role");
    LastIsThere(es, "sig");
  }

  lemma {:induction false} LastIsThere(es: seq<H.Entry>, key: string)
    ensures var l := H.Last(es, key);
            l.Some? ==> exists i :: 0 <= i < |es| && es[i].key == Ascii(key) && es[i].field == l.value
  {
    if es != [] {
      LastIsThere(es[1..], key);
      var l := H.Last(es[1..], key);
      if l.Some? {
        var i :| 0 <= i < |es| - 1 && es[1..][i].key == Ascii(key) && es[1..][i].field == l.value;
        assert es[i + 1] == es[1..][i];
      }
    }
  }

  lemma LastsCons(e: H.Entry, tail: seq<H.Entry>, v: SigFields)
    requires HostTyped(e) && AllHostTyped(tail)
    ensures Lasts([e] + tail, v) == Lasts(tail, After(e, v))
  {
    LastIsTyped(tail);
    hide H.Last, Ascii, AllHostTyped;
    H.LastCons(e, tail, "alg");
    H.LastCons(e, tail, "kid");
    H.LastCons(e, tail, "role");
    H.LastCons(e, tail, "sig");
  }

  lemma AllHostTypedCons(e: H.Entry, tail: seq<H.Entry>)
    ensures AllHostTyped([e] + tail) <==> HostTyped(e) && AllHostTyped(tail)
  {
    hide HostTyped;
    var es := [e] + tail;
    assert es[0] == e;
    assert forall i :: 0 <= i < |tail| ==> tail[i] == es[i + 1];
  }

  lemma {:induction false} HostEntries(s: bytes, n: nat, v: SigFields)
    ensures var r := ReadPairs(C_SKIP, s, n); var c := TakeEntries(s, n, v);
            if r.Ok? && AllHostTyped(r.value) then c == Ok(Lasts(r.value, v), r.rest) else c.Fail?
    decreases n
  {
    hide ReadValue, NarrowView, TakeEntry, HostTyped, After, Lasts;
    if n == 0 {
      NoLasts(v);
    } else {
      HostValue(s);
      var k, t := ReadValue(C_SKIP, s), NarrowView(s, 3);
      assert t.Ok? ==> k == Ok(H.TextField(t.value), t.rest);
      if k.Ok? && k.value.TextField? {
        assert t == Ok(k.value.text, k.rest);
        HostEntry(k.rest, k.value.text, v);
        var f := ReadValue(C_SKIP, k.rest);
        if f.Ok? {
          var e, tail := H.Entry(k.value.text, f.value), ReadPairs(C_SKIP, f.rest, n - 1);
          if HostTyped(e) {
            HostEntries(f.rest, n - 1, After(e, v));
          }
          if tail.Ok? {
            AllHostTypedCons(e, tail.value);
            if HostTyped(e) && AllHostTyped(tail.value) {
              LastsCons(e, tail.value, v);
            }
          }
        }
      }
    }
  }

  lemma NoLasts(v: SigFields)
    ensures Lasts([], v) == v
  {
  }

  /**
   * The host library accepts exactly the payloads that are one complete map with text keys, each known key well typed
   * wherever it occurs, whose last algorithm is ESP256, last kid is not empty and last signature has 64 bytes; it returns
   * those last values, and the last role or none.
   */
  lemma ParsePayloadIff(body: bytes)
    ensures var es := PairsOf(C_SKIP, body);
            ParsePayload(body)
            == if es.Some? && AllHostTyped(es.value) && H.Last(es.value, "alg") == Some(H.TextField(Ascii("ESP256")))
                  && BytesIn(H.Last(es.value, "kid"), []) != [] && |BytesIn(H.Last(es.value, "sig"), [])| == 64
               then Some(SigFields(Ascii("ESP256"), BytesIn(H.Last(es.value, "kid"), []), TextIn(H.Last(es.value, "role"), []),
                                   BytesIn(H.Last(es.value, "sig"), [])))
               else None
  {
    AlgorithmIsText();
    hide Ascii, ReadHead, ReadPairs, TakeEntries, H.Last, AllHostTyped;
    var h := ReadHead(body);
    if h.Ok? {
      HostEntries(h.rest, h.value.value, SigFields([], [], [], []));
    }
    var es := PairsOf(C_SKIP, body);
    if es.Some? && AllHostTyped(es.value) {
      LastIsTyped(es.value);
    }
  }

  lemma AlgorithmIsText()
    ensures Ascii("ESP256") == Ascii(ALGORITHM) && |Ascii("ESP256")| == 6
  {
  }

  // ----- the trusted application's parser -----

  function Count(es: seq<H.Entry>, key: string): nat {
    if es == [] then 0 else (if es[0].key == Ascii(key) then 1 else 0) + Count(es[1..], key)
  }

  /** A known key has the one value, or a value of the one size, that is acceptable. */
  predicate Acceptable(e: H.Entry) {
    (e.key == Ascii("alg") ==> e.field == H.TextField(Ascii("ESP256")))
    && (e.key == Ascii("kid") ==> e.field.BytesField? && e.field.b != [])
    && (e.key == Ascii("sig") ==> e.field.BytesField? && |e.field.b| == 64)
    && (e.key == Ascii("role") ==> e.field == H.TextField(Ascii("teep-agent")))
  }

  predicate AllAcceptable(es: seq<H.Entry>) { forall i :: 0 <= i < |es| ==> Acceptable(es[i]) }

  function Bit(b: bool): nat { if b then 1 else 0 }

  /** No known key occurs a second time. */
  predicate NoneTwice(es: seq<H.Entry>, seen: Seen) {
    Count(es, "alg") + Bit(seen.alg) <= 1 && Count(es, "kid") + Bit(seen.kid) <= 1
    && Count(es, "sig") + Bit(seen.sig.Some?) <= 1 && Count(es, "role") + Bit(seen.role) <= 1
  }

  function SeenAfter(es: seq<H.Entry>, seen: Seen): Seen {
    Seen(seen.alg || Count(es, "alg") > 0, seen.kid || Count(es, "kid") > 0,
         if Count(es, "sig") > 0 then Some(BytesIn(H.Last(es, "sig"), [])) else seen.sig,
         seen.role || Count(es, "role") > 0)
  }

  lemma TaValue(s: bytes)
    ensures var r := ReadValue(TA_SKIP, s);
            (forall b, t :: H.ReadView(s, 2) == Ok(b, t) <==> r == Ok(H.BytesField(b), t))
            && (forall b, t :: H.ReadView(s, 3) == Ok(b, t) <==> r == Ok(H.TextField(b), t))
            && (r.Ok? <==> Skip(TA_SKIP, s, 0).Some?) && (r.Ok? ==> r.rest == Skip(TA_SKIP, s, 0).value)
  {
    hide ReadHead, SkipMany;
  }

  /** The pair is acceptable and its key has not been seen. */
  predicate Welcome(e: H.Entry, seen: Seen) {
    Acceptable(e)
    && !(e.key == Ascii("alg") && seen.alg) && !(e.key == Ascii("kid") && seen.kid)
    && !(e.key == Ascii("sig") && seen.sig.Some?) && !(e.key == Ascii("role") && seen.role)
  }

  function Noted(e: H.Entry, seen: Seen): Seen
    requires Acceptable(e)
  {
    Seen(seen.alg || e.key == Ascii("alg"), seen.kid || e.key == Ascii("kid"),
         if e.key == Ascii("sig") then Some(e.field.b) else seen.sig, seen.role || e.key == Ascii("role"))
  }

  lemma TaEntry(s: bytes, key: bytes, seen: Seen)
    ensures var r := ReadValue(TA_SKIP, s); var c := CheckEntry(s, key, seen);
            if r.Ok? && Welcome(H.Entry(key, r.value), seen) then c == Ok(Noted(H.Entry(key, r.value), seen), r.rest) else c.Fail?
  {
    KeysDiffer();
    RoleIsText();
    AlgorithmIsText();
    TaValue(s);
    hide Ascii, H.ReadView, Skip, ReadValue;
    var b, t := H.ReadView(s, 2), H.ReadView(s, 3);
    assert b.Ok? ==> ReadValue(TA_SKIP, s) == Ok(H.BytesField(b.value), b.rest);
    assert t.Ok? ==> ReadValue(TA_SKIP, s) == Ok(H.TextField(t.value), t.rest);
  }

  lemma RoleIsText()
    ensures Ascii("teep-agent") == Ascii(TEEP_AGENT)
  {
  }

  lemma CountCons(e: H.Entry, tail: seq<H.Entry>, key: string)
    ensures Count([e] + tail, key) == (if e.key == Ascii(key) then 1 else 0) + Count(tail, key)
  {
    assert ([e] + tail)[1..] == tail;
  }

  lemma {:induction false} NoCountNoLast(es: seq<H.Entry>, key: string)
    ensures Count(es, key) == 0 <==> H.Last(es, key).None?
  {
    if es != [] {
      NoCountNoLast(es[1..], key);
    }
  }

  lemma NoneTwiceCons(e: H.Entry, tail: seq<H.Entry>, seen: Seen)
    requires Acceptable(e)
    ensures NoneTwice([e] + tail, seen) <==> Welcome(e, seen) && NoneTwice(tail, Noted(e, seen))
  {
    KeysDiffer();
    hide Ascii, Count, Acceptable;
    CountCons(e, tail, "alg");
    CountCons(e, tail, "kid");
    CountCons(e, tail, "sig");
    CountCons(e, tail, "role");
  }

  lemma SeenCons(e: H.Entry, tail: seq<H.Entry>, seen: Seen)
    requires Acceptable(e)
    ensures SeenAfter([e] + tail, seen) == SeenAfter(tail, Noted(e, seen))
  {
    hide Ascii, Count, H.Last;
    CountCons(e, tail, "alg");
    CountCons(e, tail, "kid");
    CountCons(e, tail, "sig");
    CountCons(e, tail, "role");
    H.LastCons(e, tail, "sig");
    NoCountNoLast(tail, "sig");
  }

  lemma AllAcceptableCons(e: H.Entry, tail: seq<H.Entry>)
    ensures AllAcceptable([e] + tail) <==> Acceptable(e) && AllAcceptable(tail)
  {
    hide Acceptable;
    var es := [e] + tail;
    assert es[0] == e;
    assert forall i :: 0 <= i < |tail| ==> tail[i] == es[i + 1];
  }

  lemma NothingSeen(seen: Seen)
    ensures SeenAfter([], seen) == seen && NoneTwice([], seen)
  {
  }

  lemma WelcomeIsAcceptable(e: H.Entry, seen: Seen)
    ensures Welcome(e, seen) ==> Acceptable(e)
  {
    hide Acceptable, Ascii;
  }

  lemma {:induction false} TaEntries(s: bytes, n: nat, seen: Seen)
    ensures var r := ReadPairs(TA_SKIP, s, n); var c := CheckEntries(s, n, seen);
            if r.Ok? && AllAcceptable(r.value) && NoneTwice(r.value, seen) then c == Ok(SeenAfter(r.value, seen), r.rest)
            else c.Fail?
    decreases n
  {
    hide ReadValue, H.ReadView, CheckEntry, Acceptable, Noted, SeenAfter, NoneTwice, Welcome;
    if n == 0 {
      NothingSeen(seen);
    } else {
      TaValue(s);
      var k, t := ReadValue(TA_SKIP, s), H.ReadView(s, 3);
      assert t.Ok? ==> k == Ok(H.TextField(t.value), t.rest);
      if k.Ok? && k.value.TextField? {
        assert t == Ok(k.value.text, k.rest);
        TaEntry(k.rest, k.value.text, seen);
        var f := ReadValue(TA_SKIP, k.rest);
        if f.Ok? {
          var e, tail := H.Entry(k.value.text, f.value), ReadPairs(TA_SKIP, f.rest, n - 1);
          WelcomeIsAcceptable(e, seen);
          if Welcome(e, seen) {
            TaEntries(f.rest, n - 1, Noted(e, seen));
          }
          if tail.Ok? {
            AllAcceptableCons(e, tail.value);
            if Acceptable(e) {
              NoneTwiceCons(e, tail.value, seen);
              SeenCons(e, tail.value, seen);
            }
          }
        }
      }
    }
  }

  /** Each of the four keys occurs exactly once. */
  predicate EachOnce(es: seq<H.Entry>) {
    Count(es, "alg") == 1 && Count(es, "kid") == 1 && Count(es, "sig") == 1 && Count(es, "role") == 1
  }

  /**
   * The trusted application accepts exactly the payloads of at most 16 pairs with text keys in which each of the four
   * known keys occurs once, with an acceptable value, and nothing follows; it returns the signature.
   */
  lemma CheckPayloadIff(body: bytes)
    ensures var es := PairsOf(TA_SKIP, body);
            CheckPayload(body)
            == if es.Some? && |es.value| <= 16 && AllAcceptable(es.value) && EachOnce(es.value)
               then Some(BytesIn(H.Last(es.value, "sig"), [])) else None
  {
    hide Ascii, ReadHead, ReadPairs, CheckEntries, H.Last, AllAcceptable, Count;
    var h := ReadHead(body);
    if h.Ok? {
      if ReadPairs(TA_SKIP, h.rest, h.value.value).Ok? {
        PairCount(TA_SKIP, h.rest, h.value.value);
      }
      TaEntries(h.rest, h.value.value, Seen(false, false, None, false));
    }
  }

  // ----- the sections of a module -----

  /** The sections of a complete section list. */
  function Sections(strict: bool, s: bytes): Option<seq<Section>>
    decreases |s|
  {
    if s == [] then Some([])
    else
      var r := ReadSection(strict, s);
      if r.Fail? then None
      else
        var tail := Sections(strict, r.rest);
        if tail.None? then None else Some([r.value] + tail.value)
  }

  predicate Named(strict: bool, section: Section) { section.id == 0 ==> CustomName(strict, section.payload).Ok? }

  predicate IsSignature(strict: bool, section: Section) {
    section.id == 0 && var name := CustomName(strict, section.payload); name.Ok? && name.value == Ascii("twep.sig")
  }

  /** No signature among them, and for the strict scan every custom section has a name. */
  predicate AllPlain(strict: bool, ss: seq<Section>) {
    forall i :: 0 <= i < |ss| ==> !IsSignature(strict, ss[i]) && (strict ==> Named(strict, ss[i]))
  }

  lemma AllPlainCons(strict: bool, x: Section, tail: seq<Section>)
    ensures AllPlain(strict, [x] + tail)
            <==> !IsSignature(strict, x) && (strict ==> Named(strict, x)) && AllPlain(strict, tail)
    ensures tail != [] ==> ([x] + tail)[|tail|] == tail[|tail| - 1]
                           && (AllPlain(strict, ([x] + tail)[..|tail|])
                               <==> !IsSignature(strict, x) && (strict ==> Named(strict, x)) && AllPlain(strict, tail[..|tail| - 1]))
  {
    hide IsSignature, Named;
    PlainCons(strict, x, tail);
    if tail != [] {
      assert ([x] + tail)[..|tail|] == [x] + tail[..|tail| - 1];
      PlainCons(strict, x, tail[..|tail| - 1]);
    }
  }

  lemma PlainCons(strict: bool, x: Section, tail: seq<Section>)
    ensures AllPlain(strict, [x] + tail)
            <==> !IsSignature(strict, x) && (strict ==> Named(strict, x)) && AllPlain(strict, tail)
  {
    hide IsSignature, Named;
    var ss := [x] + tail;
    assert ss[0] == x;
    assert forall i :: 0 <= i < |tail| ==> tail[i] == ss[i + 1];
  }

  lemma ClassifyMeans(strict: bool, x: Section)
    ensures var c := Classify(strict, x);
            && (c.Signed? <==> IsSignature(strict, x))
            && (c.Signed? ==> c == Signed(0, CustomName(strict, x.payload).rest))
            && (c.Malformed? <==> strict && !Named(strict, x))
  {
    hide CustomName, Ascii;
  }

  /**
   * A scan finds a signature exactly when the bytes are complete sections of which the last, and no other, is a signature
   * section; it finds none exactly when no section is one. Everything else is malformed.
   */
  lemma {:induction false} FindIff(strict: bool, s: bytes)
    ensures var f, ss := Find(strict, s), Sections(strict, s);
            && (f.Unsigned? <==> ss.Some? && AllPlain(strict, ss.value))
            && (f.Signed? <==> ss.Some? && ss.value != [] && AllPlain(strict, ss.value[..|ss.value| - 1])
                               && IsSignature(strict, ss.value[|ss.value| - 1]))
            && (f.Signed? ==> f.body == CustomName(strict, ss.value[|ss.value| - 1].payload).rest)
    decreases |s|
  {
    hide ReadSection, Classify, IsSignature, Named, CustomName;
    if s != [] {
      var r := ReadSection(strict, s);
      if r.Ok? {
        FindIff(strict, r.rest);
        ClassifyMeans(strict, r.value);
        var tail := Sections(strict, r.rest);
        if tail.Some? {
          AllPlainCons(strict, r.value, tail.value);
          if r.rest != [] {
            NotEmpty(strict, r.rest);
          }
        }
      }
    }
  }

  lemma NotEmpty(strict: bool, s: bytes)
    requires s != [] && Sections(strict, s).Some?
    ensures Sections(strict, s).value != []
  {
    hide ReadSection;
  }

  /** Signing succeeds exactly for the two roles and modules that can be stripped, and appends to what stripping gives. */
  lemma SignAnswerIff(wasm: bytes, role: string, kid: blob, sig: blob)
    ensures Strip(wasm).Some? <==> |wasm| >= 8 && wasm[..4] == [0x00, 0x61, 0x73, 0x6d] && !Find(false, wasm[8..]).Malformed?
    ensures Sign(wasm, role, kid, sig).Some? <==> (role == "teep-agent" || role == "app") && Strip(wasm).Some?
    ensures Sign(wasm, role, kid, sig).Some? ==> Strip(wasm).value < Sign(wasm, role, kid, sig).value
  {
    hide Find, EncodePayload, SignatureSection;
    if Sign(wasm, role, kid, sig).Some? {
      SectionNotEmpty(EncodePayload(kid, sig, role));
    }
  }

  /** Without the magic number there is no module: nothing is stripped, signed or accepted. */
  lemma NoHeaderNoModule(wasm: bytes, role: string, kid: blob, sig: blob)
    requires |wasm| < 8 || wasm[..4] != [0x00, 0x61, 0x73, 0x6d]
    ensures Strip(wasm).None? && ParseModule(wasm).None? && CheckModule(wasm).None? && Sign(wasm, role, kid, sig).None?
  {
    hide Find;
  }

  /** The bytes from an offset on are one section, the signature, with this payload. */
  predicate EndsSigned(strict: bool, wasm: bytes, at: nat, body: bytes) {
    8 <= at <= |wasm| && Find(strict, wasm[8..at]) == Unsigned
    && var last := ReadSection(strict, wasm[at..]);
       last.Ok? && last.rest == [] && IsSignature(strict, last.value) && CustomName(strict, last.value.payload).rest == body
  }

  lemma SignedEnds(strict: bool, wasm: bytes)
    requires |wasm| >= 8 && Find(strict, wasm[8..]).Signed?
    ensures var f := Find(strict, wasm[8..]); EndsSigned(strict, wasm, 8 + f.at, f.body)
  {
    hide Find, ReadSection, Classify, CustomName;
    var f := Find(strict, wasm[8..]);
    PrefixIsUnsigned(strict, wasm[8..]);
    FoundIsLast(strict, wasm[8..]);
    assert wasm[8..8 + f.at] == wasm[8..][..f.at] && wasm[8 + f.at..] == wasm[8..][f.at..];
    ClassifyMeans(strict, ReadSection(strict, wasm[8 + f.at..]).value);
  }

  /** Either verifier accepts a module with a header exactly when its scan finds a signature whose payload it accepts, and
      returns what stands before that last section. */
  lemma ModuleAcceptedIff(wasm: bytes)
    requires |wasm| >= 8 && wasm[..4] == [0x00, 0x61, 0x73, 0x6d]
    ensures var f, m := Find(false, wasm[8..]), ParseModule(wasm);
            && (m.Some? <==> f.Signed? && ParsePayload(f.body).Some?)
            && (m.Some? ==> m.value.fields == ParsePayload(f.body).value && m.value.prefix <= wasm
                            && EndsSigned(false, wasm, |m.value.prefix|, f.body))
    ensures var f, m := Find(true, wasm[8..]), CheckModule(wasm);
            && (m.Some? <==> f.Signed? && CheckPayload(f.body).Some?)
            && (m.Some? ==> Some(m.value.1) == CheckPayload(f.body) && m.value.0 <= wasm
                            && EndsSigned(true, wasm, |m.value.0|, f.body))
  {
    hide Find, ParsePayload, CheckPayload, EndsSigned;
    if Find(false, wasm[8..]).Signed? {
      SignedEnds(false, wasm);
    }
    if Find(true, wasm[8..]).Signed? {
      SignedEnds(true, wasm);
    }
  }

  // ----- numbers -----

  /** The strict reader refuses exactly the numbers the lax one cuts, and otherwise they read the same. */
  lemma StrictLebIff(s: bytes)
    requires RawLeb(s, 5).Ok?
    ensures var n := RawLeb(s, 5).value;
            ReadLeb(false, s) == Ok(n % 0x1_0000_0000, RawLeb(s, 5).rest)
            && (ReadLeb(true, s).Ok? <==> n < 0x1_0000_0000) && (ReadLeb(true, s).Ok? ==> ReadLeb(true, s) == Ok(n, RawLeb(s, 5).rest))
  {
  }

  /** Five bytes that spell 2^32: the lax reader takes them for zero, the strict one refuses them. */
  lemma CutNumber(t: bytes)
    ensures var s := [0x80, 0x80, 0x80, 0x80, 0x10] + t; ReadLeb(false, s) == Ok(0, t) && ReadLeb(true, s).Fail?
  {
    hide RawLeb;
    var s1 := [0x10] + t;
    var s2 := [0x80] + s1;
    var s3 := [0x80] + s2;
    var s4 := [0x80] + s3;
    assert [0x80, 0x80, 0x80, 0x80, 0x10] + t == [0x80] + s4;
    LebCons(0x10, t, 1);
    LebCons(0x80, s1, 2);
    LebCons(0x80, s2, 3);
    LebCons(0x80, s3, 4);
    LebCons(0x80, s4, 5);
  }

  lemma LebCons(b: byte, t: bytes, k: nat)
    requires k > 0
    ensures RawLeb([b] + t, k)
            == if b < 128 then Ok(b, t)
               else match RawLeb(t, k - 1) case Ok(hi, rest) => Ok(b - 128 + 128 * hi, rest) case Fail => Fail
  {
    assert ([b] + t)[1..] == t;
  }
}
