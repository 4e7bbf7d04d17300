/** LEB128 numbers and the section list of a Wasm module (sections 5.2.2 and 5.5.3 of the WebAssembly Core Specification). */
module WasmModule {
  import opened Bytes

  // ----- variable-length numbers -----

  /** The number spelled by at most k bytes, seven bits each, least significant first. */
  function RawLeb(s: bytes, k: nat): (r: Parsed<nat>)
    ensures r.Ok? ==> |r.rest| < |s|
  {
    if k == 0 || s == [] then Fail
    else if s[0] < 128 then Ok(s[0], s[1..])
    else
      var (hi, rest) :- RawLeb(s[1..], k - 1);
      Ok(s[0] - 128 + 128 * hi, rest)
  }

  /**
   * A 32-bit number of at most five bytes. The host readers drop what the fifth byte holds above bit 31; the
   * trusted application's strict reader refuses it.
   */
  function ReadLeb(strict: bool, s: bytes): (r: Parsed<nat>)
    ensures r.Ok? ==> |r.rest| < |s| && r.value <= U32_MAX
  {
    var (n, rest) :- RawLeb(s, 5);
    if strict && n > U32_MAX then Fail else Ok(n % (U32_MAX + 1), rest)
  }

  function Leb(n: nat): (s: bytes)
    ensures s != []
  {
    if n < 128 then [n] else [n % 128 + 128] + Leb(n / 128)
  }

  function Pow128(k: nat): nat { if k == 0 then 1 else 128 * Pow128(k - 1) }

  lemma {:induction false} RawLebInvertsLeb(n: nat, k: nat, t: bytes)
    requires 0 < k && n < Pow128(k)
    ensures RawLeb(Leb(n) + t, k) == Ok(n, t)
  {
    var s := Leb(n) + t;
    if n < 128 {
      assert s[1..] == t;
    } else {
      RawLebInvertsLeb(n / 128, k - 1, t);
      assert s[1..] == Leb(n / 128) + t;
    }
  }

  lemma LebRoundTrip(strict: bool, n: nat, t: bytes)
    requires n <= U32_MAX
    ensures ReadLeb(strict, Leb(n) + t) == Ok(n, t)
  {
    assert Pow128(5) == 0x8_0000_0000;
    RawLebInvertsLeb(n, 5, t);
  }

  lemma {:induction false} RawLebAppend(s: bytes, k: nat, t: bytes)
    requires RawLeb(s, k).Ok?
    ensures RawLeb(s + t, k) == Ok(RawLeb(s, k).value, RawLeb(s, k).rest + t)
  {
    assert (s + t)[1..] == s[1..] + t;
    if s[0] >= 128 {
      RawLebAppend(s[1..], k - 1, t);
    }
  }

  // ----- sections -----

  datatype Section = Section(id: byte, payload: bytes)

  function ReadSection(strict: bool, s: bytes): (r: Parsed<Section>)
    ensures r.Ok? ==> |r.rest| < |s|
  {
    if s == [] then Fail
    else
      var (size, rest) :- ReadLeb(strict, s[1..]);
      if size > |rest| then Fail else Ok(Section(s[0], rest[..size]), rest[size..])
  }

  /** The name of a custom section and what follows it. */
  function CustomName(strict: bool, payload: bytes): Parsed<bytes> {
    var (size, rest) :- ReadLeb(strict, payload);
    if size > |rest| then Fail else Ok(rest[..size], rest[size..])
  }

  function SigName(): bytes { Ascii("twep.sig") }

  /** Where the signature section starts and its payload after the name; `Unsigned` when there is none. */
  datatype Found = Malformed | Unsigned | Signed(at: nat, body: bytes)

  function Shift(f: Found, n: nat): Found {
    if f.Signed? then Signed(f.at + n, f.body) else f
  }

  /** Whether a section is the signature, is another section, or stops the scan. */
  function Classify(strict: bool, section: Section): Found {
    if section.id != 0 then Unsigned
    else
      var name := CustomName(strict, section.payload);
      if name.Fail? then if strict then Malformed else Unsigned
      else if name.value == SigName() then Signed(0, name.rest)
      else Unsigned
  }

  /** The scan shared by the signer and both parsers: a signature section must be the last one. */
  function Find(strict: bool, s: bytes): (f: Found)
    ensures f.Signed? ==> f.at < |s|
    decreases |s|
  {
    if s == [] then Unsigned
    else
      var section := ReadSection(strict, s);
      if section.Fail? then Malformed
      else
        var c := Classify(strict, section.value);
        if c.Signed? then if section.rest == [] then c else Malformed
        else if c.Malformed? then Malformed
        else Shift(Find(strict, section.rest), |s| - |section.rest|)
  }

  const MAGIC: bytes := [0x00, 0x61, 0x73, 0x6d]

  predicate HasHeader(wasm: bytes) { |wasm| >= 8 && wasm[..4] == MAGIC }

  /** StripSignature. */
  function Strip(wasm: bytes): (r: Option<bytes>)
    ensures r.Some? ==> r.value <= wasm && |r.value| >= 8
  {
    if !HasHeader(wasm) then None
    else
      match Find(false, wasm[8..])
      case Malformed => None
      case Unsigned => Some(wasm)
      case Signed(at, _) => Some(wasm[..8 + at])
  }

  // ----- what the scan finds in prefixes and extensions -----

  lemma SectionAppend(strict: bool, s: bytes, t: bytes)
    requires ReadSection(strict, s).Ok?
    ensures ReadSection(strict, s + t) == Ok(ReadSection(strict, s).value, ReadSection(strict, s).rest + t)
  {
    hide RawLeb;
    RawLebAppend(s[1..], 5, t);
    assert (s + t)[1..] == s[1..] + t;
    var p := ReadLeb(strict, s[1..]);
    assert (p.rest + t)[..p.value] == p.rest[..p.value] && (p.rest + t)[p.value..] == p.rest[p.value..] + t;
  }

  /** After bytes that scan as unsigned, the scan goes on as if it had started there. */
  lemma {:induction false} FindAppend(strict: bool, s: bytes, t: bytes)
    requires Find(strict, s).Unsigned?
    ensures Find(strict, s + t) == Shift(Find(strict, t), |s|)
    decreases |s|
  {
    hide ReadSection, Classify;
    if s == [] {
      assert s + t == t;
    } else {
      SectionAppend(strict, s, t);
      FindAppend(strict, ReadSection(strict, s).rest, t);
    }
  }

  lemma SectionPrefix(strict: bool, s: bytes, k: nat)
    requires ReadSection(strict, s).Ok? && |s| - |ReadSection(strict, s).rest| <= k <= |s|
    ensures ReadSection(strict, s[..k])
            == Ok(ReadSection(strict, s).value, ReadSection(strict, s).rest[..k - (|s| - |ReadSection(strict, s).rest|)])
  {
    hide RawLeb;
    var r := ReadSection(strict, s);
    var p := ReadLeb(strict, s[1..]);
    var head := |s| - |p.rest|;
    RawLebPrefix(s[1..], 5, k - 1);
    assert s[..k][1..] == s[1..][..k - 1];
    var rest := p.rest[..k - head];
    assert rest[..p.value] == p.rest[..p.value];
    assert rest[p.value..] == p.rest[p.value..][..k - head - p.value];
  }

  lemma {:induction false} RawLebPrefix(s: bytes, n: nat, k: nat)
    requires RawLeb(s, n).Ok? && |s| - |RawLeb(s, n).rest| <= k <= |s|
    ensures RawLeb(s[..k], n) == Ok(RawLeb(s, n).value, RawLeb(s, n).rest[..k - (|s| - |RawLeb(s, n).rest|)])
  {
    if s[0] < 128 {
      assert s[..k][1..] == s[1..][..k - 1];
    } else {
      RawLebPrefix(s[1..], n - 1, k - 1);
      assert s[..k][1..] == s[1..][..k - 1];
    }
  }

  /** What stands before a signature section is itself a sequence of unsigned sections. */
  lemma {:induction false} PrefixIsUnsigned(strict: bool, s: bytes)
    requires Find(strict, s).Signed?
    ensures Find(strict, s[..Find(strict, s).at]) == Unsigned
    decreases |s|
  {
    hide ReadSection, Classify;
    var r := ReadSection(strict, s);
    var f := Find(strict, s);
    if Classify(strict, r.value).Unsigned? {
      SectionPrefix(strict, s, f.at);
      PrefixIsUnsigned(strict, r.rest);
    } else {
      ClassifyAt(strict, r.value);
    }
  }

  /** A signature that is found is the whole rest of the module: one section of that name, nothing after it. */
  lemma {:induction false} FoundIsLast(strict: bool, s: bytes)
    requires Find(strict, s).Signed?
    ensures var f := Find(strict, s); var last := ReadSection(strict, s[f.at..]);
            last.Ok? && last.rest == [] && Classify(strict, last.value) == Signed(0, f.body)
    decreases |s|
  {
    hide ReadSection, Classify;
    var r := ReadSection(strict, s);
    ClassifyAt(strict, r.value);
    if Classify(strict, r.value).Unsigned? {
      FoundIsLast(strict, r.rest);
      RestIsSuffix(strict, s);
      assert r.rest[Find(strict, r.rest).at..] == s[Find(strict, s).at..];
    } else {
      assert s[0..] == s;
    }
  }

  lemma RestIsSuffix(strict: bool, s: bytes)
    requires ReadSection(strict, s).Ok?
    ensures var r := ReadSection(strict, s); r.rest == s[|s| - |r.rest|..]
  {
    hide RawLeb;
    LebRestIsSuffix(s[1..], 5);
  }

  lemma {:induction false} LebRestIsSuffix(s: bytes, k: nat)
    requires RawLeb(s, k).Ok?
    ensures var r := RawLeb(s, k); r.rest == s[|s| - |r.rest|..]
  {
    if s[0] >= 128 {
      LebRestIsSuffix(s[1..], k - 1);
    }
  }

  lemma ClassifyAt(strict: bool, section: Section)
    ensures Classify(strict, section).Signed? ==> Classify(strict, section).at == 0
  {
  }

  /** A stripped module scans as unsigned. */
  lemma StripIsUnsigned(wasm: bytes)
    requires Strip(wasm).Some?
    ensures HasHeader(Strip(wasm).value) && Find(false, Strip(wasm).value[8..]) == Unsigned
  {
    hide Find;
    var u := Strip(wasm).value;
    var f := Find(false, wasm[8..]);
    assert u[..4] == wasm[..4];
    if f.Signed? {
      PrefixIsUnsigned(false, wasm[8..]);
      assert u[8..] == wasm[8..][..f.at];
    }
  }

  /** Stripping twice is stripping once. */
  lemma StripIsIdempotent(wasm: bytes)
    requires Strip(wasm).Some?
    ensures Strip(Strip(wasm).value) == Strip(wasm)
  {
    hide Find;
    StripIsUnsigned(wasm);
  }

  /** Whatever the strict scan finds, the lax scan finds too. */
  lemma {:induction false} StrictImpliesLax(s: bytes)
    requires !Find(true, s).Malformed?
    ensures Find(false, s) == Find(true, s)
    decreases |s|
  {
    hide RawLeb;
    if s != [] {
      StrictImpliesLax(ReadSection(true, s).rest);
    }
  }

  /** Complete sections that the strict scan refuses are refused whatever follows. */
  lemma {:induction false} StaysMalformed(s: bytes, t: bytes)
    requires Find(false, s).Unsigned? && !Find(true, s).Unsigned?
    ensures Find(true, s + t).Malformed?
    decreases |s|
  {
    hide ReadSection, Classify;
    var lax, strict := ReadSection(false, s), ReadSection(true, s);
    StrictSection(s, t);
    StrictClassify(lax.value);
    if strict.Ok? {
      SectionAppend(true, s, t);
      if Classify(true, strict.value).Unsigned? {
        StaysMalformed(strict.rest, t);
      }
    }
  }

  /** The strict reader refuses a complete section for good, or reads it as the lax one does. */
  lemma StrictSection(s: bytes, t: bytes)
    requires ReadSection(false, s).Ok?
    ensures ReadSection(true, s) == ReadSection(false, s) || (ReadSection(true, s).Fail? && ReadSection(true, s + t).Fail?)
  {
    hide RawLeb;
    RawLebAppend(s[1..], 5, t);
    assert (s + t)[1..] == s[1..] + t;
  }

  lemma StrictClassify(section: Section)
    ensures Classify(true, section) == Malformed || Classify(true, section) == Classify(false, section)
  {
    hide RawLeb;
  }
}
