/** The signer's and the parsers' loops, on offsets into the module. */
module WasmCursor {
  import opened Bytes
  import opened CborHead
  import opened CborItem
  import opened CborCursor
  import opened HostIoCursor
  import opened WasmModule
  import opened WasmSignature
  import S = StrictCbor
  import H = HostIoResult

  // ----- numbers -----

  /** The bytes still to come, scaled by what is already read, added to it. */
  function Extend(value: nat, scale: nat, r: Parsed<nat>): Parsed<nat> {
    if r.Ok? then Ok(value + scale * r.value, r.rest) else Fail
  }

  /** (b & 0x7f) << shift, before truncation. */
  function Digit(b: byte, scale: nat): nat { scale * (b % 128) }

  /** A 32-bit register. */
  function Wrap(n: nat): nat { n % (U32_MAX + 1) }

  /** One more byte read moves seven bits from the unread number into the read one. */
  lemma LebStep(value: nat, scale: nat, s: bytes, k: nat)
    requires k > 0 && s != []
    ensures s[0] < 128 ==> Extend(value, scale, RawLeb(s, k)) == Ok(value + Digit(s[0], scale), s[1..])
    ensures s[0] >= 128 ==> Extend(value, scale, RawLeb(s, k))
                            == Extend(value + Digit(s[0], scale), 128 * scale, RawLeb(s[1..], k - 1))
  {
    if s[0] >= 128 && RawLeb(s[1..], k - 1).Ok? {
      Distribute(scale, s[0] - 128, RawLeb(s[1..], k - 1).value);
    }
  }

  lemma Distribute(scale: nat, lo: nat, hi: nat)
    ensures scale * (lo + 128 * hi) == scale * lo + 128 * scale * hi
  {
  }

  /** What reading has to yield once the exact number is known. */
  lemma LebResult(strict: bool, s: bytes)
    ensures var p := RawLeb(s, 5);
            ReadLeb(strict, s) == if p.Fail? || (strict && p.value > U32_MAX) then Fail else Ok(Wrap(p.value), p.rest)
  {
  }

  lemma NothingRead(r: Parsed<nat>)
    ensures Extend(0, 1, r) == r && Extend(0, 1, Fail) == Fail
  {
  }

  /** read_varuint32 of the signer and of the host library: shifts beyond bit 31 are lost. */
  method ReadVaruint32(buf: bytes, end: nat, start: nat) returns (ok: bool, value: nat, off: nat)
    requires start <= end <= |buf|
    ensures start <= off <= end
    ensures ReadLeb(false, buf[start..end]) == if ok then Ok(value, buf[off..end]) else Fail
  {
    hide RawLeb, ReadLeb, Extend, Digit, Wrap;
    ok, value, off := false, 0, start;
    var shift: nat := 1;
    ghost var whole := RawLeb(buf[start..end], 5);
    ghost var exact: nat := 0;
    LebResult(false, buf[start..end]);
    NothingRead(whole);
    WrapZero();
    for i := 0 to 5
      invariant off == start + i <= end && value == Wrap(exact)
      invariant whole == Extend(exact, shift, RawLeb(buf[off..end], 5 - i))
    {
      ghost var rest := buf[off..end];
      if off >= end {
        NoBytes(rest, 5 - i, exact, shift);
        return;
      }
      var b := buf[off];
      assert rest[0] == b && rest[1..] == buf[off + 1..end];
      LebStep(exact, shift, rest, 5 - i);
      off := off + 1;
      WrapAdd(exact, Digit(b, shift));
      value := Wrap(value + Wrap(Digit(b, shift)));
      exact := exact + Digit(b, shift);
      if b < 128 {
        return true, value, off;
      }
      shift := 128 * shift;
    }
    NoBytes(buf[off..end], 0, exact, shift);
  }

  lemma WrapZero()
    ensures Wrap(0) == 0
  {
  }

  lemma NoBytes(s: bytes, k: nat, value: nat, scale: nat)
    requires s == [] || k == 0
    ensures Extend(value, scale, RawLeb(s, k)).Fail?
  {
  }

  lemma WrapAdd(a: nat, b: nat)
    ensures Wrap(Wrap(a) + Wrap(b)) == Wrap(a + b)
  {
  }

  /** read_varuint32 of the trusted application: a fifth byte with any of its upper four bits set is refused. */
  method ReadVaruint32Strict(buf: bytes, end: nat, start: nat) returns (ok: bool, value: nat, off: nat)
    requires start <= end <= |buf|
    ensures start <= off <= end
    ensures ReadLeb(true, buf[start..end]) == if ok then Ok(value, buf[off..end]) else Fail
  {
    hide RawLeb, ReadLeb, Extend, Digit, Wrap, Pow128;
    ok, value, off := false, 0, start;
    var shift: nat := 1;
    ghost var whole := RawLeb(buf[start..end], 5);
    LebResult(true, buf[start..end]);
    NothingRead(whole);
    Powers();
    for i := 0 to 5
      invariant off == start + i <= end && shift == Pow128(i) && value < shift
      invariant whole == Extend(value, shift, RawLeb(buf[off..end], 5 - i))
    {
      ghost var rest := buf[off..end];
      if off >= end {
        NoBytes(rest, 5 - i, value, shift);
        return;
      }
      var b := buf[off];
      assert rest[0] == b && rest[1..] == buf[off + 1..end];
      LebStep(value, shift, rest, 5 - i);
      DigitRange(i, b, value);
      off := off + 1;
      if i == 4 && b >= 16 {
        NoBytes(rest[1..], 0, value + Digit(b, shift), 128 * shift);
        return;
      }
      value := value + Digit(b, shift);
      if b < 128 {
        return true, value, off;
      }
      shift := 128 * shift;
    }
    NoBytes(buf[off..end], 0, value, shift);
  }

  lemma Powers()
    ensures Pow128(0) == 1 && Pow128(1) == 0x80 && Pow128(2) == 0x4000 && Pow128(3) == 0x20_0000 && Pow128(4) == 0x1000_0000
  {
  }

  /** Four digits stay below 2^28; a fifth stays below 2^32 exactly when it is less than 16. */
  lemma DigitRange(i: nat, b: byte, value: nat)
    requires i < 5 && value < Pow128(i)
    ensures var n := value + Digit(b, Pow128(i));
            n < Pow128(i + 1) && (i < 4 || b < 16 ==> n == Wrap(n) <= U32_MAX) && (i == 4 && 16 <= b < 128 ==> n > U32_MAX)
  {
    Powers();
    var p, d := Pow128(i), b % 128;
    assert p * d <= p * 127;
    if i < 4 {
      assert p * 128 <= 0x1000_0000;
    }
  }

  /** appendVaruint32. */
  method AppendVaruint32(out: bytes, value: nat) returns (out': bytes)
    ensures out' == out + Leb(value)
  {
    out' := out;
    var left := value;
    while true
      invariant out' + Leb(left) == out + Leb(value)
      decreases left
    {
      var b := left % 128;
      if left / 128 == 0 {
        return out' + [b];
      }
      assert out' + ([b + 128] + Leb(left / 128)) == out' + [b + 128] + Leb(left / 128);
      out' := out' + [b + 128];
      left := left / 128;
    }
  }

  // ----- the section scans -----

  lemma SectionAt(strict: bool, wasm: bytes, start: nat, size: nat, off: nat)
    requires start < off <= |wasm|
    requires ReadLeb(strict, wasm[start + 1..]) == Ok(size, wasm[off..])
    ensures ReadSection(strict, wasm[start..])
            == if size > |wasm| - off then Fail else Ok(Section(wasm[start], wasm[off..off + size]), wasm[off + size..])
  {
    hide ReadLeb;
    assert wasm[start..][1..] == wasm[start + 1..];
    if size <= |wasm| - off {
      Suffix(wasm, off, size);
      assert wasm[off..][..size] == wasm[off..off + size];
    }
  }

  /** StripSignature: one pass that remembers where a final signature section began. */
  method StripSignature(wasm: bytes) returns (r: Option<bytes>)
    ensures r == Strip(wasm)
  {
    hide Find, ReadSection, ReadLeb, CustomName, SigName;
    if |wasm| < 8 || wasm[..4] != MAGIC {
      return None;
    }
    var off, final := 8, None;
    ghost var whole := Find(false, wasm[8..]);
    while off < |wasm|
      invariant 8 <= off <= |wasm|
      invariant final.None? ==> whole == Shift(Find(false, wasm[off..]), off - 8)
      invariant final.Some? ==> off == |wasm| && whole.Signed? && final.value == 8 + whole.at
    {
      var sectionStart := off;
      var ok, size;
      assert wasm[off + 1..|wasm|] == wasm[off + 1..];
      ok, size, off := ReadVaruint32(wasm, |wasm|, off + 1);
      FindStep(false, wasm[sectionStart..]);
      if !ok || size > |wasm| - off {
        BadSection(false, wasm, sectionStart, ok, size, off);
        return None;
      }
      assert wasm[off..|wasm|] == wasm[off..];
      SectionAt(false, wasm, sectionStart, size, off);
      var end := off + size;
      if wasm[sectionStart] == 0 {
        var named, name, nameEnd := CustomSectionName(wasm, off, end);
        if named && name == SigName() {
          if end != |wasm| {
            return None;
          }
          final := Some(sectionStart);
        }
      }
      off := end;
    }
    assert wasm[|wasm|..] == [];
    FindStep(false, []);
    return if final.Some? then Some(wasm[..final.value]) else Some(wasm);
  }

  /** The definition of Find, one section at a time. */
  lemma FindStep(strict: bool, s: bytes)
    ensures s == [] ==> Find(strict, s) == Unsigned
    ensures s != [] && ReadSection(strict, s).Fail? ==> Find(strict, s) == Malformed
    ensures s != [] && ReadSection(strict, s).Ok? ==>
              var section := ReadSection(strict, s); var c := Classify(strict, section.value);
              Find(strict, s) == if c.Signed? then if section.rest == [] then c else Malformed
                                 else if c.Malformed? then Malformed
                                 else Shift(Find(strict, section.rest), |s| - |section.rest|)
  {
  }

  lemma BadSection(strict: bool, wasm: bytes, start: nat, ok: bool, size: nat, off: nat)
    requires start < off <= |wasm|
    requires ReadLeb(strict, wasm[start + 1..]) == if ok then Ok(size, wasm[off..]) else Fail
    requires !ok || size > |wasm| - off
    ensures ReadSection(strict, wasm[start..]).Fail?
  {
    assert wasm[start..][1..] == wasm[start + 1..];
  }

  /** custom_section_name, of a payload given by its place in the module. */
  method CustomSectionName(wasm: bytes, start: nat, end: nat) returns (ok: bool, name: bytes, nameEnd: nat)
    requires start <= end <= |wasm|
    ensures start <= nameEnd <= end
    ensures CustomName(false, wasm[start..end]) == if ok then Ok(name, wasm[nameEnd..end]) else Fail
  {
    hide ReadLeb;
    var size;
    name := [];
    ok, size, nameEnd := ReadVaruint32(wasm, end, start);
    if !ok || size > end - nameEnd {
      ok := false;
      return;
    }
    name := wasm[nameEnd..nameEnd + size];
    assert wasm[nameEnd..end][..size] == name && wasm[nameEnd..end][size..] == wasm[nameEnd + size..end];
    nameEnd := nameEnd + size;
  }

  /** twep_wr_cbor_read_text_view and twep_wr_cbor_read_bytes_view. */
  method NarrowViewAt(buf: bytes, major: nat, start: nat) returns (ok: bool, value: bytes, off: nat)
    requires start <= |buf|
    ensures off <= |buf|
    ensures NarrowView(buf[start..], major) == if ok then Ok(value, buf[off..]) else Fail
  {
    hide ReadHead;
    var got, n;
    value := [];
    ok, got, n, off := ReadHeadAt(buf, start);
    if !ok || got != major || n > |buf| - off {
      ok := false;
      return;
    }
    Suffix(buf, off, n);
    value := buf[off..off + n];
    assert buf[off..][..n] == value;
    off := off + n;
  }

  method TakeEntryAt(buf: bytes, key: bytes, v: SigFields, start: nat) returns (ok: bool, w: SigFields, off: nat)
    requires start <= |buf|
    ensures off <= |buf|
    ensures TakeEntry(buf[start..], key, v) == if ok then Ok(w, buf[off..]) else Fail
  {
    hide ReadHead, Skip, NarrowView, Ascii;
    w := v;
    var x;
    if key == Ascii("alg") {
      ok, x, off := NarrowViewAt(buf, 3, start);
      w := v.(alg := x);
    } else if key == Ascii("kid") {
      ok, x, off := NarrowViewAt(buf, 2, start);
      w := v.(kid := x);
    } else if key == Ascii("role") {
      ok, x, off := NarrowViewAt(buf, 3, start);
      w := v.(role := x);
    } else if key == Ascii("sig") {
      ok, x, off := NarrowViewAt(buf, 2, start);
      w := v.(sig := x);
    } else {
      ok, off := SkipValueAt(buf, start, 0);
    }
  }

  /** parse_signature_payload of the host library. */
  method ParseSignaturePayload(body: bytes) returns (r: Option<SigFields>)
    ensures r == ParsePayload(body)
  {
    hide ReadHead, NarrowView, TakeEntry;
    assert body[0..] == body;
    var ok, major, pairs, off := ReadHeadAt(body, 0);
    if !ok || major != 5 {
      return None;
    }
    var v := SigFields([], [], [], []);
    ghost var whole := TakeEntries(body[off..], pairs, v);
    for i := 0 to pairs
      invariant 0 <= off <= |body|
      invariant whole == TakeEntries(body[off..], pairs - i, v)
    {
      var key;
      ok, key, off := NarrowViewAt(body, 3, off);
      if !ok {
        return None;
      }
      ok, v, off := TakeEntryAt(body, key, v, off);
      if !ok {
        return None;
      }
    }
    var good := off == |body| && v.alg == Ascii(ALGORITHM) && v.kid != [] && |v.sig| == 64;
    return if good then Some(v) else None;
  }

  /** parse_wasm_signature: the first signature section decides. */
  method ParseWasmSignature(wasm: bytes) returns (r: Option<Verified>)
    ensures r == ParseModule(wasm)
  {
    hide Find, ReadSection, ReadLeb, CustomName, SigName, ParsePayload;
    if |wasm| < 8 || wasm[..4] != MAGIC {
      return None;
    }
    var off := 8;
    ghost var whole := Find(false, wasm[8..]);
    while off < |wasm|
      invariant 8 <= off <= |wasm|
      invariant whole == Shift(Find(false, wasm[off..]), off - 8)
    {
      var sectionStart := off;
      var ok, size;
      assert wasm[off + 1..|wasm|] == wasm[off + 1..];
      ok, size, off := ReadVaruint32(wasm, |wasm|, off + 1);
      FindStep(false, wasm[sectionStart..]);
      if !ok || size > |wasm| - off {
        BadSection(false, wasm, sectionStart, ok, size, off);
        return None;
      }
      assert wasm[off..|wasm|] == wasm[off..];
      SectionAt(false, wasm, sectionStart, size, off);
      var end := off + size;
      if wasm[sectionStart] == 0 {
        var named, name, nameEnd := CustomSectionName(wasm, off, end);
        if named && name == SigName() {
          if end != |wasm| {
            return None;
          }
          var v := ParseSignaturePayload(wasm[nameEnd..end]);
          return if v.Some? then Some(Verified(wasm[..sectionStart], v.value)) else None;
        }
      }
      off := end;
    }
    assert wasm[|wasm|..] == [];
    FindStep(false, []);
    return None;
  }

  method CheckEntryAt(buf: bytes, key: bytes, seen: Seen, start: nat) returns (ok: bool, w: Seen, off: nat)
    requires start <= |buf|
    ensures off <= |buf|
    ensures CheckEntry(buf[start..], key, seen) == if ok then Ok(w, buf[off..]) else Fail
  {
    hide ReadHead, Skip, H.ReadView, Ascii;
    w := seen;
    var x;
    if key == Ascii("alg") {
      ok, x, off := ReadViewAt(buf, 3, start);
      ok := ok && !seen.alg && x == Ascii(ALGORITHM);
      w := seen.(alg := true);
    } else if key == Ascii("kid") {
      ok, x, off := ReadViewAt(buf, 2, start);
      ok := ok && !seen.kid && x != [];
      w := seen.(kid := true);
    } else if key == Ascii("sig") {
      ok, x, off := ReadViewAt(buf, 2, start);
      ok := ok && seen.sig.None? && |x| == 64;
      w := seen.(sig := Some(x));
    } else if key == Ascii("role") {
      ok, x, off := ReadViewAt(buf, 3, start);
      ok := ok && !seen.role && x == Ascii(TEEP_AGENT);
      w := seen.(role := true);
    } else {
      ok, off := SkipItemAt(buf, start, 0);
    }
  }

  /** parse_signature_payload of the trusted application. */
  method CheckSignaturePayload(body: bytes) returns (r: Option<bytes>)
    ensures r == CheckPayload(body)
  {
    hide ReadHead, H.ReadView, CheckEntry;
    assert body[0..] == body;
    var ok, pairs, off := ReadLenAt(body, 5, 0);
    if !ok || pairs > 16 {
      return None;
    }
    var seen := Seen(false, false, None, false);
    ghost var whole := CheckEntries(body[off..], pairs, seen);
    for i := 0 to pairs
      invariant 0 <= off <= |body|
      invariant whole == CheckEntries(body[off..], pairs - i, seen)
    {
      var key;
      ok, key, off := ReadViewAt(body, 3, off);
      if !ok {
        return None;
      }
      ok, seen, off := CheckEntryAt(body, key, seen, off);
      if !ok {
        return None;
      }
    }
    return if off == |body| && seen.alg && seen.kid && seen.role then seen.sig else None;
  }

  /** find_signature: an unreadable section name ends the search. */
  method FindSignature(wasm: bytes) returns (r: Option<(bytes, bytes)>)
    ensures r == CheckModule(wasm)
  {
    hide Find, ReadSection, ReadLeb, SigName, CheckPayload;
    if |wasm| < 8 || wasm[..4] != MAGIC {
      return None;
    }
    var off := 8;
    ghost var whole := Find(true, wasm[8..]);
    while off < |wasm|
      invariant 8 <= off <= |wasm|
      invariant whole == Shift(Find(true, wasm[off..]), off - 8)
    {
      var sectionStart := off;
      var ok, size;
      assert wasm[off + 1..|wasm|] == wasm[off + 1..];
      ok, size, off := ReadVaruint32Strict(wasm, |wasm|, off + 1);
      FindStep(true, wasm[sectionStart..]);
      if !ok || size > |wasm| - off {
        BadSection(true, wasm, sectionStart, ok, size, off);
        return None;
      }
      assert wasm[off..|wasm|] == wasm[off..];
      SectionAt(true, wasm, sectionStart, size, off);
      var end := off + size;
      if wasm[sectionStart] == 0 {
        var nameLen, nameOff;
        ok, nameLen, nameOff := ReadVaruint32Strict(wasm, end, off);
        if !ok || nameLen > end - nameOff {
          return None;
        }
        var name := wasm[nameOff..nameOff + nameLen];
        assert wasm[nameOff..end][..nameLen] == name && wasm[nameOff..end][nameLen..] == wasm[nameOff + nameLen..end];
        if name == SigName() {
          if end != |wasm| {
            return None;
          }
          var sig := CheckSignaturePayload(wasm[nameOff + nameLen..end]);
          return if sig.Some? then Some((wasm[..sectionStart], sig.value)) else None;
        }
      }
      off := end;
    }
    assert wasm[|wasm|..] == [];
    FindStep(true, []);
    return None;
  }

  // ----- the signer -----

  /** appendBytes. */
  method AppendBytes(out: bytes, b: blob) returns (out': bytes)
    ensures out' == out + AppendedBytes(b)
  {
    hide S.Bstr;
    if |b| <= U32_MAX {
      out' := S.WriteBstr(out, b);
    } else {
      PowersOf256();
      var n := |b| % (U32_MAX + 1);
      out' := S.WriteBigEndian(out + [0x5a], n, 4);
      assert out + [0x5a] + BigEndian(n, 4) + b == out + ([0x5a] + BigEndian(n, 4) + b);
      out' := out' + b;
    }
  }

  /** encodeSignaturePayload. */
  method EncodeSignaturePayload(kid: blob, sig: blob, role: string) returns (out: bytes)
    requires |role| <= 16
    ensures out == EncodePayload(kid, sig, role)
  {
    hide S.Text, AppendedBytes;
    out := [0xa4];
    out := S.WriteText(out, "alg");
    out := S.WriteText(out, ALGORITHM);
    out := S.WriteText(out, "kid");
    out := AppendBytes(out, kid);
    out := S.WriteText(out, "sig");
    out := AppendBytes(out, sig);
    out := S.WriteText(out, "role");
    out := S.WriteText(out, role);
  }

  /** Sign, given the signature over the stripped module. */
  method SignModule(wasm: bytes, role: string, kid: blob, sig: blob) returns (r: Option<bytes>)
    ensures r == Sign(wasm, role, kid, sig)
  {
    hide Strip, Leb, EncodePayload, SigName;
    if role != TEEP_AGENT && role != APP {
      return None;
    }
    var unsigned := StripSignature(wasm);
    if unsigned.None? {
      return None;
    }
    var payload := EncodeSignaturePayload(kid, sig, role);
    var out := unsigned.value + [0];
    var n := (8 + |payload| + 1) % (U32_MAX + 1);
    out := AppendVaruint32(out, n);
    out := AppendVaruint32(out, 8);
    var all := out + SigName() + payload;
    Reassociate(unsigned.value, [0], Leb(n), Leb(8), SigName(), payload);
    Reassociate([], [0], Leb(n), Leb(8), SigName(), payload);
    assert all == unsigned.value + SignatureSection(payload);
    r := Some(all);
  }
}
