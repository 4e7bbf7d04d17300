/**
 * The strict readers and writers of the protected-state records: every head must be the shortest
 * one, so a record has exactly one byte form.
 */
module StrictCbor {
  import opened Bytes
  import opened CborHead

  function ReadUint(s: bytes, major: nat): (r: Parsed<u64>)
    ensures r.Ok? ==> |r.rest| < |s|
  {
    var h := ReadHead(s);
    if h.Ok? && h.value.major == major && Minimal(h.value) then Ok(h.value.value, h.rest) else Fail
  }

  function ReadBytes(s: bytes, major: nat): (r: Parsed<blob>)
    ensures r.Ok? ==> |r.rest| < |s|
  {
    var h := ReadUint(s, major);
    if h.Ok? && h.value <= |h.rest| then Ok(h.rest[..h.value], h.rest[h.value..]) else Fail
  }

  /** Reads exactly the given text string and yields what follows it. */
  function ReadExpectedText(s: bytes, text: string): (r: Parsed<()>)
    ensures r.Ok? ==> |r.rest| < |s|
  {
    var t := ReadBytes(s, 3);
    if t.Ok? && t.value == Ascii(text) then Ok((), t.rest) else Fail
  }

  function Uint(n: u64): (s: bytes)
    ensures |s| == HeadSize(n)
  {
    HeadBytes(0, n)
  }

  function Bstr(b: blob): (s: bytes)
    ensures |s| == HeadSize(|b|) + |b|
  {
    HeadBytes(2, |b|) + b
  }

  function Text(text: string): (s: bytes)
    requires |text| <= U64_MAX
    ensures |s| == HeadSize(|text|) + |text|
  {
    HeadBytes(3, |text|) + Ascii(text)
  }

  lemma ReadUintIff(s: bytes, major: nat, n: u64, t: bytes)
    requires major < 8
    ensures ReadUint(s, major) == Ok(n, t) <==> s == HeadBytes(major, n) + t
  {
    if ReadUint(s, major) == Ok(n, t) {
      HeadEncodes(s);
    }
    HeadDecodes(major, n, t);
  }

  lemma ReadBytesIff(s: bytes, major: nat, b: blob, t: bytes)
    requires major < 8
    ensures ReadBytes(s, major) == Ok(b, t) <==> s == HeadBytes(major, |b|) + b + t
  {
    var h := HeadBytes(major, |b|);
    if ReadBytes(s, major) == Ok(b, t) {
      var r := ReadUint(s, major);
      ReadUintIff(s, major, |b|, r.rest);
      assert r.rest == b + t;
      assert h + (b + t) == h + b + t;
    }
    if s == h + b + t {
      assert s == h + (b + t);
      ReadUintIff(s, major, |b|, b + t);
      assert (b + t)[..|b|] == b && (b + t)[|b|..] == t;
    }
  }

  lemma ReadBstrIff(s: bytes, b: blob, t: bytes)
    ensures ReadBytes(s, 2) == Ok(b, t) <==> s == Bstr(b) + t
  {
    ReadBytesIff(s, 2, b, t);
  }

  lemma ReadExpectedTextIff(s: bytes, text: string, t: bytes)
    requires |text| <= U64_MAX
    ensures ReadExpectedText(s, text) == Ok((), t) <==> s == Text(text) + t
  {
    ReadBytesIff(s, 3, Ascii(text), t);
  }

  // ----- the cursor form of the same readers -----

  /** read_uint: the shift-and-or loop over the argument bytes, then the shortest-form test. */
  method ReadUintAt(buf: bytes, major: nat, start: nat) returns (ok: bool, value: u64, off: nat)
    requires start <= |buf|
    ensures off <= |buf|
    ensures ReadUint(buf[start..], major) == if ok then Ok(value, buf[off..]) else Fail
  {
    ok, value, off := false, 0, start;
    if off >= |buf| {
      return;
    }
    var initial := buf[off];
    off := off + 1;
    var s := buf[start..];
    assert s[1..] == buf[off..];
    if initial / 32 != major {
      return;
    }
    var ai := initial % 32;
    if ai < 24 {
      return true, ai, off;
    }
    if ai > 27 {
      return;
    }
    var n := if ai == 24 then 1 else if ai == 25 then 2 else if ai == 26 then 4 else 8;
    if n > |buf| - off {
      return;
    }
    var out := 0;
    for i := 0 to n
      invariant off == start + 1 + i
      invariant out == FromBigEndian(s[1..1 + i])
    {
      assert s[1..2 + i][..i] == s[1..1 + i];
      out := out * 256 + buf[off];
      off := off + 1;
    }
    assert s[1 + n..] == buf[off..];
    PowersOf256();
    if (n == 1 && out < 24) || (n == 2 && out <= 0xff) || (n == 4 && out <= 0xffff) || (n == 8 && out <= U32_MAX) {
      return;
    }
    return true, out, off;
  }

  method ReadBytesAt(buf: bytes, major: nat, start: nat) returns (ok: bool, value: blob, off: nat)
    requires start <= |buf|
    ensures off <= |buf|
    ensures ReadBytes(buf[start..], major) == if ok then Ok(value, buf[off..]) else Fail
  {
    var n;
    ok, n, off := ReadUintAt(buf, major, start);
    value := [];
    if !ok || n > |buf| - off {
      ok := false;
      return;
    }
    value := buf[off..off + n];
    assert buf[off..][..n] == value && buf[off..][n..] == buf[off + n..];
    off := off + n;
  }

  /** value >> (8 * k). */
  function ShiftRightBytes(value: nat, k: nat): nat {
    if k == 0 then value else ShiftRightBytes(value / 256, k - 1)
  }

  /** The j-th byte of a big-endian number, counted from the front. */
  lemma {:induction false} BigEndianDigit(n: nat, k: nat, j: nat)
    requires j < k && n < Pow256(k)
    ensures BigEndian(n, k)[j] == ShiftRightBytes(n, k - 1 - j) % 256
  {
    if j < k - 1 {
      BigEndianDigit(n / 256, k - 1, j);
    }
  }

  /** The argument bytes, from the most significant one down. */
  method WriteBigEndian(out: bytes, value: nat, n: nat) returns (out': bytes)
    requires value < Pow256(n)
    ensures out' == out + BigEndian(value, n)
  {
    out' := out;
    ghost var be := BigEndian(value, n);
    for i := n downto 0
      invariant out' == out + be[..n - i]
    {
      BigEndianDigit(value, n, n - 1 - i);
      out' := out' + [ShiftRightBytes(value, i) % 256];
      assert be[..n - 1 - i] + [be[n - 1 - i]] == be[..n - i];
    }
    assert be[..n] == be;
  }

  /** write_type_len. */
  method WriteTypeLen(out: bytes, major: nat, value: u64) returns (out': bytes)
    requires major < 8
    ensures out' == out + HeadBytes(major, value)
  {
    PowersOf256();
    var n := HeadSize(value) - 1;
    if n == 0 {
      out' := out + [major * 32 + value];
      assert BigEndian(0, 0) == [];
      return;
    }
    var info := if n == 1 then 24 else if n == 2 then 25 else if n == 4 then 26 else 27;
    out' := WriteBigEndian(out + [major * 32 + info], value, n);
    assert HeadBytes(major, value) == [major * 32 + info] + BigEndian(value, n);
  }

  method WriteText(out: bytes, text: string) returns (out': bytes)
    requires |text| <= U64_MAX
    ensures out' == out + Text(text)
  {
    out' := WriteTypeLen(out, 3, |text|);
    out' := out' + Ascii(text);
  }

  method WriteBstr(out: bytes, b: blob) returns (out': bytes)
    ensures out' == out + Bstr(b)
  {
    out' := WriteTypeLen(out, 2, |b|);
    out' := out' + b;
  }

  method ReadExpectedTextAt(buf: bytes, text: string, start: nat) returns (ok: bool, off: nat)
    requires start <= |buf|
    ensures off <= |buf|
    ensures ReadExpectedText(buf[start..], text) == if ok then Ok((), buf[off..]) else Fail
  {
    var value;
    ok, value, off := ReadBytesAt(buf, 3, start);
    ok := ok && value == Ascii(text);
  }
}
