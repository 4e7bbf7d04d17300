/** The head of a CBOR data item (section 3 of RFC 8949): major type and argument. */
module CborHead {
  import opened Bytes

  datatype Head = Head(major: nat, info: nat, value: nat)

  /** How many bytes follow the initial byte in the shortest head for n. */
  function Width(n: nat): nat {
    if n < 24 then 0 else if n <= 0xff then 1 else if n <= 0xffff then 2 else if n <= U32_MAX then 4 else 8
  }

  function InfoWidth(info: nat): nat {
    if info == 24 then 1 else if info == 25 then 2 else if info == 26 then 4 else if info == 27 then 8 else 0
  }

  /** The additional information of the shortest head for n. */
  function InfoOf(n: nat): (info: nat)
    ensures info <= 27 && InfoWidth(info) == Width(n)
  {
    if n < 24 then n else if n <= 0xff then 24 else if n <= 0xffff then 25 else if n <= U32_MAX then 26 else 27
  }

  function HeadSize(n: nat): nat { 1 + Width(n) }

  /** The shortest head for argument n, as every writer in the repository emits it. */
  function HeadBytes(major: nat, n: nat): (s: bytes)
    requires major < 8 && n <= U64_MAX
    ensures |s| == HeadSize(n) && s[0] == major * 32 + InfoOf(n)
  {
    PowersOf256();
    [major * 32 + InfoOf(n)] + BigEndian(if n < 24 then 0 else n, Width(n))
  }

  /** Reads one head of any width; the readers below narrow it. */
  function ReadHead(s: bytes): (r: Parsed<Head>)
    ensures r.Ok? ==> |r.rest| < |s| && r.value.major < 8 && r.value.info <= 27 && r.value.value <= U64_MAX
  {
    if s == [] then Fail
    else
      var major, info := s[0] / 32, s[0] % 32;
      if info < 24 then Ok(Head(major, info, info), s[1..])
      else if info > 27 || |s| - 1 < InfoWidth(info) then Fail
      else
        PowersOf256();
        Ok(Head(major, info, FromBigEndian(s[1..1 + InfoWidth(info)])), s[1 + InfoWidth(info)..])
  }

  /** The head uses the fewest bytes its argument allows. */
  predicate Minimal(h: Head) { h.info == InfoOf(h.value) }

  lemma HeadDecodes(major: nat, n: nat, t: bytes)
    requires major < 8 && n <= U64_MAX
    ensures ReadHead(HeadBytes(major, n) + t) == Ok(Head(major, InfoOf(n), n), t)
  {
    hide BigEndian, FromBigEndian;
    PowersOf256();
    var s := HeadBytes(major, n) + t;
    assert s[0] == major * 32 + InfoOf(n);
    if n >= 24 {
      assert s[1..1 + Width(n)] == BigEndian(n, Width(n));
      BigEndianDecodes(n, Width(n));
    }
    assert s[1 + Width(n)..] == t;
  }

  lemma HeadEncodes(s: bytes)
    requires ReadHead(s).Ok? && Minimal(ReadHead(s).value)
    ensures var r := ReadHead(s); s == HeadBytes(r.value.major, r.value.value) + r.rest
  {
    PowersOf256();
    var r := ReadHead(s);
    var w := InfoWidth(s[0] % 32);
    if r.value.info >= 24 {
      BigEndianEncodes(s[1..1 + w]);
    }
    assert s == [s[0]] + s[1..1 + w] + s[1 + w..];
  }
}
