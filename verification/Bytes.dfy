/** Bytes, big-endian numbers and parser results shared by every codec in the project. */
module Bytes {
  type byte = b: int | 0 <= b < 256
  type bytes = seq<byte>

  datatype Option<+T> = None | Some(value: T)

  /** What a reader hands back: the value it read and the input still unread, or a refusal. */
  datatype Parsed<+T> = Fail | Ok(value: T, rest: bytes) {
    predicate IsFailure() { Fail? }

    function PropagateFailure<U>(): Parsed<U>
      requires Fail?
    {
      Fail
    }

    function Extract(): (T, bytes)
      requires Ok?
    {
      (value, rest)
    }
  }

  const U32_MAX := 0xffff_ffff
  const U64_MAX := 0xffff_ffff_ffff_ffff

  type u64 = n: nat | n <= U64_MAX
  type blob = b: bytes | |b| <= U64_MAX
  type digest = b: bytes | |b| == 32 witness seq(32, i => 0)

  function Pow256(k: nat): (r: nat)
    ensures r >= 1
  {
    if k == 0 then 1 else 256 * Pow256(k - 1)
  }

  function BigEndian(n: nat, k: nat): (s: bytes)
    requires n < Pow256(k)
    ensures |s| == k
  {
    if k == 0 then [] else BigEndian(n / 256, k - 1) + [n % 256]
  }

  function FromBigEndian(s: bytes): (n: nat)
    ensures n < Pow256(|s|)
  {
    if s == [] then 0 else FromBigEndian(s[..|s| - 1]) * 256 + s[|s| - 1]
  }

  lemma {:induction false} BigEndianDecodes(n: nat, k: nat)
    requires n < Pow256(k)
    ensures FromBigEndian(BigEndian(n, k)) == n
  {
    if k > 0 {
      BigEndianDecodes(n / 256, k - 1);
      assert BigEndian(n, k)[..k - 1] == BigEndian(n / 256, k - 1);
    }
  }

  lemma Split256(n: nat, b: byte)
    ensures (n * 256 + b) / 256 == n && (n * 256 + b) % 256 == b
  {
  }

  lemma {:induction false} BigEndianEncodes(s: bytes)
    ensures BigEndian(FromBigEndian(s), |s|) == s
  {
    if s != [] {
      var init, last := s[..|s| - 1], s[|s| - 1];
      BigEndianEncodes(init);
      Split256(FromBigEndian(init), last);
      assert s == init + [last];
    }
  }

  lemma PowersOf256()
    ensures Pow256(0) == 1 && Pow256(1) == 0x100 && Pow256(2) == 0x1_0000
    ensures Pow256(4) == U32_MAX + 1 && Pow256(8) == U64_MAX + 1
  {
    assert Pow256(3) == 0x100_0000;
    assert Pow256(5) == 256 * Pow256(4);
    assert Pow256(6) == 256 * Pow256(5);
    assert Pow256(7) == 256 * Pow256(6);
  }

  /** The bytes of an ASCII literal. */
  function Ascii(text: string): (s: bytes)
    ensures |s| == |text|
    ensures forall i :: 0 <= i < |s| ==> s[i] == (text[i] as int) % 256
  {
    seq(|text|, i requires 0 <= i < |text| => (text[i] as int) % 256)
  }

  /** Strict byte-wise order of equally long strings, as memcmp(a, b, n) < 0 decides it. */
  predicate LexLess(a: bytes, b: bytes)
    requires |a| == |b|
  {
    a != [] && (a[0] < b[0] || (a[0] == b[0] && LexLess(a[1..], b[1..])))
  }

  /** The length-first order that section 4.2.3 of RFC 8949 gives to map keys. */
  predicate LengthFirstLess(a: bytes, b: bytes) {
    |a| < |b| || (|a| == |b| && LexLess(a, b))
  }

  lemma {:induction false} LexTotal(a: bytes, b: bytes)
    requires |a| == |b|
    ensures LexLess(a, b) || LexLess(b, a) || a == b
    ensures !(LexLess(a, b) && LexLess(b, a))
    ensures a == b ==> !LexLess(a, b)
  {
    if a != [] {
      LexTotal(a[1..], b[1..]);
      assert a == [a[0]] + a[1..] && b == [b[0]] + b[1..];
    }
  }

  lemma {:induction false} LexTransitive(a: bytes, b: bytes, c: bytes)
    requires |a| == |b| == |c| && LexLess(a, b) && LexLess(b, c)
    ensures LexLess(a, c)
  {
    if a[0] == b[0] && b[0] == c[0] {
      LexTransitive(a[1..], b[1..], c[1..]);
    }
  }

  lemma LengthFirstTotal(a: bytes, b: bytes)
    ensures LengthFirstLess(a, b) || LengthFirstLess(b, a) || a == b
    ensures !(LengthFirstLess(a, b) && LengthFirstLess(b, a))
    ensures a == b ==> !LengthFirstLess(a, b)
  {
    if |a| == |b| {
      LexTotal(a, b);
    }
  }

  lemma LengthFirstTransitive(a: bytes, b: bytes, c: bytes)
    requires LengthFirstLess(a, b) && LengthFirstLess(b, c)
    ensures LengthFirstLess(a, c)
  {
    if |a| == |b| == |c| {
      LexTransitive(a, b, c);
    }
  }

  /** A common prefix does not change the order of equally long strings. */
  lemma {:induction false} LexPrefix(p: bytes, a: bytes, b: bytes)
    requires |a| == |b|
    ensures LexLess(p + a, p + b) == LexLess(a, b)
  {
    if p == [] {
      assert p + a == a && p + b == b;
    } else {
      LexPrefix(p[1..], a, b);
      assert (p + a)[1..] == p[1..] + a && (p + b)[1..] == p[1..] + b;
    }
  }

  lemma Reassociate(a: bytes, b: bytes, c: bytes, d: bytes, e: bytes, t: bytes)
    ensures a + (b + (c + (d + (e + t)))) == a + b + c + d + e + t
  {
    assert d + (e + t) == d + e + t;
    assert c + (d + e + t) == c + d + e + t;
    assert b + (c + d + e + t) == b + c + d + e + t;
  }

  lemma Reassociate9(a: bytes, b: bytes, c: bytes, d: bytes, e: bytes, f: bytes, g: bytes, h: bytes, i: bytes, t: bytes)
    ensures a + (b + (c + (d + (e + (f + (g + (h + (i + t)))))))) == [] + a + b + c + d + e + f + g + h + i + t
  {
    Reassociate([] + a, b, c, d, e, f + (g + (h + (i + t))));
    Reassociate([] + a + b + c + d + e, f, g, h, i, t);
    assert [] + a == a;
  }

  lemma Reassociate12(a: bytes, b: bytes, c: bytes, d: bytes, e: bytes, f: bytes, g: bytes, h: bytes, i: bytes, j: bytes,
                      k: bytes, l: bytes, t: bytes)
    ensures a + (b + (c + (d + (e + (f + (g + (h + (i + (j + (k + (l + t)))))))))))
            == [] + a + b + c + d + e + f + g + h + i + j + k + l + t
  {
    var t2 := j + (k + (l + t));
    var t1 := f + (g + (h + (i + t2)));
    Reassociate([] + a, b, c, d, e, t1);
    Reassociate([] + a + b + c + d + e, f, g, h, i, t2);
    Reassociate([] + a + b + c + d + e + f + g + h + i, j, k, l, t, []);
    assert t + [] == t;
    assert [] + a == a;
  }
}
