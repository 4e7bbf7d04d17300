/** The cursor forms of the lax CBOR readers and of the three skippers. */
module CborCursor {
  import opened Bytes
  import opened CborHead
  import opened CborItem

  lemma Suffix(buf: bytes, off: nat, k: nat)
    requires off <= |buf| && k <= |buf| - off
    ensures buf[off..][k..] == buf[off + k..]
    ensures forall i :: 0 <= i < k ==> buf[off..][i] == buf[off + i]
  {
  }

  /** (hi << 8) | lo. */
  function Join(hi: nat, lo: byte): nat { hi * 256 + lo }

  lemma ShortNumbers(s: bytes)
    ensures |s| == 1 ==> FromBigEndian(s) == s[0]
    ensures |s| == 2 ==> FromBigEndian(s) == Join(s[0], s[1])
    ensures |s| == 4 ==> FromBigEndian(s) == Join(Join(Join(s[0], s[1]), s[2]), s[3])
  {
    if |s| == 2 {
      assert s[..1][..0] == [];
    } else if |s| == 4 {
      assert s[..3][..2] == s[..2] && s[..2][..1] == s[..1] && s[..1][..0] == [];
    }
  }

  /** twep_wr_cbor_read_head and cbor::head: arguments of at most four bytes, spelled out byte by byte. */
  method ReadHeadAt(buf: bytes, start: nat) returns (ok: bool, major: nat, value: u64, off: nat)
    requires start <= |buf|
    ensures off <= |buf|
    ensures var h := ReadHead(buf[start..]);
            if ok then h.Ok? && h.value.major == major && h.value.info < 27 && h.value.value == value && h.rest == buf[off..]
            else h.Fail? || h.value.info == 27
  {
    ok, major, value, off := false, 0, 0, start;
    if off >= |buf| {
      return;
    }
    var head := buf[off];
    off := off + 1;
    major := head / 32;
    var add := head % 32;
    ghost var s := buf[start..];
    Suffix(buf, start, 1);
    if add < 24 {
      return true, major, add, off;
    }
    var n := if add == 24 then 1 else if add == 25 then 2 else 4;
    if add > 26 || off + n > |buf| {
      return;
    }
    Suffix(buf, start, 1 + n);
    ShortNumbers(s[1..1 + n]);
    if n == 1 {
      value := buf[off];
    } else if n == 2 {
      value := Join(buf[off], buf[off + 1]);
    } else {
      value := Join(Join(Join(buf[off], buf[off + 1]), buf[off + 2]), buf[off + 3]);
    }
    off := off + n;
    ok := true;
  }

  /** cbor_read_len of the trusted application: a loop over up to eight argument bytes. */
  method ReadLenAt(buf: bytes, major: nat, start: nat) returns (ok: bool, value: u64, off: nat)
    requires start <= |buf|
    ensures off <= |buf|
    ensures var h := ReadHead(buf[start..]);
            if ok then h.Ok? && h.value.major == major && h.value.value == value && h.rest == buf[off..]
            else h.Fail? || h.value.major != major
  {
    ok, value, off := false, 0, start;
    if off >= |buf| {
      return;
    }
    var initial := buf[off];
    off := off + 1;
    ghost var s := buf[start..];
    Suffix(buf, start, 1);
    if initial / 32 != major {
      return;
    }
    var ai := initial % 32;
    if ai < 24 {
      return true, ai, off;
    }
    if ai > 27 {
      return;
    }
    var needed := if ai == 24 then 1 else if ai == 25 then 2 else if ai == 26 then 4 else 8;
    if needed > |buf| - off {
      return;
    }
    var out: nat := 0;
    for i := 0 to needed
      invariant off == start + 1 + i
      invariant out == FromBigEndian(s[1..1 + i])
    {
      assert s[1..2 + i][..i] == s[1..1 + i];
      out := Join(out, buf[off]);
      off := off + 1;
    }
    Suffix(buf, start, 1 + needed);
    PowersOf256();
    return true, out, off;
  }

  /** twep_wr_cbor_skip_value. The depth is only a label: this skipper has no depth limit. */
  method SkipValueAt(buf: bytes, start: nat, ghost depth: nat) returns (ok: bool, off: nat)
    requires start <= |buf|
    ensures off <= |buf|
    ensures Skip(C_SKIP, buf[start..], depth) == if ok then Some(buf[off..]) else None
    decreases |buf| - start
  {
    hide ReadHead;
    var major, value;
    ok, major, value, off := ReadHeadAt(buf, start);
    if !ok {
      return;
    }
    if major == 0 || major == 1 || major == 7 {
      return;
    }
    if major == 2 || major == 3 {
      if value > |buf| - off {
        ok := false;
        return;
      }
      Suffix(buf, off, value);
      off := off + value;
      return;
    }
    if major == 6 {
      ok := false;
      return;
    }
    var n := if major == 4 then value else 2 * value;
    ghost var whole := SkipMany(C_SKIP, buf[off..], n, depth + 1);
    var i := 0;
    while i < n
      invariant start < off <= |buf| && i <= n
      invariant whole == SkipMany(C_SKIP, buf[off..], n - i, depth + 1)
    {
      ok, off := SkipValueAt(buf, off, depth + 1);
      if !ok {
        return;
      }
      i := i + 1;
    }
    ok := true;
  }

  /** cbor::skip of the agent, which also passes over tags. */
  method SkipAgentAt(buf: bytes, start: nat, ghost depth: nat) returns (ok: bool, off: nat)
    requires start <= |buf|
    ensures off <= |buf|
    ensures Skip(RUST_SKIP, buf[start..], depth) == if ok then Some(buf[off..]) else None
    decreases |buf| - start
  {
    hide ReadHead;
    var major, value;
    ok, major, value, off := ReadHeadAt(buf, start);
    if !ok || major <= 1 || major == 7 {
      return;
    }
    if major <= 3 {
      if value > |buf| - off {
        ok := false;
        return;
      }
      Suffix(buf, off, value);
      off := off + value;
      return;
    }
    if major == 6 {
      ok, off := SkipAgentAt(buf, off, depth + 1);
      return;
    }
    var n := if major == 4 then value else 2 * value;
    ghost var whole := SkipMany(RUST_SKIP, buf[off..], n, depth + 1);
    var i := 0;
    while i < n
      invariant start < off <= |buf| && i <= n
      invariant whole == SkipMany(RUST_SKIP, buf[off..], n - i, depth + 1)
    {
      ok, off := SkipAgentAt(buf, off, depth + 1);
      if !ok {
        return;
      }
      i := i + 1;
    }
    ok := true;
  }

  lemma InitialByte(s: bytes)
    requires s != []
    ensures var h := ReadHead(s); h.Ok? ==> h.value.major == s[0] / 32 && h.value.info == s[0] % 32
    ensures s[0] % 32 < 24 ==> ReadHead(s).Ok? && ReadHead(s).rest == s[1..]
  {
  }

  /** cbor_skip_item of the trusted application. */
  method SkipItemAt(buf: bytes, start: nat, depth: nat) returns (ok: bool, off: nat)
    requires start <= |buf|
    ensures off <= |buf|
    ensures Skip(TA_SKIP, buf[start..], depth) == if ok then Some(buf[off..]) else None
    decreases |buf| - start
  {
    hide ReadHead;
    ok, off := false, start;
    if depth > 8 || off >= |buf| {
      return;
    }
    var major, ai := buf[off] / 32, buf[off] % 32;
    Suffix(buf, start, 1);
    InitialByte(buf[start..]);
    if major == 6 {
      return;
    }
    if major == 7 {
      if 20 <= ai <= 23 {
        ok, off := true, off + 1;
      }
      return;
    }
    var n;
    ok, n, off := ReadLenAt(buf, major, start);
    if !ok || major <= 1 {
      return;
    }
    if major <= 3 {
      if n > |buf| - off {
        ok := false;
        return;
      }
      Suffix(buf, off, n);
      off := off + n;
      return;
    }
    var count := if major == 4 then n else 2 * n;
    ghost var whole := SkipMany(TA_SKIP, buf[off..], count, depth + 1);
    var i := 0;
    while i < count
      invariant start < off <= |buf| && i <= count
      invariant whole == SkipMany(TA_SKIP, buf[off..], count - i, depth + 1)
    {
      ok, off := SkipItemAt(buf, off, depth + 1);
      if !ok {
        return;
      }
      i := i + 1;
    }
    ok := true;
  }
}
