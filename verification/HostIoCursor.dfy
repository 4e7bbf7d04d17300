/** The two loops over a host answer, on its bytes. */
module HostIoCursor {
  import opened Bytes
  import opened CborHead
  import opened CborItem
  import opened CborCursor
  import opened HostIoResult
  import opened Tee

  method ReadViewAt(buf: bytes, major: nat, start: nat) returns (ok: bool, value: bytes, off: nat)
    requires start <= |buf|
    ensures off <= |buf|
    ensures ReadView(buf[start..], major) == if ok then Ok(value, buf[off..]) else Fail
  {
    hide ReadHead;
    var n;
    ok, n, off := ReadLenAt(buf, major, start);
    value := [];
    if !ok || n > |buf| - off {
      ok := false;
      return;
    }
    Suffix(buf, off, n);
    value := buf[off..off + n];
    assert buf[off..][..n] == value;
    off := off + n;
  }

  method CheckFieldAt(buf: bytes, key: bytes, p: Pending, f: Flags, start: nat) returns (ok: bool, g: Flags, off: nat)
    requires start <= |buf|
    ensures off <= |buf|
    ensures CheckField(buf[start..], key, p, f) == if ok then Ok(g, buf[off..]) else Fail
  {
    hide ReadHead, Skip, ReadView, Ascii, KindText;
    g := f;
    if key == Ascii("io_id") || key == Ascii("kind") {
      var v;
      ok, v, off := ReadViewAt(buf, 3, start);
      ok := ok && v != [];
      g := if key == Ascii("io_id") then f.(ioId := v == p.ioId) else f.(kind := v == KindText(p.kind));
    } else if key == Ascii("status") || key == Ascii("sequence") {
      var v;
      ok, v, off := ReadLenAt(buf, 0, start);
      g := if key == Ascii("status") then f.(status := v == 0) else f.(sequence := v == p.sequence);
    } else if key == Ascii("request_body_sha256") {
      var v;
      ok, v, off := ReadViewAt(buf, 2, start);
      g := f.(bodySha := v == p.bodySha);
    } else if key == Ascii("normalized_input_sha256") {
      var v;
      ok, v, off := ReadViewAt(buf, 2, start);
      g := f.(inputSha := v == p.inputSha);
    } else {
      ok, off := SkipItemAt(buf, start, 0);
    }
  }

  /** host_io_result_ok: six flags, each set again by every occurrence of its key. */
  method HostIoResultOk(result: bytes, p: Pending) returns (accepted: bool)
    ensures accepted == ResultOk(result, p)
  {
    hide ReadHead, ReadView, CheckField;
    assert result[0..] == result;
    var ok, count, off := ReadLenAt(result, 5, 0);
    if !ok {
      return false;
    }
    ghost var whole := CheckEntries(result[off..], count, p, NO_FLAGS);
    var f := NO_FLAGS;
    for i := 0 to count
      invariant 0 <= off <= |result|
      invariant whole == CheckEntries(result[off..], count - i, p, f)
    {
      var key;
      ok, key, off := ReadViewAt(result, 3, off);
      if !ok {
        return false;
      }
      ok, f, off := CheckFieldAt(result, key, p, f, off);
      if !ok {
        return false;
      }
    }
    return off == |result| && f == ALL_FLAGS;
  }

  method TakeFieldAt(buf: bytes, key: bytes, v: Views, start: nat) returns (ok: bool, w: Views, off: nat)
    requires start <= |buf|
    ensures off <= |buf|
    ensures TakeField(buf[start..], key, v) == if ok then Ok(w, buf[off..]) else Fail
  {
    hide ReadHead, Skip, ReadView, Ascii;
    w := v;
    var x;
    if key == Ascii("kind") {
      ok, x, off := ReadViewAt(buf, 3, start);
      ok := ok && x != [];
      w := v.(kind := x);
    } else if key == Ascii("response_body") {
      ok, x, off := ReadViewAt(buf, 2, start);
      w := v.(body := x);
    } else if key == Ascii("evidence") {
      ok, x, off := ReadViewAt(buf, 2, start);
      w := v.(evidence := x);
    } else {
      ok, off := SkipItemAt(buf, start, 0);
    }
  }

  /** parse_host_io_result_payload. */
  method ParseHostIoResultPayload(result: bytes) returns (r: Result<Recorded>)
    ensures r == ParsePayload(result)
  {
    hide ReadHead, ReadView, TakeField;
    assert result[0..] == result;
    var ok, count, off := ReadLenAt(result, 5, 0);
    if !ok {
      return Err(BadFormat);
    }
    var v := Views([], [], []);
    ghost var whole := TakeEntries(result[off..], count, v);
    for i := 0 to count
      invariant 0 <= off <= |result|
      invariant whole == TakeEntries(result[off..], count - i, v)
    {
      var key;
      ok, key, off := ReadViewAt(result, 3, off);
      if !ok {
        return Err(BadFormat);
      }
      ok, v, off := TakeFieldAt(result, key, v, off);
      if !ok {
        return Err(BadFormat);
      }
    }
    if off != |result| {
      return Err(BadFormat);
    }
    if v.kind == KindText(HttpPost) {
      return Done(Recorded(HttpPost, v.body));
    }
    if v.kind == KindText(CreateEvidence) {
      return Done(Recorded(CreateEvidence, v.evidence));
    }
    return Err(BadFormat);
  }
}
