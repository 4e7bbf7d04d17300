/** The host codec as it runs: an output buffer that grows and an offset that moves. */
module GoCursor {
  import opened Bytes
  import opened CborHead
  import opened CborItem
  import opened CborCursor
  import opened GoCodec

  /** writeTypeLen. */
  method WriteTypeLen(buf: bytes, major: nat, n: u64) returns (out: bytes)
    requires major < 8
    ensures out == buf + HeadBytes(major, n)
  {
    PowersOf256();
    var head := major * 32;
    if n < 24 {
      out := buf + [head + n];
      assert HeadBytes(major, n) == [head + n];
    } else if n <= 0xff {
      out := buf + [head + 24] + BigEndian(n, 1);
    } else if n <= 0xffff {
      out := buf + [head + 25] + BigEndian(n, 2);
    } else if n <= U32_MAX {
      out := buf + [head + 26] + BigEndian(n, 4);
    } else {
      out := buf + [head + 27] + BigEndian(n, 8);
    }
  }

  /** The keys of a map, in whatever order the runtime yields them. */
  method CollectKeys(fields: map<blob, Value>) returns (keys: seq<blob>)
    ensures Elements(keys) == fields.Keys && |keys| == |fields|
  {
    var left := fields.Keys;
    keys := [];
    while left != {}
      invariant left <= fields.Keys && Elements(keys) == fields.Keys - left && |keys| + |left| == |fields|
      decreases |left|
    {
      var k: blob :| k in left;
      assert Elements(keys + [k]) == Elements(keys) + {k};
      keys := keys + [k];
      left := left - {k};
    }
  }

  predicate Weakly(keys: seq<blob>) {
    forall i, j :: 0 <= i < j < |keys| ==> !LengthFirstLess(keys[j], keys[i])
  }

  /** sort.Slice by length, then bytewise; written as an insertion sort. */
  method SortByLength(keys: seq<blob>) returns (sorted: seq<blob>)
    ensures Weakly(sorted) && multiset(sorted) == multiset(keys)
  {
    sorted := [];
    for i := 0 to |keys|
      invariant Weakly(sorted) && multiset(sorted) == multiset(keys[..i])
    {
      assert keys[..i + 1] == keys[..i] + [keys[i]];
      sorted := Insert(sorted, keys[i]);
    }
    assert keys[..|keys|] == keys;
  }

  method Insert(sorted: seq<blob>, k: blob) returns (r: seq<blob>)
    requires Weakly(sorted)
    ensures Weakly(r) && multiset(r) == multiset(sorted) + multiset{k}
  {
    var i := 0;
    while i < |sorted| && LengthFirstLess(sorted[i], k)
      invariant i <= |sorted|
      invariant forall j :: 0 <= j < i ==> LengthFirstLess(sorted[j], k)
    {
      i := i + 1;
    }
    r := sorted[..i] + [k] + sorted[i..];
    InsertKeepsOrder(sorted, k, i);
    assert sorted == sorted[..i] + sorted[i..];
  }

  lemma InsertKeepsOrder(sorted: seq<blob>, k: blob, i: nat)
    requires Weakly(sorted) && i <= |sorted|
    requires forall j :: 0 <= j < i ==> LengthFirstLess(sorted[j], k)
    requires i < |sorted| ==> !LengthFirstLess(sorted[i], k)
    ensures Weakly(sorted[..i] + [k] + sorted[i..])
  {
    hide LengthFirstLess;
    forall j | 0 <= j < |sorted|
      ensures if j < i then !LengthFirstLess(k, sorted[j]) else !LengthFirstLess(sorted[j], k)
    {
      LengthFirstTotal(k, sorted[j]);
      if j > i {
        LengthFirstTotal(sorted[i], sorted[j]);
        if LengthFirstLess(sorted[j], k) {
          LengthFirstTotal(sorted[i], k);
          if sorted[i] != sorted[j] {
            LengthFirstTransitive(sorted[i], sorted[j], k);
          }
        }
      }
    }
  }

  lemma DistinctSorted(collected: seq<blob>, sorted: seq<blob>, fields: map<blob, Value>)
    requires Elements(collected) == fields.Keys && |collected| == |fields|
    requires Weakly(sorted) && multiset(sorted) == multiset(collected)
    ensures sorted == SortKeys(fields.Keys)
  {
    hide LengthFirstLess, SortKeys;
    assert |sorted| == |multiset(sorted)| == |collected|;
    assert forall k :: k in sorted <==> k in multiset(sorted);
    assert forall k :: k in collected <==> k in multiset(collected);
    assert Elements(sorted) == fields.Keys;
    NoRepeats(sorted);
    forall i, j | 0 <= i < j < |sorted|
      ensures LengthFirstLess(sorted[i], sorted[j])
    {
      LengthFirstTotal(sorted[i], sorted[j]);
    }
    SortedUnique(sorted, SortKeys(fields.Keys));
  }

  /** As many elements as places: all different. */
  lemma {:induction false} NoRepeats(keys: seq<blob>)
    requires |Elements(keys)| == |keys|
    ensures forall i, j :: 0 <= i < j < |keys| ==> keys[i] != keys[j]
  {
    if keys != [] {
      var rest := keys[1..];
      assert Elements(keys) == Elements(rest) + {keys[0]};
      FewElements(rest);
      assert keys[0] !in Elements(rest);
      NoRepeats(rest);
      forall i, j | 0 <= i < j < |keys|
        ensures keys[i] != keys[j]
      {
        if i == 0 {
          assert keys[j] == rest[j - 1];
        } else {
          assert keys[i] == rest[i - 1] && keys[j] == rest[j - 1];
        }
      }
    }
  }

  lemma {:induction false} FewElements(keys: seq<blob>)
    ensures |Elements(keys)| <= |keys|
  {
    if keys != [] {
      assert Elements(keys) == Elements(keys[1..]) + {keys[0]};
      FewElements(keys[1..]);
    }
  }

  // ----- writing -----

  /** writeValue. Whatever order the runtime yields map keys in, the bytes are those of the value. */
  method WriteValue(buf: bytes, v: Value) returns (ok: bool, out: bytes)
    requires Sized(v)
    ensures ok == Known(v)
    ensures ok ==> out == buf + EncodeValue(v)
    decreases v, 2, 0
  {
    hide HeadBytes, SortKeys, ToItems, ToEntries;
    ok, out := true, buf;
    match v
    case Null => out := buf + [0xf6];
    case Bool(b) => out := buf + [if b then 0xf5 else 0xf4];
    case Int(i) => out := WriteInt(buf, i);
    case Uint(u) => out := WriteTypeLen(buf, 0, u);
    case Text(text) => out := WriteText(buf, text);
    case Bytes(b) =>
      out := WriteTypeLen(buf, 2, |b|);
      out := out + b;
    case Array(items) =>
      out := WriteTypeLen(buf, 4, |items|);
      ok, out := WriteItems(out, items);
    case Object(fields) =>
      var keys := CollectKeys(fields);
      var sorted := SortByLength(keys);
      DistinctSorted(keys, sorted, fields);
      SortedKeysAreFields(v);
      out := WriteTypeLen(buf, 5, |sorted|);
      ok, out := WriteFields(out, v, sorted);
    case Other => ok := false;
  }

  /** writeInt. */
  method WriteInt(buf: bytes, i: int64) returns (out: bytes)
    ensures out == buf + EncodeValue(Int(i))
  {
    hide HeadBytes;
    if i >= 0 {
      out := WriteTypeLen(buf, 0, i);
    } else {
      out := WriteTypeLen(buf, 1, -1 - i);
    }
  }

  method WriteText(buf: bytes, text: blob) returns (out: bytes)
    ensures out == buf + EncodeValue(Text(text))
  {
    hide HeadBytes;
    out := WriteTypeLen(buf, 3, |text|);
    out := out + text;
  }

  method WriteItems(buf: bytes, items: seq<Value>) returns (ok: bool, out: bytes)
    requires AllSized(items)
    ensures ok == AllKnown(items)
    ensures ok ==> out == buf + EncodedItems(items)
    decreases items, 3, 0
  {
    hide EncodeValue, EncodedItems, Known, Sized;
    ok, out := true, buf;
    for i := 0 to |items|
      invariant ok && AllSized(items[i..]) && AllKnown(items) == AllKnown(items[i..])
      invariant AllKnown(items) ==> out + EncodedItems(items[i..]) == buf + EncodedItems(items)
    {
      ghost var rest := items[i..];
      assert rest[0] == items[i] && rest[1..] == items[i + 1..];
      ghost var before := out;
      ok, out := WriteValue(out, items[i]);
      if !ok {
        return;
      }
      if AllKnown(items) {
        ItemsStep(rest);
        assert before + (EncodeValue(rest[0]) + EncodedItems(rest[1..])) == out + EncodedItems(rest[1..]);
      }
    }
    NoEncodedItems();
  }

  lemma NoEncodedItems()
    ensures EncodedItems([]) == []
  {
  }

  method WriteFields(buf: bytes, v: Value, keys: seq<blob>) returns (ok: bool, out: bytes)
    requires v.Object? && Sized(v) && forall k :: k in keys <==> k in v.fields
    ensures ok == Known(v)
    ensures ok ==> out == buf + EncodedFields(v, keys)
    decreases v, 1, 0
  {
    hide EncodeValue, EncodedFields;
    ok, out := true, buf;
    for i := 0 to |keys|
      invariant ok && forall j :: 0 <= j < i ==> Known(v.fields[keys[j]])
      invariant Known(v) ==> out + EncodedFields(v, keys[i..]) == buf + EncodedFields(v, keys)
    {
      ghost var rest := keys[i..];
      assert rest[0] == keys[i] && rest[1..] == keys[i + 1..];
      ghost var before := out;
      out := WriteText(out, keys[i]);
      ok, out := WriteValue(out, v.fields[keys[i]]);
      if !ok {
        return;
      }
      if Known(v) {
        FieldsStep(v, rest);
        var a, b, c := EncodeValue(Text(rest[0])), EncodeValue(v.fields[rest[0]]), EncodedFields(v, rest[1..]);
        assert before + (a + b + c) == before + a + b + c;
      }
    }
    assert forall k :: k in v.fields ==> Known(v.fields[k]) by {
      forall k | k in v.fields
        ensures Known(v.fields[k])
      {
        assert k in keys;
      }
    }
    NoEncodedFields(v);
  }

  lemma NoEncodedFields(v: Value)
    requires v.Object? && Sized(v) && Known(v)
    ensures EncodedFields(v, []) == []
  {
  }

  // ----- reading -----

  /** decoder.value. */
  method ValueAt(b: bytes, start: nat) returns (ok: bool, v: Value, off: nat)
    requires start <= |b|
    ensures off <= |b|
    ensures Decode(b[start..]) == if ok then Ok(v, b[off..]) else Fail
    decreases |b| - start, 0
  {
    hide ReadHead, DecodeMany, DecodeFields;
    var major, info, n;
    v := Null;
    ok, major, info, n, off := HeadAt(b, start);
    if !ok {
      return;
    }
    match major
    case 0 => v := Value.Uint(n);
    case 1 => v := Int(NegativeOf(n));
    case 2 =>
      ok := n <= |b| - off;
      if ok {
        Suffix(b, off, n);
        assert b[off..][..n] == b[off..off + n];
        v, off := Bytes(b[off..off + n]), off + n;
      }
    case 3 =>
      ok := n <= |b| - off;
      if ok {
        Suffix(b, off, n);
        assert b[off..][..n] == b[off..off + n];
        v, off := Text(b[off..off + n]), off + n;
      }
    case 4 =>
      var items;
      ok, items, off := ItemsAt(b, off, n);
      v := Array(items);
    case 5 =>
      var fields;
      ok, fields, off := FieldsAt(b, off, n);
      v := Object(fields);
    case 7 =>
      ok := 20 <= info <= 22;
      v := if info == 22 then Null else Bool(info == 21);
    case _ => ok := false;
  }

  /** The initial byte and readLen. */
  method HeadAt(b: bytes, start: nat) returns (ok: bool, major: nat, info: nat, n: u64, off: nat)
    requires start <= |b|
    ensures start <= off <= |b| && (ok ==> start < off)
    ensures ReadHead(b[start..]) == if ok then Ok(Head(major, info, n), b[off..]) else Fail
  {
    hide FromBigEndian;
    ok, major, info, n, off := false, 0, 0, 0, start;
    if start >= |b| {
      return;
    }
    major, info, off := b[start] / 32, b[start] % 32, start + 1;
    Suffix(b, start, 1);
    if info < 24 {
      return true, major, info, info, off;
    }
    var width := if info == 24 then 1 else if info == 25 then 2 else if info == 26 then 4 else 8;
    if info > 27 || off + width > |b| {
      return;
    }
    Suffix(b, start, 1 + width);
    assert b[start..][1..1 + width] == b[off..off + width];
    PowersOf256();
    return true, major, info, FromBigEndian(b[off..off + width]), off + width;
  }

  method ItemsAt(b: bytes, start: nat, n: nat) returns (ok: bool, items: seq<Value>, off: nat)
    requires start <= |b|
    ensures off <= |b|
    ensures DecodeMany(b[start..], n) == if ok then Ok(items, b[off..]) else Fail
    decreases |b| - start, 1
  {
    hide Decode;
    ok, items, off := true, [], start;
    ghost var whole := DecodeMany(b[start..], n);
    assert whole.Ok? ==> [] + whole.value == whole.value;
    var i := 0;
    while i < n
      invariant start <= off <= |b| && i <= n && ok
      invariant var p := DecodeMany(b[off..], n - i); whole == if p.Ok? then Ok(items + p.value, p.rest) else Fail
    {
      var v;
      ok, v, off := ValueAt(b, off);
      if !ok {
        return;
      }
      ghost var p := DecodeMany(b[off..], n - i - 1);
      assert p.Ok? ==> items + ([v] + p.value) == items + [v] + p.value;
      items := items + [v];
      i := i + 1;
    }
    assert items + [] == items;
  }

  method FieldsAt(b: bytes, start: nat, n: nat) returns (ok: bool, fields: map<blob, Value>, off: nat)
    requires start <= |b|
    ensures off <= |b|
    ensures DecodeFields(b[start..], n, map[]) == if ok then Ok(fields, b[off..]) else Fail
    decreases |b| - start, 1
  {
    hide Decode;
    ok, fields, off := true, map[], start;
    ghost var whole := DecodeFields(b[start..], n, map[]);
    var i := 0;
    while i < n
      invariant start <= off <= |b| && i <= n && ok
      invariant whole == DecodeFields(b[off..], n - i, fields)
    {
      var k, v;
      ok, k, off := ValueAt(b, off);
      if !ok || !k.Text? {
        ok := false;
        return;
      }
      ok, v, off := ValueAt(b, off);
      if !ok {
        return;
      }
      fields := fields[k.text := v];
      i := i + 1;
    }
  }
}
