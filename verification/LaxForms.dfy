/** Exactly what the host's decoder accepts: the forms of readable items, with heads of any width. */
module LaxForms {
  import opened Bytes
  import opened CborHead
  import opened CborItem
  import opened GoCodec
  import opened LaxDecode

  /** The bytes are a form of the item followed by t; every head may be wider than it need be. */
  ghost predicate Forms(v: Item, s: bytes, t: bytes)
    decreases v, 0
  {
    var h := ReadHead(s);
    h.Ok? && var Head(major, info, n) := h.value;
             match v
             case Uint(k) => major == 0 && n == k && h.rest == t
             case Nint(k) => major == 1 && n == k && h.rest == t
             case Bstr(b) => major == 2 && n == |b| && h.rest == b + t
             case Tstr(b) => major == 3 && n == |b| && h.rest == b + t
             case Arr(items) => major == 4 && n == |items| && AllForm(items, h.rest, t)
             case Map(entries) => major == 5 && 2 * n == |entries| && AllForm(entries, h.rest, t)
             case Simple(k) => major == 7 && info == k < 24 && h.rest == t
             case _ => false
  }

  ghost predicate AllForm(vs: seq<Item>, s: bytes, t: bytes)
    decreases vs, 1
  {
    if vs == [] then s == t else exists mid :: Forms(vs[0], s, mid) && AllForm(vs[1..], mid, t)
  }

  // ----- every form is read -----

  lemma {:induction false} FormDecodes(v: Item, s: bytes, t: bytes)
    requires Readable(v) && Forms(v, s, t)
    ensures Decode(s) == Ok(FromItem(v), t)
    decreases v, 0
  {
    hide ReadHead, AllForm, FromItems, FromEntries, AllReadable, EntriesReadable, DecodeMany, DecodeFields;
    var h := ReadHead(s);
    match v
    case Arr(items) => ItemFormsDecode(items, h.rest, t);
    case Map(entries) => EntryFormsDecode(entries, h.rest, t, map[]);
    case Bstr(b) => assert (b + t)[..|b|] == b && (b + t)[|b|..] == t;
    case Tstr(b) => assert (b + t)[..|b|] == b && (b + t)[|b|..] == t;
    case _ =>
  }

  lemma {:induction false} ItemFormsDecode(vs: seq<Item>, s: bytes, t: bytes)
    requires AllReadable(vs) && AllForm(vs, s, t)
    ensures DecodeMany(s, |vs|) == Ok(FromItems(vs), t)
    decreases vs, 1
  {
    hide Forms, Readable, FromItem, Decode;
    if vs != [] {
      var mid :| Forms(vs[0], s, mid) && AllForm(vs[1..], mid, t);
      FormDecodes(vs[0], s, mid);
      ItemFormsDecode(vs[1..], mid, t);
    }
  }

  lemma {:induction false} EntryFormsDecode(es: seq<Item>, s: bytes, t: bytes, seen: map<blob, Value>)
    requires EntriesReadable(es) && |es| % 2 == 0 && AllForm(es, s, t)
    ensures DecodeFields(s, |es| / 2, seen) == Ok(FromEntries(es, seen), t)
    decreases es, 1
  {
    hide Forms, Readable, FromItem, Decode, AllForm;
    if es == [] {
      NoForm(s, t);
    } else {
      var mid := FirstForm(es, s, t);
      var end := FirstForm(es[1..], mid, t);
      assert es[1..][0] == es[1] && es[1..][1..] == es[2..];
      KeyDecodes(es[0], s, mid);
      FormDecodes(es[1], mid, end);
      EntryFormsDecode(es[2..], end, t, seen[es[0].b := FromItem(es[1])]);
    }
  }

  lemma NoForm(s: bytes, t: bytes)
    requires AllForm([], s, t)
    ensures s == t
  {
  }

  lemma FirstForm(vs: seq<Item>, s: bytes, t: bytes) returns (mid: bytes)
    requires vs != [] && AllForm(vs, s, t)
    ensures Forms(vs[0], s, mid) && AllForm(vs[1..], mid, t)
  {
    hide Forms;
    mid :| Forms(vs[0], s, mid) && AllForm(vs[1..], mid, t);
  }

  lemma KeyDecodes(k: Item, s: bytes, t: bytes)
    requires k.Tstr? && Forms(k, s, t)
    ensures Decode(s) == Ok(Text(k.b), t)
  {
    hide ReadHead;
    assert (k.b + t)[..|k.b|] == k.b && (k.b + t)[|k.b|..] == t;
  }

  // ----- and nothing else -----

  /** An item the bytes are a form of. */
  lemma {:induction false} FormOf(s: bytes) returns (v: Item)
    requires Decode(s).Ok?
    ensures Readable(v) && Forms(v, s, Decode(s).rest) && FromItem(v) == Decode(s).value
    ensures Decode(s).value.Text? ==> v.Tstr? && v.b == Decode(s).value.text
    decreases |s|, 0
  {
    hide ReadHead, AllForm, FromItems, FromEntries, AllReadable, EntriesReadable, DecodeMany, DecodeFields;
    var h := ReadHead(s);
    var Head(major, info, n) := h.value;
    match major
    case 0 => v := Item.Uint(n);
    case 1 => v := Nint(n);
    case 2 =>
      v := Bstr(h.rest[..n]);
      assert h.rest == h.rest[..n] + h.rest[n..];
    case 3 =>
      v := Tstr(h.rest[..n]);
      assert h.rest == h.rest[..n] + h.rest[n..];
    case 4 =>
      var items := FormsOf(h.rest, n);
      v := Arr(items);
    case 5 =>
      var entries := EntriesOf(h.rest, n, map[]);
      v := Map(entries);
    case 7 => v := Simple(info);
  }

  lemma {:induction false} FormsOf(s: bytes, n: nat) returns (vs: seq<Item>)
    requires DecodeMany(s, n).Ok?
    ensures |vs| == n && AllReadable(vs) && AllForm(vs, s, DecodeMany(s, n).rest) && FromItems(vs) == DecodeMany(s, n).value
    decreases |s|, 1
  {
    hide Forms, Readable, FromItem, Decode;
    if n == 0 {
      vs := [];
    } else {
      var first := FormOf(s);
      var d := Decode(s);
      var tail := FormsOf(d.rest, n - 1);
      vs := [first] + tail;
      assert vs[0] == first && vs[1..] == tail;
      assert Forms(vs[0], s, d.rest) && AllForm(vs[1..], d.rest, DecodeMany(s, n).rest);
    }
  }

  lemma {:induction false} EntriesOf(s: bytes, n: nat, seen: map<blob, Value>) returns (es: seq<Item>)
    requires DecodeFields(s, n, seen).Ok?
    ensures |es| == 2 * n && EntriesReadable(es) && AllForm(es, s, DecodeFields(s, n, seen).rest)
    ensures FromEntries(es, seen) == DecodeFields(s, n, seen).value
    decreases |s|, 1
  {
    hide Forms, Readable, FromItem, Decode;
    if n == 0 {
      es := [];
    } else {
      var k := Decode(s);
      var key := FormOf(s);
      var d := Decode(k.rest);
      var x := FormOf(k.rest);
      var tail := EntriesOf(d.rest, n - 1, seen[k.value.text := d.value]);
      es := [key, x] + tail;
      assert es[0] == key && es[1] == x && es[2..] == tail && es[1..][0] == x && es[1..][1..] == tail;
      var end := DecodeFields(s, n, seen).rest;
      assert Forms(es[1..][0], k.rest, d.rest) && AllForm(es[1..][1..], d.rest, end);
      assert Forms(es[0], s, k.rest) && AllForm(es[1..], k.rest, end);
    }
  }

  /**
   * The decoder reads a value exactly when the bytes are a form of an item without tags and floats, whose simple values are
   * false, true and null and whose keys are texts; the value is that item's, the last of equal keys winning.
   */
  lemma DecodeIff(s: bytes, x: Value, t: bytes)
    ensures Decode(s) == Ok(x, t) <==> exists v: Item :: Readable(v) && Forms(v, s, t) && FromItem(v) == x
  {
    hide Decode, Forms, Readable, FromItem;
    if Decode(s) == Ok(x, t) {
      var v := FormOf(s);
    }
    if exists v: Item :: Readable(v) && Forms(v, s, t) && FromItem(v) == x {
      var v: Item :| Readable(v) && Forms(v, s, t) && FromItem(v) == x;
      FormDecodes(v, s, t);
    }
  }

  /** The whole input must be one such form. */
  lemma DecodeValueIff(s: bytes, x: Value)
    ensures DecodeValue(s) == Some(x) <==> exists v: Item :: Readable(v) && Forms(v, s, []) && FromItem(v) == x
  {
    hide Decode, Forms, Readable, FromItem;
    DecodeIff(s, x, []);
  }
}
