/** Exactly what each skipper gets over: the forms of items within its profile. */
module SkipForms {
  import opened Bytes
  import opened CborHead
  import opened CborItem

  /** Within the profile: not too deep, tags only if it knows them, and of the simple values those it takes. */
  predicate Shape(p: Profile, v: Item, depth: nat)
    decreases v, 0
  {
    (p.limit.Some? ==> depth <= p.limit.value)
    && match v
       case Arr(items) => AllShape(p, items, depth + 1)
       case Map(entries) => AllShape(p, entries, depth + 1)
       case Tag(_, item) => p.tags && Shape(p, item, depth + 1)
       case Simple(n) => p.anySimple || 20 <= n <= 23
       case Float(_, _) => p.anySimple
       case _ => true
  }

  predicate AllShape(p: Profile, vs: seq<Item>, depth: nat)
    decreases vs, 1
  {
    vs == [] || (Shape(p, vs[0], depth) && AllShape(p, vs[1..], depth))
  }

  /** The bytes are a form of the item followed by t; heads may be wider than need be, of eight bytes only if the profile is. */
  ghost predicate FormsOn(p: Profile, v: Item, s: bytes, t: bytes)
    decreases v, 0
  {
    var h := ReadHead(s);
    h.Ok? && (h.value.info == 27 ==> p.wide)
    && var Head(major, info, n) := h.value;
       match v
       case Uint(k) => major == 0 && n == k && h.rest == t
       case Nint(k) => major == 1 && n == k && h.rest == t
       case Bstr(b) => major == 2 && n == |b| && h.rest == b + t
       case Tstr(b) => major == 3 && n == |b| && h.rest == b + t
       case Arr(items) => major == 4 && n == |items| && AllFormOn(p, items, h.rest, t)
       case Map(entries) => major == 5 && 2 * n == |entries| && AllFormOn(p, entries, h.rest, t)
       case Tag(k, item) => major == 6 && n == k && FormsOn(p, item, h.rest, t)
       case Simple(k) => major == 7 && (info == k < 24 || (info == 24 && n == k && p.anySimple)) && h.rest == t
       case Float(f, bits) => major == 7 && info == f >= 25 && h.rest == t && n == FromBigEndian(bits)
  }

  ghost predicate AllFormOn(p: Profile, vs: seq<Item>, s: bytes, t: bytes)
    decreases vs, 1
  {
    if vs == [] then s == t else exists mid :: FormsOn(p, vs[0], s, mid) && AllFormOn(p, vs[1..], mid, t)
  }

  lemma {:induction false} FormSkips(p: Profile, v: Item, s: bytes, t: bytes, depth: nat)
    requires Shape(p, v, depth) && FormsOn(p, v, s, t)
    ensures Skip(p, s, depth) == Some(t)
    decreases v, 0
  {
    hide ReadHead, AllFormOn, AllShape, SkipMany, FromBigEndian;
    var h := ReadHead(s);
    match v
    case Arr(items) => FormsSkip(p, items, h.rest, t, depth + 1);
    case Map(entries) => FormsSkip(p, entries, h.rest, t, depth + 1);
    case Tag(_, item) => FormSkips(p, item, h.rest, t, depth + 1);
    case Bstr(b) => assert (b + t)[|b|..] == t;
    case Tstr(b) => assert (b + t)[|b|..] == t;
    case _ =>
  }

  lemma FirstFormOn(p: Profile, vs: seq<Item>, s: bytes, t: bytes) returns (mid: bytes)
    requires vs != [] && AllFormOn(p, vs, s, t)
    ensures FormsOn(p, vs[0], s, mid) && AllFormOn(p, vs[1..], mid, t)
  {
    hide FormsOn;
    mid :| FormsOn(p, vs[0], s, mid) && AllFormOn(p, vs[1..], mid, t);
  }

  lemma {:induction false} FormsSkip(p: Profile, vs: seq<Item>, s: bytes, t: bytes, depth: nat)
    requires AllShape(p, vs, depth) && AllFormOn(p, vs, s, t)
    ensures SkipMany(p, s, |vs|, depth) == Some(t)
    decreases vs, 1
  {
    hide FormsOn, Shape, Skip;
    if vs != [] {
      var mid := FirstFormOn(p, vs, s, t);
      FormSkips(p, vs[0], s, mid, depth);
      FormsSkip(p, vs[1..], mid, t, depth);
    }
  }

  /** An item the skipped bytes are a form of. */
  lemma {:induction false} SkippedItem(p: Profile, s: bytes, depth: nat) returns (v: Item)
    requires Skip(p, s, depth).Some?
    ensures Shape(p, v, depth) && FormsOn(p, v, s, Skip(p, s, depth).value)
    decreases |s|, 0
  {
    hide ReadHead, AllFormOn, AllShape, SkipMany, FromBigEndian;
    var h := ReadHead(s);
    var Head(major, info, n) := h.value;
    match major
    case 0 => v := Uint(n);
    case 1 => v := Nint(n);
    case 2 =>
      v := Bstr(h.rest[..n]);
      assert h.rest == h.rest[..n] + h.rest[n..];
    case 3 =>
      v := Tstr(h.rest[..n]);
      assert h.rest == h.rest[..n] + h.rest[n..];
    case 4 =>
      var items := SkippedItems(p, h.rest, n, depth + 1);
      v := Arr(items);
    case 5 =>
      var entries := SkippedItems(p, h.rest, 2 * n, depth + 1);
      v := Map(entries);
    case 6 =>
      var item := SkippedItem(p, h.rest, depth + 1);
      v := Tag(n, item);
    case _ =>
      if info < 24 {
        v := Simple(info);
      } else if info == 24 {
        v := Simple(n);
      } else {
        var bits := BitsOf(n);
        v := Float(info, bits);
      }
  }

  lemma BitsOf(n: u64) returns (bits: bytes)
    ensures FromBigEndian(bits) == n
  {
    PowersOf256();
    bits := BigEndian(n, 8);
    BigEndianDecodes(n, 8);
  }

  lemma {:induction false} SkippedItems(p: Profile, s: bytes, n: nat, depth: nat) returns (vs: seq<Item>)
    requires SkipMany(p, s, n, depth).Some?
    ensures |vs| == n && AllShape(p, vs, depth) && AllFormOn(p, vs, s, SkipMany(p, s, n, depth).value)
    decreases |s|, 1
  {
    hide FormsOn, Shape, Skip;
    if n == 0 {
      vs := [];
    } else {
      var first := SkippedItem(p, s, depth);
      var mid := Skip(p, s, depth).value;
      var tail := SkippedItems(p, mid, n - 1, depth);
      vs := [first] + tail;
      assert vs[0] == first && vs[1..] == tail;
      assert FormsOn(p, vs[0], s, mid) && AllFormOn(p, vs[1..], mid, SkipMany(p, s, n, depth).value);
    }
  }

  /**
   * A skipper gets over bytes exactly when they are a form of an item within its profile, starting at that depth, and
   * stops at the end of that form.
   */
  lemma SkipIff(p: Profile, s: bytes, depth: nat, t: bytes)
    ensures Skip(p, s, depth) == Some(t) <==> exists v: Item :: Shape(p, v, depth) && FormsOn(p, v, s, t)
  {
    hide Skip, FormsOn, Shape;
    if Skip(p, s, depth) == Some(t) {
      var v := SkippedItem(p, s, depth);
    }
    if exists v: Item :: Shape(p, v, depth) && FormsOn(p, v, s, t) {
      var v: Item :| Shape(p, v, depth) && FormsOn(p, v, s, t);
      FormSkips(p, v, s, t, depth);
    }
  }

  /** The three skippers' profiles: who takes eight-byte heads, tags, other simple values, and how deep. */
  lemma Profiles(n: u64, item: Item)
    ensures !Shape(C_SKIP, Tag(n, item), 0) && !Shape(TA_SKIP, Tag(n, item), 0)
    ensures Shape(RUST_SKIP, Tag(n, item), 0) <==> Shape(RUST_SKIP, item, 1)
    ensures !Shape(TA_SKIP, item, 9) && !C_SKIP.wide && !RUST_SKIP.wide && TA_SKIP.wide
    ensures Shape(TA_SKIP, Simple(n), 8) <==> 20 <= n <= 23
  {
  }
}
