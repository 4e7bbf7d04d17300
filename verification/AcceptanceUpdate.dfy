/** Rewriting a record with one component inserted or raised (encode_updated). */
module AcceptanceUpdate {
  import opened Bytes
  import opened CborHead
  import opened StrictCbor
  import opened AcceptanceRecord
  import opened Tee

  function AsMap(cs: seq<Component>): map<bytes, u64> {
    if cs == [] then map[] else AsMap(cs[1..])[cs[0].id := cs[0].sequence]
  }

  function Upsert(cs: seq<Component>, c: Component): (r: seq<Component>)
    ensures |cs| <= |r| <= |cs| + 1
  {
    if cs == [] then [c]
    else if cs[0].id == c.id then [c] + cs[1..]
    else if LengthFirstLess(c.id, cs[0].id) then [c] + cs
    else [cs[0]] + Upsert(cs[1..], c)
  }

  /** What encode_updated decides, in terms of the component map. */
  function EncodeUpdated(generation: nat, cs: seq<Component>, digest: digest, id: blob, sequence: u64): (r: Result<bytes>)
    requires generation < U64_MAX
  {
    var cs' := Upsert(cs, Component(id, sequence));
    if |id| > MAX_SIZE then Err(ExcessData)
    else if id in AsMap(cs) && sequence <= AsMap(cs)[id] then Err(AccessConflict)
    else if |cs'| > MAX_COMPONENTS then Err(ExcessData)
    else
      var out := EncodeRecord(Record(generation + 1, cs', digest));
      if |out| > MAX_SIZE then Err(ExcessData) else Done(out)
  }

  lemma {:induction false} UpsertMap(cs: seq<Component>, c: Component)
    ensures AsMap(Upsert(cs, c)) == AsMap(cs)[c.id := c.sequence]
  {
    if cs != [] && cs[0].id != c.id && !LengthFirstLess(c.id, cs[0].id) {
      UpsertMap(cs[1..], c);
      assert Upsert(cs, c)[1..] == Upsert(cs[1..], c);
    } else {
      assert Upsert(cs, c)[1..] == (if cs == [] then [] else if cs[0].id == c.id then cs[1..] else cs);
    }
  }

  lemma {:induction false} UpsertOrdered(cs: seq<Component>, c: Component, prev: Option<bytes>)
    requires Ordered(cs, prev) && c.id != [] && (prev.Some? ==> LengthFirstLess(prev.value, c.id))
    ensures Ordered(Upsert(cs, c), prev)
  {
    var r := Upsert(cs, c);
    if cs == [] {
      assert r[1..] == [];
    } else {
      LengthFirstTotal(c.id, cs[0].id);
      if cs[0].id == c.id {
        assert r[1..] == cs[1..];
      } else if LengthFirstLess(c.id, cs[0].id) {
        assert r[1..] == cs;
      } else {
        UpsertOrdered(cs[1..], c, Some(cs[0].id));
        assert r[1..] == Upsert(cs[1..], c);
      }
    }
  }

  /** The record round trip: a successful update parses back to the raised map and nothing else. */
  lemma UpdateRoundTrip(generation: nat, cs: seq<Component>, digest: digest, id: blob, sequence: u64)
    requires generation < U64_MAX && Sorted(cs) && id != []
    requires EncodeUpdated(generation, cs, digest, id, sequence).Done?
    ensures var out := EncodeUpdated(generation, cs, digest, id, sequence).value;
            var p := ParseSlot(out);
            p.Valid? && 0 < |out| <= MAX_SIZE && WellFormed(p.record) && p.record.generation == generation + 1
            && p.record.digest == digest && AsMap(p.record.components) == AsMap(cs)[id := sequence]
            && (id in AsMap(cs) ==> AsMap(cs)[id] < sequence)
  {
    var c := Component(id, sequence);
    UpsertOrdered(cs, c, None);
    UpsertMap(cs, c);
    var r := Record(generation + 1, Upsert(cs, c), digest);
    ParseSlotIff(EncodeRecord(r), r);
  }

  // ----- the insertion loop, the size precomputation and the writer -----

  lemma {:induction false} OrderedAt(cs: seq<Component>, prev: Option<bytes>, k: nat)
    requires Ordered(cs, prev) && k < |cs|
    ensures prev.Some? ==> LengthFirstLess(prev.value, cs[k].id)
    ensures Ordered(cs[k..], if k == 0 then prev else Some(cs[k - 1].id))
  {
    if k > 0 {
      OrderedAt(cs[1..], Some(cs[0].id), k - 1);
      if prev.Some? {
        LengthFirstTransitive(prev.value, cs[0].id, cs[k].id);
      }
      assert cs[1..][k - 1..] == cs[k..];
    }
  }

  lemma {:induction false} NotInMap(cs: seq<Component>, id: bytes)
    requires forall i :: 0 <= i < |cs| ==> cs[i].id != id
    ensures id !in AsMap(cs)
  {
    if cs != [] {
      NotInMap(cs[1..], id);
    }
  }

  /** Where the search loop stops determines the updated list and the old entry. */
  lemma {:induction false} UpsertAt(cs: seq<Component>, c: Component, k: nat)
    requires Sorted(cs) && k <= |cs| && (forall i :: 0 <= i < k ==> LengthFirstLess(cs[i].id, c.id))
    requires k < |cs| ==> !LengthFirstLess(cs[k].id, c.id)
    ensures var same := k < |cs| && cs[k].id == c.id;
            Upsert(cs, c) == cs[..k] + [c] + cs[if same then k + 1 else k..]
            && (c.id in AsMap(cs) <==> same) && (same ==> AsMap(cs)[c.id] == cs[k].sequence)
  {
    UpsertFrom(cs, c, k, None);
  }

  lemma UpsertFront(cs: seq<Component>, c: Component, prev: Option<bytes>)
    requires Ordered(cs, prev) && (cs != [] ==> !LengthFirstLess(cs[0].id, c.id))
    ensures var same := cs != [] && cs[0].id == c.id;
            Upsert(cs, c) == [c] + cs[if same then 1 else 0..]
            && (c.id in AsMap(cs) <==> same) && (same ==> AsMap(cs)[c.id] == cs[0].sequence)
  {
    hide LengthFirstLess;
    if cs != [] {
      LengthFirstTotal(cs[0].id, c.id);
      if cs[0].id != c.id {
        forall i | 0 <= i < |cs|
          ensures cs[i].id != c.id
        {
          if i > 0 {
            OrderedAt(cs[1..], Some(cs[0].id), i - 1);
            LengthFirstTransitive(c.id, cs[0].id, cs[i].id);
            LengthFirstTotal(c.id, cs[i].id);
          }
        }
        NotInMap(cs, c.id);
      }
    }
  }

  lemma {:induction false} UpsertFrom(cs: seq<Component>, c: Component, k: nat, prev: Option<bytes>)
    requires Ordered(cs, prev) && k <= |cs| && (forall i :: 0 <= i < k ==> LengthFirstLess(cs[i].id, c.id))
    requires k < |cs| ==> !LengthFirstLess(cs[k].id, c.id)
    ensures var same := k < |cs| && cs[k].id == c.id;
            Upsert(cs, c) == cs[..k] + [c] + cs[if same then k + 1 else k..]
            && (c.id in AsMap(cs) <==> same) && (same ==> AsMap(cs)[c.id] == cs[k].sequence)
    decreases k
  {
    hide LengthFirstLess;
    if k == 0 {
      UpsertFront(cs, c, prev);
      assert cs[..0] + [c] == [c];
    } else {
      LengthFirstTotal(cs[0].id, c.id);
      UpsertFrom(cs[1..], c, k - 1, Some(cs[0].id));
      Shift(cs, c, k, if k < |cs| && cs[k].id == c.id then k else k - 1);
    }
  }

  lemma Shift(cs: seq<Component>, c: Component, k: nat, at: nat)
    requires 0 < k <= |cs| && k - 1 <= at < |cs|
    ensures [cs[0]] + (cs[1..][..k - 1] + [c] + cs[1..][at..]) == cs[..k] + [c] + cs[at + 1..]
  {
  }

  lemma {:induction false} EncodeAppend(a: seq<Component>, b: seq<Component>)
    ensures EncodeComponents(a + b) == EncodeComponents(a) + EncodeComponents(b)
  {
    hide HeadBytes, Bstr, Uint, EncodeComponents;
    EncodeNone();
    if a == [] {
      assert a + b == b;
      assert [] + EncodeComponents(b) == EncodeComponents(b);
    } else {
      EncodeAppend(a[1..], b);
      assert a + b == [a[0]] + (a[1..] + b) && a == [a[0]] + a[1..];
      EncodeCons(a[0], a[1..] + b, []);
      EncodeCons(a[0], a[1..], EncodeComponents(b));
      assert forall s: bytes :: s + [] == s;
    }
  }

  function Length(c: Component): nat { HeadSize(|c.id|) + |c.id| + HeadSize(c.sequence) }

  lemma EncodeOne(c: Component)
    ensures EncodeComponents([c]) == Bstr(c.id) + Uint(c.sequence)
    ensures |EncodeComponents([c])| == Length(c)
  {
    assert [c][1..] == [];
    assert Uint(c.sequence) + [] == Uint(c.sequence);
  }

  /** Appending one component appends its id and sequence. */
  lemma EncodeSnoc(cs: seq<Component>, c: Component)
    ensures EncodeComponents(cs + [c]) == EncodeComponents(cs) + Bstr(c.id) + Uint(c.sequence)
    ensures |EncodeComponents(cs + [c])| == |EncodeComponents(cs)| + Length(c)
  {
    EncodeAppend(cs, [c]);
    EncodeOne(c);
  }

  /** The encoded length does not depend on where a component stands. */
  lemma EncodeMoved(a: seq<Component>, c: Component, b: seq<Component>)
    ensures |EncodeComponents(a + [c] + b)| == |EncodeComponents(a + b)| + Length(c)
  {
    EncodeAppend(a + [c], b);
    EncodeAppend(a, b);
    EncodeSnoc(a, c);
  }

  /** The search loop: the first component not below the new id. */
  method FindInsertion(cs: seq<Component>, id: blob) returns (at: nat, same: bool)
    ensures at <= |cs| && (forall i :: 0 <= i < at ==> LengthFirstLess(cs[i].id, id))
    ensures at < |cs| ==> !LengthFirstLess(cs[at].id, id)
    ensures same <==> at < |cs| && cs[at].id == id
  {
    at := 0;
    while at < |cs|
      invariant at <= |cs| && (forall i :: 0 <= i < at ==> LengthFirstLess(cs[i].id, id))
    {
      LengthFirstTotal(cs[at].id, id);
      if cs[at].id == id {
        return at, true;
      }
      if LengthFirstLess(id, cs[at].id) {
        return at, false;
      }
      at := at + 1;
    }
    same := false;
  }

  /** The old components the size loop has counted after i rounds. */
  ghost function Counted(cs: seq<Component>, at: nat, replacing: bool, i: nat): seq<Component>
    requires i <= |cs|
  {
    if replacing && i > at then cs[..at] + cs[at + 1..i] else cs[..i]
  }

  /** The size loop: every old component but the replaced one, plus the new one. */
  method ComponentsSize(cs: seq<Component>, c: Component, at: nat, replacing: bool) returns (size: nat)
    requires at <= |cs| && (replacing ==> at < |cs|)
    ensures size == |EncodeComponents(cs[..at] + [c] + cs[if replacing then at + 1 else at..])|
  {
    hide EncodeComponents, Length, Counted;
    EncodeNone();
    CountedEnds(cs, at, replacing);
    size := 0;
    for i := 0 to |cs|
      invariant size == |EncodeComponents(Counted(cs, at, replacing, i))|
    {
      CountedStep(cs, at, replacing, i);
      if !(replacing && i == at) {
        EncodeSnoc(Counted(cs, at, replacing, i), cs[i]);
        size := size + Length(cs[i]);
      }
    }
    size := size + Length(c);
    EncodeMoved(cs[..at], c, cs[if replacing then at + 1 else at..]);
  }

  lemma CountedEnds(cs: seq<Component>, at: nat, replacing: bool)
    requires at <= |cs| && (replacing ==> at < |cs|)
    ensures Counted(cs, at, replacing, 0) == []
    ensures Counted(cs, at, replacing, |cs|) == cs[..at] + cs[if replacing then at + 1 else at..]
  {
  }

  lemma CountedStep(cs: seq<Component>, at: nat, replacing: bool, i: nat)
    requires at <= |cs| && i < |cs|
    ensures Counted(cs, at, replacing, i + 1)
            == if replacing && i == at then Counted(cs, at, replacing, i) else Counted(cs, at, replacing, i) + [cs[i]]
  {
    assert cs[..i + 1] == cs[..i] + [cs[i]];
    assert i > at ==> cs[at + 1..i + 1] == cs[at + 1..i] + [cs[i]];
  }

  method WriteComponent(ghost base: bytes, ghost done: seq<Component>, out: bytes, c: Component) returns (out': bytes)
    requires out == base + EncodeComponents(done)
    ensures out' == base + EncodeComponents(done + [c])
  {
    hide EncodeComponents, HeadBytes, Bstr;
    EncodeSnoc(done, c);
    out' := WriteBstr(out, c.id);
    out' := WriteTypeLen(out', 0, c.sequence);
  }

  /** The write loop over the updated component list. */
  method WriteComponents(out: bytes, cs: seq<Component>, c: Component, at: nat, replacing: bool) returns (out': bytes)
    requires at <= |cs| && (replacing ==> at < |cs|)
    ensures out' == out + EncodeComponents(cs[..at] + [c] + cs[if replacing then at + 1 else at..])
  {
    hide EncodeComponents;
    EncodeNone();
    ghost var updated := cs[..at] + [c] + cs[if replacing then at + 1 else at..];
    var count := if replacing then |cs| else |cs| + 1;
    out' := out;
    assert updated[..0] == [];
    for i := 0 to count
      invariant out' == out + EncodeComponents(updated[..i])
    {
      if i == at {
        out' := WriteComponent(out, updated[..i], out', c);
      } else {
        var old_i := if !replacing && i > at then i - 1 else i;
        out' := WriteComponent(out, updated[..i], out', cs[old_i]);
      }
      assert updated[..i] + [updated[i]] == updated[..i + 1];
    }
    assert updated[..count] == updated;
  }

  /** encode_updated as a whole; the size mismatch that would be a bad state never occurs. */
  method EncodeUpdatedRecord(generation: nat, cs: seq<Component>, digest: digest, id: blob, sequence: u64)
    returns (r: Result<bytes>)
    requires generation < U64_MAX && Sorted(cs) && |cs| <= MAX_COMPONENTS
    ensures r == EncodeUpdated(generation, cs, digest, id, sequence)
    ensures r != Err(BadState)
  {
    hide EncodeComponents, HeadBytes, Bstr, Text, Upsert, Ordered, EncodeFields;
    if |id| > MAX_SIZE {
      return Err(ExcessData);
    }
    var at, replacing := FindInsertion(cs, id);
    var c := Component(id, sequence);
    UpsertAt(cs, c, at);
    if replacing && sequence <= cs[at].sequence {
      return Err(AccessConflict);
    }
    var count := |cs|;
    if !replacing {
      if count == MAX_COMPONENTS {
        return Err(ExcessData);
      }
      count := count + 1;
    }
    var size := ComponentsSize(cs, c, at, replacing);
    var encodedSize := HeadSize(4) + (HeadSize(10) + 10) + HeadSize(generation + 1) + (HeadSize(14) + 14) + HeadSize(1)
      + (HeadSize(19) + 19) + HeadSize(count) + (HeadSize(35) + 35) + (HeadSize(32) + 32) + size;
    ghost var record := Record(generation + 1, Upsert(cs, c), digest);
    RecordSize(record);
    if encodedSize > MAX_SIZE {
      return Err(ExcessData);
    }
    var out := WriteTypeLen([], 5, 4);
    out := WriteText(out, "generation");
    out := WriteTypeLen(out, 0, generation + 1);
    out := WriteText(out, "schema_version");
    out := WriteTypeLen(out, 0, 1);
    out := WriteText(out, "component_sequences");
    out := WriteTypeLen(out, 5, count);
    out := WriteComponents(out, cs, c, at, replacing);
    out := WriteText(out, "last_consumed_query_response_sha256");
    out := WriteBstr(out, digest);
    RecordFlat(record);
    return if |out| == encodedSize then Done(out) else Err(BadState);
  }

  lemma RecordSize(r: Record)
    requires |r.components| <= MAX_COMPONENTS
    ensures |EncodeRecord(r)| == 1 + 11 + HeadSize(r.generation) + 15 + 1 + 20 + HeadSize(|r.components|)
                                 + |EncodeComponents(r.components)| + 37 + 34
  {
  }

  /** The record as one left-to-right concatenation, the order in which it is written. */
  lemma RecordFlat(r: Record)
    requires |r.components| <= MAX_COMPONENTS
    ensures EncodeRecord(r) == [] + HeadBytes(5, 4) + Text("generation") + Uint(r.generation) + Text("schema_version")
                               + Uint(1) + Text("component_sequences") + HeadBytes(5, |r.components|)
                               + EncodeComponents(r.components) + Text("last_consumed_query_response_sha256")
                               + Bstr(r.digest)
  {
    hide HeadBytes, Text, Uint, Bstr, EncodeComponents;
    Reassociate9(HeadBytes(5, 4), Text("generation"), Uint(r.generation), Text("schema_version"), Uint(1),
                 Text("component_sequences"), HeadBytes(5, |r.components|), EncodeComponents(r.components),
                 Text("last_consumed_query_response_sha256"), Bstr(r.digest) + []);
    assert Bstr(r.digest) + [] == Bstr(r.digest);
  }
}
