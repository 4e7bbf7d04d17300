/** What loading answers: which stored bytes count as a record, which slot is in force, and how the rest is refused. */
module LoadAnswers {
  import opened Bytes
  import opened CborHead
  import opened AcceptanceRecord
  import opened AcceptanceUpdate
  import opened AcceptanceStore
  import opened CatalogStore
  import opened AppStore
  import opened Tee
  import C = CatalogRecord
  import A = AppRecord

  // ----- acceptance slots -----

  /** The bytes are those of a record with another schema version. */
  ghost predicate NewerForm(raw: bytes) {
    exists r: Record, schema: u64 :: WellFormed(r) && schema != 1 && raw == EncodeFields(r, schema, [])
  }

  lemma ParseSlotNewerIff(raw: bytes)
    ensures ParseSlot(raw) == Unsupported <==> NewerForm(raw)
  {
    hide ParseFields, EncodeFields, Ordered;
    if ParseSlot(raw) == Unsupported {
      FieldsEncode(raw);
      var p := ParseFields(raw).value;
      assert WellFormed(p.0) && p.1 != 1 && raw == EncodeFields(p.0, p.1, []);
    }
    if NewerForm(raw) {
      var r: Record, schema: u64 :| WellFormed(r) && schema != 1 && raw == EncodeFields(r, schema, []);
      FieldsParse(r, schema, []);
    }
  }

  /** An object of readable size. */
  predicate Readable(store: Store, o: Object, limit: nat) { o in store && 0 < |store[o]| <= limit }

  /** A slot is good exactly when it holds the one encoding of a well-formed record, newer exactly when it holds that of
      another schema version, absent exactly when there is no object, and otherwise unreadable. */
  lemma ViewIff(store: Store, i: slot, r: Record)
    ensures var o := Acceptance(i);
            && (View(store, i).Absent? <==> o !in store)
            && (View(store, i) == Good(r) <==> Readable(store, o, MAX_SIZE) && WellFormed(r) && store[o] == EncodeRecord(r))
            && (View(store, i).Newer? <==> Readable(store, o, MAX_SIZE) && NewerForm(store[o]))
  {
    hide ParseSlot, EncodeRecord, NewerForm, Ordered;
    if Acceptance(i) in store {
      ParseSlotIff(store[Acceptance(i)], r);
      ParseSlotNewerIff(store[Acceptance(i)]);
    }
  }

  /** The state of a device without slots: that of its legacy object, which is the encoding of a sorted list, or empty. */
  lemma LegacyIff(store: Store, cs: seq<Component>)
    ensures LoadLegacy(store) == Done(Current(0, cs, None, -1))
            <==> if Legacy in store
                 then 0 < |store[Legacy]| <= MAX_SIZE && Sorted(cs) && |cs| <= MAX_COMPONENTS
                      && store[Legacy] == HeadBytes(5, |cs|) + (EncodeComponents(cs) + [])
                 else cs == []
    ensures var r := LoadLegacy(store);
            if r.Done? then r.value.generation == 0 && r.value.digest == None && r.value.active == -1 else r == Err(CorruptObject)
  {
    hide ParseComponents, EncodeComponents, HeadBytes, Ordered;
    if Legacy in store {
      var p := ParseComponents(store[Legacy]);
      if |cs| <= MAX_COMPONENTS {
        ParseComponentsIff(store[Legacy], cs, []);
      }
    }
  }

  /** The slot holds the newest record: the other is not good, older, or a copy of it in the second slot. */
  predicate Newest(store: Store, i: slot) {
    var v, w := View(store, i), View(store, 1 - i);
    v.Good? && (w.Good? ==> w.record.generation < v.record.generation || (w.record == v.record && i == 0))
  }

  predicate AnyNewer(store: Store) { View(store, 0).Newer? || View(store, 1).Newer? }

  predicate AnyGood(store: Store) { View(store, 0).Good? || View(store, 1).Good? }

  /** Both slots are good, at the same generation, with different records. */
  predicate Split(store: Store) {
    var v, w := View(store, 0), View(store, 1);
    v.Good? && w.Good? && v.record.generation == w.record.generation && v.record != w.record
  }

  /**
   * The state in force is the record of the newest good slot; it comes from the legacy object exactly when no slot was ever
   * written. A newer schema is not supported, two different records of one generation are a security error, and slots of
   * which none is good are corrupt.
   */
  lemma LoadCurrentIff(store: Store, i: slot)
    ensures var r := LoadCurrent(store);
            && (r.Done? && r.value.active == i <==> Newest(store, i) && !AnyNewer(store))
            && (r.Done? && r.value.active == i ==> r.value == FromSlot(View(store, i).record, i))
            && (View(store, 0).Absent? && View(store, 1).Absent? ==> r == LoadLegacy(store))
            && (r == Err(NotSupported) <==> AnyNewer(store))
            && (r == Err(Security) <==> Split(store))
            && (!AnyGood(store) && !AnyNewer(store) && !(View(store, 0).Absent? && View(store, 1).Absent?) ==>
                  r == Err(CorruptObject))
  {
    hide ParseSlot, ParseComponents;
  }

  /** The generation and the accepted sequence of a component, or not found. */
  lemma ComponentSequenceIff(store: Store, id: bytes)
    ensures var r, l := ComponentSequence(store, id), LoadCurrent(store);
            if id == [] then r == Err(BadParameters)
            else if l.Err? then r == Err(l.code)
            else if id in Accepted(store) then r == Done((l.value.generation, Accepted(store)[id])) else r == Err(ItemNotFound)
  {
    hide LoadCurrent, AsMap;
  }

  // ----- catalog slots -----

  /** Complete fields of another schema version, with a payload, a digest and numbers that could be those of a record. */
  ghost predicate LaterForm(raw: bytes) {
    exists f: C.Fields :: 0 < |f.catalog| <= C.MAX_PAYLOAD && |f.digest| == 32 && f.sequence > 0 && f.generation > 0
                          && f.schema != 1 && raw == C.EncodeFields(f)
  }

  lemma ParseCatalogLaterIff(sha: Sha, raw: bytes)
    ensures C.ParseCatalog(sha, raw) == C.Unsupported <==> LaterForm(raw)
  {
    hide C.ParseFields, C.EncodeFields;
    if C.ParseCatalog(sha, raw) == C.Unsupported {
      C.FieldsEncode(raw);
      var f := C.ParseFields(raw).value;
      assert 0 < |f.catalog| <= C.MAX_PAYLOAD && |f.digest| == 32 && f.sequence > 0 && f.generation > 0 && f.schema != 1
             && raw == C.EncodeFields(f);
    }
    if LaterForm(raw) {
      var f: C.Fields :| 0 < |f.catalog| <= C.MAX_PAYLOAD && |f.digest| == 32 && f.sequence > 0 && f.generation > 0
                         && f.schema != 1 && raw == C.EncodeFields(f);
      C.FieldsParse(f);
    }
  }

  /** A slot holds a catalog exactly when it holds the one encoding of a well-formed record under the hash. */
  lemma ViewCatalogIff(sha: Sha, store: Store, i: slot, r: C.CatalogRecord)
    ensures var o := Catalog(i);
            && (ViewCatalog(sha, store, i).Missing? <==> o !in store)
            && (ViewCatalog(sha, store, i) == Staged(r)
                <==> Readable(store, o, C.MAX_RECORD) && C.WellFormed(r) && store[o] == C.EncodeCatalog(sha, r))
            && (ViewCatalog(sha, store, i).Later? <==> Readable(store, o, C.MAX_RECORD) && LaterForm(store[o]))
  {
    hide C.ParseCatalog, C.EncodeCatalog, LaterForm;
    if Catalog(i) in store {
      C.ParseCatalogIff(sha, store[Catalog(i)], r);
      ParseCatalogLaterIff(sha, store[Catalog(i)]);
    }
  }

  /** The slot holds the accepted catalog: the other does not, or it holds the same payload from no later generation. */
  predicate Chosen(sha: Sha, store: Store, accepted: nat, i: slot) {
    var v, w := ViewCatalog(sha, store, i), ViewCatalog(sha, store, 1 - i);
    Matches(v, accepted)
    && (Matches(w, accepted) ==>
          w.record.catalog == v.record.catalog
          && (w.record.generation < v.record.generation || (w.record.generation == v.record.generation && i == 0)))
  }

  /** Which catalog is active, with a sequence accepted for the catalog id. */
  lemma ActiveCatalogIff(sha: Sha, store: Store, i: slot)
    requires LoadCurrent(store).Done? && C.DEFAULT_ID in Accepted(store)
    ensures var accepted, r := Accepted(store)[C.DEFAULT_ID], LoadActiveCatalog(sha, store);
            var a, b := ViewCatalog(sha, store, 0), ViewCatalog(sha, store, 1);
            && (r.Done? && r.value.0 == i <==> Chosen(sha, store, accepted, i) && !a.Later? && !b.Later?)
            && (r.Done? && r.value.0 == i ==> r.value.1 == ViewCatalog(sha, store, i).record)
            && (r == Err(NotSupported) <==> a.Later? || b.Later?)
            && (r == Err(ItemNotFound) <==> a.Missing? && b.Missing?)
            && (r == Err(Security) <==> Matches(a, accepted) && Matches(b, accepted) && a.record.catalog != b.record.catalog)
            && (r == Err(CorruptObject) <==>
                  !a.Later? && !b.Later? && !Matches(a, accepted) && !Matches(b, accepted) && !(a.Missing? && b.Missing?))
  {
    hide LoadCurrent, ViewCatalog, AsMap;
    assert C.DEFAULT_ID[0] == 0x82;
  }

  /** Without an accepted sequence there is no active catalog. */
  lemma NoActiveCatalog(sha: Sha, store: Store)
    ensures LoadCurrent(store).Err? ==> LoadActiveCatalog(sha, store) == Err(LoadCurrent(store).code)
    ensures LoadCurrent(store).Done? && C.DEFAULT_ID !in Accepted(store) ==> LoadActiveCatalog(sha, store) == Err(ItemNotFound)
  {
    hide LoadCurrent, ViewCatalog, AsMap;
    assert C.DEFAULT_ID[0] == 0x82;
  }

  // ----- application slots -----

  /** The record's encoding up to its four reserved bytes, which are not looked at. */
  predicate AppForm(sha: Sha, raw: bytes, r: A.AppRecord) {
    A.WellFormed(r) && |raw| == A.HEADER + |r.id| + |r.wasm| && |r.id| <= 270
    && raw[..64] == A.Header(sha, r)[..64] && raw[A.HEADER..] == r.id + r.wasm
  }

  lemma AppHeaderIff(sha: Sha, raw: bytes, r: A.AppRecord)
    requires |raw| >= A.HEADER && |r.id| <= U32_MAX && |r.wasm| <= U32_MAX
    ensures raw[..64] == A.Header(sha, r)[..64]
            <==> raw[..8] == A.MAGIC
                 && A.ReadHeader(raw) == A.HeaderFields(r.generation, r.sequence, |r.id|, |r.wasm|, sha(r.wasm))
  {
    hide BigEndian, FromBigEndian;
    PowersOf256();
    var h := A.Header(sha, r);
    A.HeaderReads(sha, r, []);
    assert h + [] == h;
    if raw[..64] == h[..64] {
      SameField(raw, h, 0, 8);
      SameField(raw, h, 8, 16);
      SameField(raw, h, 16, 24);
      SameField(raw, h, 24, 28);
      SameField(raw, h, 28, 32);
      SameField(raw, h, 32, 64);
    }
    if raw[..8] == A.MAGIC && A.ReadHeader(raw) == A.ReadHeader(h) {
      SameNumber(raw[8..16], h[8..16]);
      SameNumber(raw[16..24], h[16..24]);
      SameNumber(raw[24..28], h[24..28]);
      SameNumber(raw[28..32], h[28..32]);
      assert raw[..64] == raw[..8] + raw[8..16] + raw[16..24] + raw[24..28] + raw[28..32] + raw[32..64];
      assert h[..64] == h[..8] + h[8..16] + h[16..24] + h[24..28] + h[28..32] + h[32..64];
    }
  }

  lemma SameField(a: bytes, b: bytes, lo: nat, hi: nat)
    requires lo <= hi <= 64 <= |a| && |b| >= 64 && a[..64] == b[..64]
    ensures a[lo..hi] == b[lo..hi]
  {
    assert forall k :: 0 <= k < 64 ==> a[k] == a[..64][k] && b[k] == b[..64][k];
  }

  lemma SameNumber(a: bytes, b: bytes)
    requires |a| == |b| && FromBigEndian(a) == FromBigEndian(b)
    ensures a == b
  {
    BigEndianEncodes(a);
    BigEndianEncodes(b);
  }

  /** Bytes parse to a record exactly when they are its encoding, reserved bytes aside. */
  lemma ParseAppIff(sha: Sha, raw: bytes, r: A.AppRecord)
    ensures A.ParseApp(sha, raw) == Done(r) <==> AppForm(sha, raw, r)
  {
    hide A.IsAppId, A.ReadHeader, A.Header;
    if A.IsAppId(r.id) {
      A.AppIdLength(r.id);
    }
    if |raw| >= A.HEADER && |r.id| <= U32_MAX && |r.wasm| <= U32_MAX {
      AppHeaderIff(sha, raw, r);
      assert |raw| == A.HEADER + |r.id| + |r.wasm| ==>
          (raw[A.HEADER..] == r.id + r.wasm <==> raw[A.HEADER..A.HEADER + |r.id|] == r.id && raw[A.HEADER + |r.id|..] == r.wasm) by {
        if |raw| == A.HEADER + |r.id| + |r.wasm| {
          assert raw[A.HEADER..] == raw[A.HEADER..A.HEADER + |r.id|] + raw[A.HEADER + |r.id|..];
        }
      }
    }
  }

  /** A header that fits the object, of something that may be a record. */
  predicate HeaderFits(raw: bytes) {
    |raw| >= A.HEADER && raw[..8] == A.MAGIC
    && var h := A.ReadHeader(raw);
       h.generation > 0 && h.sequence > 0 && h.idLen > 0 && 0 < h.wasmLen <= A.MAX_APP && |raw| == A.HEADER + h.idLen + h.wasmLen
  }

  /** Bytes are refused as insecure exactly when their header fits but the id is no application id or the hash is another. */
  lemma ParseAppRefusals(sha: Sha, raw: bytes)
    ensures var p := A.ParseApp(sha, raw);
            && (p == Err(Security) <==>
                  HeaderFits(raw)
                  && var id, wasm := raw[A.HEADER..A.HEADER + A.ReadHeader(raw).idLen], raw[A.HEADER + A.ReadHeader(raw).idLen..];
                     !A.IsAppId(id) || sha(wasm) != A.ReadHeader(raw).digest)
            && (p == Err(BadFormat) <==> !HeaderFits(raw))
  {
    hide A.IsAppId, A.ReadHeader;
  }

  /** What a slot shows: nothing, an application, or something unusable with the generation its header names. */
  lemma ViewAppIff(sha: Sha, store: Store, i: slot, r: A.AppRecord)
    ensures var o, v := App(i), ViewApp(sha, store, i);
            && (v.NoApp? <==> o !in store)
            && (v.StagedApp? && v.record == r <==> Readable(store, o, A.MAX_RECORD) && AppForm(sha, store[o], r))
            && (v.StagedApp? ==> v.raw == store[o])
            && (v.BadApp? ==>
                  v.generation == if Readable(store, o, A.MAX_RECORD) && |store[o]| >= A.HEADER && store[o][..8] == A.MAGIC
                                  then FromBigEndian(store[o][8..16]) else 0)
  {
    hide A.ParseApp, FromBigEndian, AppForm;
    if App(i) in store {
      ParseAppIff(sha, store[App(i)], r);
    }
  }

  /** The slot holds a record whose id and sequence are accepted, at a generation that has been reached. */
  predicate Eligible(sha: Sha, store: Store, i: slot)
    requires LoadCurrent(store).Done?
  {
    var v := ViewApp(sha, store, i);
    v.StagedApp? && v.record.id in Accepted(store) && Accepted(store)[v.record.id] == v.record.sequence
    && v.record.generation <= LoadCurrent(store).value.generation
  }

  /** Two objects that show the same generation and are not alike. */
  predicate Clash(sha: Sha, store: Store) {
    var a, b := ViewApp(sha, store, 0), ViewApp(sha, store, 1);
    !a.NoApp? && !b.NoApp? && Generation(a) == Generation(b) && a != b
  }

  /** Which application is active, once the state loads. */
  lemma ActiveAppIff(sha: Sha, store: Store, i: slot)
    requires LoadCurrent(store).Done?
    ensures var r := LoadActiveApp(sha, store); var v, w := ViewApp(sha, store, i), ViewApp(sha, store, 1 - i);
            var any := Eligible(sha, store, 0) || Eligible(sha, store, 1);
            && (r.Done? && r.value.0 == i <==>
                  Eligible(sha, store, i) && !Clash(sha, store)
                  && (Eligible(sha, store, 1 - i) ==>
                        w.record.generation < v.record.generation || (w.record.generation == v.record.generation && i == 0)))
            && (r.Done? && r.value.0 == i ==> r.value.1 == v.record)
            && (r == Err(Security) <==> any && Clash(sha, store))
            && (r == Err(ItemNotFound) <==> v.NoApp? && w.NoApp?)
            && (r == Err(CorruptObject) <==> !any && !(v.NoApp? && w.NoApp?))
  {
    hide LoadCurrent, ViewApp, AsMap;
  }

  /** Before the state loads, nothing is active. */
  lemma NoActiveApp(sha: Sha, store: Store)
    requires LoadCurrent(store).Err?
    ensures var a, b := ViewApp(sha, store, 0), ViewApp(sha, store, 1);
            LoadActiveApp(sha, store)
            == Err(if a.StagedApp? || b.StagedApp? then LoadCurrent(store).code
                   else if a.NoApp? && b.NoApp? then ItemNotFound else CorruptObject)
  {
    hide LoadCurrent, ViewApp;
  }
}
