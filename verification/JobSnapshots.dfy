/** Which snapshots of a job parse. */
module JobSnapshots {
  // (backend/app/core/packs/events.py, backend/app/core/domain/video.py, backend/app/job_runtime.py) The stored texts
  // that are accepted as a Pack environment, a Document input and a Video input.

  import opened Text
  import opened Json
  import opened JsonTexts
  import opened JsonGrammar
  import opened JsonDecides
  import opened Dictionary
  import opened JobRetry

  /** `sha256:` and 64 digits of `0123456789abcdef`. */
  ghost predicate DigestText(s: Str) {
    exists hex: Str :: |hex| == 64 && (forall i | 0 <= i < 64 :: hex[i] in LOWER_HEX) && s == Lit("sha256:") + hex
  }

  lemma DigestExactly(s: Str)
    ensures IsDigest(s) <==> DigestText(s)
  {
    if IsDigest(s) { assert s == s[..7] + s[7..]; }
    if hex: Str :| |hex| == 64 && (forall i | 0 <= i < 64 :: hex[i] in LOWER_HEX) && s == Lit("sha256:") + hex {
      forall i | 7 <= i < 71 ensures IsLowerHex(s[i]) { assert s[i] == hex[i - 7]; }
      assert s[..7] == Lit("sha256:");
    }
  }

  // ---------------------------------------------------------------- Pack environments

  ghost predicate GoodPack(blank: Blank, p: Pack) {
    !blank(p.id) && !blank(p.version) && !blank(p.platform) && DigestText(p.manifest)
  }

  ghost predicate GoodPacks(blank: Blank, packs: seq<Pack>) {
    && packs != [] && (forall p | p in packs :: GoodPack(blank, p))
    && forall i, j | 0 <= i < |packs| && 0 <= j < |packs| && packs[i].id == packs[j].id :: i == j
  }

  /** The dictionary of a pack. */
  ghost predicate HoldsPackFields(v: Json, p: Pack) {
    && v.Obj? && KeySet(v.fields) == {KEY_PACK_ID, KEY_PACK_VERSION, KEY_PLATFORM, KEY_MANIFEST_SHA256}
    && Get(v.fields, KEY_PACK_ID) == Text(p.id) && Get(v.fields, KEY_PACK_VERSION) == Text(p.version)
    && Get(v.fields, KEY_PLATFORM) == Text(p.platform) && Get(v.fields, KEY_MANIFEST_SHA256) == Text(p.manifest)
  }

  /** The dictionary of an environment: its version and its packs in order. */
  ghost predicate HoldsEnvironment(f: seq<Field>, packs: seq<Pack>) {
    && KeySet(f) == {KEY_SCHEMA_VERSION, KEY_PACKS} && Get(f, KEY_SCHEMA_VERSION) == Int(1) && Get(f, KEY_PACKS).Arr?
    && |Get(f, KEY_PACKS).items| == |packs|
    && forall i | 0 <= i < |packs| :: HoldsPackFields(Get(f, KEY_PACKS).items[i], packs[i])
  }

  lemma PackExactly(v: Json, p: Pack)
    ensures PackFromJson(v) == Some(p) <==> HoldsPackFields(v, p)
  {
    hide KeySet, Get, Lit;
  }

  lemma {:induction false} PacksExactly(items: seq<Json>, packs: seq<Pack>)
    ensures PacksFromJson(items) == Some(packs)
      <==> |items| == |packs| && forall i | 0 <= i < |packs| :: HoldsPackFields(items[i], packs[i])
  {
    hide HoldsPackFields, PackFromJson;
    if items != [] && packs != [] {
      PackExactly(items[0], packs[0]);
      PacksExactly(items[1..], packs[1..]);
      assert packs == [packs[0]] + packs[1..];
      assert |items| == |packs| && (forall i | 0 <= i < |packs| :: HoldsPackFields(items[i], packs[i]))
        <==> HoldsPackFields(items[0], packs[0]) && |items[1..]| == |packs[1..]|
             && forall i | 0 <= i < |packs[1..]| :: HoldsPackFields(items[1..][i], packs[1..][i]) by {
        if |items| == |packs| {
          assert forall i | 0 < i < |packs| :: items[i] == items[1..][i - 1] && packs[i] == packs[1..][i - 1];
        }
      }
    } else if items != [] {
      assert PacksFromJson(items).Some? ==> PacksFromJson(items).value != [];
    }
  }

  lemma GoodExactly(blank: Blank, packs: seq<Pack>)
    ensures ValidPacks(blank, packs) <==> GoodPacks(blank, packs)
  {
    hide IsDigest, DigestText;
    forall i | 0 <= i < |packs| ensures IsDigest(packs[i].manifest) <==> DigestText(packs[i].manifest) {
      DigestExactly(packs[i].manifest);
    }
    if ValidPacks(blank, packs) {
      forall p | p in packs ensures GoodPack(blank, p) {
        var i :| 0 <= i < |packs| && packs[i] == p;
        assert ValidPack(blank, packs[i]);
      }
    }
    if GoodPacks(blank, packs) {
      forall i | 0 <= i < |packs| ensures ValidPack(blank, packs[i]) { assert packs[i] in packs; }
    }
  }

  /** A text of the grammar for this dictionary, in which nothing is repeated. */
  ghost predicate SpellsOnce(payload: Str, f: seq<Field>) {
    IsDocument(payload, Obj(f), true) && UniqueKeys(Obj(f))
  }

  lemma SpellsExactly(payload: Str)
    ensures forall f :: Loads(payload, UNIQUE) == Ok(Obj(f)) <==> SpellsOnce(payload, f)
    ensures forall f :: Loads(payload, PYTHON) == Ok(Obj(f)) <==> IsDocument(payload, Obj(f), true)
  {
    hide Loads, IsDocument, UniqueKeys;
    forall f ensures Loads(payload, UNIQUE) == Ok(Obj(f)) <==> SpellsOnce(payload, f) {
      DecodesExactly(payload, UNIQUE, Obj(f));
    }
    forall f ensures Loads(payload, PYTHON) == Ok(Obj(f)) <==> IsDocument(payload, Obj(f), true) {
      DecodesExactly(payload, PYTHON, Obj(f));
    }
  }

  /**
   A stored environment is accepted exactly if it spells the dictionary of packs that are well formed, at
   least one, and of different identifiers.
   */
  lemma EnvironmentExactly(blank: Blank, payload: Str, packs: seq<Pack>)
    ensures ParseEnvironment(blank, payload) == Some(packs)
      <==> && GoodPacks(blank, packs)
           && exists f :: SpellsOnce(payload, f) && HoldsEnvironment(f, packs)
  {
    hide Loads, SpellsOnce;
    SpellsExactly(payload);
    if Loads(payload, UNIQUE).Ok? && Loads(payload, UNIQUE).value.Obj? {
      FieldsExactly(blank, Loads(payload, UNIQUE).value.fields, packs);
    }
    hide EnvironmentFromFields, GoodPacks, HoldsEnvironment;
  }

  lemma FieldsExactly(blank: Blank, f: seq<Field>, packs: seq<Pack>)
    ensures EnvironmentFromFields(blank, f) == Some(packs) <==> GoodPacks(blank, packs) && HoldsEnvironment(f, packs)
  {
    hide KeySet, Get, Lit, ValidPacks, GoodPacks, PacksFromJson, HoldsPackFields;
    GoodExactly(blank, packs);
    if KeySet(f) == {KEY_SCHEMA_VERSION, KEY_PACKS} && Get(f, KEY_PACKS).Arr? {
      PacksExactly(Get(f, KEY_PACKS).items, packs);
    }
  }

  // ---------------------------------------------------------------- inputs

  /** The dictionary of an input. */
  ghost predicate HoldsInput(f: seq<Field>, x: InputSnapshot) {
    && KeySet(f) == {KEY_SCHEMA_VERSION, KEY_SHA256, KEY_BYTE_LENGTH}
    && Get(f, KEY_SCHEMA_VERSION) == Int(x.schemaVersion) && Get(f, KEY_SHA256) == Text(x.sha256)
    && Get(f, KEY_BYTE_LENGTH) == Int(x.byteLength)
  }

  lemma InputExactly(f: seq<Field>, x: InputSnapshot)
    ensures InputFromFields(f) == Some(x) <==> HoldsInput(f, x)
  {
    hide KeySet, Get, Lit;
  }

  /** A Video input: no repeated keys, version 1, a digest and a length that is not negative. */
  lemma VideoExactly(payload: Str, x: InputSnapshot)
    ensures ParseVideo(payload) == Some(x)
      <==> && x.schemaVersion == 1 && DigestText(x.sha256) && x.byteLength >= 0
           && exists f :: SpellsOnce(payload, f) && HoldsInput(f, x)
  {
    DigestExactly(x.sha256);
    hide Loads, SpellsOnce, InputFromFields, IsDigest, DigestText, HoldsInput;
    SpellsExactly(payload);
    if Loads(payload, UNIQUE).Ok? && Loads(payload, UNIQUE).value.Obj? {
      var f := Loads(payload, UNIQUE).value.fields;
      InputExactly(f, x);
      if InputFromFields(f).Some? { InputExactly(f, InputFromFields(f).value); }
    }
  }

  /** A Document input: whatever numbers and text the last entries of the three keys hold. */
  lemma DocumentExactly(payload: Str, x: InputSnapshot)
    ensures ParseDocument(payload) == Some(x)
      <==> exists f :: IsDocument(payload, Obj(f), true) && HoldsInput(LastEntries(f), x)
  {
    hide Loads, IsDocument, SpellsOnce, InputFromFields, HoldsInput;
    SpellsExactly(payload);
    if Loads(payload, PYTHON).Ok? && Loads(payload, PYTHON).value.Obj? {
      InputExactly(LastEntries(Loads(payload, PYTHON).value.fields), x);
    }
  }
}
