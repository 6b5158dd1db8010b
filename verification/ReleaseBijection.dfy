/** Accepted manifests and lists of rows are in bijection. */
module ReleaseBijection {
  // Control text is accepted with some rows exactly if it is the manifest that the assembler writes for them.

  import opened Text
  import opened Json
  import opened JsonCanonical
  import opened JsonOrder
  import opened JsonRoundTrip
  import opened JsonTexts
  import opened Dictionary
  import opened ReleasePaths
  import opened ReleaseScan
  import opened ReleaseManifest
  import opened ReleaseVerify
  import opened ReleaseAgreement

  /** Rows that a manifest may have: portable paths in Python's order, distinct up to case, within the limits. */
  ghost predicate RowsFit(lib: Library, rows: seq<Row>) {
    && |rows| <= 100_000 && TotalBytes(rows) <= 8 * 1024 * 1024 * 1024
    && (forall i | 0 <= i < |rows| :: RowFits(lib, rows[i]))
    && (forall i, j | 0 <= i < j < |rows| :: Before(rows[i].path, rows[j].path))
    && forall i, j | 0 <= i < j < |rows| :: lib.fold(rows[i].path) != lib.fold(rows[j].path)
  }

  predicate RowFits(lib: Library, row: Row) {
    && Portable(lib, row.path) && row.path != Lit("release/file-manifest.json")
    && row.byteLength <= 2 * 1024 * 1024 * 1024
    && |row.sha256| == 64 && forall i | 0 <= i < 64 :: row.sha256[i] in LOWER_HEX
  }

  lemma RowFitsExactly(lib: Library, row: Row)
    ensures RowFits(lib, row) <==> RowGood(lib, row)
  {
    hide Portable, Lit;
  }

  /** Neighbours in order are all in order. */
  lemma {:induction false} OrderedPaths(rows: seq<Row>, i: nat, j: nat)
    requires i < j < |rows| && forall k | 0 <= k < |rows| - 1 :: StrLess(rows[k].path, rows[k + 1].path)
    ensures StrLess(rows[i].path, rows[j].path)
  {
    hide StrLess;
    if i + 1 < j {
      OrderedPaths(rows, i, j - 1);
      assert StrLess(rows[j - 1].path, rows[j - 1 + 1].path);
      StrLessTransitive(rows[i].path, rows[j - 1].path, rows[j].path);
    }
  }

  lemma RowsFitExactly(lib: Library, rows: seq<Row>)
    ensures RowsFit(lib, rows)
      <==> Good(lib, rows) && InOrder(lib, rows) && |rows| <= MAX_CANDIDATE_FILES
           && TotalBytes(rows) <= MAX_CANDIDATE_BYTES
  {
    hide StrLess, Before, Portable, TotalBytes, RowFits, Lit;
    forall i | 0 <= i < |rows| ensures RowFits(lib, rows[i]) <==> RowGood(lib, rows[i]) {
      RowFitsExactly(lib, rows[i]);
    }
    forall i, j | 0 <= i < j < |rows|
      ensures StrLess(rows[i].path, rows[j].path) <==> Before(rows[i].path, rows[j].path)
    {
      OrderIsPythons(rows[i].path, rows[j].path);
    }
    if InOrder(lib, rows) {
      forall i, j | 0 <= i < j < |rows| ensures StrLess(rows[i].path, rows[j].path) { OrderedPaths(rows, i, j); }
    }
  }

  /** An item that describes a row is the dictionary of the row. */
  lemma RowMatches(v: Json, row: Row)
    requires UniqueKeys(v) && RowFromJson(v) == Some(row)
    ensures SameValue(v, Obj(RowFields(row)))
  {
    RowKeysAre(row);
    hide KeySet, Get, Lit, IsSha256;
    SameByLookup(v.fields, RowFields(row));
    SameLookupsOfRow(v.fields, row);
  }

  lemma RowKeysAre(row: Row)
    ensures var f := RowFields(row);
      && DistinctKeys(f) && KeySet(f) == RowKeys() && Get(f, KEY_PATH) == Text(row.path)
      && Get(f, KEY_BYTE_LENGTH) == Int(row.byteLength) && Get(f, KEY_SHA256) == Text(row.sha256)
  {
    var f := RowFields(row);
    RowLookups(row);
    assert f[0].key == KEY_PATH && f[1].key == KEY_BYTE_LENGTH && f[2].key == KEY_SHA256;
    hide Received, Lit;
    GetAt(f, 0);
    GetAt(f, 1);
    GetAt(f, 2);
  }

  lemma SameLookupsOfRow(f: seq<Field>, row: Row)
    requires KeySet(f) == RowKeys() == KeySet(RowFields(row)) && RowFromFields(f) == Some(row)
    requires Get(RowFields(row), KEY_PATH) == Text(row.path)
    requires Get(RowFields(row), KEY_BYTE_LENGTH) == Int(row.byteLength)
    requires Get(RowFields(row), KEY_SHA256) == Text(row.sha256)
    ensures SameLookups(f, RowFields(row))
  {
    hide KeySet, Get, Lit, IsSha256, RowFields;
  }

  lemma DescribedIsGood(lib: Library, items: seq<Json>, rows: seq<Row>)
    requires Describes(items, rows) && InOrder(lib, rows)
    ensures Good(lib, rows)
  {
    hide KeySet, Get, Lit, Portable, StrLess, IsSha256;
    forall i | 0 <= i < |rows| ensures RowGood(lib, rows[i]) { assert RowFromJson(items[i]) == Some(rows[i]); }
  }

  lemma ItemsMatch(items: seq<Json>, rows: seq<Row>)
    requires Describes(items, rows) && forall i | 0 <= i < |items| :: UniqueKeys(items[i])
    ensures SameValue(Arr(items), Arr(RowsJson(rows)))
  {
    hide RowFromJson, UniqueKeys, RowFields;
    forall i | 0 <= i < |items| ensures SameValue(items[i], RowsJson(rows)[i]) { RowMatches(items[i], rows[i]); }
  }

  lemma ManifestLookups(lib: Library, rows: seq<Row>)
    requires Good(lib, rows) && |rows| <= MAX_CANDIDATE_FILES
    ensures var g := ManifestFields(rows);
      && DistinctKeys(g) && KeySet(g) == HeaderKeys() && Get(g, KEY_SCHEMA_VERSION) == Int(1)
      && Get(g, KEY_HASH_ALGORITHM) == Text(KEY_SHA256) && Get(g, KEY_SCOPE) == Text(FILE_MANIFEST_SCOPE)
      && Get(g, KEY_FILE_COUNT) == Int(|rows|) && Get(g, KEY_FILES) == Arr(RowsJson(rows))
  {
    var f := ManifestFields(rows);
    ManifestWellFormed(lib, rows);
    ManifestKeys(rows);
    hide UniqueKeys, Spellable, Lit, RowsJson, Good;
    GetAt(f, 0);
    GetAt(f, 1);
    GetAt(f, 2);
    GetAt(f, 3);
    GetAt(f, 4);
  }

  /** A dictionary with an accepted header and rows is the manifest of the rows. */
  lemma HeaderMatches(lib: Library, f: seq<Field>, rows: seq<Row>)
    requires UniqueKeys(Obj(f)) && AcceptedRows(lib, f, rows)
    ensures Good(lib, rows) && |rows| <= MAX_CANDIDATE_FILES && SameValue(Obj(f), Obj(ManifestFields(rows)))
  {
    var items := Get(f, KEY_FILES).items;
    hide KeySet, Lit, InOrder, TotalBytes;
    DescribedIsGood(lib, items, rows);
    UniqueItemsOf(f, KEY_FILES);
    ItemsMatch(items, rows);
    ManifestLookups(lib, rows);
    hide Get, Describes, RowsJson, Good;
    SameByLookup(f, ManifestFields(rows));
    assert SameLookups(f, ManifestFields(rows)) by { HeaderLookups(f, rows); }
    hide SameLookups, SameValue;
  }

  lemma UniqueItemsOf(f: seq<Field>, k: Str)
    requires UniqueKeys(Obj(f)) && k in KeySet(f) && Get(f, k).Arr?
    ensures forall i | 0 <= i < |Get(f, k).items| :: UniqueKeys(Get(f, k).items[i])
  {
    hide KeySet;
    var v := Get(f, k);
    var j :| 0 <= j < |f| && f[j].key == k && f[j].value == v;
    assert UniqueKeys(f[j].value);
  }

  lemma HeaderLookups(f: seq<Field>, rows: seq<Row>)
    requires HeaderOk(f) && |Get(f, KEY_FILES).items| == |rows|
    requires SameValue(Arr(Get(f, KEY_FILES).items), Arr(RowsJson(rows)))
    requires var g := ManifestFields(rows);
      && KeySet(g) == HeaderKeys() && Get(g, KEY_SCHEMA_VERSION) == Int(1)
      && Get(g, KEY_HASH_ALGORITHM) == Text(KEY_SHA256) && Get(g, KEY_SCOPE) == Text(FILE_MANIFEST_SCOPE)
      && Get(g, KEY_FILE_COUNT) == Int(|rows|) && Get(g, KEY_FILES) == Arr(RowsJson(rows))
    ensures SameLookups(f, ManifestFields(rows))
  {
    hide KeySet, Get, Lit, RowsJson, ManifestFields;
    SameScalar(Get(f, KEY_SCHEMA_VERSION));
    SameScalar(Get(f, KEY_HASH_ALGORITHM));
    SameScalar(Get(f, KEY_SCOPE));
    SameScalar(Get(f, KEY_FILE_COUNT));
    hide SameValue;
  }

  lemma SameScalar(v: Json)
    requires !v.Arr? && !v.Obj?
    ensures SameValue(v, v)
  {
  }

  /**
   Control text is accepted with some rows if and only if the rows fit and the text is, within the size limit,
   the canonical manifest of the rows.
   */
  lemma ManifestBijection(lib: Library, content: Bytes, rows: seq<Row>)
    ensures ReadControl(content).Some? && AcceptedRows(lib, ReadControl(content).value, rows)
      <==> && RowsFit(lib, rows) && |content| <= 16 * 1024 * 1024
           && CanonicalJson(Obj(ManifestFields(rows))) == Some(content)
  {
    hide RowsFit, Good, InOrder, TotalBytes, ReadControl, AcceptedRows, CanonicalJson, ManifestFields;
    RowsFitExactly(lib, rows);
    if ReadControl(content).Some? && AcceptedRows(lib, ReadControl(content).value, rows) {
      AcceptedIsWritten(lib, content, rows);
    }
    if
      && RowsFit(lib, rows) && |content| <= 16 * 1024 * 1024
      && CanonicalJson(Obj(ManifestFields(rows))) == Some(content)
    {
      WrittenIsAccepted(lib, content, rows);
    }
  }

  lemma ControlIs(content: Bytes)
    requires ReadControl(content).Some?
    ensures var f := ReadControl(content).value;
      && |content| <= MAX_CANDIDATE_CONTROL_BYTES && CanonicalJson(Obj(f)) == Some(content) && UniqueKeys(Obj(f))
  {
    hide CanonicalJson, Loads, UniqueKeys, Utf8Decode;
    var text := Utf8Decode(content).value;
    LoadsExactlyUnique(text, false);
  }

  lemma AcceptedIsWritten(lib: Library, content: Bytes, rows: seq<Row>)
    requires ReadControl(content).Some? && AcceptedRows(lib, ReadControl(content).value, rows)
    ensures Good(lib, rows) && InOrder(lib, rows) && |rows| <= MAX_CANDIDATE_FILES
    ensures TotalBytes(rows) <= MAX_CANDIDATE_BYTES && |content| <= MAX_CANDIDATE_CONTROL_BYTES
    ensures CanonicalJson(Obj(ManifestFields(rows))) == Some(content)
  {
    var f := ReadControl(content).value;
    ControlIs(content);
    hide ReadControl, UniqueKeys, HeaderOk, Describes, InOrder, TotalBytes, ManifestFields, SameValue, Good;
    HeaderMatches(lib, f, rows);
    ManifestWellFormed(lib, rows);
    hide Spellable, Print, Sorted;
    CanonicalTextIdentifies(Obj(f), Obj(ManifestFields(rows)));
  }

  lemma WrittenIsAccepted(lib: Library, content: Bytes, rows: seq<Row>)
    requires Good(lib, rows) && InOrder(lib, rows) && |rows| <= MAX_CANDIDATE_FILES
    requires TotalBytes(rows) <= MAX_CANDIDATE_BYTES && |content| <= MAX_CANDIDATE_CONTROL_BYTES
    requires CanonicalJson(Obj(ManifestFields(rows))) == Some(content)
    ensures ReadControl(content).Some? && AcceptedRows(lib, ReadControl(content).value, rows)
  {
    hide ReadControl, UniqueKeys, HeaderOk, Describes, InOrder, TotalBytes, ManifestFields, Good, CanonicalJson,
      Spellable, Received, RowsJson, SortedItems;
    ManifestWellFormed(lib, rows);
    ControlReadsBack(ManifestFields(rows), content);
    HeaderReceived(lib, rows);
    ItemsReceived(lib, rows);
  }
}
