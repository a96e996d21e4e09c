/** The record of the source bundle: `build_implementation_identity` and the checks of
    `normalize_implementation` (implementation.py).  Names and bodies of the modules are given. */
module Implementation {
  import opened Outcomes
  import opened Json
  import opened Fields
  import opened Manifest
  import opened Engine
  import opened Verifier
  import Policy
  import Replay
  import GC = GeometryContract

  const RECORD_KEYS: seq<string> := ["schema", "version", "runtime", "source_files", "source_bundle_sha256"]
  const CORE_KEYS: seq<string> := ["schema", "version", "runtime", "source_files"]
  const FILE_KEYS: seq<string> := ["path", "byte_length", "sha256"]

  const SCHEMA: Value := Str("heresy-sec.implementation/v1")
  const RUNTIME: Value := Str("python-standard-library")
  const DOMAIN := "HERESY-SEC/IMPLEMENTATION/v1"

  predicate IsFileRow(row: Value) {
    && GC.HasKeys(row, FILE_KEYS) && Field(row, "path").Str? && Field(row, "byte_length").Int?
    && Field(row, "sha256").Str? && |Field(row, "sha256").s| == 64
  }

  predicate HaveOwnPaths(rows: seq<Value>) {
    forall i, j :: 0 <= i < j < |rows| ==> Field(rows[i], "path") != Field(rows[j], "path")
  }

  /** What `normalize_implementation` checks before the hash. */
  predicate IsImplementation(v: Value) {
    && GC.HasKeys(v, RECORD_KEYS)
    && Field(v, "schema") == SCHEMA && Field(v, "version").Str? && Field(v, "runtime") == RUNTIME
    && Field(v, "source_files").Arr? && HaveOwnPaths(Field(v, "source_files").items)
    && forall i :: 0 <= i < |Field(v, "source_files").items| ==> IsFileRow(Field(v, "source_files").items[i])
  }

  datatype Source = Source(path: string, body: string)

  function FileRow(d: Digester, s: Source): Value {
    RecordOf(FILE_KEYS, [Str(s.path), Int(d.size(s.body)), Str(d.sha(s.body))])
  }

  function FileRows(d: Digester, sources: seq<Source>): (rows: seq<Value>)
    ensures |rows| == |sources| && forall i :: 0 <= i < |rows| ==> rows[i] == FileRow(d, sources[i])
  {
    seq(|sources|, i requires 0 <= i < |sources| => FileRow(d, sources[i]))
  }

  function CoreValues(d: Digester, version: string, sources: seq<Source>): (values: seq<Value>)
    ensures |values| == 4
  {
    [SCHEMA, Str(version), RUNTIME, Arr(FileRows(d, sources))]
  }

  function CoreHash(d: Digester, version: string, sources: seq<Source>): string {
    DomainHash(d.sha, DOMAIN, RecordOf(CORE_KEYS, CoreValues(d, version, sources)))
  }

  /** `build_implementation_identity` */
  function BuildImplementation(d: Digester, version: string, sources: seq<Source>): Value {
    RecordOf(RECORD_KEYS, CoreValues(d, version, sources) + [Str(CoreHash(d, version, sources))])
  }

  /** The modules have names of their own, and lengths that can be written. */
  ghost predicate AreSources(d: Digester, sources: seq<Source>) {
    && (forall i, j :: 0 <= i < j < |sources| ==> sources[i].path != sources[j].path)
    && forall i :: 0 <= i < |sources| ==> d.size(sources[i].body) <= MAX_SAFE_INTEGER && IsDigest(d.sha(sources[i].body))
  }

  lemma FileRowIsPlain(d: Digester, s: Source)
    requires d.size(s.body) <= MAX_SAFE_INTEGER && IsDigest(d.sha(s.body))
    ensures GC.IsPlain(FileRow(d, s), 1) && IsFileRow(FileRow(d, s)) && SaysFile(FileRow(d, s), d, s)
  {
    hide GC.IsPlain, RecordOf, Field, AreDistinctKeys, GC.HasKeys;
    var values := [Str(s.path), Int(d.size(s.body)), Str(d.sha(s.body))];
    TaggedTextsDiffer(FILE_KEYS, ['p', 'b', 's'], [4, 11, 6]);
    forall i | 0 <= i < 3 ensures GC.IsPlain(values[i], 0) {
      GC.ScalarIsPlain(values[i], 0);
    }
    GC.PlainRecord(FILE_KEYS, values, 0);
    assert FILE_KEYS[0] == "path" && FILE_KEYS[1] == "byte_length" && FILE_KEYS[2] == "sha256";
  }

  lemma RowsArePlain(d: Digester, sources: seq<Source>)
    requires AreSources(d, sources)
    ensures var rows := FileRows(d, sources);
      GC.IsPlain(Arr(rows), 2) && HaveOwnPaths(rows) && forall i :: 0 <= i < |rows| ==> IsFileRow(rows[i])
  {
    hide FileRow, IsFileRow, Field;
    var rows := FileRows(d, sources);
    forall i | 0 <= i < |rows| ensures GC.IsPlain(rows[i], 1) && IsFileRow(rows[i]) && Field(rows[i], "path") == Str(sources[i].path) {
      FileRowIsPlain(d, sources[i]);
    }
    assert SortedItems(rows) == rows;
  }

  lemma KeysDiffer()
    ensures AreDistinctKeys(RECORD_KEYS) && AreDistinctKeys(CORE_KEYS) && |RECORD_KEYS| == 5 && |CORE_KEYS| == 4
    ensures RECORD_KEYS[0] == "schema" && RECORD_KEYS[1] == "version" && RECORD_KEYS[2] == "runtime"
    ensures RECORD_KEYS[3] == "source_files" && RECORD_KEYS[4] == "source_bundle_sha256" && RECORD_KEYS[..4] == CORE_KEYS
  {
    TaggedTextsDiffer(RECORD_KEYS, ['s', 'v', 'r', 's', 's'], [6, 7, 7, 12, 20]);
    assert RECORD_KEYS[..4] == CORE_KEYS;
  }

  lemma ValuesArePlain(d: Digester, version: string, sources: seq<Source>)
    requires AreSources(d, sources)
    ensures forall i :: 0 <= i < 4 ==> GC.IsPlain(CoreValues(d, version, sources)[i], 2)
  {
    RowsArePlain(d, sources);
    hide GC.IsPlain, FileRows;
    var values := CoreValues(d, version, sources);
    forall i | 0 <= i < 4 ensures GC.IsPlain(values[i], 2) {
      if i < 3 {
        GC.ScalarIsPlain(values[i], 2);
      }
    }
  }

  /** The members of a record are the pairs of its keys and values, in the order of the keys. */
  lemma RecordMembers(keys: seq<string>, values: seq<Value>)
    requires |keys| == |values| && AreDistinctKeys(keys)
    requires forall i :: 0 <= i < |values| ==> GC.IsPlain(values[i], 2)
    ensures var v := RecordOf(keys, values);
      && v.Obj? && Ascending(v.members) && forall m :: m in v.members <==> m in Zip(keys, values)
  {
    hide WellFormed, IsCanonizable, Ascending;
    var zip := Zip(keys, values);
    assert SortedValues(zip) == zip;
    hide Sorted;
    SortedObject(zip);
    SortAscends(zip);
    Policy.SameElements(SortMembers(zip), zip);
  }

  /** Without its hash, the record is what the hash was taken of. */
  lemma RecordWithoutHash(keys: seq<string>, values: seq<Value>, key: string, x: Value)
    requires |keys| == |values| && AreDistinctKeys(keys) && AreDistinctKeys(keys + [key]) && GC.IsPlain(x, 2)
    requires forall i :: 0 <= i < |values| ==> GC.IsPlain(values[i], 2)
    ensures var v := RecordOf(keys + [key], values + [x]);
      v.Obj? && Obj(Others(v.members, key)) == RecordOf(keys, values)
  {
    hide GC.IsPlain, RecordOf, Ascending;
    RecordMembers(keys, values);
    RecordMembers(keys + [key], values + [x]);
    var v, core := RecordOf(keys + [key], values + [x]), RecordOf(keys, values);
    Replay.OthersMean(v.members, key);
    assert Zip(keys + [key], values + [x]) == Zip(keys, values) + [Member(key, x)];
    forall m | m in Zip(keys, values) ensures m.key != key {
      var i :| 0 <= i < |keys| && Zip(keys, values)[i] == m;
      assert (keys + [key])[i] == keys[i] && (keys + [key])[|keys|] == key;
    }
    AscendingUnique(Others(v.members, key), core.members);
  }

  /** The record that the engine builds of itself is accepted JSON, and passes its own checks. */
  lemma BuiltIsAccepted(k: Kernel, version: string, sources: seq<Source>)
    requires AreSources(k.digester, sources)
    requires forall v :: k.isImplementation(v) == IsImplementation(v)
    ensures var v := BuildImplementation(k.digester, version, sources);
      IsNormal(v) && NormalizeImplementation(k, v) == Success(v)
  {
    hide GC.IsPlain, RecordOf, AreDistinctKeys, GC.HasKeys, Field, DomainHash, FileRows, IsFileRow, HaveOwnPaths, AreSources,
      IsNormal, Others;
    var d := k.digester;
    var values := CoreValues(d, version, sources);
    var hash := Str(CoreHash(d, version, sources));
    var v := BuildImplementation(d, version, sources);
    KeysDiffer();
    RowsArePlain(d, sources);
    ValuesArePlain(d, version, sources);
    GC.ScalarIsPlain(hash, 2);
    GC.PlainRecord(RECORD_KEYS, values + [hash], 2);
    GC.PlainIsNormal(v, 3);
    assert CORE_KEYS + ["source_bundle_sha256"] == RECORD_KEYS;
    RecordWithoutHash(CORE_KEYS, values, "source_bundle_sha256", hash);
  }

  /** The record names the version and, for each module, its path, length and hash. */
  lemma BuiltSays(d: Digester, version: string, sources: seq<Source>)
    requires AreSources(d, sources)
    ensures var v := BuildImplementation(d, version, sources);
      && Field(v, "schema") == Str("heresy-sec.implementation/v1") && Field(v, "version") == Str(version)
      && Field(v, "runtime") == Str("python-standard-library")
      && Field(v, "source_files").Arr? && |Field(v, "source_files").items| == |sources|
      && forall i :: 0 <= i < |sources| ==> SaysFile(Field(v, "source_files").items[i], d, sources[i])
  {
    hide GC.IsPlain, RecordOf, AreDistinctKeys, GC.HasKeys, Field, DomainHash, FileRow, SaysFile;
    var values := CoreValues(d, version, sources) + [Str(CoreHash(d, version, sources))];
    KeysDiffer();
    ValuesArePlain(d, version, sources);
    GC.ScalarIsPlain(Str(CoreHash(d, version, sources)), 2);
    GC.PlainRecord(RECORD_KEYS, values, 2);
    forall i | 0 <= i < |sources| ensures SaysFile(FileRow(d, sources[i]), d, sources[i]) {
      FileRowIsPlain(d, sources[i]);
    }
  }

  ghost predicate SaysFile(row: Value, d: Digester, s: Source) {
    Field(row, "path") == Str(s.path) && Field(row, "byte_length") == Int(d.size(s.body)) && Field(row, "sha256") == Str(d.sha(s.body))
  }

  // ---------- what is accepted ----------

  ghost predicate IsRow(row: Value) {
    && row.Obj? && Keys(row.members) == {"path", "byte_length", "sha256"}
    && exists path, n, sha :: (Field(row, "path") == Str(path) && Field(row, "byte_length") == Int(n)
      && Field(row, "sha256") == Str(sha) && |sha| == 64)
  }

  /** Which records are accepted, but for their hash. */
  lemma ImplementationMeans(v: Value)
    ensures IsImplementation(v) <==>
      (&& v.Obj? && Keys(v.members) == {"schema", "version", "runtime", "source_files", "source_bundle_sha256"}
      && Field(v, "schema") == Str("heresy-sec.implementation/v1") && (exists version :: Field(v, "version") == Str(version))
      && Field(v, "runtime") == Str("python-standard-library") && Field(v, "source_files").Arr?
      && (forall row :: row in Field(v, "source_files").items ==> IsRow(row))
      && forall i, j :: 0 <= i < j < |Field(v, "source_files").items| ==>
        Field(Field(v, "source_files").items[i], "path") != Field(Field(v, "source_files").items[j], "path"))
  {
    assert KeySet(RECORD_KEYS) == {"schema", "version", "runtime", "source_files", "source_bundle_sha256"};
    hide IsFileRow, IsRow, Keys, KeySet;
    forall row ensures IsFileRow(row) <==> IsRow(row) {
      RowMeans(row);
    }
  }

  lemma RowMeans(row: Value)
    ensures IsFileRow(row) <==> IsRow(row)
  {
    assert KeySet(FILE_KEYS) == {"path", "byte_length", "sha256"};
    hide Keys, Field, KeySet;
  }
}
