/** The manifest of a run: `build_manifest` and `verify_manifest` (artifacts.py).

    A run directory is a map from relative paths to the texts of the files. */
module Manifest {
  import opened Outcomes
  import opened Actions
  import opened Json
  import opened CanonicalJson
  import opened Fields
  import opened Records
  import opened Sorting
  import opened Rotations
  import Paths

  const MANIFEST := "manifest.json"

  type Files = map<string, string>

  /** SHA-256 and the length in bytes of a text. */
  datatype Digester = Digester(sha: string -> string, size: string -> nat)

  datatype Row = Row(path: string, size: int, sha: string)

  function RowMembers(r: Row): seq<Member> {
    [Member("path", Str(r.path)), Member("byte_length", Int(r.size)), Member("sha256", Str(r.sha))]
  }

  function RowValue(r: Row): Value {
    Sorted(Obj(RowMembers(r)))
  }

  const ROW_KEYS: set<string> := {"path", "byte_length", "sha256"}

  function RowValues(rows: seq<Row>): (r: seq<Value>)
    ensures |r| == |rows| && forall i :: 0 <= i < |rows| ==> r[i] == RowValue(rows[i])
  {
    seq(|rows|, i requires 0 <= i < |rows| => RowValue(rows[i]))
  }

  function ManifestCore(files: Value, runId: Value): seq<Member> {
    [Member("schema", Str("heresy-sec.manifest/v1")), Member("run_id", runId), Member("files", files)]
  }

  function ManifestMembers(files: Value, runId: Value, digest: Value): seq<Member> {
    ManifestCore(files, runId) + [Member("manifest_sha256", digest)]
  }

  function ManifestDigest(sha: string -> string, files: Value, runId: Value): string {
    DomainHash(sha, "HERESY-SEC/MANIFEST/v1", Obj(ManifestCore(files, runId)))
  }

  function ManifestValue(sha: string -> string, rows: seq<Row>, runId: string): Value {
    var files := Arr(RowValues(rows));
    Sorted(Obj(ManifestMembers(files, Str(runId), Str(ManifestDigest(sha, files, Str(runId))))))
  }

  function ManifestBody(sha: string -> string, rows: seq<Row>, runId: string): string {
    CanonicalText(ManifestValue(sha, rows, runId))
  }

  const MANIFEST_KEYS: set<string> := {"schema", "run_id", "files", "manifest_sha256"}

  // ---------- what a manifest says ----------

  predicate IsSafePath(path: string) {
    path != MANIFEST && !Paths.StartsWith(path, "/") && ".." !in Paths.Split(path)
  }

  /** A path is safe that is relative, never steps up, and is not the manifest itself. */
  lemma SafePathMeans(path: string)
    ensures IsSafePath(path) <==>
      path != "manifest.json" && (path == "" || path[0] != '/') && !Paths.HasComponent(path, "..")
  {
    Paths.ComponentMeans(path, "..");
    hide Paths.Split, Paths.HasComponent;
  }

  predicate Describes(k: Digester, files: Files, r: Row) {
    && IsSafePath(r.path) && r.path in files
    && r.size == k.size(files[r.path]) && r.sha == k.sha(files[r.path])
    && -MAX_SAFE_INTEGER <= r.size <= MAX_SAFE_INTEGER
  }

  ghost predicate HasDistinctPaths(rows: seq<Row>) {
    forall i, j :: 0 <= i < j < |rows| ==> rows[i].path != rows[j].path
  }

  /** The rows list every file but the manifest, each once and as it is, in whatever order. */
  ghost predicate IsInventory(k: Digester, files: Files, rows: seq<Row>) {
    && HasDistinctPaths(rows)
    && (forall i :: 0 <= i < |rows| ==> Describes(k, files, rows[i]))
    && forall path :: path in files && path != MANIFEST ==> exists i :: 0 <= i < |rows| && rows[i].path == path
  }

  /** The directory has a manifest for the run, with those rows. */
  ghost predicate IsManifested(k: Digester, files: Files, rows: seq<Row>, runId: string) {
    IsInventory(k, files, rows) && MANIFEST in files && files[MANIFEST] == ManifestBody(k.sha, rows, runId)
  }

  // ---------- reading it back ----------

  lemma RowKeysDiffer(r: Row)
    ensures DistinctKeys(RowMembers(r)) && Keys(RowMembers(r)) == ROW_KEYS
  {
    var m := RowMembers(r);
    assert m[0].key[0] == 'p' && m[1].key[0] == 'b' && m[2].key[0] == 's';
    assert forall i :: 0 <= i < 3 ==> m[i] in m;
    forall k | k in Keys(m) ensures k in ROW_KEYS {
      var x :| x in m && x.key == k;
    }
  }

  lemma RowFields(r: Row)
    ensures var v := RowValue(r);
      && v.Obj? && Keys(v.members) == ROW_KEYS
      && Field(v, "path") == Str(r.path) && Field(v, "byte_length") == Int(r.size) && Field(v, "sha256") == Str(r.sha)
  {
    var m := RowMembers(r);
    RowKeysDiffer(r);
    SortedObject(m);
    GetAfterSort(m, "path");
    hide DistinctKeys, Field, Keys;
    FieldOf(m, 0);
    FieldOf(m, 1);
    FieldOf(m, 2);
  }

  lemma RowIsShallow(r: Row)
    requires -MAX_SAFE_INTEGER <= r.size <= MAX_SAFE_INTEGER
    ensures WellFormed(RowValue(r)) && IsCanonizable(RowValue(r), MAX_JSON_NESTING - 2)
    ensures Sorted(RowValue(r)) == RowValue(r)
  {
    hide DistinctKeys, Keys, Sorted;
    RowKeysDiffer(r);
    SortedKeeps(Obj(RowMembers(r)), MAX_JSON_NESTING - 2);
  }

  lemma ManifestKeysDiffer(files: Value, runId: Value, digest: Value)
    ensures var m := ManifestMembers(files, runId, digest);
      DistinctKeys(m) && Keys(m) == MANIFEST_KEYS
  {
    var m := ManifestMembers(files, runId, digest);
    assert m[0].key[0] == 's' && m[1].key[0] == 'r' && m[2].key[0] == 'f' && m[3].key[0] == 'm';
    assert forall i :: 0 <= i < 4 ==> m[i] in m;
    forall k | k in Keys(m) ensures k in MANIFEST_KEYS {
      var x :| x in m && x.key == k;
    }
  }

  lemma ManifestFields(files: Value, runId: Value, digest: Value)
    requires Sorted(files) == files && Sorted(runId) == runId && Sorted(digest) == digest
    ensures var v := Sorted(Obj(ManifestMembers(files, runId, digest)));
      && v.Obj? && Keys(v.members) == MANIFEST_KEYS
      && Field(v, "schema") == Str("heresy-sec.manifest/v1") && Field(v, "run_id") == runId
      && Field(v, "files") == files && Field(v, "manifest_sha256") == digest
  {
    var m := ManifestMembers(files, runId, digest);
    ManifestKeysDiffer(files, runId, digest);
    SortedObject(m);
    GetAfterSort(m, "schema");
    hide DistinctKeys, Field, Keys;
    FieldOf(m, 0);
    FieldOf(m, 1);
    FieldOf(m, 2);
    FieldOf(m, 3);
  }

  predicate AreSafe(rows: seq<Row>) {
    forall i :: 0 <= i < |rows| ==> -MAX_SAFE_INTEGER <= rows[i].size <= MAX_SAFE_INTEGER
  }

  lemma RowListIsShallow(rows: seq<Row>)
    requires AreSafe(rows)
    ensures var v := Arr(RowValues(rows));
      Sorted(v) == v && WellFormed(v) && IsCanonizable(v, MAX_JSON_NESTING - 1)
  {
    var items := RowValues(rows);
    hide RowValue;
    forall i | 0 <= i < |rows|
      ensures WellFormed(items[i]) && IsCanonizable(items[i], MAX_JSON_NESTING - 2) && Sorted(items[i]) == items[i]
    {
      RowIsShallow(rows[i]);
    }
    assert SortedItems(items) == items;
  }

  /** A manifest that was built reads back as what was built. */
  lemma ManifestReads(sha: string -> string, rows: seq<Row>, runId: string)
    requires AreSafe(rows)
    ensures Read(ManifestBody(sha, rows, runId)) == Success(ManifestValue(sha, rows, runId))
    ensures IsNormal(ManifestValue(sha, rows, runId))
  {
    hide RowValues, ManifestDigest, DistinctKeys, Sorted, Read;
    var files := Arr(RowValues(rows));
    var digest := ManifestDigest(sha, files, Str(runId));
    RowListIsShallow(rows);
    ManifestIsShallow(files, Str(runId), Str(digest));
    ReadsBack(ManifestValue(sha, rows, runId));
  }

  lemma ManifestIsShallow(files: Value, runId: Value, digest: Value)
    requires WellFormed(files) && IsCanonizable(files, MAX_JSON_NESTING - 1) && runId.Str? && digest.Str?
    ensures IsNormal(Sorted(Obj(ManifestMembers(files, runId, digest))))
  {
    hide DistinctKeys, Sorted, Keys;
    ManifestKeysDiffer(files, runId, digest);
    SortedKeeps(Obj(ManifestMembers(files, runId, digest)), MAX_JSON_NESTING);
  }

  // ---------- verify_manifest ----------

  /** The checks of one row, given the paths declared so far. */
  function CheckRow(k: Digester, files: Files, declared: set<string>, item: Value): Result<Row> {
    if !item.Obj? || Keys(item.members) != ROW_KEYS then Failure(ManifestInvalid)
    else
      var path, size, sha := Field(item, "path"), Field(item, "byte_length"), Field(item, "sha256");
      if !path.Str? || path.s in declared || !IsSafePath(path.s) || !size.Int? || !sha.Str? then Failure(ManifestInvalid)
      else if path.s !in files then Failure(ManifestArtifactMissing)
      else if k.size(files[path.s]) != size.n || k.sha(files[path.s]) != sha.s then Failure(ManifestArtifactTampered)
      else Success(Row(path.s, size.n, sha.s))
  }

  lemma CheckedRow(k: Digester, files: Files, declared: set<string>, item: Value)
    requires IsNormal(item)
    ensures var r := CheckRow(k, files, declared, item);
      r.Success? ==> Describes(k, files, r.value) && r.value.path !in declared && item == RowValue(r.value)
  {
    hide Keys, Field, IsSafePath, Sorted;
    var checked := CheckRow(k, files, declared, item);
    if checked.Success? {
      var row := checked.value;
      IntsAreSafe(item, "byte_length");
      RowFields(row);
      RowIsShallow(row);
      Shallower(RowValue(row));
      SameFields(item, RowValue(row));
    }
  }

  lemma RowChecks(k: Digester, files: Files, declared: set<string>, r: Row)
    requires Describes(k, files, r) && r.path !in declared
    ensures CheckRow(k, files, declared, RowValue(r)) == Success(r)
  {
    hide Keys, Field, IsSafePath, Sorted, RowValue;
    RowFields(r);
  }

  function PathsOf(rows: seq<Row>): set<string> {
    set r | r in rows :: r.path
  }

  /** The loop of `verify_manifest`: `declared` grows row by row. */
  method VerifyRows(k: Digester, files: Files, items: seq<Value>) returns (result: Result<seq<Row>>)
    requires forall i :: 0 <= i < |items| ==> IsNormal(items[i])
    ensures result.Success? ==> IsListing(k, files, items, result.value)
    ensures forall rows :: IsListing(k, files, items, rows) ==> result == Success(rows)
  {
    hide CheckRow, IsListing, IsNormal, PathsOf;
    var declared: set<string> := {};
    var rows: seq<Row> := [];
    NothingListed(k, files, items);
    for index := 0 to |items|
      invariant IsListing(k, files, items[..index], rows) && declared == PathsOf(rows)
      invariant forall all :: IsListing(k, files, items, all) ==> |all| == |items| && rows == all[..index]
    {
      var checked := CheckRow(k, files, declared, items[index]);
      forall all | IsListing(k, files, items, all) ensures checked == Success(all[index]) {
        ListingChecks(k, files, items, all, index);
      }
      if checked.Failure? {
        return Failure(checked.error);
      }
      ListingStep(k, files, items, rows, index);
      rows := rows + [checked.value];
      declared := declared + {checked.value.path};
    }
    assert items[..|items|] == items;
    result := Success(rows);
    forall all | IsListing(k, files, items, all) ensures rows == all {
      assert all[..|items|] == all;
    }
  }

  lemma NothingListed(k: Digester, files: Files, items: seq<Value>)
    ensures IsListing(k, files, items[..0], []) && PathsOf([]) == {}
    ensures forall all :: IsListing(k, files, items, all) ==> |all| == |items| && [] == all[..0]
  {
    hide RowValue, Describes;
  }

  lemma ListingStep(k: Digester, files: Files, items: seq<Value>, rows: seq<Row>, index: nat)
    requires index < |items| && IsListing(k, files, items[..index], rows) && IsNormal(items[index])
    requires CheckRow(k, files, PathsOf(rows), items[index]).Success?
    ensures var r := CheckRow(k, files, PathsOf(rows), items[index]).value;
      IsListing(k, files, items[..index + 1], rows + [r]) && PathsOf(rows + [r]) == PathsOf(rows) + {r.path}
  {
    hide CheckRow, Describes, RowValue, IsNormal;
    var r := CheckRow(k, files, PathsOf(rows), items[index]).value;
    CheckedRow(k, files, PathsOf(rows), items[index]);
    NewPath(rows, r);
    assert items[..index + 1] == items[..index] + [items[index]];
    assert RowValues(rows + [r]) == RowValues(rows) + [RowValue(r)];
  }

  /** The rows that some items of a manifest spell, all of them checked. */
  ghost predicate IsListing(k: Digester, files: Files, items: seq<Value>, rows: seq<Row>) {
    && items == RowValues(rows) && HasDistinctPaths(rows)
    && forall i :: 0 <= i < |rows| ==> Describes(k, files, rows[i])
  }

  lemma ListingChecks(k: Digester, files: Files, items: seq<Value>, all: seq<Row>, index: nat)
    requires IsListing(k, files, items, all) && index < |items|
    ensures |all| == |items|
    ensures CheckRow(k, files, PathsOf(all[..index]), items[index]) == Success(all[index])
  {
    hide CheckRow, Describes;
    forall r | r in all[..index] ensures r.path != all[index].path {
      var i :| 0 <= i < index && all[i] == r;
    }
    RowChecks(k, files, PathsOf(all[..index]), all[index]);
  }

  lemma NewPath(rows: seq<Row>, r: Row)
    requires HasDistinctPaths(rows) && r.path !in PathsOf(rows)
    ensures HasDistinctPaths(rows + [r]) && PathsOf(rows + [r]) == PathsOf(rows) + {r.path}
  {
    forall i | 0 <= i < |rows| ensures rows[i].path != r.path {
      assert rows[i] in rows;
    }
  }

  datatype Report = Report(runId: string, digest: string, artifacts: nat)

  /** The value of a manifest is what `ManifestValue` makes of its rows and its run. */
  lemma ManifestFromFields(sha: string -> string, v: Value, rows: seq<Row>, runId: string)
    requires v.Obj? && IsNormal(v) && Keys(v.members) == MANIFEST_KEYS && AreSafe(rows)
    requires Field(v, "schema") == Str("heresy-sec.manifest/v1") && Field(v, "run_id") == Str(runId)
    requires Field(v, "files") == Arr(RowValues(rows))
    requires Field(v, "manifest_sha256") == Str(ManifestDigest(sha, Field(v, "files"), Field(v, "run_id")))
    ensures v == ManifestValue(sha, rows, runId)
  {
    hide Keys, Field, Sorted, RowValues, ManifestDigest, IsNormal, ManifestMembers;
    RowListIsShallow(rows);
    var files := Arr(RowValues(rows));
    ManifestReads(sha, rows, runId);
    StringsAreSorted(runId);
    StringsAreSorted(ManifestDigest(sha, files, Str(runId)));
    ManifestFields(files, Str(runId), Str(ManifestDigest(sha, files, Str(runId))));
    SameFields(v, ManifestValue(sha, rows, runId));
  }

  /** What a built manifest shows to the reader. */
  lemma ManifestShows(sha: string -> string, rows: seq<Row>, runId: string)
    requires AreSafe(rows)
    ensures var v := ManifestValue(sha, rows, runId);
      && Read(ManifestBody(sha, rows, runId)) == Success(v) && IsNormal(v)
      && v.Obj? && Keys(v.members) == MANIFEST_KEYS
      && Field(v, "schema") == Str("heresy-sec.manifest/v1") && Field(v, "run_id") == Str(runId)
      && Field(v, "files") == Arr(RowValues(rows))
      && Field(v, "manifest_sha256") == Str(ManifestDigest(sha, Field(v, "files"), Field(v, "run_id")))
  {
    hide Keys, Field, Sorted, RowValues, ManifestDigest, Valid, Read;
    RowListIsShallow(rows);
    var files := Arr(RowValues(rows));
    ManifestReads(sha, rows, runId);
    StringsAreSorted(runId);
    StringsAreSorted(ManifestDigest(sha, files, Str(runId)));
    ManifestFields(files, Str(runId), Str(ManifestDigest(sha, files, Str(runId))));
  }

  lemma DescribedAreSafe(k: Digester, files: Files, rows: seq<Row>)
    requires forall i :: 0 <= i < |rows| ==> Describes(k, files, rows[i])
    ensures AreSafe(rows)
  {
    hide IsSafePath;
  }

  /** `verify_manifest`: it accepts exactly the directories whose manifest is the canonical text of
      an inventory of the other files, and reports the run that the manifest names. */
  method VerifyManifest(k: Digester, files: Files) returns (result: Result<Report>)
    ensures result.Success? ==>
      exists rows :: IsManifested(k, files, rows, result.value.runId) && result.value.artifacts == |rows|
    ensures forall rows, runId :: IsManifested(k, files, rows, runId) ==> result.Success? && result.value.runId == runId
  {
    hide Read, Field, Keys, IsNormal, CheckRow, IsListing, ManifestBody, ManifestValue, ManifestDigest, RowValues, IsInventory;
    forall rows, runId | IsManifested(k, files, rows, runId) ensures Shows(k, files, rows, runId) {
      PassesAll(k, files, rows, runId);
    }
    if MANIFEST !in files {
      return Failure(ManifestMissing);
    }
    var body := files[MANIFEST];
    var read := Read(body);
    if read.Failure? {
      return Failure(read.error);
    }
    ReadIsNormal(body);
    var v := read.value;
    if !v.Obj? || Keys(v.members) != MANIFEST_KEYS {
      return Failure(ManifestInvalid);
    }
    var runId, items, digest := Field(v, "run_id"), Field(v, "files"), Field(v, "manifest_sha256");
    if Field(v, "schema") != Str("heresy-sec.manifest/v1") || !runId.Str? || !items.Arr? || !digest.Str? {
      return Failure(ManifestInvalid);
    }
    if digest.s != ManifestDigest(k.sha, items, runId) {
      return Failure(ManifestHashMismatch);
    }
    if body != CanonicalText(v) {
      return Failure(ManifestCanonicalMismatch);
    }
    ItemsAreNormal(v, "files");
    var checked := VerifyRows(k, files, items.items);
    if checked.Failure? {
      return Failure(checked.error);
    }
    var rows := checked.value;
    if files.Keys != PathsOf(rows) + {MANIFEST} {
      return Failure(ManifestFileSetMismatch);
    }
    Accepted(k, files, v, rows, runId.s);
    result := Success(Report(runId.s, digest.s, |rows|));
  }

  /** What the checks of `verify_manifest` see in a directory that has its manifest. */
  ghost predicate Shows(k: Digester, files: Files, rows: seq<Row>, runId: string) {
    && MANIFEST in files
    && var read := Read(files[MANIFEST]);
    && read.Success? && read.value.Obj? && Keys(read.value.members) == MANIFEST_KEYS
    && Field(read.value, "schema") == Str("heresy-sec.manifest/v1")
    && Field(read.value, "run_id") == Str(runId)
    && Field(read.value, "files").Arr?
    && Field(read.value, "manifest_sha256") == Str(ManifestDigest(k.sha, Field(read.value, "files"), Str(runId)))
    && files[MANIFEST] == CanonicalText(read.value)
    && IsListing(k, files, Field(read.value, "files").items, rows)
    && files.Keys == PathsOf(rows) + {MANIFEST}
  }

  lemma PassesAll(k: Digester, files: Files, rows: seq<Row>, runId: string)
    requires IsManifested(k, files, rows, runId)
    ensures Shows(k, files, rows, runId)
  {
    hide Read, Field, Keys, IsNormal, ManifestValue, ManifestDigest, RowValues, Describes, CanonicalText;
    DescribedAreSafe(k, files, rows);
    ManifestShows(k.sha, rows, runId);
    InventoryKeys(k, files, rows);
  }

  lemma InventoryKeys(k: Digester, files: Files, rows: seq<Row>)
    requires IsInventory(k, files, rows) && MANIFEST in files
    ensures files.Keys == PathsOf(rows) + {MANIFEST}
  {
    hide IsSafePath;
    forall path ensures path in files <==> path in PathsOf(rows) + {MANIFEST} {
      if path in files && path != MANIFEST {
        var i :| 0 <= i < |rows| && rows[i].path == path;
        assert rows[i] in rows;
      }
      if path in PathsOf(rows) {
        var r :| r in rows && r.path == path;
        var i :| 0 <= i < |rows| && rows[i] == r;
        assert Describes(k, files, rows[i]);
      }
    }
  }

  lemma Accepted(k: Digester, files: Files, v: Value, rows: seq<Row>, runId: string)
    requires MANIFEST in files && files[MANIFEST] == CanonicalText(v)
    requires v.Obj? && IsNormal(v) && Keys(v.members) == MANIFEST_KEYS
    requires Field(v, "schema") == Str("heresy-sec.manifest/v1") && Field(v, "run_id") == Str(runId)
    requires Field(v, "files").Arr? && IsListing(k, files, Field(v, "files").items, rows)
    requires Field(v, "manifest_sha256") == Str(ManifestDigest(k.sha, Field(v, "files"), Field(v, "run_id")))
    requires files.Keys == PathsOf(rows) + {MANIFEST}
    ensures IsManifested(k, files, rows, runId)
  {
    hide Field, Keys, IsNormal, ManifestValue, ManifestDigest, RowValues, Describes, CanonicalText;
    DescribedAreSafe(k, files, rows);
    ManifestFromFields(k.sha, v, rows, runId);
    forall path | path in files && path != MANIFEST ensures exists i :: 0 <= i < |rows| && rows[i].path == path {
      assert path in PathsOf(rows);
      var r :| r in rows && r.path == path;
      var i :| 0 <= i < |rows| && rows[i] == r;
    }
  }

  /** The order of the rows is never checked: with the manifest rewritten for any permutation of its
      rows, a directory is accepted as before. */
  lemma RowOrderIsFree(k: Digester, files: Files, rows: seq<Row>, moved: seq<Row>, runId: string)
    requires IsManifested(k, files, rows, runId) && multiset(rows) == multiset(moved)
    ensures IsManifested(k, files[MANIFEST := ManifestBody(k.sha, moved, runId)], moved, runId)
  {
    hide ManifestBody;
    var other := files[MANIFEST := ManifestBody(k.sha, moved, runId)];
    NoRepeats(rows, moved) by {
      assert forall i, j :: 0 <= i < j < |rows| ==> rows[i].path != rows[j].path;
    }
    forall i | 0 <= i < |moved| ensures Describes(k, other, moved[i]) {
      assert moved[i] in rows;
    }
    forall i, j | 0 <= i < j < |moved| ensures moved[i].path != moved[j].path {
      assert moved[i] in rows && moved[j] in rows;
    }
    forall path | path in other && path != MANIFEST ensures exists i :: 0 <= i < |moved| && moved[i].path == path {
      var i :| 0 <= i < |rows| && rows[i].path == path;
      assert rows[i] in rows;
      assert rows[i] in moved;
    }
  }

  // ---------- build_manifest ----------

  /** `sorted(files.items())`, by path. */
  method SortedPaths(files: Files) returns (paths: seq<string>)
    ensures forall path :: path in paths <==> path in files
    ensures forall i, j :: 0 <= i < j < |paths| ==> paths[i] != paths[j]
    ensures SortedBy(paths, StringAtMost)
  {
    hide StringAtMost;
    var rest := files.Keys;
    var listed: seq<string> := [];
    while rest != {}
      invariant rest <= files.Keys
      invariant forall path :: path in listed <==> path in files.Keys - rest
      invariant forall i, j :: 0 <= i < j < |listed| ==> listed[i] != listed[j]
      decreases rest
    {
      var path :| path in rest;
      OneMoreListed(files.Keys, listed, rest, path);
      listed, rest := listed + [path], rest - {path};
    }
    paths := Sort(listed, StringAtMost);
    StringAtMostIsTotal();
    SortSorts(listed, StringAtMost);
    NoRepeats(listed, paths);
  }

  lemma OneMoreListed(all: set<string>, listed: seq<string>, rest: set<string>, path: string)
    requires path in rest && rest <= all && (forall p :: p in listed <==> p in all - rest)
    requires forall i, j :: 0 <= i < j < |listed| ==> listed[i] != listed[j]
    ensures forall p :: p in listed + [path] <==> p in all - (rest - {path})
    ensures forall i, j :: 0 <= i < j < |listed + [path]| ==> (listed + [path])[i] != (listed + [path])[j]
  {
    forall i | 0 <= i < |listed| ensures listed[i] != path {
      assert listed[i] in listed;
    }
  }

  ghost predicate IsSortedByPath(rows: seq<Row>) {
    forall i, j :: 0 <= i < j < |rows| ==> StringAtMost(rows[i].path, rows[j].path)
  }

  /** The length of every file is a safe integer. */
  ghost predicate HasSafeSizes(k: Digester, files: Files) {
    forall path :: path in files ==> k.size(files[path]) <= MAX_SAFE_INTEGER
  }

  /** `build_manifest`: the canonical text of the inventory whose rows are sorted by path.  A length
      out of range cannot be written canonically. */
  method BuildManifest(k: Digester, files: Files, runId: string) returns (result: Result<string>)
    requires MANIFEST !in files && forall path :: path in files ==> IsSafePath(path)
    ensures result.Success? <==> HasSafeSizes(k, files)
    ensures result.Failure? ==> result.error == CanonicalInvalid
    ensures result.Success? ==>
      exists rows :: IsInventory(k, files, rows) && IsSortedByPath(rows) && result.value == ManifestBody(k.sha, rows, runId)
  {
    hide IsSafePath, StringAtMost, ManifestBody;
    var paths := SortedPaths(files);
    var rows: seq<Row> := [];
    for index := 0 to |paths|
      invariant |rows| == index
      invariant forall i :: 0 <= i < index ==> rows[i].path == paths[i] && Describes(k, files, rows[i])
    {
      var path := paths[index];
      assert path in paths;
      if k.size(files[path]) > MAX_SAFE_INTEGER {
        return Failure(CanonicalInvalid);
      }
      rows := rows + [Row(path, k.size(files[path]), k.sha(files[path]))];
    }
    result := Success(ManifestBody(k.sha, rows, runId));
    forall path | path in files && path != MANIFEST ensures exists i :: 0 <= i < |rows| && rows[i].path == path {
      var i :| 0 <= i < |paths| && paths[i] == path;
      assert rows[i].path == path;
    }
  }
}
