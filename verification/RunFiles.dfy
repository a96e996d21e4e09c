/** The files of a run: `_artifact_map` (engine.py). */
module RunFiles {
  import opened Outcomes
  import opened Json
  import opened JsonText
  import opened CanonicalJson
  import opened Fields
  import opened Records
  import opened Manifest
  import Paths

  /** The four files of each action. */
  datatype Slot = CaptureSlot | ActionSlot | DecisionSlot | ReceiptSlot

  function Folder(s: Slot): string {
    match s
    case CaptureSlot => "captures"
    case ActionSlot => "actions"
    case DecisionSlot => "decisions"
    case ReceiptSlot => "receipts"
  }

  function Extension(s: Slot): string {
    if s == CaptureSlot then ".raw" else ".json"
  }

  function Zeros(n: nat): (s: string)
    ensures |s| == n && forall i :: 0 <= i < n ==> s[i] == '0'
  {
    seq(n, _ => '0')
  }

  /** `f"{index:06d}"` */
  function Stem(i: nat): (s: string)
    ensures s != [] && forall i :: 0 <= i < |s| ==> IsDigit(s[i])
  {
    var digits := Decimal(i);
    if |digits| >= 6 then digits else Zeros(6 - |digits|) + digits
  }

  function RecordPath(s: Slot, i: nat): string {
    Folder(s) + ("/" + (Stem(i) + Extension(s)))
  }

  lemma StemValue(i: nat)
    ensures NatOf(Stem(i)) == i
  {
    hide NatOf, Decimal;
    DecimalRoundTrip(i);
    if |Decimal(i)| < 6 {
      LeadingZeros(Zeros(6 - |Decimal(i)|), Decimal(i));
    }
  }

  ghost function Tenfold(digits: nat): nat {
    if digits == 0 then 1 else 10 * Tenfold(digits - 1)
  }

  lemma {:induction false} DecimalIsShort(i: nat, digits: nat)
    requires digits >= 1 && i < Tenfold(digits)
    ensures |Decimal(i)| <= digits
  {
    if digits > 1 && i >= 10 {
      DecimalIsShort(i / 10, digits - 1);
    }
  }

  /** A stem has six digits, or as many as the number needs, and is the number. */
  lemma StemMeans(i: nat)
    ensures NatOf(Stem(i)) == i && |Stem(i)| >= 6
    ensures i < 1000000 ==> |Stem(i)| == 6
    ensures Stem(i)[0] == '0' ==> |Stem(i)| == 6
  {
    StemValue(i);
    if i < 1000000 {
      assert Tenfold(6) == 1000000;
      DecimalIsShort(i, 6);
    }
    if |Decimal(i)| > 6 {
      DecimalRoundTrip(i);
    }
  }

  lemma FolderLetter(s: Slot)
    ensures Folder(s) != []
    ensures Folder(s)[0] == match s { case CaptureSlot => 'c' case ActionSlot => 'a' case DecisionSlot => 'd' case ReceiptSlot => 'r' }
    ensures forall i :: RecordPath(s, i)[0] == Folder(s)[0]
  {
    hide Stem;
  }

  lemma Middle(a: string, b: string, c: string)
    ensures var s := a + ("/" + (b + c));
      |s| == |a| + 1 + |b| + |c| && s[|a| + 1..|s| - |c|] == b
  {
  }

  /** No two records share a file. */
  lemma RecordPathsDiffer(s: Slot, i: nat, t: Slot, j: nat)
    ensures RecordPath(s, i) == RecordPath(t, j) <==> s == t && i == j
  {
    FolderLetter(s);
    FolderLetter(t);
    StemValue(i);
    StemValue(j);
    hide Stem, NatOf;
    if RecordPath(s, i) == RecordPath(t, j) {
      assert s == t;
      hide Folder, Extension;
      var f, e := |Folder(s)| + 1, |Extension(s)|;
      var p := RecordPath(s, i);
      assert p == RecordPath(s, j);
      assert |p| == f + |Stem(i)| + e == f + |Stem(j)| + e;
      Middle(Folder(s), Stem(i), Extension(s));
      Middle(Folder(s), Stem(j), Extension(s));
    }
  }

  // ---------- records ----------

  datatype Chain = Chain(raws: seq<string>, actions: seq<Value>, decisions: seq<Decision>, receipts: seq<Receipt>) {
    predicate Valid() {
      |raws| == |actions| == |decisions| == |receipts|
    }

    function Length(): nat {
      |raws|
    }

    function Plus(raw: string, action: Value, decision: Decision, receipt: Receipt): (r: Chain)
      requires Valid()
      ensures r.Valid() && r.Length() == Length() + 1
    {
      Chain(raws + [raw], actions + [action], decisions + [decision], receipts + [receipt])
    }
  }

  const EMPTY: Chain := Chain([], [], [], [])

  function Body(c: Chain, s: Slot, i: nat): string
    requires c.Valid() && i < c.Length()
  {
    match s
    case CaptureSlot => c.raws[i]
    case ActionSlot => CanonicalText(c.actions[i])
    case DecisionSlot => CanonicalText(DecisionValue(c.decisions[i]))
    case ReceiptSlot => CanonicalText(ReceiptValue(c.receipts[i]))
  }

  /** The files of the first n actions. */
  function RecordFiles(c: Chain, n: nat): Files
    requires c.Valid() && n <= c.Length()
  {
    if n == 0 then map[]
    else
      var i := n - 1;
      RecordFiles(c, i)[RecordPath(CaptureSlot, i) := Body(c, CaptureSlot, i)]
        [RecordPath(ActionSlot, i) := Body(c, ActionSlot, i)]
        [RecordPath(DecisionSlot, i) := Body(c, DecisionSlot, i)]
        [RecordPath(ReceiptSlot, i) := Body(c, ReceiptSlot, i)]
  }

  ghost predicate AreRecordFiles(c: Chain, n: nat, files: Files)
    requires c.Valid() && n <= c.Length()
  {
    && (forall s: Slot, i: nat :: i < n ==> RecordPath(s, i) in files && files[RecordPath(s, i)] == Body(c, s, i))
    && forall path :: path in files ==> exists s: Slot, i: nat :: i < n && path == RecordPath(s, i)
  }

  lemma FileOfRecord(c: Chain, k: nat, s: Slot, i: nat)
    requires c.Valid() && i <= k < c.Length() && AreRecordFiles(c, k, RecordFiles(c, k))
    ensures var files := RecordFiles(c, k + 1);
      RecordPath(s, i) in files && files[RecordPath(s, i)] == Body(c, s, i)
  {
    hide RecordPath, Body;
    RecordPathsDiffer(s, i, CaptureSlot, k);
    RecordPathsDiffer(s, i, ActionSlot, k);
    RecordPathsDiffer(s, i, DecisionSlot, k);
    RecordPathsDiffer(s, i, ReceiptSlot, k);
    assert i < k ==> RecordPath(s, i) in RecordFiles(c, k);
  }

  lemma {:induction false} RecordFilesMean(c: Chain, n: nat)
    requires c.Valid() && n <= c.Length()
    ensures AreRecordFiles(c, n, RecordFiles(c, n))
  {
    hide RecordPath, Body;
    if n > 0 {
      var k := n - 1;
      var before, files := RecordFiles(c, k), RecordFiles(c, n);
      RecordFilesMean(c, k);
      forall s: Slot, i: nat | i < n
        ensures RecordPath(s, i) in files && files[RecordPath(s, i)] == Body(c, s, i)
      {
        FileOfRecord(c, k, s, i);
      }
      forall path | path in files ensures exists s: Slot, i: nat :: i < n && path == RecordPath(s, i) {
        if path in before {
          var s: Slot, i: nat :| i < k && path == RecordPath(s, i);
        }
      }
    }
  }

  // ---------- the other files ----------

  const README := "README_ORIGIN.txt"
  const POLICY_RAW := "policy.raw"
  const POLICY := "policy.json"
  const IMPLEMENTATION := "implementation.json"
  const SUMMARY := "summary.json"
  const EVENT_LOG := "event-log.jsonl"

  function EventLog(receipts: seq<Receipt>): string {
    if receipts == [] then ""
    else EventLog(receipts[..|receipts| - 1]) + CanonicalText(ReceiptValue(receipts[|receipts| - 1])) + "\n"
  }

  /** What the engine writes besides the records and the geometry. */
  datatype Frame = Frame(origin: string, rawPolicy: string, policy: Value, implementation: Value, summary: Value)

  function FrameFiles(f: Frame, receipts: seq<Receipt>): Files {
    map[README := f.origin, POLICY_RAW := f.rawPolicy, POLICY := CanonicalText(f.policy),
      IMPLEMENTATION := CanonicalText(f.implementation), SUMMARY := CanonicalText(f.summary),
      EVENT_LOG := EventLog(receipts)]
  }

  /** `_artifact_map` */
  function Artifacts(f: Frame, c: Chain, geometry: Files): Files
    requires c.Valid()
  {
    FrameFiles(f, c.receipts) + RecordFiles(c, c.Length()) + geometry
  }

  /** Geometry files lie below a name of their own. */
  ghost predicate AreGeometryFiles(files: Files) {
    forall path :: path in files ==> path != [] && path[0] == 'g' && IsSafePath(path)
  }

  const FRAME_PATHS: set<string> := {README, POLICY_RAW, POLICY, IMPLEMENTATION, SUMMARY, EVENT_LOG}

  lemma FrameLetters()
    ensures README != [] && POLICY_RAW != [] && POLICY != [] && IMPLEMENTATION != [] && SUMMARY != [] && EVENT_LOG != []
    ensures MANIFEST != []
    ensures README[0] == 'R' && POLICY_RAW[0] == 'p' && POLICY[0] == 'p' && IMPLEMENTATION[0] == 'i'
    ensures SUMMARY[0] == 's' && EVENT_LOG[0] == 'e' && MANIFEST[0] == 'm' && POLICY_RAW != POLICY
  {
    assert |POLICY_RAW| != |POLICY|;
  }

  lemma FrameFilesMean(f: Frame, receipts: seq<Receipt>)
    ensures var m := FrameFiles(f, receipts);
      && m.Keys == FRAME_PATHS
      && m[README] == f.origin && m[POLICY_RAW] == f.rawPolicy && m[POLICY] == CanonicalText(f.policy)
      && m[IMPLEMENTATION] == CanonicalText(f.implementation) && m[SUMMARY] == CanonicalText(f.summary)
      && m[EVENT_LOG] == EventLog(receipts)
  {
    FrameLetters();
  }

  /** The paths that `_semantic_records` expects. */
  ghost predicate IsExpected(count: nat, geometry: Files, path: string) {
    path in FRAME_PATHS || path in geometry || exists s: Slot, i: nat :: i < count && path == RecordPath(s, i)
  }

  /** Every file of the map, by its path. */
  ghost predicate AreArtifacts(f: Frame, c: Chain, geometry: Files, files: Files)
    requires c.Valid()
  {
    && (forall path :: path in files <==> IsExpected(c.Length(), geometry, path))
    && files[README] == f.origin && files[POLICY_RAW] == f.rawPolicy && files[POLICY] == CanonicalText(f.policy)
    && files[IMPLEMENTATION] == CanonicalText(f.implementation) && files[SUMMARY] == CanonicalText(f.summary)
    && files[EVENT_LOG] == EventLog(c.receipts)
    && (forall s: Slot, i: nat :: i < c.Length() ==> files[RecordPath(s, i)] == Body(c, s, i))
    && forall path :: path in geometry ==> files[path] == geometry[path]
  }

  predicate IsFrameLetter(c: char) {
    c == 'R' || c == 'p' || c == 'i' || c == 's' || c == 'e' || c == 'm'
  }

  lemma FrameLetter(path: string)
    ensures path in FRAME_PATHS || path == MANIFEST ==> path != [] && IsFrameLetter(path[0])
  {
    FrameLetters();
    hide README, POLICY_RAW, POLICY, IMPLEMENTATION, SUMMARY, EVENT_LOG, MANIFEST;
  }

  lemma FrameIsApart(path: string, geometry: Files)
    requires (path in FRAME_PATHS || path == MANIFEST) && AreGeometryFiles(geometry)
    ensures path !in geometry
    ensures forall s: Slot, i: nat :: path != RecordPath(s, i)
  {
    hide FRAME_PATHS, MANIFEST, RecordPath, Folder;
    FrameLetter(path);
    forall s: Slot, i: nat ensures path != RecordPath(s, i) {
      FolderLetter(s);
    }
  }

  lemma RecordsAreApart(s: Slot, i: nat, geometry: Files)
    requires AreGeometryFiles(geometry)
    ensures RecordPath(s, i) !in geometry && RecordPath(s, i) !in FRAME_PATHS && RecordPath(s, i) != MANIFEST
  {
    hide FRAME_PATHS, MANIFEST, RecordPath, Folder;
    FrameLetter(RecordPath(s, i));
    FolderLetter(s);
  }

  /** The files of a run are exactly the expected ones, each with its body; no two entries meet. */
  lemma ArtifactsMean(f: Frame, c: Chain, geometry: Files)
    requires c.Valid() && AreGeometryFiles(geometry)
    ensures AreArtifacts(f, c, geometry, Artifacts(f, c, geometry))
    ensures MANIFEST !in Artifacts(f, c, geometry)
  {
    hide RecordPath, RecordFiles, FrameFiles, Body, EventLog, FRAME_PATHS, AreGeometryFiles;
    var frame, records := FrameFiles(f, c.receipts), RecordFiles(c, c.Length());
    FrameFilesMean(f, c.receipts);
    RecordFilesMean(c, c.Length());
    forall path | path in FRAME_PATHS ensures path !in geometry && path !in records {
      FrameIsApart(path, geometry);
    }
    FrameIsApart(MANIFEST, geometry);
    FrameMembers();
    forall s: Slot, i: nat | i < c.Length() ensures RecordPath(s, i) !in geometry {
      RecordsAreApart(s, i, geometry);
    }
  }

  lemma FrameMembers()
    ensures README in FRAME_PATHS && POLICY_RAW in FRAME_PATHS && POLICY in FRAME_PATHS
    ensures IMPLEMENTATION in FRAME_PATHS && SUMMARY in FRAME_PATHS && EVENT_LOG in FRAME_PATHS
    ensures MANIFEST !in FRAME_PATHS
  {
    FrameLetters();
  }

  /** The description pins the map down. */
  lemma ArtifactsAreUnique(f: Frame, c: Chain, geometry: Files, a: Files, b: Files)
    requires c.Valid() && AreArtifacts(f, c, geometry, a) && AreArtifacts(f, c, geometry, b)
    ensures a == b
  {
    hide RecordPath, Body, EventLog;
    forall path | path in a ensures a[path] == b[path] {
    }
  }

  // ---------- safe paths ----------

  lemma NoSlash(s: string, e: string)
    requires (forall i :: 0 <= i < |s| ==> IsDigit(s[i])) && '/' !in e
    ensures '/' !in s + e
  {
  }

  lemma RecordPathIsSafe(s: Slot, i: nat)
    ensures IsSafePath(RecordPath(s, i))
  {
    var name := Stem(i) + Extension(s);
    FolderLetter(s);
    FrameLetters();
    assert IsDigit(Stem(i)[0]) && name[0] == Stem(i)[0];
    hide Stem;
    NoSlash(Stem(i), Extension(s));
    assert '/' !in Folder(s);
    hide Extension, Folder;
    Paths.PlainName(Folder(s));
    Paths.PlainName(name);
    Paths.SplitJoins(Folder(s), name);
    hide Paths.Split;
    assert RecordPath(s, i)[..1] == [RecordPath(s, i)[0]];
    assert Paths.Split(RecordPath(s, i)) == [Folder(s), name];
    assert ".."[0] == '.' && Folder(s)[0] != '.' && name[0] != '.';
  }

  lemma PlainIsSafe(path: string)
    requires path != [] && '/' !in path && path[0] != '.' && path != MANIFEST
    ensures IsSafePath(path)
  {
    Paths.PlainName(path);
    assert path[0] in path;
    hide Paths.Split;
    assert path[..1] == [path[0]];
    assert ".."[0] == '.';
  }

  lemma FrameIsSafe(path: string)
    requires path in FRAME_PATHS
    ensures IsSafePath(path)
  {
    FrameLetters();
    assert '/' !in README && '/' !in POLICY_RAW && '/' !in POLICY && '/' !in IMPLEMENTATION && '/' !in SUMMARY
      && '/' !in EVENT_LOG;
    hide README, POLICY_RAW, POLICY, IMPLEMENTATION, SUMMARY, EVENT_LOG, MANIFEST, IsSafePath;
    PlainIsSafe(path);
  }

  lemma ExpectedIsSafe(count: nat, geometry: Files, path: string)
    requires IsExpected(count, geometry, path) && AreGeometryFiles(geometry)
    ensures IsSafePath(path)
  {
    hide FRAME_PATHS, RecordPath, IsSafePath;
    if path in FRAME_PATHS {
      FrameIsSafe(path);
    } else if path !in geometry {
      var s: Slot, i: nat :| i < count && path == RecordPath(s, i);
      RecordPathIsSafe(s, i);
    }
  }
}
