/** The files of the geometry windows: `geometry_artifact_map` (geometry.py and
    geometry_profile_v2_runtime.py). */
module GeometryFiles {
  import opened Effects
  import opened JsonText
  import opened Manifest
  import opened RunFiles
  import Paths

  /** What is stored of an analysed window; profile v2 analyses each window twice. */
  datatype Piece = Graph | Curvature | Spectrum | Holonomy | Registry

  datatype Part = Whole(piece: Piece) | OfShort(piece: Piece) | OfLong(piece: Piece)
    | Inventory | Bundle | Evidence | Commitment | Verdict | Receipt

  /** A window as the engine stores it: the canonical text of each part, its effect and the digest of
      its receipt. */
  datatype Window = Window(body: Part -> string, effect: Effect, digest: string)

  datatype Profile = Profile1 | Profile2

  function ProfileName(p: Profile): string {
    match p
    case Profile1 => "heresy-geom.profile/v1"
    case Profile2 => "heresy-geom.profile/v2"
  }

  function PieceName(p: Piece): string {
    match p
    case Graph => "action-graph.json"
    case Curvature => "curvature.json"
    case Spectrum => "spectral.json"
    case Holonomy => "holonomy.json"
    case Registry => "impossible-configurations.json"
  }

  function FileName(p: Part): string {
    match p
    case Whole(piece) => PieceName(piece)
    case OfShort(piece) => "short/" + PieceName(piece)
    case OfLong(piece) => "long/" + PieceName(piece)
    case Inventory => "manifest-geometry.json"
    case Bundle => "bundle.json"
    case Evidence => "evidence-manifest.json"
    case Commitment => "commitment.json"
    case Verdict => "decision.json"
    case Receipt => "receipt.json"
  }

  function Parts(p: Profile): seq<Part> {
    match p
    case Profile1 =>
      [Whole(Graph), Whole(Curvature), Whole(Spectrum), Whole(Holonomy), Whole(Registry), Evidence, Commitment, Verdict,
        Receipt]
    case Profile2 =>
      [Inventory, Bundle, Whole(Registry), Evidence, Commitment, Verdict, Receipt,
        OfShort(Graph), OfShort(Curvature), OfShort(Spectrum), OfShort(Holonomy), OfShort(Registry),
        OfLong(Graph), OfLong(Curvature), OfLong(Spectrum), OfLong(Holonomy), OfLong(Registry)]
  }

  function WindowPath(i: nat, p: Part): string {
    "geometry/" + (Stem(i) + ("/" + FileName(p)))
  }

  const GEOMETRY_LOG := "geometry-event-log.jsonl"

  function GeometryLog(windows: seq<Window>): string {
    if windows == [] then ""
    else GeometryLog(windows[..|windows| - 1]) + windows[|windows| - 1].body(Receipt) + "\n"
  }

  /** The files of one window, for the first n of its parts. */
  function WindowFiles(w: Window, i: nat, parts: seq<Part>, n: nat): Files
    requires n <= |parts|
  {
    if n == 0 then map[] else WindowFiles(w, i, parts, n - 1)[WindowPath(i, parts[n - 1]) := w.body(parts[n - 1])]
  }

  /** The files of the first n windows. */
  function FilesOf(windows: seq<Window>, parts: seq<Part>, n: nat): Files
    requires n <= |windows|
  {
    if n == 0 then map[] else FilesOf(windows, parts, n - 1) + WindowFiles(windows[n - 1], n - 1, parts, |parts|)
  }

  /** `geometry_artifact_map` */
  function ArtifactMap(profile: Profile, windows: seq<Window>): Files {
    if windows == [] then map[]
    else FilesOf(windows, Parts(profile), |windows|)[GEOMETRY_LOG := GeometryLog(windows)]
  }

  // ---------- names ----------

  lemma PieceTag(p: Piece)
    ensures var s := PieceName(p);
      && |s| == (match p { case Graph => 17 case Curvature => 14 case Spectrum => 13 case Holonomy => 13 case Registry => 30 })
      && s[0] == (match p { case Graph => 'a' case Curvature => 'c' case Spectrum => 's' case Holonomy => 'h' case Registry => 'i' })
      && s[0] != '.' && s[1] != 'h' && '/' !in s
  {
  }

  lemma PiecesDiffer(p: Piece, q: Piece)
    requires PieceName(p) == PieceName(q)
    ensures p == q
  {
    PieceTag(p);
    PieceTag(q);
    hide PieceName;
  }

  lemma FileNameTag(p: Part)
    ensures var s := FileName(p);
      && |s| >= 11
      && (s[0] == match p {
          case Whole(piece) => PieceName(piece)[0] case OfShort(_) => 's' case OfLong(_) => 'l' case Inventory => 'm'
          case Bundle => 'b' case Evidence => 'e' case Commitment => 'c' case Verdict => 'd' case Receipt => 'r' })
      && (s[1] == 'h' <==> p.OfShort?) && (p == Commitment ==> |s| == 15)
      && (p.OfShort? ==> s[6..] == PieceName(p.piece)) && (p.OfLong? ==> s[5..] == PieceName(p.piece))
      && (p.Whole? ==> s == PieceName(p.piece))
  {
    if p.Whole? || p.OfShort? || p.OfLong? {
      PieceTag(p.piece);
    }
    hide PieceName;
  }

  /** No two parts of a window have one name. */
  lemma FileNamesDiffer(p: Part, q: Part)
    requires FileName(p) == FileName(q)
    ensures p == q
  {
    FileNameTag(p);
    FileNameTag(q);
    if p.Whole? || p.OfShort? || p.OfLong? {
      PieceTag(p.piece);
    }
    if q.Whole? || q.OfShort? || q.OfLong? {
      PieceTag(q.piece);
    }
    hide FileName, PieceName;
    if (p.Whole? && q.Whole?) || (p.OfShort? && q.OfShort?) || (p.OfLong? && q.OfLong?) {
      PiecesDiffer(p.piece, q.piece);
    }
  }

  lemma DigitsEnd(a: string, b: string, c: string, d: string)
    requires (forall i :: 0 <= i < |a| ==> IsDigit(a[i])) && forall i :: 0 <= i < |c| ==> IsDigit(c[i])
    requires a + ("/" + b) == c + ("/" + d)
    ensures a == c && b == d
  {
    var s := a + ("/" + b);
    assert s[|a|] == '/' && s[|c|] == '/';
    assert forall i :: 0 <= i < |a| ==> s[i] == a[i];
    assert forall i :: 0 <= i < |c| ==> s[i] == c[i];
    assert |a| == |c|;
    assert a == s[..|a|] && c == s[..|a|];
    assert b == s[|a| + 1..] && d == s[|a| + 1..];
  }

  /** No two windows share a file, and no two parts of one do. */
  lemma WindowPathsDiffer(i: nat, p: Part, j: nat, q: Part)
    ensures WindowPath(i, p) == WindowPath(j, q) <==> i == j && p == q
    ensures WindowPath(i, p) != GEOMETRY_LOG
  {
    StemValue(i);
    StemValue(j);
    hide Stem, FileName, NatOf;
    var a, b := WindowPath(i, p), WindowPath(j, q);
    assert a[8] == '/' && GEOMETRY_LOG[8] == '-';
    if a == b {
      assert a[9..] == Stem(i) + ("/" + FileName(p)) && b[9..] == Stem(j) + ("/" + FileName(q));
      DigitsEnd(Stem(i), FileName(p), Stem(j), FileName(q));
      FileNamesDiffer(p, q);
    }
  }

  // ---------- the map ----------

  /** The files of window i for the given parts, each with its body, and no others. */
  ghost predicate AreWindowFiles(w: Window, i: nat, parts: seq<Part>, files: Files) {
    && (forall p :: p in parts ==> WindowPath(i, p) in files && files[WindowPath(i, p)] == w.body(p))
    && forall path :: path in files ==> exists p :: p in parts && path == WindowPath(i, p)
  }

  lemma {:induction false} WindowFilesMean(w: Window, i: nat, parts: seq<Part>, n: nat)
    requires n <= |parts|
    ensures AreWindowFiles(w, i, parts[..n], WindowFiles(w, i, parts, n))
  {
    hide WindowPath;
    if n > 0 {
      WindowFilesMean(w, i, parts, n - 1);
      var before, files := WindowFiles(w, i, parts, n - 1), WindowFiles(w, i, parts, n);
      var last := parts[n - 1];
      assert parts[..n] == parts[..n - 1] + [last];
      forall p | p in parts[..n] ensures WindowPath(i, p) in files && files[WindowPath(i, p)] == w.body(p) {
        WindowPathsDiffer(i, p, i, last);
      }
      forall path | path in files ensures exists p :: p in parts[..n] && path == WindowPath(i, p) {
        if path in before {
          var p :| p in parts[..n - 1] && path == WindowPath(i, p);
        } else {
          assert last in parts[..n];
        }
      }
    }
  }

  /** The files of the first n windows, each with its body, and no others. */
  ghost predicate AreFilesOf(windows: seq<Window>, parts: seq<Part>, n: nat, files: Files)
    requires n <= |windows|
  {
    && (forall i, p :: 0 <= i < n && p in parts ==>
      WindowPath(i, p) in files && files[WindowPath(i, p)] == windows[i].body(p))
    && forall path :: path in files ==> exists i: nat, p :: i < n && p in parts && path == WindowPath(i, p)
  }

  lemma FilesGrow(windows: seq<Window>, parts: seq<Part>, k: nat, before: Files, last: Files)
    requires k < |windows| && AreFilesOf(windows, parts, k, before) && AreWindowFiles(windows[k], k, parts, last)
    ensures AreFilesOf(windows, parts, k + 1, before + last)
  {
    hide WindowPath;
    var files := before + last;
    forall i, p | 0 <= i < k + 1 && p in parts
      ensures WindowPath(i, p) in files && files[WindowPath(i, p)] == windows[i].body(p)
    {
      if i < k {
        EarlierIsApart(windows[k], i, p, k, parts, last);
      }
    }
    forall path | path in files ensures exists i: nat, p :: i < k + 1 && p in parts && path == WindowPath(i, p) {
      if path in last {
        var p :| p in parts && path == WindowPath(k, p);
      } else {
        var i: nat, p :| i < k && p in parts && path == WindowPath(i, p);
      }
    }
  }

  lemma EarlierIsApart(w: Window, i: nat, p: Part, k: nat, parts: seq<Part>, last: Files)
    requires i < k && AreWindowFiles(w, k, parts, last)
    ensures WindowPath(i, p) !in last
  {
    hide WindowPath;
    if WindowPath(i, p) in last {
      var q :| q in parts && WindowPath(i, p) == WindowPath(k, q);
      WindowPathsDiffer(i, p, k, q);
    }
  }

  lemma NoFiles(windows: seq<Window>, parts: seq<Part>)
    ensures AreFilesOf(windows, parts, 0, map[])
  {
    hide WindowPath;
  }

  lemma {:induction false} FilesOfMean(windows: seq<Window>, parts: seq<Part>, n: nat)
    requires n <= |windows|
    ensures AreFilesOf(windows, parts, n, FilesOf(windows, parts, n))
  {
    hide WindowPath, AreWindowFiles, AreFilesOf, WindowFiles;
    if n == 0 {
      NoFiles(windows, parts);
    } else {
      FilesOfMean(windows, parts, n - 1);
      WindowFilesMean(windows[n - 1], n - 1, parts, |parts|);
      assert parts[..|parts|] == parts;
      FilesGrow(windows, parts, n - 1, FilesOf(windows, parts, n - 1), WindowFiles(windows[n - 1], n - 1, parts, |parts|));
    }
  }

  /** The map of a run: every part of every window under its own path, and the log of the receipts. */
  ghost predicate IsArtifactMap(profile: Profile, windows: seq<Window>, files: Files) {
    if windows == [] then files == map[]
    else
      && GEOMETRY_LOG in files && files[GEOMETRY_LOG] == GeometryLog(windows)
      && AreFilesOf(windows, Parts(profile), |windows|, files - {GEOMETRY_LOG})
  }

  lemma ArtifactMapMeans(profile: Profile, windows: seq<Window>)
    ensures IsArtifactMap(profile, windows, ArtifactMap(profile, windows))
  {
    hide WindowPath, GEOMETRY_LOG, Parts, GeometryLog, AreFilesOf;
    if windows != [] {
      var parts, n := Parts(profile), |windows|;
      var before := FilesOf(windows, parts, n);
      FilesOfMean(windows, parts, n);
      assert GEOMETRY_LOG !in before by {
        LogIsApart(windows, parts, n, before);
      }
      assert ArtifactMap(profile, windows) - {GEOMETRY_LOG} == before;
    }
  }

  lemma LogIsApart(windows: seq<Window>, parts: seq<Part>, n: nat, files: Files)
    requires n <= |windows| && AreFilesOf(windows, parts, n, files)
    ensures GEOMETRY_LOG !in files
  {
    hide WindowPath, GEOMETRY_LOG;
    if GEOMETRY_LOG in files {
      var i: nat, p :| i < n && p in parts && GEOMETRY_LOG == WindowPath(i, p);
      WindowPathsDiffer(i, p, i, p);
    }
  }

  // ---------- safe names ----------

  lemma Below(folder: string, rest: string)
    requires '/' !in folder && folder != ".." && ".." !in Paths.Split(rest)
    ensures ".." !in Paths.Split(folder + ("/" + rest))
  {
    hide Paths.Split;
    Paths.PlainName(folder);
    Paths.SplitJoins(folder, rest);
  }

  lemma PlainIsBelow(name: string)
    requires '/' !in name && name != [] && name[0] != '.'
    ensures ".." !in Paths.Split(name)
  {
    hide Paths.Split;
    Paths.PlainName(name);
    assert ".."[0] == '.';
  }

  lemma RoleFileIsSafe(piece: Piece)
    ensures ".." !in Paths.Split(FileName(OfShort(piece))) && ".." !in Paths.Split(FileName(OfLong(piece)))
  {
    hide Paths.Split;
    PieceTag(piece);
    assert '/' !in "short" && '/' !in "long" && "short"[0] == 's' && "long"[0] == 'l' && ".."[0] == '.';
    assert FileName(OfShort(piece)) == "short" + ("/" + PieceName(piece));
    assert FileName(OfLong(piece)) == "long" + ("/" + PieceName(piece));
    hide PieceName, FileName;
    PlainIsBelow(PieceName(piece));
    Below("short", PieceName(piece));
    Below("long", PieceName(piece));
  }

  lemma FileNameIsSafe(p: Part)
    ensures ".." !in Paths.Split(FileName(p))
  {
    hide Paths.Split, FileName;
    if p.OfShort? || p.OfLong? {
      RoleFileIsSafe(p.piece);
    } else {
      PlainPart(p);
      PlainIsBelow(FileName(p));
    }
  }

  lemma PlainPart(p: Part)
    requires !p.OfShort? && !p.OfLong?
    ensures FileName(p) != [] && '/' !in FileName(p) && FileName(p)[0] != '.'
  {
    if p.Whole? {
      PieceTag(p.piece);
      hide PieceName;
      FileNameTag(p);
    }
  }

  lemma DigitsAreBelow(digits: string, rest: string)
    requires digits != [] && (forall i :: 0 <= i < |digits| ==> IsDigit(digits[i])) && ".." !in Paths.Split(rest)
    ensures ".." !in Paths.Split(digits + ("/" + rest))
  {
    hide Paths.Split;
    assert '/' !in digits && ".."[0] == '.' && digits[0] != '.';
    Below(digits, rest);
  }

  /** A path with a letter g in front and no parent folder in it. */
  lemma GeometryIsSafe(path: string)
    requires path != [] && path[0] == 'g' && ".." !in Paths.Split(path)
    ensures IsSafePath(path)
  {
    hide Paths.Split;
    FrameLetters();
    assert path[..1] == ['g'];
  }

  lemma WindowPathIsSafe(i: nat, p: Part)
    ensures WindowPath(i, p) != [] && WindowPath(i, p)[0] == 'g' && IsSafePath(WindowPath(i, p))
  {
    hide Stem, FileName, IsSafePath, Paths.Split;
    FileNameIsSafe(p);
    DigitsAreBelow(Stem(i), FileName(p));
    assert '/' !in "geometry" && "geometry"[0] == 'g' && ".."[0] == '.';
    assert WindowPath(i, p) == "geometry" + ("/" + (Stem(i) + ("/" + FileName(p))));
    hide WindowPath;
    Below("geometry", Stem(i) + ("/" + FileName(p)));
    GeometryIsSafe(WindowPath(i, p));
  }

  /** The files of the geometry lie below names of their own, whatever the windows hold. */
  lemma ArtifactMapIsGeometry(profile: Profile, windows: seq<Window>)
    ensures AreGeometryFiles(ArtifactMap(profile, windows))
  {
    hide WindowPath, GEOMETRY_LOG, GeometryLog, Parts, IsSafePath, ArtifactMap, AreFilesOf;
    var files := ArtifactMap(profile, windows);
    ArtifactMapMeans(profile, windows);
    LogIsSafe();
    forall path | path in files ensures path != [] && path[0] == 'g' && IsSafePath(path) {
      if path != GEOMETRY_LOG {
        assert path in files - {GEOMETRY_LOG};
        var i, p := WindowOf(windows, Parts(profile), |windows|, files - {GEOMETRY_LOG}, path);
        WindowPathIsSafe(i, p);
      }
    }
  }

  lemma WindowOf(windows: seq<Window>, parts: seq<Part>, n: nat, files: Files, path: string) returns (i: nat, p: Part)
    requires n <= |windows| && AreFilesOf(windows, parts, n, files) && path in files
    ensures path == WindowPath(i, p)
  {
    hide WindowPath;
    i, p :| i < n && p in parts && path == WindowPath(i, p);
  }

  lemma LogIsSafe()
    ensures GEOMETRY_LOG != [] && GEOMETRY_LOG[0] == 'g' && IsSafePath(GEOMETRY_LOG)
  {
    FrameLetters();
    PlainIsSafe(GEOMETRY_LOG);
  }
}
