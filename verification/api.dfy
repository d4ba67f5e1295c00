/**
 * The run lifecycle of the deck agent's HTTP API: validating a new run's
 * settings, creating it, accepting uploads while it is still `created`,
 * queueing its build, and deciding which output file a request may read.
 *
 * The SQLite tables and the job queue are the fields of `RunStore`. Fresh
 * identifiers (`uuid4().hex`) are parameters, and so is whether a resolved
 * output path exists on disk. Paths are strings relative to the repository
 * root, as the database stores them.
 */
module Api {
  import opened Wrappers
  import opened Text
  import opened Paths
  import Ordering

  /* ---------------- Request validation ---------------- */

  const DefaultMaxTopics: int := 6
  const DefaultMaxInsights: int := 12

  /** The body of `POST /api/runs`; an omitted optional field is `None`. */
  datatype CreateRunIn = CreateRunIn(
    week: string,
    maxTopics: Option<int>,
    maxInsights: Option<int>,
    agendaNotes: Option<string>)

  /** A validated body with its defaults filled in. */
  datatype RunSettings = RunSettings(
    week: string,
    maxTopics: int,
    maxInsights: int,
    agendaNotes: Option<string>)

  /** An HTTP error response: status code and detail. */
  datatype HttpError = HttpError(code: int, detail: string)

  /** An optional number that, when given, lies in `lo..hi`. */
  predicate InRangeOrAbsent(x: Option<int>, lo: int, hi: int) {
    x.None? || lo <= x.value <= hi
  }

  /** The field constraints of `CreateRunIn`; the error names the first field that fails. */
  function ValidateRun(inp: CreateRunIn): (r: Result<RunSettings, string>)
    ensures r.Ok? <==> 1 <= |inp.week| <= 64
                       && InRangeOrAbsent(inp.maxTopics, 1, 12)
                       && InRangeOrAbsent(inp.maxInsights, 1, 40)
                       && (inp.agendaNotes.None? || |inp.agendaNotes.value| <= 4000)
    ensures r.Ok? ==> r.value.week == inp.week && r.value.agendaNotes == inp.agendaNotes
                      && r.value.maxTopics == inp.maxTopics.GetOr(DefaultMaxTopics)
                      && r.value.maxInsights == inp.maxInsights.GetOr(DefaultMaxInsights)
                      && 1 <= r.value.maxTopics <= 12 && 1 <= r.value.maxInsights <= 40
  {
    if !(1 <= |inp.week| <= 64) then Err("week")
    else if !InRangeOrAbsent(inp.maxTopics, 1, 12) then Err("max_topics")
    else if !InRangeOrAbsent(inp.maxInsights, 1, 40) then Err("max_insights")
    else if inp.agendaNotes.Some? && |inp.agendaNotes.value| > 4000 then Err("agenda_notes")
    else
      Ok(RunSettings(inp.week,
                     inp.maxTopics.GetOr(DefaultMaxTopics),
                     inp.maxInsights.GetOr(DefaultMaxInsights),
                     inp.agendaNotes))
  }

  /** A body that gives only a week of acceptable length is valid, with 6 topics and 12 insights. */
  lemma DefaultsAccepted(week: string)
    requires 1 <= |week| <= 64
    ensures ValidateRun(CreateRunIn(week, None, None, None)) == Ok(RunSettings(week, 6, 12, None))
  {
  }

  /* ---------------- Records ---------------- */

  /** A row of the `runs` table. */
  datatype Run = Run(
    id: string,
    week: string,
    maxTopics: int,
    maxInsights: int,
    agendaNotes: Option<string>,
    status: string,
    stage: string,
    progressCurrent: int,
    progressTotal: int,
    message: Option<string>)

  /** The `source_type` of an asset: stored as "pdf" or "image". */
  datatype SourceType = PdfSource | ImageSource

  /**
   * A row of the `assets` table, as an upload creates it; its status is
   * then always "uploaded", so the status column is left implicit.
   */
  datatype Asset = Asset(
    runId: string,
    sourceType: SourceType,
    originalFilename: string,
    storedPath: StoredFile,
    imagePath: Option<StoredFile>)

  /** A queued job. */
  datatype Job = Job(id: string, runId: string, kind: string)

  /** `create_run` of the database: a fresh run, open for uploads. */
  function NewRun(id: string, s: RunSettings): Run {
    Run(id, s.week, s.maxTopics, s.maxInsights, s.agendaNotes, "created", "idle", 0, 0, None)
  }

  /** The fields `start_run` sets. */
  function Queued(run: Run): Run {
    run.(status := "queued", stage := "queued", message := Some("Queued."), progressCurrent := 0)
  }

  /**
   * The gate in front of uploads and starts: 404 for an unknown run, 400
   * unless the run is still `created`; `action` completes the detail.
   */
  function Gate(runs: map<string, Run>, runId: string, action: string): (r: Option<HttpError>)
    ensures r.None? <==> runId in runs && runs[runId].status == "created"
    ensures r.Some? ==> (r.value.code == 404 <==> runId !in runs)
    ensures r.Some? ==> r.value.code == 404 || r.value.code == 400
  {
    if runId !in runs then Some(HttpError(404, "run not found"))
    else if runs[runId].status != "created" then
      Some(HttpError(400, "run not " + action + " in status=" + runs[runId].status))
    else None
  }

  /** A new run passes both gates. */
  lemma NewRunIsOpen(runs: map<string, Run>, id: string, s: RunSettings, action: string)
    ensures Gate(runs[id := NewRun(id, s)], id, action).None?
  {
  }

  /** A queued run is closed: uploading to it or starting it again is a 400. */
  lemma QueuedRunIsClosed(runs: map<string, Run>, id: string, action: string)
    requires id in runs
    ensures var g := Gate(runs[id := Queued(runs[id])], id, action);
            g.Some? && g.value.code == 400
  {
    assert Queued(runs[id]).status != "created" by {
      assert Queued(runs[id]).status[0] == 'q';
    }
  }

  /* ---------------- Upload classification ---------------- */

  const UploadsRoot: string := "data/uploads"

  /** How one uploaded file is treated. */
  datatype FileKind = Skipped | PdfFile | ImageFile | Unsupported

  /** The extensions an upload may carry, after lowercasing. */
  const ImageExtensions: set<string> := {".png", ".jpg", ".jpeg"}

  /** `s.lower() == t`, compared one character at a time. */
  predicate LowerIs(s: string, t: string)
    decreases |s|
  {
    if s == [] then t == [] else t != [] && LowerChar(s[0]) == t[0] && LowerIs(s[1..], t[1..])
  }

  lemma {:induction false} LowerIsSpec(s: string, t: string)
    ensures LowerIs(s, t) <==> Lower(s) == t
    decreases |s|
  {
    if s != [] && t != [] {
      LowerIsSpec(s[1..], t[1..]);
      assert Lower(s) == [LowerChar(s[0])] + Lower(s[1..]);
      if Lower(s) == t {
        assert Lower(s)[1..] == Lower(s[1..]);
      }
      if LowerIs(s, t) {
        assert t == [t[0]] + t[1..];
      }
    }
  }

  /** The kind of a file by its base name: its lowercased suffix decides. */
  function KindOfName(original: string): (k: FileKind)
    ensures k != Skipped
  {
    var ext := Suffix(original);
    if LowerIs(ext, ".pdf") then PdfFile
    else if LowerIs(ext, ".png") || LowerIs(ext, ".jpg") || LowerIs(ext, ".jpeg") then ImageFile
    else Unsupported
  }

  /** `.pdf` files are PDFs and the three image extensions images, in any letter case; nothing else is accepted. */
  lemma KindOfNameSpec(original: string)
    ensures KindOfName(original) == PdfFile <==> Lower(Suffix(original)) == ".pdf"
    ensures KindOfName(original) == ImageFile <==> Lower(Suffix(original)) in ImageExtensions
  {
    var ext := Suffix(original);
    LowerIsSpec(ext, ".pdf");
    ImageExtensionTest(ext);
  }

  lemma ImageExtensionTest(ext: string)
    ensures LowerIs(ext, ".png") || LowerIs(ext, ".jpg") || LowerIs(ext, ".jpeg") <==> Lower(ext) in ImageExtensions
  {
    LowerIsSpec(ext, ".png");
    LowerIsSpec(ext, ".jpg");
    LowerIsSpec(ext, ".jpeg");
  }

  /** A file without a name is skipped; otherwise its base name decides. */
  function Classify(filename: Option<string>): (k: FileKind)
    ensures k == Skipped <==> filename.None? || filename.value == []
  {
    if filename.None? || filename.value == [] then Skipped else KindOfName(Name(filename.value))
  }

  /** The extension test ignores letter case. */
  lemma KindIgnoresCase(a: string, b: string)
    requires Lower(a) == Lower(b)
    ensures KindOfName(a) == KindOfName(b)
  {
    SuffixLower(a, b);
    KindOfNameSpec(a);
    KindOfNameSpec(b);
  }

  /** A non-empty stem followed by an accepted extension is accepted. */
  lemma AcceptedExtensions(stem: string, ext: string)
    requires stem != []
    requires ext == ".pdf" || ext in ImageExtensions
    ensures KindOfName(stem + ext) == (if ext == ".pdf" then PdfFile else ImageFile)
  {
    AcceptedExtensionShape(ext);
    SuffixOfExtension(stem, ext);
    KindOfNameSpec(stem + ext);
  }

  /** Each accepted extension is one leading dot and lower-case letters. */
  lemma AcceptedExtensionShape(ext: string)
    requires ext == ".pdf" || ext in ImageExtensions
    ensures 2 <= |ext| && ext[0] == '.' && forall j :: 1 <= j < |ext| ==> ext[j] != '.'
    ensures Lower(ext) == ext
  {
    if ext == ".pdf" {
      assert ext[1] == 'p' && ext[2] == 'd' && ext[3] == 'f';
    } else if ext == ".png" {
      assert ext[1] == 'p' && ext[2] == 'n' && ext[3] == 'g';
    } else if ext == ".jpg" {
      assert ext[1] == 'j' && ext[2] == 'p' && ext[3] == 'g';
    } else {
      assert ext == ".jpeg";
      assert ext[1] == 'j' && ext[2] == 'p' && ext[3] == 'e' && ext[4] == 'g';
    }
    forall j | 1 <= j < |ext| ensures IsLowerAlpha(ext[j]) {
      if j == 1 {
      } else if j == 2 {
      } else if j == 3 {
      } else {
        assert j == 4 && ext == ".jpeg";
      }
    }
    LowerNoUpper(ext);
  }

  /** The last dot of `stem + ext` starts `ext` when `ext` has a single, leading dot. */
  lemma SuffixOfExtension(stem: string, ext: string)
    requires stem != [] && 2 <= |ext| && ext[0] == '.'
    requires forall j :: 1 <= j < |ext| ==> ext[j] != '.'
    ensures Suffix(stem + ext) == ext
  {
    var name := stem + ext;
    var i := LastIndex(name, '.');
    assert name[|stem|] == '.';
    assert forall j :: |stem| < j < |name| ==> name[j] == ext[j - |stem|];
    assert i == |stem|;
    assert name[i..] == ext;
  }

  /**
   * Where an upload is stored: its run's upload directory, then the file
   * name `<hex>_<original>` with a fresh hex prefix.
   */
  datatype StoredFile = StoredFile(runId: string, hex: string, original: string)

  /** The stored file's path, as the database records it. */
  function PathOf(f: StoredFile): string {
    UploadsRoot + "/" + f.runId + "/" + f.hex + "_" + f.original
  }

  /** The asset row of an accepted file. */
  function AssetOf(runId: string, original: string, hex: string, kind: FileKind): Asset {
    var stored := StoredFile(runId, hex, original);
    if kind == PdfFile then Asset(runId, PdfSource, original, stored, None)
    else Asset(runId, ImageSource, original, stored, Some(stored))
  }

  /** What an upload request does: the assets created, and the name of a rejected file. */
  datatype UploadOutcome = UploadOutcome(created: seq<Asset>, rejected: Option<string>)

  /** What the upload loop does with one file. */
  datatype Decision = Skip | Store(asset: Asset) | Reject(name: string)

  /** The decision for one file: skip it, store it as an asset, or reject it by its base name. */
  function Decide(runId: string, file: Option<string>, hex: string): Decision {
    var kind := Classify(file);
    if kind == Skipped then Skip
    else
      var original := Name(file.value);
      if kind == Unsupported then Reject(original)
      else Store(AssetOf(runId, original, hex, kind))
  }

  /** `[f(xs[0], 0), f(xs[1], 1), ...]` */
  function MapIndexed<A, B>(xs: seq<A>, f: (A, nat) -> B): (ys: seq<B>)
    ensures |ys| == |xs|
  {
    if xs == [] then [] else MapIndexed(xs[..|xs| - 1], f) + [f(xs[|xs| - 1], |xs| - 1)]
  }

  lemma {:induction false} MapIndexedAt<A, B>(xs: seq<A>, f: (A, nat) -> B, i: nat)
    requires i < |xs|
    ensures MapIndexed(xs, f)[i] == f(xs[i], i)
  {
    var n := |xs| - 1;
    if i < n {
      MapIndexedAt(xs[..n], f, i);
    }
  }

  /** The decision for the file at a position; `hexOf(i)` is the fresh hex drawn for the i-th file. */
  function DecideFn(runId: string, hexOf: nat -> string): (Option<string>, nat) -> Decision {
    (file: Option<string>, i: nat) => Decide(runId, file, hexOf(i))
  }

  /** The decision for every file. */
  function Decisions(runId: string, files: seq<Option<string>>, hexOf: nat -> string): seq<Decision> {
    MapIndexed(files, DecideFn(runId, hexOf))
  }

  lemma DecisionAt(runId: string, files: seq<Option<string>>, hexOf: nat -> string, i: nat)
    requires i < |files|
    ensures Decisions(runId, files, hexOf)[i] == Decide(runId, files[i], hexOf(i))
  {
    MapIndexedAt(files, DecideFn(runId, hexOf), i);
  }

  /** The decision for the i-th file, as the upload loop takes it. */
  method DecideAt(runId: string, files: seq<Option<string>>, hexOf: nat -> string, i: nat) returns (d: Decision)
    requires i < |files|
    ensures d == Decisions(runId, files, hexOf)[i]
    ensures d.Store? ==> d.asset.runId == runId
  {
    d := Decide(runId, files[i], hexOf(i));
    DecisionAt(runId, files, hexOf, i);
  }

  /** One decision, after the files before it; nothing happens after a rejection. */
  function Step(prev: UploadOutcome, d: Decision): UploadOutcome {
    if prev.rejected.Some? then prev
    else
      match d
      case Skip => prev
      case Store(a) => UploadOutcome(prev.created + [a], None)
      case Reject(name) => UploadOutcome(prev.created, Some(name))
  }

  /** The decisions taken in order. */
  function Outcome(ds: seq<Decision>): UploadOutcome {
    if ds == [] then UploadOutcome([], None)
    else Step(Outcome(ds[..|ds| - 1]), ds[|ds| - 1])
  }

  /**
   * The files processed in order: a skipped file adds nothing, an accepted
   * one adds its asset, and the first unsupported one ends the request.
   */
  function Planned(runId: string, files: seq<Option<string>>, hexOf: nat -> string): UploadOutcome {
    Outcome(Decisions(runId, files, hexOf))
  }

  /** Once a prefix of the decisions rejects, the later ones change nothing. */
  lemma {:induction false} OutcomeStops(ds: seq<Decision>, i: nat)
    requires i <= |ds|
    requires Outcome(ds[..i]).rejected.Some?
    ensures Outcome(ds) == Outcome(ds[..i])
    decreases |ds| - i
  {
    if i < |ds| {
      assert ds[..i + 1][..i] == ds[..i];
      OutcomeStops(ds, i + 1);
    } else {
      assert ds[..i] == ds;
    }
  }

  /** Every created asset was stored by one of the decisions, and there are no more assets than decisions. */
  lemma {:induction false} OutcomeCreated(ds: seq<Decision>)
    ensures |Outcome(ds).created| <= |ds|
    ensures forall a :: a in Outcome(ds).created ==> Store(a) in ds
  {
    if ds != [] {
      var init := ds[..|ds| - 1];
      OutcomeCreated(init);
      forall a | a in Outcome(ds).created
        ensures Store(a) in ds
      {
        if a in Outcome(init).created {
          assert Store(a) in init;
        } else {
          assert ds[|ds| - 1] == Store(a);
        }
      }
    }
  }

  predicate IsReject(d: Decision) {
    d.Reject?
  }

  /** The decisions reject exactly when one of them is a rejection. */
  lemma {:induction false} OutcomeRejects(ds: seq<Decision>)
    ensures Outcome(ds).rejected.Some? <==> Any(ds, IsReject)
  {
    if ds != [] {
      OutcomeRejects(ds[..|ds| - 1]);
      AnySnoc(ds, IsReject);
    }
  }

  /**
   * An accepted file's asset: its run, a base name whose extension matches
   * its source type, stored under that run with that name, and an image
   * path exactly for images.
   */
  predicate WellFormedAsset(a: Asset, runId: string) {
    a.runId == runId && '/' !in a.originalFilename
    && a.storedPath.runId == runId && a.storedPath.original == a.originalFilename
    && (a.sourceType == PdfSource ==> a.imagePath.None? && KindOfName(a.originalFilename) == PdfFile)
    && (a.sourceType == ImageSource ==> a.imagePath == Some(a.storedPath) && KindOfName(a.originalFilename) == ImageFile)
  }

  /** Every created asset is well formed, and no more assets than files are created. */
  lemma PlannedAssets(runId: string, files: seq<Option<string>>, hexOf: nat -> string)
    ensures |Planned(runId, files, hexOf).created| <= |files|
    ensures forall a :: a in Planned(runId, files, hexOf).created ==> WellFormedAsset(a, runId)
  {
    var ds := Decisions(runId, files, hexOf);
    OutcomeCreated(ds);
    forall a | a in Outcome(ds).created
      ensures WellFormedAsset(a, runId)
    {
      var i :| 0 <= i < |ds| && ds[i] == Store(a);
      DecisionAt(runId, files, hexOf, i);
    }
  }

  /** Some element of `xs` satisfies `p`. */
  predicate Any<T>(xs: seq<T>, p: T -> bool) {
    exists i :: 0 <= i < |xs| && p(xs[i])
  }

  lemma AnySnoc<T>(xs: seq<T>, p: T -> bool)
    requires xs != []
    ensures Any(xs, p) <==> Any(xs[..|xs| - 1], p) || p(xs[|xs| - 1])
  {
    var n := |xs| - 1;
    if Any(xs[..n], p) {
      var i :| 0 <= i < n && p(xs[..n][i]);
      assert xs[i] == xs[..n][i];
    }
  }

  predicate IsUnsupported(f: Option<string>) {
    Classify(f) == Unsupported
  }

  /** A request is rejected exactly when one of its files has an unsupported type. */
  lemma PlannedRejects(runId: string, files: seq<Option<string>>, hexOf: nat -> string)
    ensures Planned(runId, files, hexOf).rejected.Some? <==> Any(files, IsUnsupported)
  {
    var ds := Decisions(runId, files, hexOf);
    OutcomeRejects(ds);
    if Any(ds, IsReject) {
      var i :| 0 <= i < |ds| && IsReject(ds[i]);
      DecisionAt(runId, files, hexOf, i);
      assert IsUnsupported(files[i]);
    }
    if Any(files, IsUnsupported) {
      var i :| 0 <= i < |files| && IsUnsupported(files[i]);
      DecisionAt(runId, files, hexOf, i);
      assert IsReject(ds[i]);
    }
  }

  /* ---------------- Output files ---------------- */

  /** `str(target).startswith(str(base))`, the containment test as written. */
  predicate PrefixAllowed(base: string, target: string) {
    StartsWith(target, base)
  }

  /** `base` is an ancestor of `target` (or `target` itself), component by component. */
  predicate Within(base: string, target: string) {
    Parts(base) <= Parts(target)
  }

  /**
   * The output-file endpoints, given the resolved base and target paths:
   * 400 outside the base, 404 when the target does not exist, else the target.
   */
  function OutFile(base: string, target: string, exists_: bool): (r: Result<string, HttpError>)
    ensures r.Ok? <==> Within(base, target) && exists_
    ensures r.Ok? ==> r.value == target
    ensures r.Err? ==> (r.error.code == 400 <==> !Within(base, target))
  {
    if !Within(base, target) then Err(HttpError(400, "invalid path"))
    else if !exists_ then Err(HttpError(404, "not found"))
    else Ok(target)
  }

  /** The same endpoint with the string-prefix test as written. */
  function OutFileAsWritten(base: string, target: string, exists_: bool): (r: Result<string, HttpError>)
    ensures r.Ok? <==> PrefixAllowed(base, target) && exists_
  {
    if !PrefixAllowed(base, target) then Err(HttpError(400, "invalid path"))
    else if !exists_ then Err(HttpError(404, "not found"))
    else Ok(target)
  }

  /**
   * The prefix test lets a sibling through: with run `a`'s output directory
   * as base, a path that resolves into run `ab`'s directory is served.
   */
  lemma PrefixAdmitsSibling()
    ensures OutFileAsWritten("/o/a", "/o/ab", true).Ok?
    ensures OutFile("/o/a", "/o/ab", true).Err?
  {
    assert "/o/ab"[..4] == "/o/a";
    var t := "/o/ab";
    assert Segment(t[1..][2..]) == "ab" by {
      assert t[1..][2..] == "ab";
      assert Segment("b") == "b" by { assert "b"[1..] == []; }
      assert "ab"[1..] == "b";
    }
    assert Parts(t)[2] == "ab" by {
      assert Segment(t[1..]) == "o" by { assert t[1..][1..][0] == '/'; }
      assert t[1..][2..][0] != '/';
      assert Components(t[1..][2..]) == ["ab"] by { assert t[1..][2..][2..] == []; }
      assert Components(t) == ["o", "ab"] by {
        assert t[1..][1..][1..] == t[1..][2..];
        assert t[1..][1..][0] == '/';
      }
    }
    var b := "/o/a";
    assert Parts(b)[2] == "a" by {
      assert b[1..][1..][0] == '/';
      assert Segment(b[1..]) == "o";
      assert b[1..][2..] == "a";
      assert Segment("a") == "a" by { assert "a"[1..] == []; }
      assert Components("a") == ["a"] by { assert "a"[1..] == []; }
      assert Components(b) == ["o", "a"] by {
        assert b[1..][1..][1..] == b[1..][2..];
      }
    }
  }

  /** Every path joined onto the base is within it, and the prefix test agrees there. */
  lemma WithinJoined(base: string, rest: string)
    ensures Within(base, base + "/" + rest)
    ensures PrefixAllowed(base, base + "/" + rest)
  {
    JoinedWithin(base, rest);
    var t := base + "/" + rest;
    assert t[..|base|] == base;
  }

  lemma JoinedWithin(base: string, rest: string)
    ensures Within(base, base + "/" + rest)
  {
    var t := base + "/" + rest;
    if base != [] {
      ComponentsAppend(base, rest);
      assert t[0] == base[0];
      var h := if base[0] == '/' then ["/"] else [];
      assert Parts(base) == h + Components(base);
      Ordering.AppendAssoc(h, Components(base), Components(rest));
      assert Parts(t) == Parts(base) + Components(rest);
    }
  }

  /* ---------------- The store ---------------- */

  /** The `runs` and `assets` tables and the job queue. */
  class RunStore {
    var runs: map<string, Run>
    var assets: seq<Asset>
    var jobs: seq<Job>

    /** Rows are keyed by their id; assets and jobs belong to known runs. */
    ghost predicate Valid()
      reads this
    {
      (forall id :: id in runs ==> runs[id].id == id)
      && (forall i :: 0 <= i < |assets| ==> assets[i].runId in runs)
      && (forall i :: 0 <= i < |jobs| ==> jobs[i].runId in runs)
    }

    constructor()
      ensures Valid()
      ensures runs == map[] && assets == [] && jobs == []
    {
      runs := map[];
      assets := [];
      jobs := [];
    }

    /** `POST /api/runs`: 422 for an invalid body, 500 when the fresh id is taken. */
    method CreateRun(id: string, inp: CreateRunIn) returns (r: Result<Run, HttpError>)
      requires Valid()
      modifies this
      ensures Valid()
      ensures ValidateRun(inp).Err? ==> r == Err(HttpError(422, ValidateRun(inp).error)) && runs == old(runs)
      ensures ValidateRun(inp).Ok? && id in old(runs) ==> r.Err? && r.error.code == 500 && runs == old(runs)
      ensures ValidateRun(inp).Ok? && id !in old(runs) ==>
                r == Ok(NewRun(id, ValidateRun(inp).value)) && runs == old(runs)[id := r.value]
      ensures assets == old(assets) && jobs == old(jobs)
    {
      var settings := ValidateRun(inp);
      if settings.Err? {
        return Err(HttpError(422, settings.error));
      }
      if id in runs {
        return Err(HttpError(500, "UNIQUE constraint failed: runs.id"));
      }
      var run := NewRun(id, settings.value);
      runs := runs[id := run];
      return Ok(run);
    }

    /**
     * `POST /api/runs/{run_id}/uploads`. Assets stored before an unsupported
     * file stay stored when the request fails with 400.
     */
    method UploadAssets(runId: string, files: seq<Option<string>>, hexOf: nat -> string)
      returns (r: Result<seq<Asset>, HttpError>)
      requires Valid()
      modifies this
      ensures Valid()
      ensures runs == old(runs) && jobs == old(jobs)
      ensures Gate(old(runs), runId, "uploadable").Some? ==>
                r == Err(Gate(old(runs), runId, "uploadable").value) && assets == old(assets)
      ensures Gate(old(runs), runId, "uploadable").None? ==>
                var plan := Planned(runId, files, hexOf);
                assets == old(assets) + plan.created
                && (plan.rejected.None? ==> r == Ok(plan.created))
                && (plan.rejected.Some? ==> r == Err(HttpError(400, "unsupported file type: " + plan.rejected.value)))
    {
      var gate := Gate(runs, runId, "uploadable");
      if gate.Some? {
        return Err(gate.value);
      }
      var created: seq<Asset> := [];
      ghost var before := assets;
      ghost var ds := Decisions(runId, files, hexOf);
      for i := 0 to |files|
        invariant runs == old(runs) && jobs == old(jobs) && runId in runs
        invariant Outcome(ds[..i]) == UploadOutcome(created, None)
        invariant assets == before + created
        invariant Valid()
      {
        var d := DecideAt(runId, files, hexOf, i);
        assert Outcome(ds[..i + 1]) == Step(UploadOutcome(created, None), d) by {
          assert ds[..i + 1][..i] == ds[..i];
        }
        match d
        case Skip =>
        case Reject(name) =>
          OutcomeStops(ds, i + 1);
          return Err(HttpError(400, "unsupported file type: " + name));
        case Store(a) =>
          AddAsset(a);
          created := created + [a];
      }
      assert ds[..|files|] == ds;
      return Ok(created);
    }

    /** `add_asset` of the database: one more row of a known run. */
    method AddAsset(a: Asset)
      requires Valid() && a.runId in runs
      modifies this
      ensures Valid()
      ensures assets == old(assets) + [a] && runs == old(runs) && jobs == old(jobs)
    {
      assets := assets + [a];
    }

    /** `POST /api/runs/{run_id}/start`: queue the run and enqueue one build job. */
    method StartRun(runId: string, jobId: string) returns (r: Result<Job, HttpError>)
      requires Valid()
      modifies this
      ensures Valid()
      ensures assets == old(assets)
      ensures Gate(old(runs), runId, "startable").Some? ==>
                r == Err(Gate(old(runs), runId, "startable").value) && runs == old(runs) && jobs == old(jobs)
      ensures Gate(old(runs), runId, "startable").None? ==>
                r == Ok(Job(jobId, runId, "build"))
                && runs == old(runs)[runId := Queued(old(runs)[runId])]
                && jobs == old(jobs) + [r.value]
    {
      var gate := Gate(runs, runId, "startable");
      if gate.Some? {
        return Err(gate.value);
      }
      runs := runs[runId := Queued(runs[runId])];
      var job := Job(jobId, runId, "build");
      jobs := jobs + [job];
      return Ok(job);
    }
  }
}
