/**
 * The command-line driver of `src/main.py`: the quality check of
 * `parse_arguments`, the configuration `main` builds, the batch loop of
 * `process_batch` over every (case, template) pair, and the exit status of
 * `main`.
 *
 * Argument parsing itself (argparse), logging, the progress bar and timing
 * are not modelled; parsed arguments come in as an `Args` value, and the
 * file system and the clock enter as oracles.
 */
module Cli {
  import opened Wrappers
  import opened Config
  import opened Masks
  import opened Utils
  import opened ImageProcessing

  /** The parsed command line. */
  datatype Args = Args(input: string, template: string, output: string, quality: int, format: string,
                       namePattern: string, brightness: real, contrast: real,
                       noEdgeDetection: bool, resizeMethod: string, verbose: bool)

  /** The configuration dictionary `main` hands to `ImageProcessor`. */
  function BuildConfig(args: Args): map<string, Value>
  {
    map[
      "output_quality" := Int(args.quality),
      "output_format" := Str(args.format),
      "auto_adjust_brightness" := Bool(true),
      "auto_adjust_contrast" := Bool(true),
      "detect_edges" := Bool(!args.noEdgeDetection),
      "resize_method" := Str(args.resizeMethod),
      "brightness_factor" := Float(args.brightness),
      "contrast_factor" := Float(args.contrast)
    ]
  }

  /**
   * The command line supplies every default key, so the merge adds nothing;
   * edge detection is on unless `--no-edge-detection` is given, and both
   * enhancements are always on.
   */
  lemma BuildConfigComplete(args: Args)
    ensures DefaultKeys <= BuildConfig(args).Keys
    ensures WithDefaults(BuildConfig(args)) == BuildConfig(args)
    ensures Truthy(BuildConfig(args)["detect_edges"]) <==> !args.noEdgeDetection
    ensures Truthy(BuildConfig(args)["auto_adjust_brightness"]) && Truthy(BuildConfig(args)["auto_adjust_contrast"])
    ensures BuildConfig(args)["output_quality"] == Int(args.quality)
    ensures BuildConfig(args)["output_format"] == Str(args.format)
    ensures BuildConfig(args)["resize_method"] == Str(args.resizeMethod)
  {
    WithDefaultsKeepsComplete(BuildConfig(args));
  }

  /** One call of `process_images`: the case, the template and the generated output path. */
  datatype Task = Task(casePath: string, templatePath: string, outputPath: string)

  /** The arguments `process_batch` receives besides the processor. */
  datatype Batch = Batch(cases: seq<string>, templates: seq<string>, outputDir: string,
                         namePattern: string, outputFormat: string)

  /**
   * Call number `k` of the nested loop: case `k / |templates|` with template
   * `k % |templates|`, named at the time the clock gives for that call.
   */
  function TaskAt(b: Batch, clock: nat -> nat, k: nat): (t: Task)
    requires k < |b.cases| * |b.templates| && WellFormedPattern(b.namePattern)
    ensures |b.templates| > 0 && RowOf(k, |b.templates|) < |b.cases| && ColumnOf(k, |b.templates|) < |b.templates|
    ensures t.casePath == b.cases[RowOf(k, |b.templates|)] && t.templatePath == b.templates[ColumnOf(k, |b.templates|)]
    ensures GenerateOutputFilename(t.casePath, t.templatePath, b.outputDir, b.namePattern, b.outputFormat, clock(k))
      == Some(t.outputPath)
  {
    FlatIndex(k, |b.cases|, |b.templates|);
    var i, j := RowOf(k, |b.templates|), ColumnOf(k, |b.templates|);
    var name := GenerateOutputFilename(b.cases[i], b.templates[j], b.outputDir, b.namePattern, b.outputFormat, clock(k));
    OutputFilenameShape(b.cases[i], b.templates[j], b.outputDir, b.namePattern, b.outputFormat, clock(k));
    Task(b.cases[i], b.templates[j], name.value)
  }

  /** The row of position `k` in a row-major table with rows of `t` (that is, `k / t`). */
  function RowOf(k: nat, t: nat): nat
    requires t > 0
  {
    if k < t then 0 else RowOf(k - t, t) + 1
  }

  /** The column of position `k` in a row-major table with rows of `t` (that is, `k % t`). */
  function ColumnOf(k: nat, t: nat): nat
    requires t > 0
  {
    if k < t then k else ColumnOf(k - t, t)
  }

  /** `RowOf` and `ColumnOf` are the quotient and the remainder of dividing by the row length. */
  lemma {:induction false} RowColumnDivMod(k: nat, t: nat)
    requires t > 0
    ensures RowOf(k, t) == k / t && ColumnOf(k, t) == k % t
  {
    if k >= t {
      RowColumnDivMod(k - t, t);
      DivModStep(k - t, t);
    }
  }

  /** Adding one row length adds one to the quotient and keeps the remainder. */
  lemma DivModStep(k: nat, t: nat)
    requires t > 0
    ensures (k + t) / t == k / t + 1 && (k + t) % t == k % t
  {
    var q, r := k / t, k % t;
    MulSucc(q, t);
    DivUnique(k + t, t, q + 1, r);
  }

  /** The quotient and remainder of Euclidean division are the only ones with a remainder below the divisor. */
  lemma DivUnique(k: nat, t: nat, a: nat, b: nat)
    requires t > 0 && b < t && k == a * t + b
    ensures k / t == a && k % t == b
  {
    var q, r := k / t, k % t;
    assert k == q * t + r && r < t;
    if a < q {
      MulMonotone(a + 1, q, t);
      MulSucc(a, t);
      assert false;
    } else if q < a {
      MulMonotone(q + 1, a, t);
      MulSucc(q, t);
      assert false;
    }
  }

  /** The first `n` calls of the nested loop. */
  function FirstTasks(b: Batch, clock: nat -> nat, n: nat): (r: seq<Task>)
    requires n <= |b.cases| * |b.templates| && WellFormedPattern(b.namePattern)
  {
    seq(n, k requires 0 <= k < n => TaskAt(b, clock, k))
  }

  /** The call the loop makes for case `i` and template `j`, at position `k` of row `i` and column `j`, is call number `k`. */
  lemma PairIsTaskAt(b: Batch, clock: nat -> nat, i: nat, j: nat, k: nat, name: string)
    requires i < |b.cases| && j < |b.templates| && WellFormedPattern(b.namePattern)
    requires k < |b.cases| * |b.templates| && RowOf(k, |b.templates|) == i && ColumnOf(k, |b.templates|) == j
    requires GenerateOutputFilename(b.cases[i], b.templates[j], b.outputDir, b.namePattern, b.outputFormat, clock(k))
      == Some(name)
    ensures Task(b.cases[i], b.templates[j], name) == TaskAt(b, clock, k)
  {
  }

  lemma FirstTasksNext(b: Batch, clock: nat -> nat, n: nat)
    requires n < |b.cases| * |b.templates| && WellFormedPattern(b.namePattern)
    ensures FirstTasks(b, clock, n + 1) == FirstTasks(b, clock, n) + [TaskAt(b, clock, n)]
  {
    var longer := FirstTasks(b, clock, n + 1);
    var extended := FirstTasks(b, clock, n) + [TaskAt(b, clock, n)];
    forall m | 0 <= m < n + 1 ensures longer[m] == extended[m] {
      if m < n {
        assert extended[m] == FirstTasks(b, clock, n)[m];
      }
    }
  }

  /** Every call of the nested loop, in order. */
  function BatchTasks(b: Batch, clock: nat -> nat): seq<Task>
    requires WellFormedPattern(b.namePattern)
  {
    FirstTasks(b, clock, |b.cases| * |b.templates|)
  }

  /** A position below `n * t` names a row below `n` and a column below `t`. */
  lemma {:induction false} FlatIndex(k: nat, n: nat, t: nat)
    requires k < n * t
    ensures t > 0 && RowOf(k, t) < n && ColumnOf(k, t) < t
  {
    if t == 0 {
      assert false;
    } else if k >= t {
      MulSucc(n - 1, t);
      FlatIndex(k - t, n - 1, t);
    }
  }

  /** Row `i`, column `j` of a table with rows of `t` sits at position `i * t + j`. */
  lemma {:induction false} RowMajor(i: nat, j: nat, t: nat)
    requires j < t
    ensures RowOf(i * t + j, t) == i && ColumnOf(i * t + j, t) == j
  {
    if i > 0 {
      MulSucc(i - 1, t);
      RowMajor(i - 1, j, t);
    }
  }

  /** Row `i`, column `j` of a table of `n` rows of `t` is position `i * t + j`, inside the table. */
  lemma PairPosition(i: nat, j: nat, n: nat, t: nat, k: nat)
    requires i < n && j < t && k == i * t + j
    ensures k < n * t && RowOf(k, t) == i && ColumnOf(k, t) == j
  {
    RowOffset(i, j, n, t);
    RowMajor(i, j, t);
  }

  /** Position `i * t + j` of a row-major table with `n` rows of `t` lies inside it. */
  lemma RowOffset(i: nat, j: nat, n: nat, t: nat)
    requires i < n && j < t
    ensures i * t + j < n * t
  {
    MulMonotone(i + 1, n, t);
  }

  lemma MulSucc(i: nat, t: nat)
    ensures (i + 1) * t == i * t + t
  {
  }

  lemma {:induction false} MulMonotone(a: nat, b: nat, t: nat)
    requires a <= b
    ensures a * t <= b * t
  {
    if a < b {
      MulMonotone(a, b - 1, t);
      assert (b - 1) * t + t == b * t;
    }
  }

  /**
   * The batch holds exactly `|cases| * |templates|` tasks, and the task at
   * position `k = i * |templates| + j` is case `i` with template `j`, named at
   * that call's time: every pair is processed once, in case-major order.
   */
  lemma BatchTaskAt(b: Batch, clock: nat -> nat, i: nat, j: nat, k: nat)
    requires i < |b.cases| && j < |b.templates| && WellFormedPattern(b.namePattern)
    requires k == i * |b.templates| + j
    ensures |BatchTasks(b, clock)| == |b.cases| * |b.templates|
    ensures k < |BatchTasks(b, clock)|
    ensures var t := BatchTasks(b, clock)[k];
      t.casePath == b.cases[i] && t.templatePath == b.templates[j] &&
      GenerateOutputFilename(b.cases[i], b.templates[j], b.outputDir, b.namePattern, b.outputFormat, clock(k))
        == Some(t.outputPath)
  {
    PairPosition(i, j, |b.cases|, |b.templates|, k);
    assert BatchTasks(b, clock)[k] == TaskAt(b, clock, k);
  }

  /** The number of `true` entries. */
  function CountTrue(s: seq<bool>): (n: nat)
    ensures n <= |s|
    ensures n == |s| <==> forall k :: 0 <= k < |s| ==> s[k]
    ensures n == 0 <==> forall k :: 0 <= k < |s| ==> !s[k]
  {
    if s == [] then 0
    else
      var init := s[..|s| - 1];
      assert forall k :: 0 <= k < |init| ==> init[k] == s[k];
      CountTrue(init) + (if s[|s| - 1] then 1 else 0)
  }

  /**
   * What one `process_images` call of a processor configured by `cfg` left
   * behind: its result is the outcome of the save it attempted; that save is
   * the `PipelineSave` of the task, and it is attempted exactly when both
   * images load and the configured filter and format are known.
   */
  predicate Recorded(t: Task, ok: bool, request: Option<SaveRequest>, cfg: map<string, Value>,
                     load: string -> Option<Image>, findContours: Grid -> seq<Contour>, save: SaveRequest -> bool)
    requires DefaultKeys <= cfg.Keys
  {
    (ok <==> request.Some? && save(request.value)) &&
    (request.Some? ==>
      PipelineSave(cfg, t.casePath, t.templatePath, t.outputPath, load, findContours, request.value)) &&
    (load(t.casePath).Some? && load(t.templatePath).Some? &&
     ResizeFilter(cfg["resize_method"]).Some? && OutputFormat(cfg["output_format"]).Some? ==>
      request.Some?)
  }

  /** Every call of `tasks` is recorded by its result and its save request. */
  predicate AllRecorded(tasks: seq<Task>, results: seq<bool>, requests: seq<Option<SaveRequest>>,
                        cfg: map<string, Value>, load: string -> Option<Image>,
                        findContours: Grid -> seq<Contour>, save: SaveRequest -> bool)
    requires DefaultKeys <= cfg.Keys
    requires |results| == |tasks| && |requests| == |tasks|
  {
    forall k :: 0 <= k < |tasks| ==> Recorded(tasks[k], results[k], requests[k], cfg, load, findContours, save)
  }

  /**
   * The calls of the nested loop made so far: one result and one save
   * attempt per call, the successes counted, and, for a well-formed pattern,
   * the calls in loop order (a pattern `format` rejects admits no call).
   */
  predicate CallsSoFar(b: Batch, clock: nat -> nat, cfg: map<string, Value>,
                       load: string -> Option<Image>, findContours: Grid -> seq<Contour>, save: SaveRequest -> bool,
                       tasks: seq<Task>, results: seq<bool>, requests: seq<Option<SaveRequest>>, successes: nat)
    requires DefaultKeys <= cfg.Keys
  {
    |results| == |tasks| && |requests| == |tasks| && successes == CountTrue(results) &&
    AllRecorded(tasks, results, requests, cfg, load, findContours, save) &&
    InLoopOrder(b, clock, tasks)
  }

  /** For a well-formed pattern, `tasks` are the first calls in loop order; otherwise there are none. */
  predicate InLoopOrder(b: Batch, clock: nat -> nat, tasks: seq<Task>) {
    (WellFormedPattern(b.namePattern) ==>
      |tasks| <= |b.cases| * |b.templates| && tasks == FirstTasks(b, clock, |tasks|)) &&
    (!WellFormedPattern(b.namePattern) ==> tasks == [])
  }

  /** The next call in loop order extends the calls in loop order. */
  lemma InLoopOrderNext(b: Batch, clock: nat -> nat, tasks: seq<Task>, task: Task)
    requires InLoopOrder(b, clock, tasks)
    requires WellFormedPattern(b.namePattern) && |tasks| < |b.cases| * |b.templates|
    requires task == TaskAt(b, clock, |tasks|)
    ensures InLoopOrder(b, clock, tasks + [task])
  {
    FirstTasksNext(b, clock, |tasks|);
  }

  /** One more call, the next in loop order, extends the record. */
  lemma CallsSoFarNext(b: Batch, clock: nat -> nat, cfg: map<string, Value>,
                       load: string -> Option<Image>, findContours: Grid -> seq<Contour>, save: SaveRequest -> bool,
                       tasks: seq<Task>, results: seq<bool>, requests: seq<Option<SaveRequest>>, successes: nat,
                       task: Task, ok: bool, request: Option<SaveRequest>)
    requires DefaultKeys <= cfg.Keys
    requires CallsSoFar(b, clock, cfg, load, findContours, save, tasks, results, requests, successes)
    requires WellFormedPattern(b.namePattern) && |tasks| < |b.cases| * |b.templates|
    requires task == TaskAt(b, clock, |tasks|)
    requires Recorded(task, ok, request, cfg, load, findContours, save)
    ensures CallsSoFar(b, clock, cfg, load, findContours, save, tasks + [task], results + [ok], requests + [request],
                       successes + if ok then 1 else 0)
  {
    InLoopOrderNext(b, clock, tasks, task);
    RecordedNext(tasks, results, requests, cfg, load, findContours, save, task, ok, request);
    CountTrueNext(results, ok);
  }

  /** Recording one more result counts it if it is a success. */
  lemma CountTrueNext(s: seq<bool>, x: bool)
    ensures CountTrue(s + [x]) == CountTrue(s) + if x then 1 else 0
  {
    assert (s + [x])[..|s|] == s;
  }

  /** Appending a recorded call keeps every call recorded. */
  lemma RecordedNext(tasks: seq<Task>, results: seq<bool>, requests: seq<Option<SaveRequest>>,
                     cfg: map<string, Value>, load: string -> Option<Image>,
                     findContours: Grid -> seq<Contour>, save: SaveRequest -> bool,
                     task: Task, ok: bool, request: Option<SaveRequest>)
    requires DefaultKeys <= cfg.Keys
    requires |results| == |tasks| && |requests| == |tasks|
    requires AllRecorded(tasks, results, requests, cfg, load, findContours, save)
    requires Recorded(task, ok, request, cfg, load, findContours, save)
    ensures AllRecorded(tasks + [task], results + [ok], requests + [request], cfg, load, findContours, save)
  {
    var tasks', results', requests' := tasks + [task], results + [ok], requests + [request];
    forall k | 0 <= k < |tasks'| ensures Recorded(tasks'[k], results'[k], requests'[k], cfg, load, findContours, save) {
      if k < |tasks| {
        assert tasks'[k] == tasks[k] && results'[k] == results[k] && requests'[k] == requests[k];
      }
    }
  }

  /**
   * Nothing can fail: every image of every call loads, the configured filter
   * and format are known, and every save succeeds.
   */
  ghost predicate AllAttemptsSucceed(tasks: seq<Task>, cfg: map<string, Value>,
                                     load: string -> Option<Image>, save: SaveRequest -> bool)
    requires DefaultKeys <= cfg.Keys
  {
    (forall k :: 0 <= k < |tasks| ==> load(tasks[k].casePath).Some? && load(tasks[k].templatePath).Some?) &&
    ResizeFilter(cfg["resize_method"]).Some? && OutputFormat(cfg["output_format"]).Some? &&
    (forall r :: save(r))
  }

  /** When nothing can fail, every recorded call succeeded. */
  lemma AllCallsSucceed(tasks: seq<Task>, results: seq<bool>, requests: seq<Option<SaveRequest>>,
                        cfg: map<string, Value>, load: string -> Option<Image>,
                        findContours: Grid -> seq<Contour>, save: SaveRequest -> bool)
    requires DefaultKeys <= cfg.Keys
    requires |results| == |tasks| && |requests| == |tasks|
    requires AllRecorded(tasks, results, requests, cfg, load, findContours, save)
    requires AllAttemptsSucceed(tasks, cfg, load, save)
    ensures CountTrue(results) == |results|
  {
  }

  /** A call's record fixes its result and its save: both are determined by the task and the oracles. */
  lemma RecordedDetermined(t: Task, ok1: bool, request1: Option<SaveRequest>, ok2: bool, request2: Option<SaveRequest>,
                           cfg: map<string, Value>, load: string -> Option<Image>,
                           findContours: Grid -> seq<Contour>, save: SaveRequest -> bool)
    requires DefaultKeys <= cfg.Keys
    requires Recorded(t, ok1, request1, cfg, load, findContours, save)
    requires Recorded(t, ok2, request2, cfg, load, findContours, save)
    ensures request1 == request2 && ok1 == ok2
  {
    if request1.Some? && request2.Some? {
      PipelineSaveUnique(cfg, t.casePath, t.templatePath, t.outputPath, load, findContours,
                         request1.value, request2.value);
    }
  }

  /** The records of one list of calls fix every result, and so the number of successes. */
  lemma {:induction false} AllRecordedDetermined(tasks: seq<Task>,
                                                 results1: seq<bool>, requests1: seq<Option<SaveRequest>>,
                                                 results2: seq<bool>, requests2: seq<Option<SaveRequest>>,
                                                 cfg: map<string, Value>, load: string -> Option<Image>,
                                                 findContours: Grid -> seq<Contour>, save: SaveRequest -> bool)
    requires DefaultKeys <= cfg.Keys
    requires |results1| == |tasks| && |requests1| == |tasks| && |results2| == |tasks| && |requests2| == |tasks|
    requires AllRecorded(tasks, results1, requests1, cfg, load, findContours, save)
    requires AllRecorded(tasks, results2, requests2, cfg, load, findContours, save)
    ensures results1 == results2 && requests1 == requests2
    ensures CountTrue(results1) == CountTrue(results2)
  {
    forall k | 0 <= k < |tasks| ensures results1[k] == results2[k] && requests1[k] == requests2[k] {
      RecordedDetermined(tasks[k], results1[k], requests1[k], results2[k], requests2[k],
                         cfg, load, findContours, save);
    }
  }

  /** What `process_batch` leads to: its return value, or the exception naming the output raised. */
  datatype BatchOutcome = Completed(successes: nat) | NamingFailed

  /**
   * The inner loop of `process_batch`: case `i` with each template in turn,
   * extending the calls made for the earlier cases. `failed` stands for the
   * exception of a rejected name pattern, raised before the row's first call.
   */
  method ProcessRow(processor: ImageProcessor, b: Batch, clock: nat -> nat, i: nat,
                    load: string -> Option<Image>, findContours: Grid -> seq<Contour>,
                    save: SaveRequest -> bool,
                    tasks0: seq<Task>, results0: seq<bool>, requests0: seq<Option<SaveRequest>>, successes0: nat)
    returns (failed: bool, tasks: seq<Task>, results: seq<bool>, requests: seq<Option<SaveRequest>>, successes: nat)
    requires processor.Valid()
    requires forall p :: load(p).Some? ==> WellFormed(load(p).value)
    requires i < |b.cases|
    requires CallsSoFar(b, clock, processor.config, load, findContours, save, tasks0, results0, requests0, successes0)
    requires WellFormedPattern(b.namePattern) ==> |tasks0| == i * |b.templates|
    ensures failed <==> !WellFormedPattern(b.namePattern) && |b.templates| > 0
    ensures failed ==> tasks == tasks0
    ensures CallsSoFar(b, clock, processor.config, load, findContours, save, tasks, results, requests, successes)
    ensures WellFormedPattern(b.namePattern) ==> |tasks| == (i + 1) * |b.templates|
  {
    tasks, results, requests, successes := tasks0, results0, requests0, successes0;
    var j := 0;
    while j < |b.templates|
      invariant 0 <= j <= |b.templates|
      invariant CallsSoFar(b, clock, processor.config, load, findContours, save, tasks, results, requests, successes)
      invariant WellFormedPattern(b.namePattern) ==> |tasks| == i * |b.templates| + j
      invariant !WellFormedPattern(b.namePattern) ==> j == 0
    {
      var outputPath := GenerateOutputFilename(b.cases[i], b.templates[j], b.outputDir,
                                               b.namePattern, b.outputFormat, clock(|tasks|));
      OutputFilenameShape(b.cases[i], b.templates[j], b.outputDir, b.namePattern, b.outputFormat, clock(|tasks|));
      if outputPath.None? {
        return true, tasks, results, requests, successes;
      }
      var task := Task(b.cases[i], b.templates[j], outputPath.value);
      ghost var k := |tasks|;
      PairPosition(i, j, |b.cases|, |b.templates|, k);
      PairIsTaskAt(b, clock, i, j, k, outputPath.value);
      var ok, request := processor.ProcessImages(task.casePath, task.templatePath, task.outputPath,
                                                 load, findContours, save);
      CallsSoFarNext(b, clock, processor.config, load, findContours, save,
                     tasks, results, requests, successes, task, ok, request);
      if ok {
        successes := successes + 1;
      }
      tasks, results, requests := tasks + [task], results + [ok], requests + [request];
      j := j + 1;
    }
    MulSucc(i, |b.templates|);
    failed := false;
  }

  /**
   * `process_batch(processor, case_paths, template_paths, output_dir,
   * name_pattern, output_format)`. `tasks` are the `process_images` calls
   * made, `results` their return values and `requests` the saves they
   * attempted. A name pattern that `format` rejects raises at the first
   * pair, before any image is processed; otherwise every pair is processed
   * once, in case-major order, and the successes are counted.
   */
  method ProcessBatch(processor: ImageProcessor, b: Batch, clock: nat -> nat,
                      load: string -> Option<Image>, findContours: Grid -> seq<Contour>,
                      save: SaveRequest -> bool)
    returns (outcome: BatchOutcome, tasks: seq<Task>, results: seq<bool>, requests: seq<Option<SaveRequest>>)
    requires processor.Valid()
    requires forall p :: load(p).Some? ==> WellFormed(load(p).value)
    ensures outcome.NamingFailed? <==> !WellFormedPattern(b.namePattern) && |b.cases| > 0 && |b.templates| > 0
    ensures outcome.NamingFailed? ==> tasks == []
    ensures outcome.Completed? ==>
      |tasks| == |b.cases| * |b.templates| &&
      (WellFormedPattern(b.namePattern) ==> tasks == BatchTasks(b, clock)) &&
      outcome.successes == CountTrue(results)
    ensures |results| == |tasks| && |requests| == |tasks|
    ensures forall k :: 0 <= k < |tasks| ==>
      Recorded(tasks[k], results[k], requests[k], processor.config, load, findContours, save)
    ensures outcome.Completed? && AllAttemptsSucceed(tasks, processor.config, load, save) ==>
      outcome.successes == |tasks|
  {
    ghost var cfg := processor.config;
    var successCount := 0;
    tasks, results, requests := [], [], [];
    var i := 0;
    while i < |b.cases|
      invariant 0 <= i <= |b.cases|
      invariant processor.config == cfg
      invariant CallsSoFar(b, clock, cfg, load, findContours, save, tasks, results, requests, successCount)
      invariant WellFormedPattern(b.namePattern) ==> |tasks| == i * |b.templates|
      invariant !WellFormedPattern(b.namePattern) && i > 0 ==> |b.templates| == 0
    {
      var failed;
      failed, tasks, results, requests, successCount :=
        ProcessRow(processor, b, clock, i, load, findContours, save, tasks, results, requests, successCount);
      if failed {
        return NamingFailed, tasks, results, requests;
      }
      i := i + 1;
    }
    if !WellFormedPattern(b.namePattern) {
      assert |b.cases| == 0 || |b.templates| == 0;
    }
    if AllAttemptsSucceed(tasks, cfg, load, save) {
      AllCallsSucceed(tasks, results, requests, cfg, load, findContours, save);
    }
    return Completed(successCount), tasks, results, requests;
  }

  /** How `main` ends: with a return value, through `parser.error`, or with an uncaught exception. */
  datatype Termination = Returned(code: int) | UsageError | Crashed

  /** The process exit status: the returned value, 2 for a usage error, 1 for a traceback. */
  function ExitStatus(t: Termination): (status: int)
    ensures status == 0 <==> t == Returned(0)
  {
    match t
    case Returned(code) => code
    case UsageError => 2
    case Crashed => 1
  }

  /**
   * `main()`, after argparse has produced `args` (the quality check of
   * `parse_arguments` included). `kindOf` and `glob` stand for the file
   * system, `outputDirOk` for whether `ensure_directory` succeeds.
   * Exit status 0 means the whole batch ran, however many pairs failed.
   */
  method RunMain(args: Args, kindOf: string -> PathKind, glob: string -> seq<string>, outputDirOk: bool,
                 clock: nat -> nat, load: string -> Option<Image>, findContours: Grid -> seq<Contour>,
                 save: SaveRequest -> bool)
    returns (status: Termination, tasks: seq<Task>, results: seq<bool>)
    requires forall p :: load(p).Some? ==> WellFormed(load(p).value)
    ensures var cases := FilePaths(args.input, None, kindOf(args.input), glob);
      var templates := FilePaths(args.template, None, kindOf(args.template), glob);
      var qualityOk := 1 <= args.quality <= 100;
      (status == UsageError <==> !qualityOk) &&
      (status == Returned(1) <==> qualityOk && (cases == [] || templates == [])) &&
      (status == Crashed <==> qualityOk && cases != [] && templates != [] &&
                              (!outputDirOk || !WellFormedPattern(args.namePattern))) &&
      (status == Returned(0) <==> qualityOk && cases != [] && templates != [] &&
                                  outputDirOk && WellFormedPattern(args.namePattern)) &&
      (status == Returned(0) ==>
        tasks == BatchTasks(Batch(cases, templates, args.output, args.namePattern, args.format), clock)) &&
      (status != Returned(0) ==> tasks == []) &&
      |results| == |tasks|
  {
    if args.quality < 1 || args.quality > 100 {
      return UsageError, [], [];
    }
    var casePaths := GetFilePaths(args.input, None, kindOf(args.input), glob);
    if casePaths == [] {
      return Returned(1), [], [];
    }
    var templatePaths := GetFilePaths(args.template, None, kindOf(args.template), glob);
    if templatePaths == [] {
      return Returned(1), [], [];
    }
    if !outputDirOk {
      return Crashed, [], [];
    }
    var outputDir := args.output;
    var config := BuildConfig(args);
    var processor := new ImageProcessor(Some(config));
    var batch := Batch(casePaths, templatePaths, outputDir, args.namePattern, args.format);
    var outcome, requests;
    outcome, tasks, results, requests := ProcessBatch(processor, batch, clock, load, findContours, save);
    if outcome.NamingFailed? {
      return Crashed, [], [];
    }
    status := Returned(0);
  }
}
