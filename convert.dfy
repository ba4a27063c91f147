/**
  The convert command (Program.Convert): validate the argument arrays, then walk
  the sources in order, resolving each output path and choosing, for each source,
  between converting it, skipping it (with --force) and aborting the batch.
 */
module Converter {
  import opened Font
  import opened Environment
  import opened Sequences
  import Strings

  /** ConvertArgs; a null Source or Output array behaves exactly as an empty one. */
  datatype ConvertArgs = ConvertArgs(
    format: Format,
    source: seq<string>,
    output: seq<string>,
    force: bool,
    overwrite: bool)

  /** Why a source was not converted. */
  datatype Problem = MissingSource | OutputExists | LoadFailed | SaveFailed

  /** What the loop does with one source. */
  datatype Step = Converted(output: string) | Skipped(problem: Problem) | Aborted(problem: Problem)

  /** The effects of a run so far: the paths that exist, the lines written and the saves made. */
  datatype Trace = Trace(files: set<string>, lines: seq<string>, saves: seq<Save>)

  /** The exit code together with the final effects. */
  datatype Outcome = Outcome(code: int, trace: Trace)

  function Quote(s: string): (quoted: string) {
    "\"" + s + "\""
  }

  const NoSources: string := "No sources specified. Aborting."

  function CountMismatch(outputs: nat, sources: nat): (msg: string) {
    Strings.IntToString(outputs) + " out of " + Strings.IntToString(sources) + " outputs specified. Aborting."
  }

  function AlreadyExists(output: string, ending: string): (msg: string) {
    "File " + Quote(output) + " already exists. Use " + Quote("--overwrite") +
    " to allow existing files to be overwritten. " + ending
  }

  function ConvertFailed(source: string): (msg: string) {
    "Failed to convert bitmap font " + Quote(source) + "."
  }

  function NotFound(source: string): (msg: string) {
    "Source file " + Quote(source) + " was not found. Aborting."
  }

  /** The two checks made before any source is looked at. */
  predicate ValidArgs(args: ConvertArgs) {
    |args.source| > 0 && (|args.output| == 0 || |args.output| == |args.source|)
  }

  /**
    Where source i is saved: the i-th explicit output when there is one, otherwise
    the source's own file name, written into the working directory.
   */
  function OutputPath(args: ConvertArgs, separators: set<char>, i: nat): (path: string)
    requires i < |args.source|
    ensures i < |args.output| ==> path == args.output[i]
    ensures i >= |args.output| ==>
      var src := args.source[i];
      |path| <= |src| && path == src[|src| - |path|..] &&
      (forall k :: 0 <= k < |path| ==> path[k] !in separators) &&
      (|path| < |src| ==> src[|src| - |path| - 1] in separators)
  {
    if i < |args.output| then args.output[i] else Strings.FileName(args.source[i], separators)
  }

  function Failure(force: bool, p: Problem): (step: Step) {
    if force then Skipped(p) else Aborted(p)
  }

  /**
    The decision for source i against the current file system: the source must
    exist, then it is loaded, then the overwrite guard is applied, then it is saved.
   */
  function Decide(args: ConvertArgs, codec: Codec, separators: set<char>, files: set<string>, i: nat): (step: Step)
    requires i < |args.source|
    ensures step.Converted? <==>
      args.source[i] in files && i !in codec.loadFails && i !in codec.saveFails &&
      (args.overwrite || OutputPath(args, separators, i) !in files)
    ensures step.Converted? ==> step.output == OutputPath(args, separators, i)
    ensures step.Aborted? <==> !args.force && !step.Converted?
    ensures !step.Converted? ==> (step.problem == MissingSource <==> args.source[i] !in files)
    ensures !step.Converted? && step.problem == OutputExists ==>
      args.source[i] in files && i !in codec.loadFails &&
      !args.overwrite && OutputPath(args, separators, i) in files
    ensures !step.Converted? && step.problem == SaveFailed ==>
      args.source[i] in files && i !in codec.loadFails && i in codec.saveFails &&
      (args.overwrite || OutputPath(args, separators, i) !in files)
  {
    if args.source[i] !in files then Failure(args.force, MissingSource)
    else if i in codec.loadFails then Failure(args.force, LoadFailed)
    else
      var output := OutputPath(args, separators, i);
      if output in files && !args.overwrite then Failure(args.force, OutputExists)
      else if i in codec.saveFails then Failure(args.force, SaveFailed)
      else Converted(output)
  }

  /** The line written for a step; a source skipped as missing is skipped silently. */
  function Diagnostic(args: ConvertArgs, separators: set<char>, i: nat, step: Step): (lines: seq<string>)
    requires i < |args.source|
  {
    match step
    case Converted(_) => []
    case Skipped(MissingSource) => []
    case Aborted(MissingSource) => [NotFound(args.source[i])]
    case Skipped(OutputExists) => [AlreadyExists(OutputPath(args, separators, i), "Skipping.")]
    case Aborted(OutputExists) => [AlreadyExists(OutputPath(args, separators, i), "Aborting.")]
    case _ => [ConvertFailed(args.source[i])]
  }

  /** The effects of one step. */
  function Apply(args: ConvertArgs, separators: set<char>, t: Trace, i: nat, step: Step): (next: Trace)
    requires i < |args.source|
  {
    var lines := t.lines + Diagnostic(args, separators, i, step);
    match step
    case Converted(output) => Trace(t.files + {output}, lines, t.saves + [Save(i, output, args.format)])
    case _ => Trace(t.files, lines, t.saves)
  }

  /** The loop from source i on: an aborted step returns 1, running off the end returns 0. */
  function Run(args: ConvertArgs, codec: Codec, separators: set<char>, t: Trace, i: nat): (r: Outcome)
    requires i <= |args.source|
    decreases |args.source| - i
  {
    if i == |args.source| then Outcome(0, t)
    else
      var step := Decide(args, codec, separators, t.files, i);
      var t' := Apply(args, separators, t, i, step);
      if step.Aborted? then Outcome(1, t') else Run(args, codec, separators, t', i + 1)
  }

  /** What Convert does, starting from the paths that exist. */
  function ConvertSpec(args: ConvertArgs, codec: Codec, separators: set<char>, files: set<string>): (r: Outcome) {
    if |args.source| == 0 then Outcome(1, Trace(files, [NoSources], []))
    else if |args.output| != 0 && |args.output| != |args.source| then
      Outcome(1, Trace(files, [CountMismatch(|args.output|, |args.source|)], []))
    else Run(args, codec, separators, Trace(files, [], []), 0)
  }

  /** A step's effects from an empty trace: the files after it, its lines and its saves. */
  lemma ApplyShift(args: ConvertArgs, separators: set<char>, t: Trace, i: nat, step: Step)
    requires i < |args.source|
    ensures var e := Apply(args, separators, Trace(t.files, [], []), i, step);
      Apply(args, separators, t, i, step) == Trace(e.files, t.lines + e.lines, t.saves + e.saves)
  {
  }

  /**
    The body of the loop for source i: existence check, load, overwrite guard and
    save, each failure either skipped (--force) or ending the batch.
   */
  method ConvertSource(args: ConvertArgs, codec: Codec, separators: set<char>, fs: FileSystem, console: Console, i: nat)
    returns (aborted: bool)
    requires i < |args.source|
    modifies fs, console
    ensures var step := Decide(args, codec, separators, old(fs.paths), i);
      var e := Apply(args, separators, Trace(old(fs.paths), [], []), i, step);
      aborted == step.Aborted? && fs.paths == e.files &&
      fs.saves == old(fs.saves) + e.saves && console.lines == old(console.lines) + e.lines
  {
    var sourceFile := args.source[i];
    if !fs.Exists(sourceFile) {
      if args.force {
        return false;
      }
      console.WriteLine(NotFound(sourceFile));
      return true;
    }
    if i in codec.loadFails {
      console.WriteLine(ConvertFailed(sourceFile));
      return !args.force;
    }
    var outputFile := OutputPath(args, separators, i);
    if fs.Exists(outputFile) && !args.overwrite {
      if args.force {
        console.WriteLine(AlreadyExists(outputFile, "Skipping."));
        return false;
      }
      console.WriteLine(AlreadyExists(outputFile, "Aborting."));
      return true;
    }
    if i in codec.saveFails {
      console.WriteLine(ConvertFailed(sourceFile));
      return !args.force;
    }
    fs.Write(Save(i, outputFile, args.format));
    return false;
  }

  /**
    Program.Convert. The codec's throws are the catch block's two ways in; the file
    system grows by each successful save, so a later source can collide with an
    earlier one's output.
   */
  method Convert(args: ConvertArgs, codec: Codec, separators: set<char>, fs: FileSystem, console: Console)
    returns (code: int)
    modifies fs, console
    ensures var r := ConvertSpec(args, codec, separators, old(fs.paths));
      code == r.code && fs.paths == r.trace.files &&
      fs.saves == old(fs.saves) + r.trace.saves && console.lines == old(console.lines) + r.trace.lines
  {
    if |args.source| == 0 {
      console.WriteLine(NoSources);
      return 1;
    }
    if |args.output| != 0 && |args.output| != |args.source| {
      console.WriteLine(CountMismatch(|args.output|, |args.source|));
      return 1;
    }
    ghost var lines: seq<string> := [];
    ghost var saves: seq<Save> := [];
    for i := 0 to |args.source|
      invariant console.lines == old(console.lines) + lines
      invariant fs.saves == old(fs.saves) + saves
      invariant Run(args, codec, separators, Trace(fs.paths, lines, saves), i)
             == ConvertSpec(args, codec, separators, old(fs.paths))
    {
      ghost var t := Trace(fs.paths, lines, saves);
      ghost var step := Decide(args, codec, separators, t.files, i);
      ghost var e := Apply(args, separators, Trace(t.files, [], []), i, step);
      ghost var next := Apply(args, separators, t, i, step);
      assert step.Aborted? ==> ConvertSpec(args, codec, separators, old(fs.paths)) == Outcome(1, next);
      assert !step.Aborted? ==>
        Run(args, codec, separators, next, i + 1) == ConvertSpec(args, codec, separators, old(fs.paths));
      ApplyShift(args, separators, t, i, step);
      ghost var saved := fs.saves;
      var aborted := ConvertSource(args, codec, separators, fs, console, i);
      Append(old(console.lines), lines, e.lines);
      lines := lines + e.lines;
      assert fs.saves == saved + e.saves;
      saves := saves + e.saves;
      assert Trace(fs.paths, lines, saves) == next;
      if aborted {
        return 1;
      }
    }
    return 0;
  }

  /** The paths a list of saves leaves behind. */
  function Outputs(saves: seq<Save>): (paths: set<string>) {
    if saves == [] then {} else Outputs(saves[..|saves| - 1]) + {saves[|saves| - 1].output}
  }

  /**
    A save the loop may make when the paths in before exist: its source exists and
    loads, its output is the resolved path for that source and is free unless
    --overwrite is given, it is saved in the requested format and the save succeeds.
   */
  predicate Permitted(args: ConvertArgs, codec: Codec, separators: set<char>, before: set<string>, s: Save) {
    s.source < |args.source| && args.source[s.source] in before &&
    s.source !in codec.loadFails && s.source !in codec.saveFails &&
    s.output == OutputPath(args, separators, s.source) && s.format == args.format &&
    (args.overwrite || s.output !in before)
  }

  /**
    The effects of a run from the paths files0: the only change to the file system
    is the outputs written, each save was permitted when it was made, and sources
    are saved in list order, each at most once.
   */
  predicate Consistent(args: ConvertArgs, codec: Codec, separators: set<char>, files0: set<string>, t: Trace) {
    t.files == files0 + Outputs(t.saves) &&
    (forall k :: 0 <= k < |t.saves| ==>
      Permitted(args, codec, separators, files0 + Outputs(t.saves[..k]), t.saves[k])) &&
    (forall j, k :: 0 <= j < k < |t.saves| ==> t.saves[j].source < t.saves[k].source)
  }

  /** A permitted save, made after every earlier one, keeps the effects consistent. */
  lemma SaveConsistent(
    args: ConvertArgs, codec: Codec, separators: set<char>, files0: set<string>, t: Trace, s: Save, lines: seq<string>)
    requires Consistent(args, codec, separators, files0, t)
    requires Permitted(args, codec, separators, t.files, s)
    requires forall k :: 0 <= k < |t.saves| ==> t.saves[k].source < s.source
    ensures Consistent(args, codec, separators, files0, Trace(t.files + {s.output}, lines, t.saves + [s]))
  {
    var saves := t.saves + [s];
    assert saves[..|t.saves|] == t.saves;
    assert Outputs(saves) == Outputs(t.saves) + {s.output};
    forall k | 0 <= k < |saves|
      ensures Permitted(args, codec, separators, files0 + Outputs(saves[..k]), saves[k])
    {
      if k < |t.saves| {
        assert saves[..k] == t.saves[..k];
      }
    }
  }

  lemma StepConsistent(args: ConvertArgs, codec: Codec, separators: set<char>, files0: set<string>, t: Trace, i: nat)
    requires i < |args.source|
    requires Consistent(args, codec, separators, files0, t)
    requires forall k :: 0 <= k < |t.saves| ==> t.saves[k].source < i
    ensures var t' := Apply(args, separators, t, i, Decide(args, codec, separators, t.files, i));
      Consistent(args, codec, separators, files0, t') &&
      forall k :: 0 <= k < |t'.saves| ==> t'.saves[k].source <= i
  {
    var step := Decide(args, codec, separators, t.files, i);
    var t' := Apply(args, separators, t, i, step);
    if step.Converted? {
      var s := Save(i, step.output, args.format);
      assert t' == Trace(t.files + {s.output}, t'.lines, t.saves + [s]);
      SaveConsistent(args, codec, separators, files0, t, s, t'.lines);
    } else {
      assert t'.saves == t.saves && t'.files == t.files;
    }
  }

  lemma {:induction false} RunConsistent(
    args: ConvertArgs, codec: Codec, separators: set<char>, files0: set<string>, t: Trace, i: nat)
    requires i <= |args.source|
    requires Consistent(args, codec, separators, files0, t)
    requires forall k :: 0 <= k < |t.saves| ==> t.saves[k].source < i
    ensures Consistent(args, codec, separators, files0, Run(args, codec, separators, t, i).trace)
    decreases |args.source| - i
  {
    if i < |args.source| {
      var step := Decide(args, codec, separators, t.files, i);
      StepConsistent(args, codec, separators, files0, t, i);
      if !step.Aborted? {
        RunConsistent(args, codec, separators, files0, Apply(args, separators, t, i, step), i + 1);
      }
    }
  }

  /**
    When a write happens: whatever the flags and the codec's outcomes, Convert only
    adds the outputs it saved to the file system, and each save was permitted at the
    moment it was made (the source existed and loaded, the output was free or
    --overwrite was given, the save succeeded).
   */
  lemma ConvertOnlyWritesPermitted(args: ConvertArgs, codec: Codec, separators: set<char>, files: set<string>)
    ensures Consistent(args, codec, separators, files, ConvertSpec(args, codec, separators, files).trace)
  {
    if ValidArgs(args) {
      RunConsistent(args, codec, separators, files, Trace(files, [], []), 0);
    }
  }

  /** Argument checks: a bad source or output array returns 1 with one line and no effect. */
  lemma ConvertRejectsBadArguments(args: ConvertArgs, codec: Codec, separators: set<char>, files: set<string>)
    requires !ValidArgs(args)
    ensures var r := ConvertSpec(args, codec, separators, files);
      r.code == 1 && r.trace.files == files && r.trace.saves == [] &&
      r.trace.lines == [if |args.source| == 0 then NoSources else CountMismatch(|args.output|, |args.source|)]
  {
  }

  lemma {:induction false} RunForced(args: ConvertArgs, codec: Codec, separators: set<char>, t: Trace, i: nat)
    requires args.force && i <= |args.source|
    ensures Run(args, codec, separators, t, i).code == 0
    decreases |args.source| - i
  {
    if i < |args.source| {
      var step := Decide(args, codec, separators, t.files, i);
      RunForced(args, codec, separators, Apply(args, separators, t, i, step), i + 1);
    }
  }

  /** With --force every problem is skipped: valid arguments always return 0. */
  lemma ConvertForced(args: ConvertArgs, codec: Codec, separators: set<char>, files: set<string>)
    requires args.force
    ensures ConvertSpec(args, codec, separators, files).code == if ValidArgs(args) then 0 else 1
  {
    if ValidArgs(args) {
      RunForced(args, codec, separators, Trace(files, [], []), 0);
    }
  }

  /**
    Source j might be on disk when the loop reaches it: it was there from the start
    or it is the resolved output of an earlier source.
   */
  predicate MayExist(args: ConvertArgs, separators: set<char>, files: set<string>, j: nat)
    requires j < |args.source|
  {
    args.source[j] in files || exists i :: 0 <= i < j && OutputPath(args, separators, i) == args.source[j]
  }

  /** Source j might be saved: it might exist and the codec neither fails to load nor to save it. */
  predicate MaySave(args: ConvertArgs, codec: Codec, separators: set<char>, files: set<string>, j: nat)
    requires j < |args.source|
  {
    j !in codec.loadFails && j !in codec.saveFails && MayExist(args, separators, files, j)
  }

  /**
    A source the loop converts when it reaches it under --force: it exists, the codec
    loads and saves it, and unless --overwrite is given its output is neither an
    existing file nor the output of an earlier source that might have been saved.
   */
  predicate Convertible(args: ConvertArgs, codec: Codec, separators: set<char>, files: set<string>, k: nat)
    requires k < |args.source|
  {
    args.source[k] in files && k !in codec.loadFails && k !in codec.saveFails &&
    (args.overwrite ||
      (OutputPath(args, separators, k) !in files &&
       forall j :: 0 <= j < k && MaySave(args, codec, separators, files, j) ==>
         OutputPath(args, separators, j) != OutputPath(args, separators, k)))
  }

  lemma {:induction false} OutputsFrom(saves: seq<Save>, p: string)
    requires p in Outputs(saves)
    ensures exists j :: 0 <= j < |saves| && saves[j].output == p
    decreases |saves|
  {
    var init := saves[..|saves| - 1];
    if p in Outputs(init) {
      OutputsFrom(init, p);
      var j :| 0 <= j < |init| && init[j].output == p;
      assert saves[j] == init[j];
    }
  }

  /** Every source a consistent trace has saved is one that might be saved. */
  lemma SavedMaySave(args: ConvertArgs, codec: Codec, separators: set<char>, files0: set<string>, t: Trace, n: nat)
    requires Consistent(args, codec, separators, files0, t)
    requires n < |t.saves|
    ensures t.saves[n].source < |args.source| && MaySave(args, codec, separators, files0, t.saves[n].source)
  {
    var j := t.saves[n].source;
    assert Permitted(args, codec, separators, files0 + Outputs(t.saves[..n]), t.saves[n]);
    if args.source[j] !in files0 {
      OutputsFrom(t.saves[..n], args.source[j]);
      var m :| 0 <= m < n && t.saves[..n][m].output == args.source[j];
      assert t.saves[..n][m] == t.saves[m];
      assert Permitted(args, codec, separators, files0 + Outputs(t.saves[..m]), t.saves[m]);
      assert t.saves[m].source < j;
    }
  }

  /** Under --force, the step for a convertible source saves it. */
  lemma ForcedStepConverts(args: ConvertArgs, codec: Codec, separators: set<char>, files0: set<string>, t: Trace, i: nat)
    requires args.force && i < |args.source|
    requires Consistent(args, codec, separators, files0, t)
    requires forall k :: 0 <= k < |t.saves| ==> t.saves[k].source < i
    requires Convertible(args, codec, separators, files0, i)
    ensures Decide(args, codec, separators, t.files, i) == Converted(OutputPath(args, separators, i))
  {
    var output := OutputPath(args, separators, i);
    if !args.overwrite && output in t.files {
      OutputsFrom(t.saves, output);
      var n :| 0 <= n < |t.saves| && t.saves[n].output == output;
      SavedMaySave(args, codec, separators, files0, t, n);
      assert false;
    }
  }

  lemma {:induction false} RunForcedSavesEvery(
    args: ConvertArgs, codec: Codec, separators: set<char>, files0: set<string>, t: Trace, i: nat)
    requires args.force && i <= |args.source|
    requires Consistent(args, codec, separators, files0, t)
    requires forall k :: 0 <= k < |t.saves| ==> t.saves[k].source < i
    ensures var saves := Run(args, codec, separators, t, i).trace.saves;
      forall k :: i <= k < |args.source| && Convertible(args, codec, separators, files0, k) ==>
        Save(k, OutputPath(args, separators, k), args.format) in saves
    decreases |args.source| - i
  {
    if i < |args.source| {
      var step := Decide(args, codec, separators, t.files, i);
      var t' := Apply(args, separators, t, i, step);
      StepConsistent(args, codec, separators, files0, t, i);
      RunForcedSavesEvery(args, codec, separators, files0, t', i + 1);
      var saves := Run(args, codec, separators, t, i).trace.saves;
      assert saves == Run(args, codec, separators, t', i + 1).trace.saves;
      forall k | i <= k < |args.source| && Convertible(args, codec, separators, files0, k)
        ensures Save(k, OutputPath(args, separators, k), args.format) in saves
      {
        if k == i {
          ForcedStepSaved(args, codec, separators, files0, t, i);
        }
      }
    }
  }

  /** Under --force a convertible source, once reached, is among the run's saves. */
  lemma ForcedStepSaved(args: ConvertArgs, codec: Codec, separators: set<char>, files0: set<string>, t: Trace, i: nat)
    requires args.force && i < |args.source|
    requires Consistent(args, codec, separators, files0, t)
    requires forall k :: 0 <= k < |t.saves| ==> t.saves[k].source < i
    requires Convertible(args, codec, separators, files0, i)
    ensures Save(i, OutputPath(args, separators, i), args.format) in Run(args, codec, separators, t, i).trace.saves
  {
    ForcedStepConverts(args, codec, separators, files0, t, i);
    var t' := Apply(args, separators, t, i, Decide(args, codec, separators, t.files, i));
    RunExtends(args, codec, separators, t', i + 1);
    var saves := Run(args, codec, separators, t', i + 1).trace.saves;
    assert t'.saves[|t.saves|] == Save(i, OutputPath(args, separators, i), args.format);
    assert saves[|t.saves|] == t'.saves[|t.saves|];
  }

  /**
    With --force a problem skips only its own source and the loop goes on: every
    source that is convertible from the starting paths is saved, to its resolved
    output in the requested format. The condition is sufficient; the necessary one,
    checked against the paths that exist at each save, is ConvertOnlyWritesPermitted.
   */
  lemma ConvertForcedSavesEvery(args: ConvertArgs, codec: Codec, separators: set<char>, files: set<string>)
    requires ValidArgs(args) && args.force
    ensures var saves := ConvertSpec(args, codec, separators, files).trace.saves;
      forall k :: 0 <= k < |args.source| && Convertible(args, codec, separators, files, k) ==>
        Save(k, OutputPath(args, separators, k), args.format) in saves
  {
    RunForcedSavesEvery(args, codec, separators, files, Trace(files, [], []), 0);
  }

  /** The loop only appends saves. */
  lemma {:induction false} RunExtends(args: ConvertArgs, codec: Codec, separators: set<char>, t: Trace, i: nat)
    requires i <= |args.source|
    ensures var r := Run(args, codec, separators, t, i);
      |t.saves| <= |r.trace.saves| <= |t.saves| + |args.source| - i && r.trace.saves[..|t.saves|] == t.saves
    decreases |args.source| - i
  {
    if i < |args.source| {
      var step := Decide(args, codec, separators, t.files, i);
      var t' := Apply(args, separators, t, i, step);
      if !step.Aborted? {
        RunExtends(args, codec, separators, t', i + 1);
        var r := Run(args, codec, separators, t', i + 1);
        assert t'.saves[..|t.saves|] == t.saves;
        assert r.trace.saves[..|t.saves|] == r.trace.saves[..|t'.saves|][..|t.saves|];
      }
    }
  }

  lemma {:induction false} RunUnforcedSaves(args: ConvertArgs, codec: Codec, separators: set<char>, t: Trace, i: nat)
    requires !args.force && i <= |args.source|
    ensures var r := Run(args, codec, separators, t, i);
      |t.saves| <= |r.trace.saves| &&
      forall k :: |t.saves| <= k < |r.trace.saves| ==> r.trace.saves[k].source == i + k - |t.saves|
    decreases |args.source| - i
  {
    RunExtends(args, codec, separators, t, i);
    if i < |args.source| {
      var step := Decide(args, codec, separators, t.files, i);
      var t' := Apply(args, separators, t, i, step);
      if step.Converted? {
        RunUnforcedSaves(args, codec, separators, t', i + 1);
        RunExtends(args, codec, separators, t', i + 1);
        var r := Run(args, codec, separators, t', i + 1);
        assert |t'.saves| == |t.saves| + 1 && t'.saves[|t.saves|].source == i;
        forall k | |t.saves| <= k < |r.trace.saves|
          ensures r.trace.saves[k].source == i + k - |t.saves|
        {
          if k == |t.saves| {
            assert r.trace.saves[k] == r.trace.saves[..|t'.saves|][k];
          }
        }
      }
    }
  }

  lemma {:induction false} RunUnforcedCode(args: ConvertArgs, codec: Codec, separators: set<char>, t: Trace, i: nat)
    requires !args.force && i <= |args.source|
    ensures var r := Run(args, codec, separators, t, i);
      var n := |r.trace.saves| - |t.saves|;
      |t.saves| <= |r.trace.saves| && i + n <= |args.source| &&
      (r.code == 0 || r.code == 1) &&
      (r.code == 0 <==> i + n == |args.source|) &&
      (r.code == 0 ==> r.trace.lines == t.lines) &&
      (r.code == 1 ==>
        var step := Decide(args, codec, separators, r.trace.files, i + n);
        step.Aborted? && r.trace.lines == t.lines + Diagnostic(args, separators, i + n, step))
    decreases |args.source| - i
  {
    RunExtends(args, codec, separators, t, i);
    if i < |args.source| {
      var step := Decide(args, codec, separators, t.files, i);
      var t' := Apply(args, separators, t, i, step);
      if step.Converted? {
        RunUnforcedCode(args, codec, separators, t', i + 1);
        assert |t'.saves| == |t.saves| + 1 && t'.lines == t.lines;
      }
    }
  }

  /**
    Without --force the loop stops at the first problem: the sources saved are
    exactly the first |saves| of the list, in order; the exit code is 0 exactly
    when all were saved; otherwise the next source is the one that aborted, nothing
    after it was touched, and its diagnostic is the only line written.
   */
  lemma ConvertUnforced(args: ConvertArgs, codec: Codec, separators: set<char>, files: set<string>)
    requires ValidArgs(args) && !args.force
    ensures var r := ConvertSpec(args, codec, separators, files);
      var n := |r.trace.saves|;
      n <= |args.source| &&
      (forall k :: 0 <= k < n ==> r.trace.saves[k].source == k) &&
      (r.code == 0 <==> n == |args.source|) &&
      (r.code == 0 ==> r.trace.lines == []) &&
      (r.code == 1 ==>
        var step := Decide(args, codec, separators, r.trace.files, n);
        step.Aborted? && r.trace.lines == Diagnostic(args, separators, n, step))
  {
    RunUnforcedSaves(args, codec, separators, Trace(files, [], []), 0);
    RunUnforcedCode(args, codec, separators, Trace(files, [], []), 0);
  }

  lemma {:induction false} RunAllConverted(
    args: ConvertArgs, codec: Codec, separators: set<char>, files: set<string>, t: Trace, i: nat)
    requires args.overwrite && i <= |args.source| && files <= t.files
    requires forall j :: 0 <= j < |args.source| ==>
      args.source[j] in files && j !in codec.loadFails && j !in codec.saveFails
    ensures var r := Run(args, codec, separators, t, i);
      r.code == 0 && r.trace.lines == t.lines && |r.trace.saves| == |t.saves| + |args.source| - i &&
      forall k :: |t.saves| <= k < |r.trace.saves| ==>
        r.trace.saves[k] == Save(i + k - |t.saves|, OutputPath(args, separators, i + k - |t.saves|), args.format)
    decreases |args.source| - i
  {
    RunExtends(args, codec, separators, t, i);
    if i < |args.source| {
      var step := Decide(args, codec, separators, t.files, i);
      assert step == Converted(OutputPath(args, separators, i));
      var t' := Apply(args, separators, t, i, step);
      RunAllConverted(args, codec, separators, files, t', i + 1);
      RunExtends(args, codec, separators, t', i + 1);
      var r := Run(args, codec, separators, t', i + 1);
      assert r.trace.saves[|t.saves|] == r.trace.saves[..|t'.saves|][|t.saves|];
    }
  }

  /**
    With --overwrite, when every source exists and the codec never throws, the
    exit code is 0, nothing is written to the console, and every source is saved,
    in order, to its resolved output in the requested format.
   */
  lemma ConvertAllConverted(args: ConvertArgs, codec: Codec, separators: set<char>, files: set<string>)
    requires ValidArgs(args) && args.overwrite
    requires forall j :: 0 <= j < |args.source| ==>
      args.source[j] in files && j !in codec.loadFails && j !in codec.saveFails
    ensures var r := ConvertSpec(args, codec, separators, files);
      r.code == 0 && r.trace.lines == [] && |r.trace.saves| == |args.source| &&
      forall k :: 0 <= k < |args.source| ==>
        r.trace.saves[k] == Save(k, OutputPath(args, separators, k), args.format)
  {
    RunAllConverted(args, codec, separators, files, Trace(files, [], []), 0);
  }

  /**
    Two sources with the same file name and no --output: the first save creates
    the path the second one resolves to, so without --force the second aborts and
    with --force it is skipped with a notice.
   */
  lemma SameFileNameCollides(args: ConvertArgs, codec: Codec, separators: set<char>, files: set<string>)
    requires |args.source| == 2 && args.output == [] && !args.overwrite
    requires args.source[0] in files && args.source[1] in files
    requires Strings.FileName(args.source[0], separators) == Strings.FileName(args.source[1], separators)
    requires Strings.FileName(args.source[0], separators) !in files
    requires 0 !in codec.loadFails && 0 !in codec.saveFails && 1 !in codec.loadFails
    ensures var name := Strings.FileName(args.source[0], separators);
      var r := ConvertSpec(args, codec, separators, files);
      r.code == (if args.force then 0 else 1) && r.trace.saves == [Save(0, name, args.format)] &&
      r.trace.lines == [AlreadyExists(name, if args.force then "Skipping." else "Aborting.")]
  {
    var name := Strings.FileName(args.source[0], separators);
    var t1 := Trace(files + {name}, [], [Save(0, name, args.format)]);
    CollisionFirstSaves(args, codec, separators, files);
    assert OutputPath(args, separators, 1) == name;
    LastOutputTaken(args, codec, separators, t1, 1);
  }

  /** The first of two same-named sources is saved to its file name. */
  lemma CollisionFirstSaves(args: ConvertArgs, codec: Codec, separators: set<char>, files: set<string>)
    requires |args.source| == 2 && args.output == [] && !args.overwrite
    requires args.source[0] in files
    requires Strings.FileName(args.source[0], separators) !in files
    requires 0 !in codec.loadFails && 0 !in codec.saveFails
    ensures var name := Strings.FileName(args.source[0], separators);
      ConvertSpec(args, codec, separators, files) ==
        Run(args, codec, separators, Trace(files + {name}, [], [Save(0, name, args.format)]), 1)
  {
    var name := Strings.FileName(args.source[0], separators);
    var t0 := Trace(files, [], []);
    assert Decide(args, codec, separators, files, 0) == Converted(name);
    assert Apply(args, separators, t0, 0, Converted(name)) == Trace(files + {name}, [], [Save(0, name, args.format)]);
  }

  /** A source that exists and loads, but whose output is taken without --overwrite, stops on that. */
  lemma OutputTakenFails(args: ConvertArgs, codec: Codec, separators: set<char>, files: set<string>, i: nat)
    requires i < |args.source| && !args.overwrite
    requires args.source[i] in files && i !in codec.loadFails && OutputPath(args, separators, i) in files
    ensures Decide(args, codec, separators, files, i) == Failure(args.force, OutputExists)
  {
  }

  /** The step for such a source writes the already-exists notice and changes nothing else. */
  lemma OutputTakenNotice(args: ConvertArgs, codec: Codec, separators: set<char>, t: Trace, i: nat)
    requires i < |args.source| && !args.overwrite
    requires args.source[i] in t.files && i !in codec.loadFails && OutputPath(args, separators, i) in t.files
    ensures var msg := AlreadyExists(OutputPath(args, separators, i), if args.force then "Skipping." else "Aborting.");
      Apply(args, separators, t, i, Decide(args, codec, separators, t.files, i)) ==
        Trace(t.files, t.lines + [msg], t.saves)
  {
    OutputTakenFails(args, codec, separators, t.files, i);
  }

  /** The last source finds its output taken: the run aborts, or under --force skips it with a notice. */
  lemma LastOutputTaken(args: ConvertArgs, codec: Codec, separators: set<char>, t: Trace, i: nat)
    requires i + 1 == |args.source| && !args.overwrite
    requires args.source[i] in t.files && i !in codec.loadFails && OutputPath(args, separators, i) in t.files
    ensures var msg := AlreadyExists(OutputPath(args, separators, i), if args.force then "Skipping." else "Aborting.");
      Run(args, codec, separators, t, i) ==
        Outcome(if args.force then 0 else 1, Trace(t.files, t.lines + [msg], t.saves))
  {
    OutputTakenNotice(args, codec, separators, t, i);
    OutputTakenFails(args, codec, separators, t.files, i);
  }

  lemma {:induction false} OutputsHas(saves: seq<Save>, j: nat)
    requires j < |saves|
    ensures saves[j].output in Outputs(saves)
    decreases |saves|
  {
    if j < |saves| - 1 {
      OutputsHas(saves[..|saves| - 1], j);
    }
  }

  /**
    Without --overwrite no existing file is replaced and no path is saved to twice:
    every save, the first included, goes to a path of its own.
   */
  lemma NoOverwriteWritesEachPathOnce(args: ConvertArgs, codec: Codec, separators: set<char>, files: set<string>)
    requires !args.overwrite
    ensures var saves := ConvertSpec(args, codec, separators, files).trace.saves;
      (forall k :: 0 <= k < |saves| ==> saves[k].output !in files) &&
      (forall j, k :: 0 <= j < k < |saves| ==> saves[j].output != saves[k].output)
  {
    var saves := ConvertSpec(args, codec, separators, files).trace.saves;
    ConvertOnlyWritesPermitted(args, codec, separators, files);
    forall k | 0 <= k < |saves| ensures saves[k].output !in files {
      assert Permitted(args, codec, separators, files + Outputs(saves[..k]), saves[k]);
    }
    forall j, k | 0 <= j < k < |saves| ensures saves[j].output != saves[k].output {
      OutputsHas(saves[..k], j);
    }
  }

  /** convert xml TestFont.fnt --output ConvertTest.fnt: returns 0 and creates the output. */
  lemma ConvertWithOutputCase(files: set<string>)
    requires "TestFont.fnt" in files && "ConvertTest.fnt" !in files
    ensures var r := ConvertSpec(ConvertArgs(Xml, ["TestFont.fnt"], ["ConvertTest.fnt"], false, false),
                                 Codec({}, {}), {'/'}, files);
      r.code == 0 && "ConvertTest.fnt" in r.trace.files
  {
  }

  /** convert xml asdf --output asdf2 with asdf missing: returns 1 and creates nothing. */
  lemma MissingSourceCase(files: set<string>, codec: Codec)
    requires "asdf" !in files && "asdf2" !in files
    ensures var r := ConvertSpec(ConvertArgs(Xml, ["asdf"], ["asdf2"], false, false), codec, {'/'}, files);
      r.code == 1 && "asdf2" !in r.trace.files
  {
  }

  /** convert xml TestFont.fnt in TestFont.fnt's own directory: the output is the source, so it returns 1. */
  lemma NoOverwriteFailCase(files: set<string>, codec: Codec)
    requires "TestFont.fnt" in files
    ensures var r := ConvertSpec(ConvertArgs(Xml, ["TestFont.fnt"], [], false, false), codec, {'/'}, files);
      r.code == 1 && r.trace.saves == []
  {
    Strings.FileNameOfJoin("", "TestFont.fnt", {'/'});
  }

  /** convert xml OverwriteTest.fnt --overwrite: the existing output is replaced and it returns 0. */
  lemma OverwriteCase(files: set<string>)
    requires "OverwriteTest.fnt" in files
    ensures var r := ConvertSpec(ConvertArgs(Xml, ["OverwriteTest.fnt"], [], false, true), Codec({}, {}), {'/'}, files);
      r.code == 0 && r.trace.saves == [Save(0, "OverwriteTest.fnt", Xml)]
  {
    Strings.FileNameOfJoin("", "OverwriteTest.fnt", {'/'});
  }
}
