/** The `compile` entry point (index.js:53-271): validate the options, run the
    compiler once per file with a standard-JSON input document, and fold the
    outputs into one artifact map and one de-duplicated diagnostic list. The
    compiler process is a parameter mapping an invocation to what it printed. */
module Compilation {
  import opened Results
  import opened JsonValues
  import opened HostServices
  import opened OrderedMaps
  import opened Artifacts
  import opened Diagnostics
  import opened CompileOptions

  /** Command-line arguments, working directory and stdin document of one run. */
  datatype Invocation = Invocation(args: seq<string>, cwd: string, input: InputDocument)

  /** The run for the `k`-th file (index.js:129-143). */
  function InvocationFor(host: Host, req: Request, k: nat): Invocation
    requires k < |req.files|
  {
    var f := req.files[k];
    Invocation(["--standard-json", "--allow-paths", host.root(f)], host.dirname(f), InputDocumentFor(host, req, k))
  }

  /** The state one `compile` call threads through its files: the artifact
      map (`output`) and the diagnostics with their seen-set. */
  datatype Accumulator = Accumulator(artifacts: OMap<Artifact>, seen: Seen)

  const Fresh := Accumulator([], NoneSeen)

  datatype CompileResult = CompileResult(artifacts: OMap<Artifact>, diagnostics: seq<Diagnostic>)

  /** The parsed standard output of one run (index.js:137-160). */
  function ReadOutput(host: Host, file: string, launch: Launch): (r: Result<Json>)
    ensures launch.SpawnFailed? ==> r == Err(LaunchFailed(launch.reason))
    ensures launch == Exited("") ==> r == Err(UnexpectedOutput(file))
    ensures launch.Exited? && host.parse(launch.stdout).None? ==> r == Err(UnexpectedOutput(file))
    ensures r.Ok? <==> launch.Exited? && |launch.stdout| > 0 && host.parse(launch.stdout).Some?
    ensures r.Ok? ==> host.parse(launch.stdout) == Some(r.value)
  {
    match launch
    case SpawnFailed(reason) => Err(LaunchFailed(reason))
    case Exited(stdout) =>
      if |stdout| == 0 then Err(UnexpectedOutput(file))
      else
        var json := host.parse(stdout);
        if json.None? then Err(UnexpectedOutput(file)) else Ok(json.value)
  }

  /** The artifact assignments one run contributes (none if it failed). */
  function Writes(host: Host, file: string, launch: Launch): seq<(string, Artifact)>
  {
    var json := ReadOutput(host, file, launch);
    if json.Ok? && Extract(host, json.value, file).Ok? then Extract(host, json.value, file).value else []
  }

  /** The normalised diagnostics one run reports (none if it failed). */
  function Reports(host: Host, file: string, launch: Launch): seq<Diagnostic>
  {
    var json := ReadOutput(host, file, launch);
    if json.Ok? && Reported(json.value).Ok? then Reported(json.value).value else []
  }

  /** Why one run rejects the whole call, if it does: its output cannot be
      read (index.js:144-159), a contract record cannot be processed
      (index.js:162-237), or a diagnostic entry cannot (index.js:238-262).
      The verdict depends on the run alone. */
  function RunFailure(host: Host, file: string, launch: Launch): Option<Failure>
  {
    var json := ReadOutput(host, file, launch);
    if json.Err? then Some(json.error)
    else if Extract(host, json.value, file).Err? then Some(Extract(host, json.value, file).error)
    else if Reported(json.value).Err? then Some(Reported(json.value).error)
    else None
  }

  /** Processes one run's output: contracts first, then diagnostics
      (index.js:134-267). */
  function Step(host: Host, acc: Accumulator, file: string, launch: Launch): (r: Result<Accumulator>)
    ensures ReadOutput(host, file, launch).Err? ==> r == Err(ReadOutput(host, file, launch).error)
    ensures r.Err? <==> RunFailure(host, file, launch).Some?
    ensures r.Err? ==> r.error == RunFailure(host, file, launch).value
    ensures r.Ok? ==> r.value == Accumulator(PutAll(acc.artifacts, Writes(host, file, launch)),
                                             RecordAll(acc.seen, Reports(host, file, launch)))
  {
    var json :- ReadOutput(host, file, launch);
    var writes :- Extract(host, json, file);
    var diags :- Reported(json);
    Ok(Accumulator(PutAll(acc.artifacts, writes), RecordAll(acc.seen, diags)))
  }

  /** Processes the runs in file order, stopping at the first failure. */
  function Run(host: Host, acc: Accumulator, files: seq<string>, launches: seq<Launch>): Result<Accumulator>
    requires |files| == |launches|
    decreases |files|
  {
    if |files| == 0 then Ok(acc)
    else
      var next :- Step(host, acc, files[0], launches[0]);
      Run(host, next, files[1..], launches[1..])
  }

  function AllWrites(host: Host, files: seq<string>, launches: seq<Launch>): seq<(string, Artifact)>
    requires |files| == |launches|
    decreases |files|
  {
    if |files| == 0 then [] else Writes(host, files[0], launches[0]) + AllWrites(host, files[1..], launches[1..])
  }

  function AllReports(host: Host, files: seq<string>, launches: seq<Launch>): seq<Diagnostic>
    requires |files| == |launches|
    decreases |files|
  {
    if |files| == 0 then [] else Reports(host, files[0], launches[0]) + AllReports(host, files[1..], launches[1..])
  }

  /** A successful run of all files has made every artifact assignment and
      recorded every diagnostic, in order. */
  lemma {:induction false} RunFolds(host: Host, acc: Accumulator, files: seq<string>, launches: seq<Launch>)
    requires |files| == |launches|
    requires Run(host, acc, files, launches).Ok?
    ensures Run(host, acc, files, launches).value ==
              Accumulator(PutAll(acc.artifacts, AllWrites(host, files, launches)),
                          RecordAll(acc.seen, AllReports(host, files, launches)))
    decreases |files|
  {
    if |files| > 0 {
      var next := Step(host, acc, files[0], launches[0]).value;
      RunFolds(host, next, files[1..], launches[1..]);
      PutAllAppend(acc.artifacts, Writes(host, files[0], launches[0]), AllWrites(host, files[1..], launches[1..]));
      RecordAllAppend(acc.seen, Reports(host, files[0], launches[0]), AllReports(host, files[1..], launches[1..]));
    }
  }

  /** The fold succeeds exactly when no run fails. */
  lemma {:induction false} RunSucceeds(host: Host, acc: Accumulator, files: seq<string>, launches: seq<Launch>)
    requires |files| == |launches|
    ensures Run(host, acc, files, launches).Ok? <==>
              forall j :: 0 <= j < |files| ==> RunFailure(host, files[j], launches[j]).None?
    decreases |files|
  {
    if |files| > 0 {
      var step := Step(host, acc, files[0], launches[0]);
      if step.Ok? {
        RunSucceeds(host, step.value, files[1..], launches[1..]);
        assert forall j :: 1 <= j < |files| ==> files[1..][j - 1] == files[j] && launches[1..][j - 1] == launches[j];
      }
    }
  }

  /** A run that does not fail hands the fold on to the next file. */
  lemma RunPassesOn(host: Host, acc: Accumulator, files: seq<string>, launches: seq<Launch>)
    requires |files| == |launches| && |files| > 0
    requires RunFailure(host, files[0], launches[0]).None?
    ensures Step(host, acc, files[0], launches[0]).Ok?
    ensures Run(host, acc, files, launches) ==
              Run(host, Step(host, acc, files[0], launches[0]).value, files[1..], launches[1..])
  {
  }

  /** A failing run ends the fold with its error. */
  lemma RunStopsHere(host: Host, acc: Accumulator, files: seq<string>, launches: seq<Launch>)
    requires |files| == |launches| && |files| > 0
    requires RunFailure(host, files[0], launches[0]).Some?
    ensures Run(host, acc, files, launches) == Err(RunFailure(host, files[0], launches[0]).value)
  {
  }

  /** The first failing run decides the error of the whole fold; later runs
      are never looked at. */
  lemma {:induction false} RunStopsAtFirstFailure(host: Host, acc: Accumulator, files: seq<string>,
                                                  launches: seq<Launch>, k: nat)
    requires |files| == |launches| && k < |files|
    requires forall j :: 0 <= j < k ==> RunFailure(host, files[j], launches[j]).None?
    requires RunFailure(host, files[k], launches[k]).Some?
    ensures Run(host, acc, files, launches) == Err(RunFailure(host, files[k], launches[k]).value)
    decreases k
  {
    if k == 0 {
      RunStopsHere(host, acc, files, launches);
    } else {
      RunPassesOn(host, acc, files, launches);
      var next := Step(host, acc, files[0], launches[0]).value;
      var fs, ls := files[1..], launches[1..];
      forall j | 0 <= j < k - 1 ensures RunFailure(host, fs[j], ls[j]).None? {
        assert fs[j] == files[j + 1] && ls[j] == launches[j + 1];
      }
      assert fs[k - 1] == files[k] && ls[k - 1] == launches[k];
      RunStopsAtFirstFailure(host, next, fs, ls, k - 1);
    }
  }

  /** What the compiler prints for each file, one run per file in order. */
  function Launches(host: Host, req: Request, compiler: Invocation -> Launch): (ls: seq<Launch>)
    ensures |ls| == |req.files|
  {
    seq(|req.files|, k requires 0 <= k < |req.files| => compiler(InvocationFor(host, req, k)))
  }

  /** One compilation (index.js:53-271). `None` options stand for `undefined`. */
  function Compile(host: Host, options: Option<Json>, compiler: Invocation -> Launch): (r: Result<CompileResult>)
    ensures Validate(host, options).Err? ==> r == Err(Validate(host, options).error)
    ensures r.Ok? ==> Distinct(r.value.diagnostics) && UniqueKeys(r.value.artifacts)
  {
    var req :- Validate(host, options);
    var launches := Launches(host, req, compiler);
    var acc :- Run(host, Fresh, req.files, launches);
    RunFolds(host, Fresh, req.files, launches);
    DeduplicationKeepsFirstOccurrences(AllReports(host, req.files, launches));
    PutAllUnique([], AllWrites(host, req.files, launches));
    Ok(CompileResult(acc.artifacts, acc.seen.list))
  }

  /** A call with valid options succeeds exactly when every file's run does. */
  lemma CompileSucceeds(host: Host, options: Option<Json>, compiler: Invocation -> Launch)
    requires Validate(host, options).Ok?
    ensures var req := Validate(host, options).value;
            var launches := Launches(host, req, compiler);
            Compile(host, options, compiler).Ok? <==>
              forall j :: 0 <= j < |req.files| ==> RunFailure(host, req.files[j], launches[j]).None?
  {
    var req := Validate(host, options).value;
    RunSucceeds(host, Fresh, req.files, Launches(host, req, compiler));
  }

  /** A failing run rejects the whole call with its own error, provided every
      earlier file compiled (index.js:151-159, 214-220, 264-266). */
  lemma CompileFirstFailure(host: Host, options: Option<Json>, compiler: Invocation -> Launch, k: nat)
    requires Validate(host, options).Ok?
    requires var req := Validate(host, options).value;
             var launches := Launches(host, req, compiler);
             && k < |req.files|
             && (forall j :: 0 <= j < k ==> RunFailure(host, req.files[j], launches[j]).None?)
             && RunFailure(host, req.files[k], launches[k]).Some?
    ensures var req := Validate(host, options).value;
            var launches := Launches(host, req, compiler);
            Compile(host, options, compiler) == Err(RunFailure(host, req.files[k], launches[k]).value)
  {
    var req := Validate(host, options).value;
    RunStopsAtFirstFailure(host, Fresh, req.files, Launches(host, req, compiler), k);
  }

  /** After a successful compilation each contract name holds the artifact
      written last for it across all files. */
  lemma CompileArtifacts(host: Host, options: Option<Json>, compiler: Invocation -> Launch, name: string)
    requires Compile(host, options, compiler).Ok?
    ensures var req := Validate(host, options).value;
            Find(Compile(host, options, compiler).value.artifacts, name)
              == LastWrite(AllWrites(host, req.files, Launches(host, req, compiler)), name)
  {
    var req := Validate(host, options).value;
    var launches := Launches(host, req, compiler);
    RunFolds(host, Fresh, req.files, launches);
    PutAllLastWins([], AllWrites(host, req.files, launches), name);
  }

  /** After a successful compilation the diagnostics are the first
      occurrences of everything reported, in first-seen order. */
  lemma CompileDiagnostics(host: Host, options: Option<Json>, compiler: Invocation -> Launch)
    requires Compile(host, options, compiler).Ok?
    ensures var req := Validate(host, options).value;
            Compile(host, options, compiler).value.diagnostics
              == FirstOccurrences(AllReports(host, req.files, Launches(host, req, compiler)))
  {
    var req := Validate(host, options).value;
    var launches := Launches(host, req, compiler);
    RunFolds(host, Fresh, req.files, launches);
    DeduplicationKeepsFirstOccurrences(AllReports(host, req.files, launches));
  }

  /** Every validated file is compiled exactly once, in order, and its run
      names it as a source of the input document. */
  lemma EveryFileInvoked(host: Host, req: Request, compiler: Invocation -> Launch, k: nat)
    requires k < |req.files|
    ensures Launches(host, req, compiler)[k] == compiler(InvocationFor(host, req, k))
    ensures Find(InvocationFor(host, req, k).input.sources, host.basename(req.files[k])) == Some([req.files[k]])
    ensures InvocationFor(host, req, k).cwd == host.dirname(req.files[k])
  {
    SourcesAccumulate(host, req, k, host.basename(req.files[k]));
  }

  // ---- As written: the shared loop index ----

  /** The file index the source's outer loop moves to after a file
      (index.js:128, 188, 199, 239): the loops over link references and
      diagnostics reuse `i`, so it ends at the length of the errors array when
      the output has one, else at the reference count of the last contract
      with a `linkReferences` object (`refCounts` lists them), else at `k`. */
  function NextFileIndexAsWritten(k: nat, refCounts: seq<nat>, errorCount: Option<nat>): (next: nat)
    ensures errorCount.Some? ==> next == errorCount.value + 1
    ensures errorCount.None? && |refCounts| == 0 ==> next == k + 1
  {
    (if errorCount.Some? then errorCount.value
     else if |refCounts| > 0 then refCounts[|refCounts| - 1]
     else k) + 1
  }

  /** Two files, the first output reporting one diagnostic: the source moves
      to index 2 and never compiles the second file, which the model runs. */
  lemma SecondFileSkippedAsWritten(host: Host, req: Request, compiler: Invocation -> Launch)
    requires |req.files| == 2
    ensures NextFileIndexAsWritten(0, [], Some(1)) == |req.files|
    ensures |Launches(host, req, compiler)| == 2
    ensures Launches(host, req, compiler)[1] == compiler(InvocationFor(host, req, 1))
  {
  }

  /** A later file whose output carries an empty errors array sends the
      source's index back to 1: with two or more files the loop never ends. */
  lemma IndexStallsAsWritten()
    ensures NextFileIndexAsWritten(1, [], Some(0)) == 1
  {
  }

  // ---- As written: what the promise delivers ----

  /** `resolve(output, errors)` (index.js:269): a promise settles with one
      value, so callers receive the artifact map only. */
  function ResolvedAsWritten(r: Result<CompileResult>): (v: Result<OMap<Artifact>>)
    ensures r.Ok? <==> v.Ok?
    ensures r.Ok? ==> v.value == r.value.artifacts
  {
    if r.Ok? then Ok(r.value.artifacts) else Err(r.error)
  }

  /** Two compilations that differ only in their diagnostics deliver the
      same value: the diagnostics cannot be observed. */
  lemma DiagnosticsUnobservableAsWritten(artifacts: OMap<Artifact>, d: Diagnostic)
    ensures CompileResult(artifacts, []) != CompileResult(artifacts, [d])
    ensures ResolvedAsWritten(Ok(CompileResult(artifacts, []))) == ResolvedAsWritten(Ok(CompileResult(artifacts, [d])))
  {
  }
}
