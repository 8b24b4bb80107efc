/** Validation of the `compile` options and construction of the standard-JSON
    input document sent to the compiler (index.js:56-133). */
module CompileOptions {
  import opened Results
  import opened JsonValues
  import opened HostServices
  import opened OrderedMaps

  /** `settings.optimizer`; `runs` is copied verbatim from the options. */
  datatype Optimizer = Optimizer(enabled: bool, runs: Json)

  const DefaultOptimizer := Optimizer(false, JNum(0.0))

  /** A validated request: optimizer settings and normalised absolute paths. */
  datatype Request = Request(optimizer: Optimizer, files: seq<string>)

  /** `x % 1 != 0` for a coerced number; NaN (None) compares unequal. */
  predicate FractionalOrNaN(n: Option<real>)
  {
    n.None? || n.value != n.value.Floor as real
  }

  /** The guard of index.js:91, with its precedence:
      `(typeof x !== 'number' && x % 1 != 0) || x < 0`. */
  predicate RunsRejected(host: Host, v: Json)
  {
    || (!v.JNum? && FractionalOrNaN(host.toNumber(v)))
    || (NumberOf(host, Some(v)).Some? && NumberOf(host, Some(v)).value < 0.0)
  }

  /** A number is refused only when negative, so a fractional run count such
      as 1.5 passes; any other value is refused when its numeric coercion is
      NaN, fractional or negative. */
  lemma RunsGuard(host: Host, v: Json)
    ensures v.JNum? ==> (RunsRejected(host, v) <==> v.n < 0.0)
    ensures !v.JNum? ==>
              (RunsRejected(host, v) <==>
                 var n := host.toNumber(v);
                 n.None? || n.value != n.value.Floor as real || n.value < 0.0)
    ensures !RunsRejected(host, JNum(1.5))
  {
  }

  /** The optimizer block (index.js:84-98). */
  function OptimizerSettings(host: Host, options: Json): (r: Result<Optimizer>)
    ensures Get(options, "optimize").None? ==> r == Ok(DefaultOptimizer)
    ensures r.Err? ==> r.error == InvalidRunOption
    ensures r.Ok? ==> (r.value.enabled <==> Get(options, "optimize").Some? && Truthy(Get(options, "optimize").value))
    ensures var optimize, runs := Get(options, "optimize"), Get(options, "optimize_runs");
            optimize.Some? && runs.Some? ==>
              (r.Err? <==> RunsRejected(host, runs.value)) && (r.Ok? ==> r.value.runs == runs.value)
    ensures Get(options, "optimize_runs").None? ==> r.Ok? && r.value.runs == JNum(0.0)
  {
    var optimize := Get(options, "optimize");
    if optimize.None? then Ok(DefaultOptimizer)
    else
      var enabled := Truthy(optimize.value);
      var runs := Get(options, "optimize_runs");
      if runs.None? then Ok(Optimizer(enabled, JNum(0.0)))
      else if RunsRejected(host, runs.value) then Err(InvalidRunOption)
      else Ok(Optimizer(enabled, runs.value))
  }

  /** A usable entry of `files`: a non-empty, absolute path string. */
  predicate GoodEntry(host: Host, e: Json)
  {
    e.JStr? && |e.s| > 0 && host.isAbsolute(e.s)
  }

  /** Checks and normalises the entries in order (index.js:111-121). */
  function CheckEntries(host: Host, entries: seq<Json>): (r: Result<seq<string>>)
    ensures r.Ok? <==> forall i :: 0 <= i < |entries| ==> GoodEntry(host, entries[i])
    ensures r.Ok? ==> |r.value| == |entries| &&
                      forall i :: 0 <= i < |entries| ==> r.value[i] == host.normalize(entries[i].s)
    ensures r.Err? ==> r.error == InvalidInputFiles || r.error == RelativeInputPath
    decreases |entries|
  {
    if |entries| == 0 then Ok([])
    else
      var e := entries[0];
      if !(e.JStr? && |e.s| > 0) then Err(InvalidInputFiles)
      else if !host.isAbsolute(e.s) then Err(RelativeInputPath)
      else
        var rest :- CheckEntries(host, entries[1..]);
        assert forall i :: 1 <= i < |entries| ==> entries[i] == entries[1..][i - 1];
        Ok([host.normalize(e.s)] + rest)
  }

  /** The first unusable entry decides the failure, whatever follows it. */
  lemma {:induction false} FirstBadEntryDecides(host: Host, entries: seq<Json>, i: nat)
    requires i < |entries| && !GoodEntry(host, entries[i])
    requires forall j :: 0 <= j < i ==> GoodEntry(host, entries[j])
    ensures !(entries[i].JStr? && |entries[i].s| > 0) ==> CheckEntries(host, entries) == Err(InvalidInputFiles)
    ensures entries[i].JStr? && |entries[i].s| > 0 ==> CheckEntries(host, entries) == Err(RelativeInputPath)
    decreases i
  {
    if i > 0 {
      assert GoodEntry(host, entries[0]);
      assert entries[1..][i - 1] == entries[i];
      FirstBadEntryDecides(host, entries[1..], i - 1);
    }
  }

  /** `files` may be one path string or an array of them (index.js:101-121). */
  function InputFiles(host: Host, options: Json): (r: Result<seq<string>>)
    ensures var f := Get(options, "files");
            f.Some? && f.value.JStr? ==> r == CheckEntries(host, [f.value])
    ensures var f := Get(options, "files");
            f.Some? && f.value.JArr? ==> r == CheckEntries(host, f.value.items)
    ensures var f := Get(options, "files");
            !(f.Some? && (f.value.JStr? || f.value.JArr?)) ==> r == Err(InvalidInputFiles)
  {
    var files := Get(options, "files");
    if files.Some? && files.value.JStr? then CheckEntries(host, [files.value])
    else if files.Some? && files.value.JArr? then CheckEntries(host, files.value.items)
    else Err(InvalidInputFiles)
  }

  /** Validates the options value; `None` is `undefined` (index.js:78-121). */
  function Validate(host: Host, options: Option<Json>): (r: Result<Request>)
    ensures options.None? || !IsObjectType(options.value) ==> r == Err(InvalidOptions)
    ensures options == Some(JNull) ==> r == Err(TypeError)
    ensures r.Ok? ==> options.Some? && (options.value.JObj? || options.value.JArr?)
    ensures r.Ok? ==>
              && OptimizerSettings(host, options.value) == Ok(r.value.optimizer)
              && InputFiles(host, options.value) == Ok(r.value.files)
    ensures options.Some? && !options.value.JNull? && OptimizerSettings(host, options.value).Err? ==>
              r == Err(InvalidRunOption)
    ensures options.Some? && (options.value.JObj? || options.value.JArr?) &&
            OptimizerSettings(host, options.value).Ok? ==>
              && (InputFiles(host, options.value).Err? ==> r == Err(InputFiles(host, options.value).error))
              && (InputFiles(host, options.value).Ok? ==>
                    r == Ok(Request(OptimizerSettings(host, options.value).value, InputFiles(host, options.value).value)))
  {
    if options.None? || !IsObjectType(options.value) then Err(InvalidOptions)
    else if options.value.JNull? then Err(TypeError)    // `null.optimize`
    else
      var optimizer :- OptimizerSettings(host, options.value);
      var files :- InputFiles(host, options.value);
      Ok(Request(optimizer, files))
  }

  /** A single path string becomes a one-element file list. */
  lemma SingleFileString(host: Host, options: Json, path: string)
    requires options.JObj? && Get(options, "files") == Some(JStr(path))
    requires OptimizerSettings(host, options).Ok?
    requires |path| > 0 && host.isAbsolute(path)
    ensures Validate(host, Some(options)).Ok?
    ensures Validate(host, Some(options)).value.files == [host.normalize(path)]
  {
  }

  /** A relative path in the `files` array rejects the call with "Input
      filename must be an absolute path". */
  lemma RelativeFileRejected(host: Host, options: Json, path: string)
    requires options.JObj? && Get(options, "files") == Some(JArr([JStr(path)]))
    requires OptimizerSettings(host, options).Ok?
    requires |path| > 0 && !host.isAbsolute(path)
    ensures Validate(host, Some(options)) == Err(RelativeInputPath)
    ensures Message(Validate(host, Some(options)).error) == "Input filename must be an absolute path"
  {
    FirstBadEntryDecides(host, [JStr(path)], 0);
  }

  // ---- The input document (index.js:56-74, 128-133) ----

  const OutputSelection: seq<string> := ["metadata", "evm.bytecode", "evm.bytecode.sourceMap", "legacyAST"]

  /** `settings`; every file and contract (`"*"`) gets `OutputSelection`. */
  datatype Settings = Settings(optimizer: Optimizer, evmVersion: string, useLiteralContent: bool,
                               outputSelection: seq<string>)

  /** `sources` maps a file's base name to its `urls`. */
  datatype InputDocument = InputDocument(language: string, sources: OMap<seq<string>>, settings: Settings)

  function SettingsFor(optimizer: Optimizer): Settings
  {
    Settings(optimizer, "byzantium", true, OutputSelection)
  }

  /** The `sources` entries written for the first `n` files. */
  function SourceWrites(host: Host, files: seq<string>, n: nat): (ws: seq<(string, seq<string>)>)
    requires n <= |files|
    ensures |ws| == n && forall j :: 0 <= j < n ==> ws[j] == (host.basename(files[j]), [files[j]])
  {
    if n == 0 then [] else SourceWrites(host, files, n - 1) + [(host.basename(files[n - 1]), [files[n - 1]])]
  }

  /** The document sent for the `k`-th file. `Object.assign` copies the base
      document shallowly, so all of them share one `sources` object, which
      still holds the entries of the files compiled before. */
  function InputDocumentFor(host: Host, req: Request, k: nat): InputDocument
    requires k < |req.files|
  {
    InputDocument("Solidity", PutAll([], SourceWrites(host, req.files, k + 1)), SettingsFor(req.optimizer))
  }

  lemma {:induction false} LastWriteSources(host: Host, files: seq<string>, n: nat, name: string)
    requires n <= |files|
    ensures LastWrite(SourceWrites(host, files, n), name).Some? <==>
              exists j :: 0 <= j < n && host.basename(files[j]) == name
    ensures n > 0 && host.basename(files[n - 1]) == name ==>
              LastWrite(SourceWrites(host, files, n), name) == Some([files[n - 1]])
    decreases n
  {
    if n > 0 {
      LastWriteSources(host, files, n - 1, name);
      var ws := SourceWrites(host, files, n);
      assert ws[..n - 1] == SourceWrites(host, files, n - 1);
    }
  }

  /** The `k`-th document names the `k`-th file under its base name and
      carries a source for exactly the files compiled so far. */
  lemma SourcesAccumulate(host: Host, req: Request, k: nat, name: string)
    requires k < |req.files|
    ensures Find(InputDocumentFor(host, req, k).sources, host.basename(req.files[k])) == Some([req.files[k]])
    ensures Find(InputDocumentFor(host, req, k).sources, name).Some? <==>
              exists j :: 0 <= j <= k && host.basename(req.files[j]) == name
    ensures UniqueKeys(InputDocumentFor(host, req, k).sources)
  {
    var ws := SourceWrites(host, req.files, k + 1);
    PutAllLastWins([], ws, name);
    PutAllLastWins([], ws, host.basename(req.files[k]));
    PutAllUnique([], ws);
    LastWriteSources(host, req.files, k + 1, name);
    LastWriteSources(host, req.files, k + 1, host.basename(req.files[k]));
  }
}
