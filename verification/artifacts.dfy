/** Extraction of one artifact per contract from the compiler's
    `contracts[file][name]` records (index.js:162-237). */
module Artifacts {
  import opened Results
  import opened JsonValues
  import opened HostServices
  import opened LinkReferences

  /** What `compile` stores under a contract's name. */
  datatype Artifact = Artifact(bytecode: string, abi: Json, devdoc: Option<Json>, userdoc: Option<Json>)

  /** The non-empty `evm.bytecode.object` string of a contract record, when
      every step of that path is an object. */
  function BytecodeObject(c: Json): Option<string>
  {
    var evm := Get(c, "evm");
    if evm.None? then None
    else
      var bc := Get(evm.value, "bytecode");
      if bc.None? then None
      else
        var obj := Get(bc.value, "object");
        if obj.Some? && obj.value.JStr? && |obj.value.s| > 0 then Some(obj.value.s) else None
  }

  /** A `null` where the source reads a property without a preceding guard. */
  predicate NullOnBytecodePath(c: Json)
  {
    || c.JNull?
    || Get(c, "evm") == Some(JNull)
    || (Get(c, "evm").Some? && Get(Get(c, "evm").value, "bytecode") == Some(JNull))
  }

  /** `bytecode` with its link references rewritten when the compiler supplied
      a `linkReferences` object (index.js:179-205). */
  function LinkedBytecode(host: Host, code: string, linkRefs: Option<Json>): (r: Result<string>)
    ensures linkRefs.None? || !IsObjectType(linkRefs.value) ==> r == Ok(code)
    ensures linkRefs == Some(JNull) ==> r == Err(TypeError)
    ensures r.Err? ==> r.error == TypeError
  {
    if linkRefs.Some? && IsObjectType(linkRefs.value) then
      var refs :- Gather(host, linkRefs.value);
      Ok(Link(code, refs))
    else Ok(code)
  }

  /** `JSON.parse(contract.metadata)`; the runtime turns a non-string argument
      into a string first, and `null` spells a valid document. */
  function ParseMetadata(host: Host, metadata: Option<Json>): Option<Json>
  {
    match metadata
    case Some(JStr(text)) => host.parse(text)
    case Some(JNull) => Some(JNull)
    case _ => None
  }

  /** A documentation value is kept only when `typeof` calls it an object. */
  function Doc(v: Option<Json>): (r: Option<Json>)
    ensures r.Some? <==> v.Some? && IsObjectType(v.value)
    ensures r.Some? ==> r == v
  {
    if v.Some? && IsObjectType(v.value) then v else None
  }

  /** Builds the artifact from the contract's metadata document
      (index.js:207-231). */
  function FromMetadata(host: Host, code: string, metadata: Option<Json>, file: string): (r: Result<Artifact>)
    ensures var doc := ParseMetadata(host, metadata);
            doc.None? ==> r == Err(UnexpectedOutput(file))
    ensures var doc := ParseMetadata(host, metadata);
            r.Ok? <==> (&& doc.Some? && Get(doc.value, "output").Some?
                        && Get(doc.value, "output").value.JObj?
                        && Get(Get(doc.value, "output").value, "abi").Some?
                        && IsObjectType(Get(Get(doc.value, "output").value, "abi").value))
    ensures r.Ok? ==>
            var output := Get(ParseMetadata(host, metadata).value, "output").value;
            && r.value.bytecode == code
            && Some(r.value.abi) == Get(output, "abi")
            && (r.value.devdoc.Some? <==> Get(output, "devdoc").Some? && IsObjectType(Get(output, "devdoc").value))
            && (r.value.devdoc.Some? ==> r.value.devdoc == Get(output, "devdoc"))
            && (r.value.userdoc.Some? <==> Get(output, "userdoc").Some? && IsObjectType(Get(output, "userdoc").value))
            && (r.value.userdoc.Some? ==> r.value.userdoc == Get(output, "userdoc"))
    ensures r.Err? ==> r.error == UnexpectedOutput(file) || r.error == TypeError
    ensures var doc := ParseMetadata(host, metadata);
            r.Err? ==> (r.error == TypeError <==>
                          doc == Some(JNull) || (doc.Some? && Get(doc.value, "output") == Some(JNull)))
  {
    var doc := ParseMetadata(host, metadata);
    if doc.None? then Err(UnexpectedOutput(file))
    else if doc.value.JNull? then Err(TypeError)              // `null.output`
    else
      var output := Get(doc.value, "output");
      if output.None? || !IsObjectType(output.value) then Err(UnexpectedOutput(file))
      else if output.value.JNull? then Err(TypeError)         // `null.abi`
      else
        var abi := Get(output.value, "abi");
        if abi.None? || !IsObjectType(abi.value) then Err(UnexpectedOutput(file))
        else Ok(Artifact(code, abi.value, Doc(Get(output.value, "devdoc")), Doc(Get(output.value, "userdoc"))))
  }

  /** `evm.bytecode.linkReferences` of a contract record, when the path exists. */
  function LinkRefsOf(c: Json): Option<Json>
  {
    var evm := Get(c, "evm");
    if evm.None? then None
    else
      var bc := Get(evm.value, "bytecode");
      if bc.None? then None else Get(bc.value, "linkReferences")
  }

  /** The artifact of one contract record, `None` when it has no bytecode
      (index.js:171-234). `file` names the source being compiled. */
  function ExtractContract(host: Host, c: Json, file: string): (r: Result<Option<Artifact>>)
    ensures NullOnBytecodePath(c) ==> r == Err(TypeError)
    ensures r == Ok(None) <==> !NullOnBytecodePath(c) && BytecodeObject(c).None?
    ensures !NullOnBytecodePath(c) && BytecodeObject(c).Some? ==>
              var code := LinkedBytecode(host, BytecodeObject(c).value, LinkRefsOf(c));
              && (code.Err? ==> r == Err(code.error))
              && (code.Ok? ==>
                    var a := FromMetadata(host, code.value, Get(c, "metadata"), file);
                    r == if a.Ok? then Ok(Some(a.value)) else Err(a.error))
    ensures r.Err? && r.error != TypeError ==> r.error == UnexpectedOutput(file)
  {
    if c.JNull? then Err(TypeError)
    else
      var evm := Get(c, "evm");
      if evm.None? || !IsObjectType(evm.value) then Ok(None)
      else if evm.value.JNull? then Err(TypeError)
      else
        var bc := Get(evm.value, "bytecode");
        if bc.None? || !IsObjectType(bc.value) then Ok(None)
        else if bc.value.JNull? then Err(TypeError)
        else
          var obj := Get(bc.value, "object");
          if !(obj.Some? && obj.value.JStr? && |obj.value.s| > 0) then Ok(None)
          else
            var code :- LinkedBytecode(host, obj.value.s, Get(bc.value, "linkReferences"));
            var a :- FromMetadata(host, code, Get(c, "metadata"), file);
            Ok(Some(a))
  }

  /** A contract that exposes bytecode yields an artifact or fails the
      compilation; it is never skipped. With no link references its bytecode
      is stored unchanged. */
  lemma BytecodeContractNotSkipped(host: Host, c: Json, file: string)
    requires BytecodeObject(c).Some? && !NullOnBytecodePath(c)
    ensures ExtractContract(host, c, file) != Ok(None)
    ensures var bc := Get(Get(c, "evm").value, "bytecode").value;
            var r := ExtractContract(host, c, file);
            Get(bc, "linkReferences").None? && r.Ok? ==> r.value.value.bytecode == BytecodeObject(c).value
  {
  }

  /** What one contract record contributes when its extraction succeeds. */
  function Kept(host: Host, c: (string, Json), file: string): seq<(string, Artifact)>
  {
    var e := ExtractContract(host, c.1, file);
    if e.Ok? && e.value.Some? then [(c.0, e.value.value)] else []
  }

  /** The assignments of one contract file's records, in key order; the first
      failing record fails the file (index.js:168-234). */
  function ContractArtifacts(host: Host, cs: seq<(string, Json)>, file: string): (r: Result<seq<(string, Artifact)>>)
    ensures r.Ok? ==> forall w :: w in r.value ==> exists c :: c in cs && c.0 == w.0
    ensures r.Err? && r.error != TypeError ==> r.error == UnexpectedOutput(file)
    decreases |cs|
  {
    if |cs| == 0 then Ok([])
    else
      var a :- ExtractContract(host, cs[0].1, file);
      var rest :- ContractArtifacts(host, cs[1..], file);
      Ok((if a.Some? then [(cs[0].0, a.value)] else []) + rest)
  }

  /** One file's walk succeeds exactly when every record extracts. */
  lemma {:induction false} ContractArtifactsSucceeds(host: Host, cs: seq<(string, Json)>, file: string)
    ensures ContractArtifacts(host, cs, file).Ok? <==> forall i :: 0 <= i < |cs| ==> ExtractContract(host, cs[i].1, file).Ok?
    decreases |cs|
  {
    if |cs| > 0 {
      ContractArtifactsUnfold(host, cs, file);
      ContractArtifactsSucceeds(host, cs[1..], file);
      assert forall i :: 1 <= i < |cs| ==> cs[1..][i - 1] == cs[i];
    }
  }

  lemma AppendAssociates<T>(x: seq<T>, y: seq<T>, z: seq<T>)
    ensures x + (y + z) == (x + y) + z
  {
  }

  /** `f(xs[0]) + … + f(xs[|xs| - 1])`, built from the back. */
  function ConcatMap<X, Y>(xs: seq<X>, f: X -> seq<Y>): seq<Y>
    decreases |xs|
  {
    if |xs| == 0 then [] else ConcatMap(xs[..|xs| - 1], f) + f(xs[|xs| - 1])
  }

  lemma {:induction false} ConcatMapCons<X, Y>(x: X, rest: seq<X>, f: X -> seq<Y>)
    ensures ConcatMap([x] + rest, f) == f(x) + ConcatMap(rest, f)
    decreases |rest|
  {
    var xs := [x] + rest;
    if |rest| == 0 {
      assert xs[..|xs| - 1] == [];
    } else {
      var init := rest[..|rest| - 1];
      assert xs[..|xs| - 1] == [x] + init && xs[|xs| - 1] == rest[|rest| - 1];
      ConcatMapCons(x, init, f);
    }
  }

  lemma {:induction false} ConcatMapHas<X, Y>(xs: seq<X>, f: X -> seq<Y>, i: nat, y: Y)
    requires i < |xs| && y in f(xs[i])
    ensures y in ConcatMap(xs, f)
    decreases |xs|
  {
    if i < |xs| - 1 {
      assert xs[..|xs| - 1][i] == xs[i];
      ConcatMapHas(xs[..|xs| - 1], f, i, y);
    }
  }

  lemma {:induction false} ConcatMapOnly<X, Y>(xs: seq<X>, f: X -> seq<Y>, y: Y)
    requires y in ConcatMap(xs, f)
    ensures exists i :: 0 <= i < |xs| && y in f(xs[i])
    decreases |xs|
  {
    var init := xs[..|xs| - 1];
    if y in ConcatMap(init, f) {
      ConcatMapOnly(init, f, y);
      var i :| 0 <= i < |init| && y in f(init[i]);
      assert init[i] == xs[i];
    }
  }

  function KeptIn(host: Host, file: string): ((string, Json)) -> seq<(string, Artifact)>
  {
    c => Kept(host, c, file)
  }

  /** Reference definition: every record whose extraction yields an
      artifact, paired with it, in key order. */
  function Stored(host: Host, cs: seq<(string, Json)>, file: string): seq<(string, Artifact)>
  {
    ConcatMap(cs, KeptIn(host, file))
  }

  lemma StoredCons(host: Host, c: (string, Json), rest: seq<(string, Json)>, file: string)
    ensures Stored(host, [c] + rest, file) == Kept(host, c, file) + Stored(host, rest, file)
  {
    ConcatMapCons(c, rest, KeptIn(host, file));
  }

  /** Nothing enters the reference list but a record's own artifact. */
  lemma StoredOnlyArtifacts(host: Host, cs: seq<(string, Json)>, file: string, w: (string, Artifact))
    requires w in Stored(host, cs, file)
    ensures exists i :: 0 <= i < |cs| && cs[i].0 == w.0 && ExtractContract(host, cs[i].1, file) == Ok(Some(w.1))
  {
    ConcatMapOnly(cs, KeptIn(host, file), w);
    var i :| 0 <= i < |cs| && w in KeptIn(host, file)(cs[i]);
    assert w in Kept(host, cs[i], file);
  }

  /** Every record that yields an artifact appears in the reference list. */
  lemma StoredHasEveryArtifact(host: Host, cs: seq<(string, Json)>, file: string, i: nat)
    requires i < |cs|
    requires ExtractContract(host, cs[i].1, file).Ok? && ExtractContract(host, cs[i].1, file).value.Some?
    ensures (cs[i].0, ExtractContract(host, cs[i].1, file).value.value) in Stored(host, cs, file)
  {
    var w := (cs[i].0, ExtractContract(host, cs[i].1, file).value.value);
    assert w in KeptIn(host, file)(cs[i]);
    ConcatMapHas(cs, KeptIn(host, file), i, w);
  }

  /** A successful walk over one file's records makes exactly the reference
      list of assignments. */
  lemma {:induction false} ContractArtifactsStored(host: Host, cs: seq<(string, Json)>, file: string)
    requires ContractArtifacts(host, cs, file).Ok?
    ensures ContractArtifacts(host, cs, file).value == Stored(host, cs, file)
    decreases |cs|
  {
    if |cs| > 0 {
      ContractArtifactsStored(host, cs[1..], file);
      StoredCons(host, cs[0], cs[1..], file);
      assert cs == [cs[0]] + cs[1..];
    }
  }

  /** One step of the walk: the first record's error, or its contribution
      followed by the rest of the walk. */
  lemma ContractArtifactsUnfold(host: Host, cs: seq<(string, Json)>, file: string)
    requires |cs| > 0
    ensures var e := ExtractContract(host, cs[0].1, file);
            ContractArtifacts(host, cs, file) ==
              WalkStep(e.Err?, if e.Err? then e.error else TypeError, Kept(host, cs[0], file), ContractArtifacts(host, cs[1..], file))
  {
  }

  /** The first record that fails decides the file's error. */
  lemma {:induction false} ContractArtifactsFirstError(host: Host, cs: seq<(string, Json)>, file: string, k: nat)
    requires k < |cs|
    requires forall i :: 0 <= i < k ==> ExtractContract(host, cs[i].1, file).Ok?
    requires ExtractContract(host, cs[k].1, file).Err?
    ensures ContractArtifacts(host, cs, file) == Err(ExtractContract(host, cs[k].1, file).error)
    decreases k
  {
    ContractArtifactsUnfold(host, cs, file);
    var e, rest := ExtractContract(host, cs[0].1, file), cs[1..];
    WalkStepOutcome(e.Err?, if e.Err? then e.error else TypeError, Kept(host, cs[0], file),
                    ContractArtifacts(host, rest, file));
    if k > 0 {
      forall i | 0 <= i < k - 1 ensures ExtractContract(host, rest[i].1, file).Ok? {
        assert rest[i] == cs[i + 1];
      }
      assert rest[k - 1] == cs[k];
      ContractArtifactsFirstError(host, rest, file, k - 1);
    }
  }

  /** Every contract with a non-empty bytecode string is stored under its name
      when its file's records all extract. */
  lemma EveryBytecodeContractStored(host: Host, cs: seq<(string, Json)>, file: string, i: nat)
    requires ContractArtifacts(host, cs, file).Ok?
    requires i < |cs| && BytecodeObject(cs[i].1).Some?
    ensures ExtractContract(host, cs[i].1, file).Ok? && ExtractContract(host, cs[i].1, file).value.Some?
    ensures (cs[i].0, ExtractContract(host, cs[i].1, file).value.value) in ContractArtifacts(host, cs, file).value
  {
    ContractArtifactsSucceeds(host, cs, file);
    BytecodeContractNotSkipped(host, cs[i].1, file);
    ContractArtifactsStored(host, cs, file);
    StoredHasEveryArtifact(host, cs, file, i);
  }

  /** Walking two runs of records in turn is walking them together. */
  lemma {:induction false} ContractArtifactsAppend(host: Host, a: seq<(string, Json)>, b: seq<(string, Json)>, file: string)
    ensures ContractArtifacts(host, a + b, file) == Combine(ContractArtifacts(host, a, file), ContractArtifacts(host, b, file))
    decreases |a|
  {
    var rb := ContractArtifacts(host, b, file);
    if |a| == 0 {
      assert a + b == b;
      if rb.Ok? {
        assert [] + rb.value == rb.value;
      }
    } else {
      var ab := a + b;
      assert ab[0] == a[0] && ab[1..] == a[1..] + b;
      ContractArtifactsUnfold(host, a, file);
      ContractArtifactsUnfold(host, ab, file);
      ContractArtifactsAppend(host, a[1..], b, file);
      var e := ExtractContract(host, a[0].1, file);
      WalkStepAppend(e.Err?, if e.Err? then e.error else TypeError, Kept(host, a[0], file),
                     ContractArtifacts(host, a[1..], file), rb);
    }
  }

  /** The first failure of two walks in turn, else both walks' results. */
  function Combine<T>(x: Result<seq<T>>, y: Result<seq<T>>): Result<seq<T>>
  {
    if x.Err? then x else if y.Err? then y else Ok(x.value + y.value)
  }

  /** One step of a walk: a failure of the head, else its results before the rest's. */
  function WalkStep<T>(failed: bool, error: Failure, head: seq<T>, rest: Result<seq<T>>): Result<seq<T>>
  {
    if failed then Err(error) else if rest.Err? then rest else Ok(head + rest.value)
  }

  /** A failing head fails the step; a failing rest fails it after a good head. */
  lemma WalkStepOutcome<T>(failed: bool, error: Failure, head: seq<T>, rest: Result<seq<T>>)
    ensures failed ==> WalkStep(failed, error, head, rest) == Err(error)
    ensures !failed && rest.Err? ==> WalkStep(failed, error, head, rest) == rest
  {
  }

  /** A step followed by a second walk is the step over the rest followed by
      that walk. */
  lemma WalkStepAppend<T>(failed: bool, error: Failure, head: seq<T>, rest: Result<seq<T>>, rb: Result<seq<T>>)
    ensures WalkStep(failed, error, head, Combine(rest, rb)) == Combine(WalkStep(failed, error, head, rest), rb)
  {
    if !failed && rest.Ok? && rb.Ok? {
      AppendAssociates(head, rest.value, rb.value);
    }
  }


  /** The `(name, record)` pairs of every contract file, in `Object.keys`
      order; a `null` file is a TypeError. */
  function ContractsOf(files: seq<(string, Json)>): (r: Result<seq<(string, Json)>>)
    ensures r.Err? <==> exists i :: 0 <= i < |files| && files[i].1.JNull?
    ensures r.Err? ==> r.error == TypeError
    decreases |files|
  {
    if |files| == 0 then Ok([])
    else
      assert forall i :: 1 <= i < |files| ==> files[1..][i - 1] == files[i];
      var first :- Entries(files[0].1);
      var rest :- ContractsOf(files[1..]);
      Ok(first + rest)
  }

  function FileArtifacts(host: Host, files: seq<(string, Json)>, file: string): (r: Result<seq<(string, Artifact)>>)
    ensures r.Err? && r.error != TypeError ==> r.error == UnexpectedOutput(file)
    decreases |files|
  {
    if |files| == 0 then Ok([])
    else
      var contracts :- Entries(files[0].1);
      var first :- ContractArtifacts(host, contracts, file);
      var rest :- FileArtifacts(host, files[1..], file);
      Ok(first + rest)
  }

  /** The nested walk over files and their records is one walk over all
      records in order; a `null` file fails it. */
  lemma {:induction false} FileArtifactsFlatten(host: Host, files: seq<(string, Json)>, file: string)
    ensures ContractsOf(files).Err? ==> FileArtifacts(host, files, file).Err?
    ensures ContractsOf(files).Ok? ==>
              FileArtifacts(host, files, file) == ContractArtifacts(host, ContractsOf(files).value, file)
    decreases |files|
  {
    if |files| > 0 {
      FileArtifactsFlatten(host, files[1..], file);
      if !files[0].1.JNull? {
        var first := Entries(files[0].1).value;
        if ContractsOf(files[1..]).Ok? {
          ContractArtifactsAppend(host, first, ContractsOf(files[1..]).value, file);
        }
      }
    }
  }

  /** The `(contract name, artifact)` assignments one compiler output makes,
      in `Object.keys` order (index.js:162-237). */
  function Extract(host: Host, output: Json, file: string): (r: Result<seq<(string, Artifact)>>)
    ensures output.JNull? ==> r == Err(TypeError)
    ensures !output.JNull? && (Get(output, "contracts").None? || !IsObjectType(Get(output, "contracts").value)) ==>
              r == Ok([])
    ensures Get(output, "contracts") == Some(JNull) ==> r == Err(TypeError)
    ensures var contracts := Get(output, "contracts");
            contracts.Some? && IsObjectType(contracts.value) && !contracts.value.JNull? ==>
              r == FileArtifacts(host, Entries(contracts.value).value, file)
    ensures r.Err? && r.error != TypeError ==> r.error == UnexpectedOutput(file)
  {
    var contracts :- Prop(output, "contracts");
    if contracts.None? || !IsObjectType(contracts.value) then Ok([])
    else
      var files :- Entries(contracts.value);
      FileArtifacts(host, files, file)
  }

  /** A compiler output with a `contracts` object stores exactly the
      reference list of all its records, in file and key order, and fails
      when any file is `null` or any record fails. */
  lemma ExtractWalk(host: Host, output: Json, file: string)
    requires Get(output, "contracts").Some? && IsObjectType(Get(output, "contracts").value)
    requires !Get(output, "contracts").value.JNull?
    ensures var all := ContractsOf(Entries(Get(output, "contracts").value).value);
            && (all.Err? ==> Extract(host, output, file).Err?)
            && (all.Ok? ==> (Extract(host, output, file).Ok? <==>
                               forall i :: 0 <= i < |all.value| ==> ExtractContract(host, all.value[i].1, file).Ok?))
            && (all.Ok? && Extract(host, output, file).Ok? ==>
                  Extract(host, output, file).value == Stored(host, all.value, file))
  {
    var files := Entries(Get(output, "contracts").value).value;
    FileArtifactsFlatten(host, files, file);
    var all := ContractsOf(files);
    if all.Ok? {
      ContractArtifactsSucceeds(host, all.value, file);
    }
    if all.Ok? && ContractArtifacts(host, all.value, file).Ok? {
      ContractArtifactsStored(host, all.value, file);
    }
  }

  // ---- Link references of the well-formed shape ----

  /** Every reported occurrence is 20 bytes long and its hex span fits in a
      bytecode of `size` characters. */
  predicate AddressSized(os: seq<Occurrence>, size: nat)
  {
    forall k :: 0 <= k < |os| ==> os[k].length == 20 && 2 * os[k].start + SlotWidth <= size
  }

  predicate TableAddressSized(t: seq<(string, seq<(string, seq<Occurrence>)>)>, size: nat)
  {
    forall i, j :: 0 <= i < |t| && 0 <= j < |t[i].1| ==> AddressSized(t[i].1[j].1, size)
  }

  lemma {:induction false} HexRefsInSlot(name: string, os: seq<Occurrence>, size: nat)
    requires AddressSized(os, size)
    ensures forall r :: r in HexRefs(name, os) ==> InSlot(r, size)
    decreases |os|
  {
    if |os| > 0 {
      assert AddressSized(os[1..], size) by {
        forall k | 0 <= k < |os[1..]| ensures os[1..][k] == os[k + 1] { }
      }
      HexRefsInSlot(name, os[1..], size);
    }
  }

  lemma {:induction false} TableRefsInSlot(t: seq<(string, seq<(string, seq<Occurrence>)>)>, size: nat)
    requires TableAddressSized(t, size)
    ensures forall r :: r in TableRefs(t) ==> InSlot(r, size)
    decreases |t|
  {
    if |t| > 0 {
      var libs := t[0].1;
      LibrariesRefsInSlot(libs, size);
      assert TableAddressSized(t[1..], size) by {
        forall i, j | 0 <= i < |t[1..]| && 0 <= j < |t[1..][i].1| ensures AddressSized(t[1..][i].1[j].1, size) {
          assert t[1..][i] == t[i + 1];
        }
      }
      TableRefsInSlot(t[1..], size);
    }
  }

  lemma {:induction false} LibrariesRefsInSlot(libs: seq<(string, seq<Occurrence>)>, size: nat)
    requires forall j :: 0 <= j < |libs| ==> AddressSized(libs[j].1, size)
    ensures forall r :: r in LibrariesRefs(libs) ==> InSlot(r, size)
    decreases |libs|
  {
    if |libs| > 0 {
      HexRefsInSlot(libs[0].0, libs[0].1, size);
      assert forall j :: 0 <= j < |libs[1..]| ==> libs[1..][j] == libs[j + 1];
      LibrariesRefsInSlot(libs[1..], size);
    }
  }

  /** A well-formed `linkReferences` table is applied reference by reference,
      in file, library and offset order. */
  lemma LinkedBytecodeGathers(host: Host, code: string, t: seq<(string, seq<(string, seq<Occurrence>)>)>)
    ensures LinkedBytecode(host, code, Some(JObj(TableJson(t)))) == Ok(Link(code, TableRefs(t)))
  {
    GatherWellFormed(host, t);
  }

  /** When `linkReferences` is absent the bytecode passes through; when it
      reports only 20-byte placeholders inside the bytecode, linking keeps the
      bytecode's length and every character outside the reported spans. */
  lemma LinkedBytecodeLocal(host: Host, code: string, t: seq<(string, seq<(string, seq<Occurrence>)>)>)
    requires TableAddressSized(t, |code|)
    ensures LinkedBytecode(host, code, None) == Ok(code)
    ensures var r, refs := LinkedBytecode(host, code, Some(JObj(TableJson(t)))), TableRefs(t);
            && r.Ok? && |r.value| == |code|
            && forall p :: 0 <= p < |code| && (forall j :: 0 <= j < |refs| ==> !Covers(refs[j], p)) ==>
                 r.value[p] == code[p]
  {
    LinkedBytecodeGathers(host, code, t);
    TableRefsInSlot(t, |code|);
    LinkLocality(code, TableRefs(t));
  }
}
