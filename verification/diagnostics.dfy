/** Normalisation and de-duplication of the compiler's `errors` list
    (index.js:238-262). Two diagnostics are the same when their normalised
    records are equal, which is what their content hash identifies. */
module Diagnostics {
  import opened Results
  import opened JsonValues

  datatype Source = Source(file: string, offset: Option<real>)

  /** The normalised record `{message, severity, source?}`; an absent field
      of the compiler's entry stays `undefined` (`None`). */
  datatype Diagnostic = Diagnostic(message: Option<Json>, severity: Option<Json>, source: Option<Source>)

  /** The entry's `sourceLocation`. */
  function Location(e: Json): Option<Json>
  {
    Get(e, "sourceLocation")
  }

  /** Builds the normalised record of one entry (index.js:240-253). */
  function Normalise(e: Json): (r: Result<Diagnostic>)
    ensures r.Err? <==> e.JNull? || Location(e) == Some(JNull)
    ensures r.Err? ==> r.error == TypeError
    ensures r.Ok? ==> r.value.message == Get(e, "formattedMessage") && r.value.severity == Get(e, "severity")
    ensures r.Ok? ==>
              (r.value.source.Some? <==>
                 Location(e).Some? && Get(Location(e).value, "file").Some? && Get(Location(e).value, "file").value.JStr?)
    ensures r.Ok? && r.value.source.Some? ==>
              var loc, src := Location(e).value, r.value.source.value;
              && Get(loc, "file") == Some(JStr(src.file))
              && (src.offset.Some? <==> Get(loc, "start").Some? && Get(loc, "start").value.JNum?)
              && (src.offset.Some? ==> Get(loc, "start") == Some(JNum(src.offset.value)))
  {
    if e.JNull? then Err(TypeError)
    else
      var loc := Location(e);
      if loc.Some? && loc.value.JNull? then Err(TypeError)   // `null.file`
      else
        var file := if loc.Some? then Get(loc.value, "file") else None;
        var source :=
          if file.Some? && file.value.JStr? then
            var start := Get(loc.value, "start");
            Some(Source(file.value.s, if start.Some? && start.value.JNum? then Some(start.value.n) else None))
          else None;
        Ok(Diagnostic(Get(e, "formattedMessage"), Get(e, "severity"), source))
  }

  /** Normalises every entry in order; the first entry that cannot be read
      fails the whole list. */
  function NormaliseAll(es: seq<Json>): (r: Result<seq<Diagnostic>>)
    ensures r.Ok? <==> forall i :: 0 <= i < |es| ==> Normalise(es[i]).Ok?
    ensures r.Ok? ==> |r.value| == |es| && forall i :: 0 <= i < |es| ==> Normalise(es[i]) == Ok(r.value[i])
    ensures r.Err? ==> r.error == TypeError
    decreases |es|
  {
    if |es| == 0 then Ok([])
    else
      var d :- Normalise(es[0]);
      var rest :- NormaliseAll(es[1..]);
      Ok([d] + rest)
  }

  /** The diagnostics one compiler output reports: its `errors` array, when it
      is one, normalised entry by entry. */
  function Reported(output: Json): (r: Result<seq<Diagnostic>>)
    ensures output.JNull? ==> r == Err(TypeError)
    ensures !output.JNull? && !(Get(output, "errors").Some? && Get(output, "errors").value.JArr?) ==> r == Ok([])
    ensures Get(output, "errors").Some? && Get(output, "errors").value.JArr? ==>
              r == NormaliseAll(Get(output, "errors").value.items)
    ensures r.Err? ==> r.error == TypeError
  {
    if output.JNull? then Err(TypeError)
    else
      var errors := Get(output, "errors");
      if errors.Some? && errors.value.JArr? then NormaliseAll(errors.value.items) else Ok([])
  }

  // ---- De-duplication ----

  predicate Distinct(xs: seq<Diagnostic>)
  {
    forall i, j :: 0 <= i < j < |xs| ==> xs[i] != xs[j]
  }

  /** The kept list and the set of hashes already seen (`errorsHashMap`). */
  datatype Seen = Seen(list: seq<Diagnostic>, hashes: set<Diagnostic>)

  const NoneSeen := Seen([], {})

  /** The seen-set records exactly the kept diagnostics, and none is kept twice. */
  ghost predicate Consistent(s: Seen)
  {
    && Distinct(s.list)
    && forall d :: d in s.hashes <==> d in s.list
  }

  /** Keeps `d` unless an equal record was kept before (index.js:254-260). */
  function Record(s: Seen, d: Diagnostic): (r: Seen)
    ensures d in r.hashes
    ensures Consistent(s) ==> Consistent(r)
    ensures Consistent(s) ==> (r.list == if d in s.list then s.list else s.list + [d])
  {
    if d in s.hashes then s else Seen(s.list + [d], s.hashes + {d})
  }

  function RecordAll(s: Seen, ds: seq<Diagnostic>): Seen
    decreases |ds|
  {
    if |ds| == 0 then s else RecordAll(Record(s, ds[0]), ds[1..])
  }

  /** Recording keeps the seen-set consistent with the kept list. */
  lemma {:induction false} RecordAllConsistent(s: Seen, ds: seq<Diagnostic>)
    requires Consistent(s)
    ensures Consistent(RecordAll(s, ds))
    decreases |ds|
  {
    if |ds| > 0 {
      RecordAllConsistent(Record(s, ds[0]), ds[1..]);
    }
  }

  /** Recording two batches in turn is recording their concatenation: the
      seen-set persists from one compiler output to the next. */
  lemma {:induction false} RecordAllAppend(s: Seen, a: seq<Diagnostic>, b: seq<Diagnostic>)
    ensures RecordAll(RecordAll(s, a), b) == RecordAll(s, a + b)
    decreases |a|
  {
    if |a| > 0 {
      RecordAllAppend(Record(s, a[0]), a[1..], b);
      assert (a + b)[1..] == a[1..] + b;
    } else {
      assert a + b == b;
    }
  }

  /** Reference definition: each diagnostic at its first occurrence, in
      input order. */
  function FirstOccurrences(xs: seq<Diagnostic>): seq<Diagnostic>
    decreases |xs|
  {
    if |xs| == 0 then []
    else
      var init, last := xs[..|xs| - 1], xs[|xs| - 1];
      FirstOccurrences(init) + (if last in init then [] else [last])
  }

  /** Index of the first occurrence of `y` in `xs`. */
  function FirstIndex(xs: seq<Diagnostic>, y: Diagnostic): (i: nat)
    requires y in xs
    ensures i < |xs| && xs[i] == y && y !in xs[..i]
  {
    if xs[0] == y then 0 else 1 + FirstIndex(xs[1..], y)
  }

  lemma FirstIndexExtend(xs: seq<Diagnostic>, x: Diagnostic, y: Diagnostic)
    requires y in xs + [x]
    ensures y in xs ==> FirstIndex(xs + [x], y) == FirstIndex(xs, y)
    ensures y !in xs ==> FirstIndex(xs + [x], y) == |xs|
  {
    if y in xs {
      var k := FirstIndex(xs, y);
      assert (xs + [x])[..k] == xs[..k];
    } else {
      assert (xs + [x])[..|xs|] == xs;
    }
  }

  /** The reference definition keeps every diagnostic exactly once, and in the
      order of first occurrence. */
  lemma {:induction false} FirstOccurrencesSpec(xs: seq<Diagnostic>)
    ensures Distinct(FirstOccurrences(xs))
    ensures forall y :: y in FirstOccurrences(xs) <==> y in xs
    ensures forall i, j :: 0 <= i < j < |FirstOccurrences(xs)| ==>
              FirstIndex(xs, FirstOccurrences(xs)[i]) < FirstIndex(xs, FirstOccurrences(xs)[j])
    decreases |xs|
  {
    if |xs| > 0 {
      var init, last := xs[..|xs| - 1], xs[|xs| - 1];
      assert xs == init + [last];
      FirstOccurrencesSpec(init);
      var p := FirstOccurrences(init);
      var f := FirstOccurrences(xs);
      forall y | y in f ensures y in xs { }
      forall y | y in xs ensures y in f {
        if y != last { assert y in init; }
      }
      forall i, j | 0 <= i < j < |f| ensures FirstIndex(xs, f[i]) < FirstIndex(xs, f[j]) {
        FirstIndexExtend(init, last, f[i]);
        FirstIndexExtend(init, last, f[j]);
        if j < |p| {
          assert f[i] == p[i] && f[j] == p[j];
          assert FirstIndex(init, p[i]) < FirstIndex(init, p[j]);
        } else {
          assert f[i] == p[i] && f[i] in init;
          assert f[j] == last && last !in init;
        }
      }
    }
  }

  lemma {:induction false} RecordAllSnoc(s: Seen, ds: seq<Diagnostic>, d: Diagnostic)
    ensures RecordAll(s, ds + [d]) == Record(RecordAll(s, ds), d)
  {
    RecordAllAppend(s, ds, [d]);
  }

  /** Within one `compile` call the kept diagnostics are exactly the first
      occurrences of everything reported, in first-seen order. */
  lemma {:induction false} DeduplicationKeepsFirstOccurrences(ds: seq<Diagnostic>)
    ensures RecordAll(NoneSeen, ds).list == FirstOccurrences(ds)
    ensures Consistent(RecordAll(NoneSeen, ds))
    decreases |ds|
  {
    RecordAllConsistent(NoneSeen, ds);
    if |ds| > 0 {
      var init, last := ds[..|ds| - 1], ds[|ds| - 1];
      assert ds == init + [last];
      DeduplicationKeepsFirstOccurrences(init);
      RecordAllSnoc(NoneSeen, init, last);
      FirstOccurrencesSpec(init);
    }
  }
}
