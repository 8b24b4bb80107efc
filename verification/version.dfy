/** `version()` (index.js:21-42) and its helpers `splitCompilerOutput` and
    `superTrim` (index.js:325-338): the compiler's `--version` output is split
    into lines, control characters are removed, and the text after the first
    `version:` label is returned trimmed. The result is cached. */
module CompilerVersion {
  import opened Results
  import opened HostServices

  // ---- text.split("\n") ----

  function Split(text: string): (lines: seq<string>)
    ensures |lines| >= 1
    ensures forall i :: 0 <= i < |lines| ==> '\n' !in lines[i]
  {
    if |text| == 0 then [""]
    else
      var rest := Split(text[1..]);
      if text[0] == '\n' then [""] + rest
      else
        var first := [text[0]] + rest[0];
        assert forall i :: 1 <= i < |rest| ==> '\n' !in rest[i];
        [first] + rest[1..]
  }

  function Join(lines: seq<string>): string
    requires |lines| >= 1
  {
    if |lines| == 1 then lines[0] else lines[0] + "\n" + Join(lines[1..])
  }

  /** Splitting on line feeds loses nothing: joining the pieces back gives the
      original text. */
  lemma {:induction false} SplitJoin(text: string)
    ensures Join(Split(text)) == text
    decreases |text|
  {
    if |text| > 0 {
      SplitJoin(text[1..]);
      var rest := Split(text[1..]);
      if text[0] != '\n' {
        var lines := Split(text);
        assert lines[1..] == rest[1..];
        if |rest| > 1 {
          assert Join(rest) == rest[0] + "\n" + Join(rest[1..]);
        }
        assert text == [text[0]] + text[1..];
      } else {
        assert Split(text)[1..] == rest;
        assert text == "\n" + text[1..];
      }
    }
  }

  // ---- line.replace(/[\x00-\x1F]/g, "") ----

  predicate IsControl(c: char)
  {
    c < ' '
  }

  function StripControl(line: string): (r: string)
    ensures forall i :: 0 <= i < |r| ==> !IsControl(r[i])
    ensures |r| <= |line|
    ensures |line| == 1 ==> r == if IsControl(line[0]) then "" else line
  {
    if |line| == 0 then ""
    else if IsControl(line[0]) then StripControl(line[1..])
    else [line[0]] + StripControl(line[1..])
  }

  /** Removal works character by character: stripping a concatenation strips
      each part, so every other character survives in order. */
  lemma {:induction false} StripControlAppend(a: string, b: string)
    ensures StripControl(a + b) == StripControl(a) + StripControl(b)
    decreases |a|
  {
    if |a| > 0 {
      assert (a + b)[0] == a[0] && (a + b)[1..] == a[1..] + b;
      StripControlAppend(a[1..], b);
    } else {
      assert a + b == b;
    }
  }

  /** Removing control characters changes a line exactly when it has one. */
  lemma {:induction false} StripControlIdentity(line: string)
    ensures StripControl(line) == line <==> forall i :: 0 <= i < |line| ==> !IsControl(line[i])
    decreases |line|
  {
    if |line| > 0 {
      StripControlIdentity(line[1..]);
      if IsControl(line[0]) {
        assert |StripControl(line)| < |line| by { assert |StripControl(line[1..])| <= |line[1..]|; }
      } else {
        assert forall i :: 1 <= i < |line| ==> line[i] == line[1..][i - 1];
        assert line == [line[0]] + line[1..];
      }
    }
  }

  // ---- Matching the label ----

  /** ASCII `toLowerCase`. */
  function LowerChar(c: char): char
  {
    if 'A' <= c <= 'Z' then (c as int + 32) as char else c
  }

  function Lower(s: string): (r: string)
    ensures |r| == |s| && forall i :: 0 <= i < |s| ==> r[i] == LowerChar(s[i])
  {
    if |s| == 0 then "" else [LowerChar(s[0])] + Lower(s[1..])
  }

  const Label := "version:"

  /** `line.substr(0, 8).toLowerCase() == 'version:'`. */
  predicate IsVersionLine(line: string)
  {
    |line| >= |Label| && Lower(line[..|Label|]) == Label
  }

  /** The label matches in any mix of cases, and nothing else matches. */
  lemma VersionLineCaseInsensitive(line: string)
    requires |line| >= 8
    ensures IsVersionLine(line) <==>
              && (line[0] == 'v' || line[0] == 'V') && (line[1] == 'e' || line[1] == 'E')
              && (line[2] == 'r' || line[2] == 'R') && (line[3] == 's' || line[3] == 'S')
              && (line[4] == 'i' || line[4] == 'I') && (line[5] == 'o' || line[5] == 'O')
              && (line[6] == 'n' || line[6] == 'N') && line[7] == ':'
  {
    var low := Lower(line[..8]);
    assert low == Label <==>
             low[0] == 'v' && low[1] == 'e' && low[2] == 'r' && low[3] == 's' &&
             low[4] == 'i' && low[5] == 'o' && low[6] == 'n' && low[7] == ':';
  }

  // ---- str.replace(/^\s+|\s+$/gm, '') ----

  /** ASCII white space. */
  predicate IsSpace(c: char)
  {
    c == ' ' || c == '\t' || c == '\n' || c == '\r' || c == '\U{000B}' || c == '\U{000C}'
  }

  function TrimStart(s: string): (r: string)
    ensures |r| <= |s| && r == s[|s| - |r|..]
    ensures |r| > 0 ==> !IsSpace(r[0])
    ensures forall i :: 0 <= i < |s| - |r| ==> IsSpace(s[i])
  {
    if |s| > 0 && IsSpace(s[0]) then
      var r := TrimStart(s[1..]);
      assert forall i :: 1 <= i < |s| - |r| ==> s[i] == s[1..][i - 1];
      r
    else s
  }

  function TrimEnd(s: string): (r: string)
    ensures |r| <= |s| && r == s[..|r|]
    ensures |r| > 0 ==> !IsSpace(r[|r| - 1])
    ensures forall i :: |r| <= i < |s| ==> IsSpace(s[i])
  {
    if |s| > 0 && IsSpace(s[|s| - 1]) then
      var r := TrimEnd(s[..|s| - 1]);
      assert forall i :: |r| <= i < |s| - 1 ==> s[i] == s[..|s| - 1][i];
      r
    else s
  }

  /** `superTrim`: strips white space at both ends. */
  function Trim(s: string): (r: string)
    ensures |r| <= |s|
    ensures |r| > 0 ==> !IsSpace(r[0]) && !IsSpace(r[|r| - 1])
  {
    TrimEnd(TrimStart(s))
  }

  /** How many leading characters `Trim` drops. */
  function Leading(s: string): (a: nat)
    ensures a <= |s|
  {
    |s| - |TrimStart(s)|
  }

  /** What `Trim` keeps is a contiguous part of the input, and everything it
      drops on either side is white space. */
  lemma TrimShape(s: string)
    ensures Leading(s) + |Trim(s)| <= |s|
    ensures Trim(s) == s[Leading(s)..Leading(s) + |Trim(s)|]
    ensures forall i :: 0 <= i < Leading(s) ==> IsSpace(s[i])
    ensures forall i :: Leading(s) + |Trim(s)| <= i < |s| ==> IsSpace(s[i])
  {
    DropEnd(s, Leading(s), TrimStart(s), Trim(s));
  }

  /** Trimming text without control characters leaves none. */
  lemma TrimKeepsClean(s: string)
    requires forall i :: 0 <= i < |s| ==> !IsControl(s[i])
    ensures forall i :: 0 <= i < |Trim(s)| ==> !IsControl(Trim(s)[i])
  {
    TrimShape(s);
    var v := Trim(s);
    assert forall i :: 0 <= i < |v| ==> v[i] == s[Leading(s) + i];
  }

  lemma DropEnd(s: string, a: nat, t: string, r: string)
    requires a <= |s| && t == s[a..]
    requires |r| <= |t| && r == t[..|r|]
    requires forall i :: |r| <= i < |t| ==> IsSpace(t[i])
    ensures r == s[a..a + |r|]
    ensures forall i :: a + |r| <= i < |s| ==> IsSpace(s[i])
  {
    forall i | a + |r| <= i < |s| ensures IsSpace(s[i]) {
      assert s[i] == t[i - a];
    }
  }

  // ---- version() ----

  /** The lines of the output after `splitCompilerOutput`. */
  function Lines(text: string): (lines: seq<string>)
    ensures |lines| == |Split(text)|
    ensures forall i :: 0 <= i < |lines| ==> lines[i] == StripControl(Split(text)[i])
  {
    var raw := Split(text);
    seq(|raw|, i requires 0 <= i < |raw| => StripControl(raw[i]))
  }

  /** Index of the first line carrying the label. */
  function FirstVersionLine(lines: seq<string>): (r: Option<nat>)
    ensures r.None? ==> forall i :: 0 <= i < |lines| ==> !IsVersionLine(lines[i])
    ensures r.Some? ==> r.value < |lines| && IsVersionLine(lines[r.value])
                        && forall i :: 0 <= i < r.value ==> !IsVersionLine(lines[i])
  {
    if |lines| == 0 then None
    else if IsVersionLine(lines[0]) then Some(0)
    else
      var r := FirstVersionLine(lines[1..]);
      assert forall i :: 1 <= i < |lines| ==> lines[i] == lines[1..][i - 1];
      if r.None? then None else Some(r.value + 1)
  }

  lemma FirstIsUnique(lines: seq<string>, k: nat)
    requires k < |lines| && IsVersionLine(lines[k])
    requires forall i :: 0 <= i < k ==> !IsVersionLine(lines[i])
    ensures FirstVersionLine(lines) == Some(k)
  {
  }

  /** No line but the first labelled one is both labelled and preceded only
      by unlabelled lines. */
  lemma FirstIsTheOne(lines: seq<string>)
    ensures forall k :: 0 <= k < |lines| && IsVersionLine(lines[k])
                        && (forall i :: 0 <= i < k ==> !IsVersionLine(lines[i])) ==>
              FirstVersionLine(lines) == Some(k)
  {
    forall k | 0 <= k < |lines| && IsVersionLine(lines[k]) && (forall i :: 0 <= i < k ==> !IsVersionLine(lines[i]))
      ensures FirstVersionLine(lines) == Some(k)
    {
      FirstIsUnique(lines, k);
    }
  }

  /** The version text among the split, stripped lines of the output. */
  function VersionIn(lines: seq<string>): (v: string)
    requires forall i, j :: 0 <= i < |lines| && 0 <= j < |lines[i]| ==> !IsControl(lines[i][j])
    ensures forall i :: 0 <= i < |v| ==> !IsControl(v[i])
    ensures |v| > 0 ==> !IsSpace(v[0]) && !IsSpace(v[|v| - 1])
    ensures FirstVersionLine(lines).None? ==> v == ""
    ensures FirstVersionLine(lines).Some? ==> v == Trim(lines[FirstVersionLine(lines).value][|Label|..])
  {
    var k := FirstVersionLine(lines);
    if k.None? then ""
    else
      var rest := lines[k.value][|Label|..];
      assert forall i :: 0 <= i < |rest| ==> !IsControl(rest[i]) by {
        forall i | 0 <= i < |rest| ensures !IsControl(rest[i]) {
          assert rest[i] == lines[k.value][|Label| + i];
        }
      }
      TrimKeepsClean(rest);
      Trim(rest)
  }

  /** The version text of a `--version` output (index.js:28-35). */
  function ParseVersion(text: string): (v: string)
    ensures forall i :: 0 <= i < |v| ==> !IsControl(v[i])
    ensures |v| > 0 ==> !IsSpace(v[0]) && !IsSpace(v[|v| - 1])
    ensures (forall i :: 0 <= i < |Lines(text)| ==> !IsVersionLine(Lines(text)[i])) ==> v == ""
    ensures forall k :: 0 <= k < |Lines(text)| && IsVersionLine(Lines(text)[k])
                        && (forall i :: 0 <= i < k ==> !IsVersionLine(Lines(text)[i])) ==>
              v == Trim(Lines(text)[k][|Label|..])
  {
    var lines := Lines(text);
    assert forall i, j :: 0 <= i < |lines| && 0 <= j < |lines[i]| ==> !IsControl(lines[i][j]);
    FirstIsTheOne(lines);
    VersionIn(lines)
  }

  /** What a `--version` run yields: nothing on a spawn error (the error is
      swallowed, index.js:37-39). */
  function DetectVersion(launch: Launch): string
  {
    match launch
    case SpawnFailed(_) => ""
    case Exited(stdout) => ParseVersion(stdout)
  }

  /** The module-level `compilerVersion`; `Unknown` is its initial `null`. */
  datatype VersionCache = Unknown | Cached(version: string)

  /** `version()`: computes once, then answers from the cache. `launch` is
      what running `--version` would produce, consulted only on a miss. */
  function Version(cache: VersionCache, launch: Launch): (out: (string, VersionCache))
    ensures out.1 == Cached(out.0)
    ensures cache.Cached? ==> out.0 == cache.version
    ensures cache.Unknown? ==> out.0 == DetectVersion(launch)
    ensures cache.Unknown? ==> forall i :: 0 <= i < |out.0| ==> !IsControl(out.0[i])
  {
    match cache
    case Cached(v) => (v, cache)
    case Unknown =>
      var v := DetectVersion(launch);
      (v, Cached(v))
  }

  /** Once computed, the version never changes, whatever a later run of the
      compiler would print. */
  lemma VersionCached(launch1: Launch, launch2: Launch)
    ensures var (v1, cache) := Version(Unknown, launch1);
            Version(cache, launch2) == (v1, cache)
  {
  }
}
