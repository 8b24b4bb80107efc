/** Rewriting of unlinked-library placeholders in compiled bytecode
    (index.js:179-205). The compiler reports every place where a library
    address must be inserted as a byte offset and length; the wrapper doubles
    both into hex-character units and overwrites that span with a fixed-width
    symbol built from the library name. */
module LinkReferences {
  import opened Results
  import opened JsonValues
  import opened HostServices
  import OrderedMaps

  /** Width of an address placeholder in hex characters (20 bytes). */
  const SlotWidth: nat := 40
  /** At most this many characters of the library name enter the symbol. */
  const NameWidth: nat := 36

  /** A JavaScript number as the wrapper's arithmetic produces it. JSON
      numbers are finite, so NaN (from `undefined * 2`) is the only special
      value that can arise here. */
  datatype Num = Finite(x: real) | NaN

  function Min(a: int, b: int): int { if a <= b then a else b }
  function Max(a: int, b: int): int { if a >= b then a else b }

  /** Truncation toward zero. */
  function Trunc(x: real): int
  {
    if x >= 0.0 then x.Floor else -((-x).Floor)
  }

  /** ECMAScript ToIntegerOrInfinity (NaN becomes 0). */
  function ToInteger(n: Num): int
  {
    match n
    case NaN => 0
    case Finite(x) => Trunc(x)
  }

  /** `String.prototype.substr(start, length)` as ECMAScript Annex B.2.2.1
      defines it; `None` is an omitted length. */
  function Substr(s: string, start: Num, length: Option<Num>): (r: string)
    ensures |r| <= |s|
  {
    var size := |s|;
    var first := ToInteger(start);
    var from := if first < 0 then Max(size + first, 0) else Min(first, size);
    var count := if length.None? then size else Max(Min(ToInteger(length.value), size), 0);
    s[from..Min(from + count, size)]
  }

  lemma SubstrHead(s: string, n: nat)
    ensures Substr(s, Finite(0.0), Some(Finite(n as real))) == s[..Min(n, |s|)]
  {
  }

  lemma SubstrTail(s: string, n: nat)
    ensures Substr(s, Finite(n as real), None) == s[Min(n, |s|)..]
  {
  }

  function Underscores(n: nat): (r: string)
    ensures |r| == n
    ensures forall i :: 0 <= i < n ==> r[i] == '_'
  {
    if n == 0 then "" else Underscores(n - 1) + "_"
  }

  /** How many characters of `name` the symbol keeps for a reference whose
      hex length is `len`: the name cut to `min(len, 36)`, as substr clamps it. */
  function KeptLength(name: string, len: Num): (k: nat)
    ensures k <= |name| && k <= NameWidth
  {
    match len
    case NaN => Min(|name|, NameWidth)
    case Finite(x) => if x < NameWidth as real then Min(|name|, Max(Trunc(x), 0)) else Min(|name|, NameWidth)
  }

  /** The symbol written over a placeholder: `__`, the kept part of the
      library name, then `_` up to exactly 40 characters. */
  function Placeholder(name: string, len: Num): (sym: string)
    ensures |sym| == SlotWidth
    ensures sym[..2] == "__"
    ensures sym[2..2 + KeptLength(name, len)] == name[..KeptLength(name, len)]
    ensures forall p :: 2 + KeptLength(name, len) <= p < SlotWidth ==> sym[p] == '_'
  {
    var cut := if len.Finite? && len.x < NameWidth as real then len else Finite(NameWidth as real);
    var head := "__" + Substr(name, Finite(0.0), Some(cut));
    assert Substr(name, Finite(0.0), Some(cut)) == name[..KeptLength(name, len)];
    head + Underscores(SlotWidth - |head|)
  }

  /** One gathered reference, offsets already in hex characters. */
  datatype Ref = Ref(name: string, start: Num, len: Num)

  function Plus(a: Num, b: Num): Num
  {
    if a.Finite? && b.Finite? then Finite(a.x + b.x) else NaN
  }

  /** `code.substr(0, start) + symbol + code.substr(start + len)` (index.js:203). */
  function Splice(code: string, r: Ref): string
  {
    Substr(code, Finite(0.0), Some(r.start)) + Placeholder(r.name, r.len) + Substr(code, Plus(r.start, r.len), None)
  }

  /** Applies the replacements in the order they were gathered (index.js:199-204). */
  function Link(code: string, refs: seq<Ref>): string
    decreases |refs|
  {
    if |refs| == 0 then code else Link(Splice(code, refs[0]), refs[1..])
  }

  /** A non-negative whole number, usable as a string index. */
  predicate IsIndex(n: Num)
  {
    n.Finite? && n.x >= 0.0 && n.x == n.x.Floor as real
  }

  /** The index a non-negative number denotes (0 for anything else). */
  function Index(n: Num): nat
  {
    if n.Finite? && n.x >= 0.0 then n.x.Floor else 0
  }

  /** A 20-byte reference whose hex span lies inside a bytecode of `size` characters. */
  predicate InSlot(r: Ref, size: nat)
  {
    IsIndex(r.start) && r.len == Finite(SlotWidth as real) && Index(r.start) + SlotWidth <= size
  }

  /** Position `p` lies in the hex span of reference `r`. */
  predicate Covers(r: Ref, p: int)
  {
    IsIndex(r.start) && Index(r.start) <= p < Index(r.start) + SlotWidth
  }

  /** Replacing one in-bounds 20-byte reference keeps the bytecode length,
      writes the symbol into exactly that span and leaves the rest alone. */
  lemma SpliceSlot(code: string, r: Ref)
    requires InSlot(r, |code|)
    ensures |Splice(code, r)| == |code|
    ensures Splice(code, r)[..Index(r.start)] == code[..Index(r.start)]
    ensures Splice(code, r)[Index(r.start)..Index(r.start) + SlotWidth] == Placeholder(r.name, r.len)
    ensures Splice(code, r)[Index(r.start) + SlotWidth..] == code[Index(r.start) + SlotWidth..]
  {
    var a := Index(r.start);
    assert r.start == Finite(a as real);
    SubstrHead(code, a);
    assert Plus(r.start, r.len) == Finite((a + SlotWidth) as real);
    SubstrTail(code, a + SlotWidth);
    var out := Splice(code, r);
    assert out == code[..a] + Placeholder(r.name, r.len) + code[a + SlotWidth..];
  }

  /** Linking a list of in-bounds 20-byte references keeps the bytecode length
      and changes no character outside their spans. */
  lemma {:induction false} LinkLocality(code: string, refs: seq<Ref>)
    requires forall j :: 0 <= j < |refs| ==> InSlot(refs[j], |code|)
    ensures |Link(code, refs)| == |code|
    ensures forall p :: 0 <= p < |code| && (forall j :: 0 <= j < |refs| ==> !Covers(refs[j], p)) ==>
              Link(code, refs)[p] == code[p]
    decreases |refs|
  {
    if |refs| > 0 {
      var next := Splice(code, refs[0]);
      SpliceSlot(code, refs[0]);
      LinkLocality(next, refs[1..]);
      forall p | 0 <= p < |code| && (forall j :: 0 <= j < |refs| ==> !Covers(refs[j], p))
        ensures Link(code, refs)[p] == code[p]
      {
        assert !Covers(refs[0], p);
        forall j | 0 <= j < |refs[1..]| ensures !Covers(refs[1..][j], p) {
          assert refs[1..][j] == refs[j + 1];
        }
        var a := Index(refs[0].start);
        if p < a {
          assert next[..a][p] == code[..a][p];
        } else {
          assert next[a + SlotWidth..][p - a - SlotWidth] == code[a + SlotWidth..][p - a - SlotWidth];
        }
      }
    }
  }

  predicate Disjoint(r1: Ref, r2: Ref)
  {
    IsIndex(r1.start) && IsIndex(r2.start) &&
    (Index(r1.start) + SlotWidth <= Index(r2.start) || Index(r2.start) + SlotWidth <= Index(r1.start))
  }

  /** A span no reference of `refs` overlaps comes through linking unchanged. */
  lemma LinkKeepsSpan(code: string, refs: seq<Ref>, a: nat)
    requires forall i :: 0 <= i < |refs| ==> InSlot(refs[i], |code|)
    requires a + SlotWidth <= |code|
    requires forall i, p :: 0 <= i < |refs| && a <= p < a + SlotWidth ==> !Covers(refs[i], p)
    ensures a + SlotWidth <= |Link(code, refs)|
    ensures Link(code, refs)[a..a + SlotWidth] == code[a..a + SlotWidth]
  {
    LinkLocality(code, refs);
    var out := Link(code, refs);
    forall p | a <= p < a + SlotWidth ensures out[p] == code[p] {
      assert forall i :: 0 <= i < |refs| ==> !Covers(refs[i], p);
    }
  }

  /** `out` holds the placeholder of `r` in the hex span of `r`. */
  predicate HoldsSymbol(out: string, r: Ref)
  {
    var a := Index(r.start);
    a + SlotWidth <= |out| && out[a..a + SlotWidth] == Placeholder(r.name, r.len)
  }

  /** Each reference whose span no later reference overlaps ends up holding
      its own symbol. */
  lemma {:induction false} LinkPlacesSymbol(code: string, refs: seq<Ref>, j: nat)
    requires forall i :: 0 <= i < |refs| ==> InSlot(refs[i], |code|)
    requires j < |refs|
    requires forall i :: j < i < |refs| ==> Disjoint(refs[j], refs[i])
    ensures HoldsSymbol(Link(code, refs), refs[j])
    decreases |refs|
  {
    if j == 0 {
      LinkPlacesFirst(code, refs);
    } else {
      LinkTail(code, refs, j);
      LinkPlacesSymbol(Splice(code, refs[0]), refs[1..], j - 1);
    }
  }

  /** Linking the first reference leaves the rest of the list in slot and
      disjoint from the later ones as before. */
  lemma LinkTail(code: string, refs: seq<Ref>, j: nat)
    requires forall i :: 0 <= i < |refs| ==> InSlot(refs[i], |code|)
    requires 0 < j < |refs|
    requires forall i :: j < i < |refs| ==> Disjoint(refs[j], refs[i])
    ensures Link(code, refs) == Link(Splice(code, refs[0]), refs[1..])
    ensures refs[1..][j - 1] == refs[j]
    ensures forall i :: 0 <= i < |refs[1..]| ==> InSlot(refs[1..][i], |Splice(code, refs[0])|)
    ensures forall i :: j - 1 < i < |refs[1..]| ==> Disjoint(refs[1..][j - 1], refs[1..][i])
  {
    SpliceSlot(code, refs[0]);
    var rest := refs[1..];
    forall i | 0 <= i < |rest| ensures InSlot(rest[i], |Splice(code, refs[0])|) {
      assert rest[i] == refs[i + 1];
    }
    forall i | j - 1 < i < |rest| ensures Disjoint(rest[j - 1], rest[i]) {
      assert rest[j - 1] == refs[j] && rest[i] == refs[i + 1];
    }
  }

  /** The first reference keeps its symbol when no later one overlaps it. */
  lemma LinkPlacesFirst(code: string, refs: seq<Ref>)
    requires forall i :: 0 <= i < |refs| ==> InSlot(refs[i], |code|)
    requires |refs| > 0
    requires forall i :: 0 < i < |refs| ==> Disjoint(refs[0], refs[i])
    ensures HoldsSymbol(Link(code, refs), refs[0])
  {
    var next := Splice(code, refs[0]);
    SpliceSlot(code, refs[0]);
    var rest := refs[1..];
    var a := Index(refs[0].start);
    assert forall i :: 0 <= i < |rest| ==> InSlot(rest[i], |next|) by {
      forall i | 0 <= i < |rest| ensures InSlot(rest[i], |next|) {
        assert rest[i] == refs[i + 1];
      }
    }
    forall i, p | 0 <= i < |rest| && a <= p < a + SlotWidth ensures !Covers(rest[i], p) {
      assert rest[i] == refs[i + 1] && Disjoint(refs[0], refs[i + 1]);
    }
    LinkKeepsSpan(next, rest, a);
    assert Link(code, refs) == Link(next, rest);
  }

  /** `x * 2` for a value read from JSON. */
  function Double(n: Option<real>): Num
  {
    if n.Some? then Finite(2.0 * n.value) else NaN
  }

  /** The reference one offset entry denotes: its `start` and `length`,
      read by name wherever they sit among the entry's keys, each doubled. */
  function EntryRef(host: Host, name: string, o: Json): Ref
  {
    Ref(name, Double(NumberOf(host, Get(o, "start"))), Double(NumberOf(host, Get(o, "length"))))
  }

  /** No offset entry is `null`. */
  predicate EntriesPresent(occs: seq<Json>)
  {
    forall i :: 0 <= i < |occs| ==> !occs[i].JNull?
  }

  /** The references of one library: one per entry of its offset list
      (index.js:188-194). */
  function Occurrences(host: Host, name: string, occs: seq<Json>): (r: Result<seq<Ref>>)
    ensures r.Ok? <==> EntriesPresent(occs)
    ensures r.Err? ==> r.error == TypeError
    ensures r.Ok? ==> |r.value| == |occs| && forall i :: 0 <= i < |occs| ==> r.value[i] == EntryRef(host, name, occs[i])
    decreases |occs|
  {
    if |occs| == 0 then Ok([])
    else
      if occs[0].JNull? then Err(TypeError)   // `null.start`
      else
        var rest :- Occurrences(host, name, occs[1..]);
        assert forall i :: 1 <= i < |occs| ==> occs[1..][i - 1] == occs[i];
        Ok([EntryRef(host, name, occs[0])] + rest)
  }

  /** The fields of an offset entry are read by name: `length` before
      `start`, with another key besides, still gives the doubled span. */
  lemma ReorderedEntry(host: Host, name: string)
    ensures Occurrences(host, name, [JObj([("length", JNum(20.0)), ("start", JNum(5.0)), ("id", JNull)])])
            == Ok([Ref(name, Finite(10.0), Finite(40.0))])
  {
    var fields := [("length", JNum(20.0)), ("start", JNum(5.0)), ("id", JNull)];
    var o := JObj(fields);
    assert fields[0].0 != "start" && fields[1..][0].0 == "start";
    assert OrderedMaps.Find(fields, "start") == OrderedMaps.Find(fields[1..], "start") == Some(JNum(5.0));
    assert OrderedMaps.Find(fields, "length") == Some(JNum(20.0));
    assert EntryRef(host, name, o) == Ref(name, Finite(10.0), Finite(40.0));
    var r := Occurrences(host, name, [o]);
    assert r.Ok? && |r.value| == 1 && r.value[0] == EntryRef(host, name, o);
    assert r.value == [r.value[0]];
  }

  /** An offset entry that is a string has no `start`, but it does have a
      `length`: the reference lands at NaN (position 0 for `substr`) and the
      symbol keeps twice the string's length of the library name. */
  lemma StringOffsetEntry(host: Host, name: string, text: string)
    ensures Occurrences(host, name, [JStr(text)]) == Ok([Ref(name, NaN, Finite((2 * |text|) as real))])
    ensures KeptLength(name, Finite((2 * |text|) as real)) == Min(|name|, Min(2 * |text|, NameWidth))
  {
    var occs := [JStr(text)];
    assert occs[1..] == [];
    assert Get(occs[0], "length") == Some(JNum(|text| as real));
    assert 2.0 * (|text| as real) == (2 * |text|) as real;
    var r := Ref(name, Double(NumberOf(host, Get(occs[0], "start"))), Double(NumberOf(host, Get(occs[0], "length"))));
    assert r == Ref(name, NaN, Finite((2 * |text|) as real));
    assert Occurrences(host, name, occs[1..]) == Ok([]);
    assert [r] + [] == [r];
  }

  /** A library's offset list and every entry in it are present. */
  predicate LibraryPresent(lib: Json)
  {
    !lib.JNull? && EntriesPresent(Elements(lib).value)
  }

  predicate LibrariesPresent(libs: seq<(string, Json)>)
  {
    forall i :: 0 <= i < |libs| ==> LibraryPresent(libs[i].1)
  }

  /** A file's entry, each of its library lists and each offset entry are present. */
  predicate FilePresent(file: Json)
  {
    !file.JNull? && LibrariesPresent(Entries(file).value)
  }

  /** The references of every library declared in one file (index.js:186-195). */
  function Libraries(host: Host, libs: seq<(string, Json)>): (r: Result<seq<Ref>>)
    ensures r.Ok? <==> LibrariesPresent(libs)
    ensures r.Err? ==> r.error == TypeError
    decreases |libs|
  {
    if |libs| == 0 then Ok([])
    else
      var occs :- Elements(libs[0].1);
      var first :- Occurrences(host, libs[0].0, occs);
      var rest :- Libraries(host, libs[1..]);
      assert forall i :: 1 <= i < |libs| ==> libs[1..][i - 1] == libs[i];
      Ok(first + rest)
  }

  function LibraryFiles(host: Host, files: seq<(string, Json)>): (r: Result<seq<Ref>>)
    ensures r.Ok? <==> forall i :: 0 <= i < |files| ==> FilePresent(files[i].1)
    ensures r.Err? ==> r.error == TypeError
    decreases |files|
  {
    if |files| == 0 then Ok([])
    else
      var libs :- Entries(files[0].1);
      var first :- Libraries(host, libs);
      var rest :- LibraryFiles(host, files[1..]);
      assert forall i :: 1 <= i < |files| ==> files[1..][i - 1] == files[i];
      Ok(first + rest)
  }

  /** Collects every reference under `linkReferences[file][library]`
      (index.js:180-196). */
  function Gather(host: Host, linkRefs: Json): (r: Result<seq<Ref>>)
    ensures r.Err? ==> r.error == TypeError
  {
    var files :- Entries(linkRefs);
    LibraryFiles(host, files)
  }

  /** Gathering fails exactly when the table, a file's entry, a library's
      offset list or an offset entry is `null`. */
  lemma GatherSucceeds(host: Host, linkRefs: Json)
    ensures Gather(host, linkRefs).Ok? <==>
              !linkRefs.JNull? && forall i :: 0 <= i < |Entries(linkRefs).value| ==> FilePresent(Entries(linkRefs).value[i].1)
  {
    if !linkRefs.JNull? {
      assert Gather(host, linkRefs) == LibraryFiles(host, Entries(linkRefs).value);
    }
  }

  // ---- The well-formed shape the compiler emits, and its JSON encoding ----

  /** A byte offset and byte length as the compiler reports them. */
  datatype Occurrence = Occurrence(start: nat, length: nat)

  function OccurrenceJson(o: Occurrence): Json
  {
    JObj([("start", JNum(o.start as real)), ("length", JNum(o.length as real))])
  }

  function OccurrencesJson(os: seq<Occurrence>): seq<Json>
  {
    if |os| == 0 then [] else [OccurrenceJson(os[0])] + OccurrencesJson(os[1..])
  }

  function LibrariesJson(libs: seq<(string, seq<Occurrence>)>): seq<(string, Json)>
  {
    if |libs| == 0 then [] else [(libs[0].0, JArr(OccurrencesJson(libs[0].1)))] + LibrariesJson(libs[1..])
  }

  function TableJson(t: seq<(string, seq<(string, seq<Occurrence>)>)>): seq<(string, Json)>
  {
    if |t| == 0 then [] else [(t[0].0, JObj(LibrariesJson(t[0].1)))] + TableJson(t[1..])
  }

  /** An occurrence converted to hex-character units. */
  function HexRef(name: string, o: Occurrence): Ref
  {
    Ref(name, Finite((2 * o.start) as real), Finite((2 * o.length) as real))
  }

  function HexRefs(name: string, os: seq<Occurrence>): seq<Ref>
  {
    if |os| == 0 then [] else [HexRef(name, os[0])] + HexRefs(name, os[1..])
  }

  function LibrariesRefs(libs: seq<(string, seq<Occurrence>)>): seq<Ref>
  {
    if |libs| == 0 then [] else HexRefs(libs[0].0, libs[0].1) + LibrariesRefs(libs[1..])
  }

  function TableRefs(t: seq<(string, seq<(string, seq<Occurrence>)>)>): seq<Ref>
  {
    if |t| == 0 then [] else LibrariesRefs(t[0].1) + TableRefs(t[1..])
  }

  lemma {:induction false} OccurrencesDecode(host: Host, name: string, os: seq<Occurrence>)
    ensures Occurrences(host, name, OccurrencesJson(os)) == Ok(HexRefs(name, os))
    decreases |os|
  {
    if |os| > 0 {
      OccurrencesDecode(host, name, os[1..]);
      EntryRefDecode(host, name, os[0]);
      assert OccurrencesJson(os)[1..] == OccurrencesJson(os[1..]);
    }
  }

  lemma EntryRefDecode(host: Host, name: string, o: Occurrence)
    ensures EntryRef(host, name, OccurrenceJson(o)) == HexRef(name, o)
  {
    var j := OccurrenceJson(o);
    assert Get(j, "start") == Some(JNum(o.start as real));
    assert j.fields[1..] == [("length", JNum(o.length as real))] && |"start"| != |"length"|;
    assert OrderedMaps.Find(j.fields[1..], "length") == Some(JNum(o.length as real));
    assert Get(j, "length") == Some(JNum(o.length as real));
  }

  lemma {:induction false} LibrariesDecode(host: Host, libs: seq<(string, seq<Occurrence>)>)
    ensures Libraries(host, LibrariesJson(libs)) == Ok(LibrariesRefs(libs))
    decreases |libs|
  {
    if |libs| > 0 {
      OccurrencesDecode(host, libs[0].0, libs[0].1);
      LibrariesDecode(host, libs[1..]);
      assert LibrariesJson(libs)[1..] == LibrariesJson(libs[1..]);
    }
  }

  lemma {:induction false} TableDecode(host: Host, t: seq<(string, seq<(string, seq<Occurrence>)>)>)
    ensures LibraryFiles(host, TableJson(t)) == Ok(TableRefs(t))
    decreases |t|
  {
    if |t| > 0 {
      LibrariesDecode(host, t[0].1);
      TableDecode(host, t[1..]);
      assert TableJson(t)[1..] == TableJson(t[1..]);
    }
  }

  /** Gathering a well-formed `linkReferences` object yields one reference per
      reported occurrence, in file, library and list order, with start and
      length doubled into hex characters. */
  lemma GatherWellFormed(host: Host, t: seq<(string, seq<(string, seq<Occurrence>)>)>)
    ensures Gather(host, JObj(TableJson(t))) == Ok(TableRefs(t))
  {
    TableDecode(host, t);
  }
}
